/** The rewrite's promises: numbers kept, gaps marked once, and when a second rewrite changes nothing. */
module PlaylistTheorems {
  import opened Common
  import opened Playlist
  import opened PlaylistFacts
  import opened PlaylistRewrite

  // ---- The header that is written ----

  /** One line of a header, its newline added when it lacks one. */
  lemma TerminatedLine(line: string)
    requires line != [] && LineLen(line) == |line|
    ensures OneLine(Terminated(line)) && Strip(Terminated(line)) == Strip(line)
    ensures Closed(line) ==> Terminated(line) == line
  {
    hide LineLen, Strip, OneLine, Closed, Terminated;
    TerminatedIs(line);
    if Closed(line) {
      ClosedLine(line);
    } else {
      LineLenIsFirst(line);
      StripLeaves(line);
      AddNewline(line);
      StripAdded(line, Strip(line));
    }
  }

  lemma TerminatedIs(line: string)
    requires line != []
    ensures Terminated(line) == if Closed(line) then line else line + "\n"
  {
  }

  lemma AddNewline(line: string)
    requires line != [] && !Closed(line) && forall k :: 0 <= k < |line| - 1 ==> line[k] != '\n'
    ensures OneLine(line + "\n")
  {
  }

  lemma StripAdded(line: string, t: string)
    requires t <= line && (t != [] ==> !Ending(t[|t| - 1])) && forall k :: |t| <= k < |line| ==> Ending(line[k])
    ensures Strip(line + "\n") == t
  {
    hide Strip;
    var longer := line + "\n";
    assert longer[..|line|] == line;
    StripUnique(longer, t);
  }

  lemma TerminatedSame(line: string)
    requires line != [] && LineLen(line) == |line| && NumberedLine(line)
    ensures NumberedLine(Terminated(line))
    ensures forall v :: MediaStep(Terminated(line), v) == MediaStep(line, v)
    ensures forall v :: DiscStep(Terminated(line), v) == DiscStep(line, v)
  {
    hide LineLen, Strip, Tag, Strtoull, From;
    TerminatedLine(line);
    if !Closed(line) {
      var t := Strip(line);
      assert (line + "\n")[..|line|] == line;
      if Tag(t, MEDIA) {
        NumberStays(line, 22, "\n");
      }
      if Tag(t, DISC) {
        NumberStays(line, 30, "\n");
      }
    }
  }

  /** On a numbered line the second pass, which keeps the line ending, finds the same tags as the first. */
  lemma SameTag(line: string)
    requires NumberedLine(line)
    ensures Tag(line, MEDIA) <==> Tag(Strip(line), MEDIA)
    ensures Tag(line, DISC) <==> Tag(Strip(line), DISC)
  {
    SameTagAs(line, MEDIA);
    SameTagAs(line, DISC);
  }

  lemma SameTagAs(line: string, tag: string)
    requires tag != [] && !Ending(tag[|tag| - 1])
    requires Tag(Strip(line), tag) ==> |line| > |tag| && line[|tag|] == ':'
    ensures Tag(line, tag) <==> Tag(Strip(line), tag)
  {
    hide Strip, Tag, Ending;
    StripLeaves(line);
    SameTagIn(line, Strip(line), tag);
  }

  lemma SameTagIn(line: string, t: string, tag: string)
    requires tag != [] && !Ending(tag[|tag| - 1])
    requires Tag(t, tag) ==> |line| > |tag| && line[|tag|] == ':'
    requires t <= line && forall k :: |t| <= k < |line| ==> Ending(line[k])
    ensures Tag(line, tag) <==> Tag(t, tag)
  {
    hide Ending;
    if Tag(line, tag) {
      assert line[|tag| - 1] == tag[|tag| - 1];
    }
  }

  /** A complete line in front of a header. */
  lemma HeaderCons(line: string, h: string, v: nat)
    requires OneLine(line)
    ensures HeadLines(line + h) <==> HeaderLine(Strip(line)) && HeadLines(h)
    ensures Numbered(line + h) <==> NumberedLine(line) && Numbered(h)
    ensures Complete(h) ==> Complete(line + h)
    ensures MediaOf(line + h, v) == MediaOf(h, MediaStep(line, v))
    ensures DiscOf(line + h, v) == DiscOf(h, DiscStep(line, v))
  {
    hide HeaderLine, Strip, LineLen, NumberedLine, MediaStep, DiscStep;
    LineLenOf(line, h);
  }

  /** The number the header's tags set, unless they are all dropped. */
  lemma {:induction false} HeaderOutMeans(h: string, media: bool, disc: bool, v: nat)
    requires HeadLines(h) && Numbered(h)
    ensures HeadLines(HeaderOut(h, media, disc)) && Numbered(HeaderOut(h, media, disc)) && Complete(HeaderOut(h, media, disc))
    ensures MediaOf(HeaderOut(h, media, disc), v) == if media then v else MediaOf(h, v)
    ensures DiscOf(HeaderOut(h, media, disc), v) == if disc then v else DiscOf(h, v)
    decreases |h|
  {
    hide HeaderLine, Strip, LineLen, NumberedLine, Tag, Terminated;
    if h != [] {
      var n := LineLen(h);
      var line, rest := h[..n], h[n..];
      FirstLine(h);
      SameTag(line);
      TerminatedLine(line);
      TerminatedSame(line);
      var m, d := MediaStep(line, v), DiscStep(line, v);
      HeaderOutMeans(rest, media, disc, v);
      HeaderOutMeans(rest, media, disc, m);
      HeaderOutMeans(rest, media, disc, d);
      var out := HeaderOut(rest, media, disc);
      if (media && Tag(line, MEDIA)) || (disc && Tag(line, DISC)) {
        assert HeaderOut(h, media, disc) == out;
        if Tag(line, MEDIA) {
          OneNumber(Strip(line));
        }
      } else {
        HeaderCons(Terminated(line), out, v);
      }
    }
  }

  /** A header whose lines are all closed is copied as it stands. */
  lemma {:induction false} HeaderCopied(h: string)
    requires Complete(h)
    ensures HeaderOut(h, false, false) == h
    decreases |h|
  {
    hide LineLen, Tag;
    if h != [] {
      SplitLine(h);
      HeaderCopied(h[LineLen(h)..]);
    }
  }

  // ---- The numbers that are written ----

  lemma {:induction false} DigitsConcat(a: string, b: string, v: nat)
    requires forall i :: 0 <= i < |a| ==> IsDigit(a[i])
    ensures Digits(a + b, v) == Digits(b, Digits(a, v))
    decreases |a|
  {
    if a == [] {
      assert a + b == b;
    } else {
      assert (a + b)[1..] == a[1..] + b;
      DigitsConcat(a[1..], b, v * 10 + (a[0] as int - '0' as int));
    }
  }

  lemma {:induction false} DecimalReads(n: nat)
    ensures Digits(Decimal(n), 0) == n
    decreases n
  {
    if n >= 10 {
      DecimalReads(n / 10);
      DigitsConcat(Decimal(n / 10), [Digit(n % 10)], 0);
    }
  }

  lemma NumberReads(tag: string, n: nat)
    requires n < TWO64
    ensures var line := NumberLine(tag, n);
            |line| > |tag| + 1 && line[|tag|] == ':' && IsDigit(line[|tag| + 1]) && Strtoull(From(line, |tag| + 1)) == n
  {
    var line := NumberLine(tag, n);
    assert line[|tag| + 1] == Decimal(n)[0];
    assert line[|tag| + 1..] == Decimal(n) + "\n";
    DecimalReads(n);
    DigitsStop(Decimal(n), "\n", 0);
  }

  /** A written sequence tag is a header line that sets its number. */
  lemma NumberLineHead(tag: string, n: nat)
    requires n < TWO64 && (tag == MEDIA || tag == DISC)
    ensures var line := NumberLine(tag, n);
            && OneLine(line) && HeaderLine(Strip(line)) && NumberedLine(line)
            && (forall v :: MediaStep(line, v) == if tag == MEDIA then n else v)
            && (forall v :: DiscStep(line, v) == if tag == DISC then n else v)
  {
    hide Strtoull, From, Decimal, Tag;
    var line := NumberLine(tag, n);
    NumberStrip(tag, n);
    NumberReads(tag, n);
    var t := Strip(line);
    assert HeaderTag(t) by {
      assert Tag(t, HEADER[if tag == MEDIA then 3 else 4]);
    }
    if tag == MEDIA {
      OneNumber(t);
    } else {
      OtherNumber(t);
    }
  }

  lemma OtherNumber(t: string)
    requires Tag(t, DISC)
    ensures !Tag(t, MEDIA)
  {
  }

  lemma NumberStrip(tag: string, n: nat)
    requires tag == MEDIA || tag == DISC
    ensures var line := NumberLine(tag, n); OneLine(line) && Tag(Strip(line), tag)
  {
    hide Strip;
    var line := NumberLine(tag, n);
    var t := tag + (":" + Decimal(n));
    assert line == t + "\n";
    assert t[|t| - 1] == Decimal(n)[|Decimal(n)| - 1];
    StripUnique(line, t);
  }

  // ---- The segments that are written ----

  const GAP_LINE := GAP + "\n"

  function Mark(seg: Seg, opts: Opts): Seg
  {
    if Marked(seg, opts) then Seg(seg.text + GAP_LINE, seg.uri, seg.discontinuity, true) else seg
  }

  function Marks(segs: seq<Seg>, opts: Opts): (r: seq<Seg>)
    ensures |r| == |segs| && forall i :: 0 <= i < |segs| ==> r[i] == Mark(segs[i], opts)
  {
    if segs == [] then [] else [Mark(segs[0], opts)] + Marks(segs[1..], opts)
  }

  lemma GapLine()
    ensures SegLine(GAP_LINE) && Tag(Strip(GAP_LINE), GAP) && Strip(GAP_LINE) != []
  {
    StripUnique(GAP_LINE, GAP);
  }

  /** A marked segment is a segment; its gap tag is no header tag. */
  lemma MarkGood(seg: Seg, opts: Opts)
    requires GoodSeg(seg)
    ensures GoodSeg(Mark(seg, opts))
    ensures StartsWithHeaderTag(Mark(seg, opts).text) ==> StartsWithHeaderTag(seg.text)
  {
    if Marked(seg, opts) {
      GapLine();
      hide Marked, Strip, Tag, GoodUri, SegText, SegLine, HasDisc, HasGap, LineLen, HeaderTag;
      SegTextAppend(seg.text, GAP_LINE);
      GapEnds(seg.text);
    }
  }

  lemma GapEnds(text: string)
    requires SegText(text) && StartsWithTag(text)
    ensures StartsWithTag(text + GAP_LINE)
    ensures StartsWithHeaderTag(text + GAP_LINE) ==> StartsWithHeaderTag(text)
  {
    GapLine();
    SegLineIsLine(GAP_LINE);
    hide Strip, Tag, LineLen, HeaderTag, OneLine, SegLine;
    if text == [] {
      assert text + GAP_LINE == GAP_LINE;
      WholeLine(GAP_LINE);
    } else {
      SegTextSplits(text);
      var n := LineLen(text);
      ConcatAssociative(text[..n], text[n..], GAP_LINE);
      LineLenOf(text[..n], text[n..] + GAP_LINE);
    }
  }

  lemma SegOutIs(seg: Seg, opts: Opts)
    ensures SegOut(seg, opts) == Mark(seg, opts).text + (seg.uri + "\n")
  {
    hide Marked;
    if Marked(seg, opts) {
      ConcatAssociative(seg.text, GAP_LINE, seg.uri + "\n");
    } else {
      assert [] + (seg.uri + "\n") == seg.uri + "\n";
    }
  }

  lemma ReadSegOut(seg: Seg, opts: Opts, b: string, doc: Doc, heading: bool)
    requires GoodSeg(seg) && (heading ==> !StartsWithHeaderTag(seg.text)) && |doc.segs| < SEGMENTS_MAX
    ensures Read(SegOut(seg, opts) + b, Reading(doc, heading, None))
            == Read(b, Reading(doc.(segs := doc.segs + [Mark(seg, opts)]), false, None))
  {
    hide Read, GoodSeg, StartsWithHeaderTag, SegOut;
    var m := Mark(seg, opts);
    MarkGood(seg, opts);
    SegOutIs(seg, opts);
    ConcatAssociative(m.text, seg.uri + "\n", b);
    ReadSeg(m, b, doc, heading);
  }

  lemma {:induction false} ReadSegsOut(segs: seq<Seg>, opts: Opts, b: string, doc: Doc, heading: bool)
    requires forall i :: 0 <= i < |segs| ==> GoodSeg(segs[i])
    requires heading && segs != [] ==> !StartsWithHeaderTag(segs[0].text)
    requires |doc.segs| + |segs| <= SEGMENTS_MAX
    ensures Read(SegsOut(segs, opts) + b, Reading(doc, heading, None))
            == Read(b, Reading(doc.(segs := doc.segs + Marks(segs, opts)), heading && segs == [], None))
    decreases |segs|
  {
    hide Read, GoodSeg, StartsWithHeaderTag, SegOut, Mark;
    if segs == [] {
      assert SegsOut(segs, opts) + b == b && doc.segs + Marks(segs, opts) == doc.segs;
    } else {
      var rest := SegsOut(segs[1..], opts);
      var next := doc.(segs := doc.segs + [Mark(segs[0], opts)]);
      ConcatAssociative(SegOut(segs[0], opts), rest, b);
      ReadSegOut(segs[0], opts, rest + b, doc, heading);
      ReadSegsOut(segs[1..], opts, b, next, false);
      ConcatAssociative(doc.segs, [Mark(segs[0], opts)], Marks(segs[1..], opts));
    }
  }

  // ---- The whole playlist ----

  /** The header begins with its tag, and the number of a sequence tag follows its colon. */
  ghost predicate GoodHeader(doc: Doc)
  {
    M3U <= doc.header && Numbered(doc.header)
  }

  /** The first segment kept does not begin with a tag that, behind the header, would belong to it. */
  predicate HeadsApart(doc: Doc, opts: Opts)
  {
    var first := First(doc.segs, opts);
    first < |doc.segs| ==> !StartsWithHeaderTag(doc.segs[first].text)
  }

  /** The playlists the promise is made for. */
  ghost predicate WellFormed(doc: Doc, opts: Opts)
  {
    GoodHeader(doc) && HeadsApart(doc, opts)
  }

  function Removed(doc: Doc, opts: Opts): nat
  {
    Discontinuities(doc.segs[..First(doc.segs, opts)])
  }

  function HeaderPart(doc: Doc, first: nat, removed: nat): string
  {
    HeaderOut(doc.header, first > 0, removed > 0) + NumbersOut(doc, first, removed)
  }

  /** What the rewritten playlist says. */
  function Rewritten(doc: Doc, opts: Opts): Doc
  {
    var first, removed := First(doc.segs, opts), Removed(doc, opts);
    Doc(HeaderPart(doc, first, removed), Marks(doc.segs[first..], opts), doc.trailer,
        if first > 0 then (doc.media + first) % TWO64 else doc.media,
        if removed > 0 then (doc.disc + removed) % TWO64 else doc.disc)
  }

  /** One sequence tag added, or not. */
  lemma AddNumber(h: string, tag: string, sets: bool, n: nat, v: nat, w: nat)
    requires HeadLines(h) && Numbered(h) && Complete(h) && n < TWO64 && (tag == MEDIA || tag == DISC)
    ensures var t := h + if sets then NumberLine(tag, n) else [];
            && HeadLines(t) && Numbered(t) && Complete(t)
            && MediaOf(t, v) == (if sets && tag == MEDIA then n else MediaOf(h, v))
            && DiscOf(t, w) == (if sets && tag == DISC then n else DiscOf(h, w))
  {
    hide HeadLines, Numbered, MediaOf, DiscOf, NumberLine, HeaderLine, Strip, NumberedLine, MediaStep, DiscStep, OneLine, LineLen;
    if sets {
      var line := NumberLine(tag, n);
      NumberLineHead(tag, n);
      WholeLine(line);
      OneLineEnds(line);
      HeaderAppend(h, line, v, w);
    } else {
      assert h + [] == h;
    }
  }

  /** The header that is written is a header, and sets the numbers of the first kept segment. */
  lemma HeaderPartMeans(doc: Doc, first: nat, removed: nat)
    requires HeadLines(doc.header) && Numbered(doc.header)
    requires doc.media == MediaOf(doc.header, 0) && doc.disc == DiscOf(doc.header, 0)
    ensures var h := HeaderPart(doc, first, removed);
            && HeadLines(h) && Numbered(h) && Complete(h)
            && MediaOf(h, 0) == (if first > 0 then (doc.media + first) % TWO64 else doc.media)
            && DiscOf(h, 0) == (if removed > 0 then (doc.disc + removed) % TWO64 else doc.disc)
  {
    hide HeadLines, Numbered, Complete, MediaOf, DiscOf, NumberLine, HeaderOut;
    var h := HeaderOut(doc.header, first > 0, removed > 0);
    HeaderOutMeans(doc.header, first > 0, removed > 0, 0);
    var m, d := (doc.media + first) % TWO64, (doc.disc + removed) % TWO64;
    AddNumber(h, MEDIA, first > 0, m, 0, 0);
    var one := if first > 0 then NumberLine(MEDIA, m) else [];
    var two := if removed > 0 then NumberLine(DISC, d) else [];
    AddNumber(h + one, DISC, removed > 0, d, 0, 0);
    ConcatAssociative(h, one, two);
  }

  /** What is written still begins with the playlist tag. */
  lemma StillM3U(header: string, media: bool, disc: bool, b: string)
    requires M3U <= header
    ensures M3U <= HeaderOut(header, media, disc) + b
  {
    var n := LineLen(header);
    var line := header[..n];
    NoBreak(header);
    hide LineLen;
    assert line[4] == 'M';
    assert MEDIA[4] == '-' && DISC[4] == '-';
    assert M3U <= Terminated(line);
  }

  lemma NoBreak(header: string)
    requires M3U <= header
    ensures header != [] && LineLen(header) >= |M3U|
  {
    hide LineLen;
    LineLenIsFirst(header);
    assert forall k :: 0 <= k < |M3U| ==> header[k] == M3U[k] && M3U[k] != '\n';
  }

  // ---- Where the lines of a segment go ----

  function PartText(st: State): string
    requires st.Reading?
  {
    if st.part.Some? then st.part.value.text else []
  }

  predicate PartGap(st: State)
    requires st.Reading?
  {
    st.part.Some? && st.part.value.gap
  }

  /** Where the reader loses no line: in the header or in a segment. */
  predicate Keeping(st: State)
  {
    st.Reading? && if st.heading then st.part.None? else st.part.Some?
  }

  lemma TagsApart(t: string, tag: string, other: string, k: nat)
    requires Tag(t, tag) && k < |tag| && k < |other| && tag[k] != other[k]
    ensures !Tag(t, other)
  {
  }

  /** A line that counts as the header's is no gap tag. */
  lemma HeaderIsNoGap(t: string)
    requires HeaderLine(t)
    ensures !Tag(t, GAP)
  {
    if t != [] {
      hide Tag;
      var i :| 0 <= i < |HEADER| && Tag(t, HEADER[i]);
      assert GAP[4] == '-' && GAP[7] == 'G';
      TagsApart(t, HEADER[i], GAP, if i == 0 then 4 else 7);
    }
  }

  /** A tag line of a segment: it goes to the header, or on to the segment. */
  lemma TagLineGoes(st: State, line: string, ahead: string)
    requires SegLine(line) && st.Reading? && |st.doc.segs| < SEGMENTS_MAX
    requires Keeping(st) || (!st.heading && Strip(line) != [])
    ensures var t := Step(st, line, ahead);
            && Keeping(t) && t.doc.segs == st.doc.segs && t.doc.trailer == st.doc.trailer
            && (if st.heading && HeaderLine(Strip(line)) then
                  t.doc.header == st.doc.header + line && PartText(t) == PartText(st) && PartGap(t) == PartGap(st)
                  && t.heading
                else
                  t.doc.header == st.doc.header && PartText(t) == PartText(st) + line && !t.heading
                  && (PartGap(t) <==> PartGap(st) || IsGapLine(Strip(line))))
  {
    hide Head, Tag, HeaderTag, Strip;
    HeadFrame(st.doc, line, ahead);
    assert [] + line == line;
  }

  /** The lines of a segment, read in any of these places: the first of them may go to the header, none is lost. */
  lemma {:induction false} TextMoves(text: string, b: string, st: State)
      returns (t: State, moved: string, rest: string)
    requires SegText(text) && st.Reading? && |st.doc.segs| < SEGMENTS_MAX
    requires Keeping(st) || (!st.heading && st.part.None? && StartsWithTag(text))
    ensures t.Reading? && t.doc.segs == st.doc.segs && t.doc.trailer == st.doc.trailer
    ensures (Keeping(st) || text != [] ==> Keeping(t)) && (text == [] ==> t == st)
    ensures Read(text + b, st) == Read(b, t)
    ensures moved + rest == text && Complete(moved) && (moved != [] ==> st.heading)
    ensures t.doc.header == st.doc.header + moved && PartText(t) == PartText(st) + rest
    ensures PartGap(t) <==> PartGap(st) || HasGap(text)
    ensures st.heading && StartsWithHeaderTag(text) ==> moved != []
    decreases |text|
  {
    hide Read, Step, HeaderTag, Tag, Strip, LineLen, SegLine, Complete;
    NothingMoves(st, b);
    if text == [] {
      return st, [], [];
    }
    SegTextSplits(text);
    SegTextHead(text);
    var n := LineLen(text);
    var line, more := text[..n], text[n..];
    ConcatAssociative(line, more, b);
    ReadLine(line, more + b, st);
    TagLineGoes(st, line, more + b);
    var u := Step(st, line, more + b);
    t, moved, rest := TextMoves(more, b, u);
    if st.heading && HeaderLine(Strip(line)) {
      HeaderIsNoGap(Strip(line));
      ConcatAssociative(st.doc.header, line, moved);
      ConcatAssociative(line, moved, rest);
      LineThenComplete(line, moved);
      moved := line + moved;
    } else {
      ConcatAssociative(PartText(st), line, rest);
      assert moved == [];
      rest := line + rest;
      assert [] + rest == rest;
    }
  }

  lemma LineThenComplete(line: string, more: string)
    requires OneLine(line) && Complete(more)
    ensures Complete(line + more)
  {
  }

  lemma NothingMoves(st: State, b: string)
    requires st.Reading?
    ensures [] + b == b && st.doc.header + [] == st.doc.header && PartText(st) + [] == PartText(st) && Complete([])
    ensures !HasGap([]) && !StartsWithHeaderTag([])
  {
  }

  /** The gap tag goes behind: what begins a segment's text stays there. */
  lemma MarkKeepsHead(seg: Seg, opts: Opts)
    requires GoodSeg(seg) && StartsWithHeaderTag(seg.text)
    ensures StartsWithHeaderTag(Mark(seg, opts).text)
  {
    hide Marked, Strip, HeaderTag, LineLen, GoodUri, HasDisc, HasGap, StartsWithTag, SegText;
    SegTextSplits(seg.text);
    var n := LineLen(seg.text);
    ConcatAssociative(seg.text[..n], seg.text[n..], GAP_LINE);
    LineLenOf(seg.text[..n], seg.text[n..] + GAP_LINE);
  }

  lemma MarkShape(seg: Seg, opts: Opts)
    ensures Mark(seg, opts).uri == seg.uri
    ensures Mark(seg, opts).gap || seg.uri !in opts.missing
  {
  }

  /** What is read back of a segment, moved lines aside, is written as it was. */
  lemma WrittenOnce(seg: Seg, was: Seg, moved: string, opts: Opts)
    requires moved + seg.text == Mark(was, opts).text && seg.uri == was.uri && seg.gap == Mark(was, opts).gap
    ensures moved + SegOut(seg, opts) == SegOut(was, opts)
  {
    MarkShape(was, opts);
    hide Mark;
    SegOutIs(was, opts);
    assert [] + (seg.uri + "\n") == seg.uri + "\n";
    ConcatAssociative(moved, seg.text, seg.uri + "\n");
  }

  /** The first segment, read right behind the header: its leading header tags join the header. */
  lemma FirstSegMoves(was: Seg, opts: Opts, b: string, doc: Doc) returns (d: Doc, seg: Seg, moved: string)
    requires GoodSeg(was) && doc.segs == []
    ensures Read(SegOut(was, opts) + b, Reading(doc, true, None)) == Read(b, Reading(d, false, None))
    ensures d.segs == [seg] && d.trailer == doc.trailer && d.header == doc.header + moved && Complete(moved)
    ensures moved + SegOut(seg, opts) == SegOut(was, opts) && seg.uri == was.uri
    ensures StartsWithHeaderTag(was.text) ==> moved != []
  {
    hide Read, SegOut, Mark, SegText, StartsWithTag, StartsWithHeaderTag, HasDisc, HasGap, GoodUri, Complete;
    var m, line, st := Mark(was, opts), was.uri + "\n", Reading(doc, true, None);
    MarkGood(was, opts);
    MarkShape(was, opts);
    if StartsWithHeaderTag(was.text) {
      MarkKeepsHead(was, opts);
    }
    SegOutIs(was, opts);
    ConcatAssociative(m.text, line, b);
    var u, rest;
    u, moved, rest := TextMoves(m.text, line + b, st);
    ReadUri(was.uri, b, u.doc, u.heading, u.part);
    var p := if u.part.Some? then u.part.value else Part([], false, false);
    seg := Seg(p.text, was.uri, p.discontinuity, p.gap);
    d := u.doc.(segs := u.doc.segs + [seg]);
    assert [] + rest == rest && u.doc.segs + [seg] == [seg];
    WrittenOnce(seg, was, moved, opts);
  }

  /** All the segments, read right behind the header: the text of both stays what it was. */
  lemma SegsMove(segs: seq<Seg>, opts: Opts, b: string, doc: Doc) returns (d: Doc, moved: string)
    requires (forall i :: 0 <= i < |segs| ==> GoodSeg(segs[i])) && |segs| <= SEGMENTS_MAX && doc.segs == []
    ensures Read(SegsOut(segs, opts) + b, Reading(doc, true, None)) == Read(b, Reading(d, segs == [], None))
    ensures d.trailer == doc.trailer && d.header == doc.header + moved && Complete(moved)
    ensures moved + SegsOut(d.segs, opts) == SegsOut(segs, opts)
    ensures |d.segs| == |segs| && forall i :: 0 <= i < |segs| ==> d.segs[i].uri == segs[i].uri
    ensures segs != [] && StartsWithHeaderTag(segs[0].text) ==> moved != []
  {
    hide Read, GoodSeg, StartsWithHeaderTag, SegOut, Mark, Complete;
    if segs == [] {
      NothingMoves(Reading(doc, true, None), b);
      assert SegsOut(segs, opts) == [];
      return doc, [];
    }
    var rest := segs[1..];
    ConcatAssociative(SegOut(segs[0], opts), SegsOut(rest, opts), b);
    var e, seg;
    e, seg, moved := FirstSegMoves(segs[0], opts, SegsOut(rest, opts) + b, doc);
    ReadSegsOut(rest, opts, b, e, false);
    d := e.(segs := e.segs + Marks(rest, opts));
    MarkedTwice(rest, opts);
    assert d.segs[0] == seg && d.segs[1..] == Marks(rest, opts);
    ConcatAssociative(moved, SegOut(seg, opts), SegsOut(rest, opts));
    forall i | 0 <= i < |segs| ensures d.segs[i].uri == segs[i].uri {
      if i > 0 {
        assert d.segs[i] == Mark(segs[i], opts);
        MarkShape(segs[i], opts);
      }
    }
  }

  // ---- Any header ----

  /** Lines of a header stay lines of a header, whatever numbers they carry. */
  lemma {:induction false} HeaderOutHeads(h: string, media: bool, disc: bool)
    requires HeadLines(h)
    ensures HeadLines(HeaderOut(h, media, disc)) && Complete(HeaderOut(h, media, disc))
    decreases |h|
  {
    hide HeaderLine, Strip, LineLen, Tag, Terminated;
    if h != [] {
      var n := LineLen(h);
      var line, rest := h[..n], h[n..];
      FirstLine(h);
      TerminatedLine(line);
      HeaderOutHeads(rest, media, disc);
      HeaderCons(Terminated(line), HeaderOut(rest, media, disc), 0);
      assert [] + HeaderOut(rest, media, disc) == HeaderOut(rest, media, disc);
    }
  }

  lemma AddNumberHeads(h: string, tag: string, sets: bool, n: nat)
    requires HeadLines(h) && Complete(h) && n < TWO64 && (tag == MEDIA || tag == DISC)
    ensures var t := h + if sets then NumberLine(tag, n) else []; HeadLines(t) && Complete(t)
  {
    hide HeadLines, NumberLine, HeaderLine, Strip, OneLine, LineLen;
    if sets {
      var line := NumberLine(tag, n);
      NumberLineHead(tag, n);
      WholeLine(line);
      OneLineEnds(line);
      HeaderAppend(h, line, 0, 0);
    } else {
      assert h + [] == h;
    }
  }

  lemma HeaderPartHeads(doc: Doc, first: nat, removed: nat)
    requires HeadLines(doc.header)
    ensures HeadLines(HeaderPart(doc, first, removed)) && Complete(HeaderPart(doc, first, removed))
  {
    hide HeadLines, Complete, NumberLine, HeaderOut;
    var h := HeaderOut(doc.header, first > 0, removed > 0);
    HeaderOutHeads(doc.header, first > 0, removed > 0);
    var m, d := (doc.media + first) % TWO64, (doc.disc + removed) % TWO64;
    AddNumberHeads(h, MEDIA, first > 0, m);
    var one := if first > 0 then NumberLine(MEDIA, m) else [];
    var two := if removed > 0 then NumberLine(DISC, d) else [];
    AddNumberHeads(h + one, DISC, removed > 0, d);
    ConcatAssociative(h, one, two);
  }

  lemma {:induction false} ReadHeadLines(h: string, b: string, doc: Doc) returns (d: Doc)
    requires HeadLines(h) && Complete(h)
    ensures Read(h + b, Reading(doc, true, None)) == Read(b, Reading(d, true, None))
    ensures d.header == doc.header + h && d.segs == doc.segs && d.trailer == doc.trailer
    decreases |h|
  {
    hide Read, Strip, LineLen, HeaderLine, Step, Head, Complete, OneLine;
    NothingMoves(Reading(doc, true, None), b);
    if h == [] {
      return doc;
    }
    var n := LineLen(h);
    var line, rest := h[..n], h[n..];
    SplitLine(h);
    ConcatAssociative(line, rest, b);
    ReadLine(line, rest + b, Reading(doc, true, None));
    StepIsHead(line, rest + b, doc);
    HeadFrame(doc, line, rest + b);
    d := ReadHeadLines(rest, b, Head(doc, line, rest + b));
    ConcatAssociative(doc.header, line, rest);
  }

  // ---- What is read back ----

  lemma RenderIs(doc: Doc, opts: Opts)
    requires M3U <= doc.header
    ensures var first := First(doc.segs, opts);
            var rest := SegsOut(doc.segs[first..], opts) + doc.trailer;
            Render(doc, opts) == HeaderPart(doc, first, Removed(doc, opts)) + rest && M3U <= Render(doc, opts)
    ensures M3U <= HeaderPart(doc, First(doc.segs, opts), Removed(doc, opts))
  {
    hide HeaderOut, NumbersOut, SegsOut, First, Discontinuities;
    var first, removed := First(doc.segs, opts), Removed(doc, opts);
    var rest := SegsOut(doc.segs[first..], opts) + doc.trailer;
    ConcatAssociative(HeaderOut(doc.header, first > 0, removed > 0), NumbersOut(doc, first, removed), rest);
    StillM3U(doc.header, first > 0, removed > 0, NumbersOut(doc, first, removed));
    StillM3U(doc.header, first > 0, removed > 0, NumbersOut(doc, first, removed) + rest);
  }

  const NO_DOC := Doc([], [], [], 0, 0)

  /** Re-reading the rewritten playlist gives exactly the kept segments, marked, behind the moved numbers. */
  lemma RewriteReads(doc: Doc, opts: Opts)
    requires GoodDoc(doc) && WellFormed(doc, opts)
    ensures Parse(Render(doc, opts)) == Media(Rewritten(doc, opts))
  {
    hide Read, HeadLines, Numbered, Complete, MediaOf, DiscOf, HeaderPart, SegsOut, First, Discontinuities, GoodSeg,
      StartsWithHeaderTag, GoodTrailer, Marks, Render;
    var first, removed := First(doc.segs, opts), Removed(doc, opts);
    var h, kept := HeaderPart(doc, first, removed), doc.segs[first..];
    RenderIs(doc, opts);
    HeaderPartMeans(doc, first, removed);
    ReadHeader(h, SegsOut(kept, opts) + doc.trailer, NO_DOC);
    var headed := Headed(NO_DOC, h);
    assert headed.header == h && headed.segs == [] && headed.trailer == [];
    ReadSegsOut(kept, opts, doc.trailer, headed, true);
    var all := headed.(segs := headed.segs + Marks(kept, opts));
    assert all.segs == Marks(kept, opts);
    ReadTrailer(doc.trailer, all, kept == []);
    assert doc.trailer == [] ==> all == Rewritten(doc, opts);
  }

  /**
   * Whatever its segments begin with, the output is read with as many as were
   * kept, and written again, segment by segment, it is the same text: tags can
   * move to the header, nothing else does.
   */
  lemma RewriteCounts(doc: Doc, opts: Opts)
    requires GoodDoc(doc) && M3U <= doc.header
    ensures var back, kept := Parse(Render(doc, opts)), doc.segs[First(doc.segs, opts)..];
            var h := HeaderPart(doc, First(doc.segs, opts), Removed(doc, opts));
            && back.Media? && |back.doc.segs| == |kept| && back.doc.trailer == doc.trailer
            && (forall i :: 0 <= i < |kept| ==> back.doc.segs[i].uri == kept[i].uri)
            && h <= back.doc.header && M3U <= back.doc.header && Complete(back.doc.header)
            && back.doc.header + SegsOut(back.doc.segs, opts) == h + SegsOut(kept, opts)
            && (!HeadsApart(doc, opts) ==> |back.doc.header| > |h|)
  {
    hide Read, HeadLines, Numbered, Complete, HeaderPart, SegsOut, First, Discontinuities, GoodSeg,
      StartsWithHeaderTag, GoodTrailer, Marks, Render;
    var first := First(doc.segs, opts);
    var kept, h := doc.segs[first..], HeaderPart(doc, first, Removed(doc, opts));
    RenderIs(doc, opts);
    HeaderPartHeads(doc, first, Removed(doc, opts));
    var headed := ReadHeadLines(h, SegsOut(kept, opts) + doc.trailer, NO_DOC);
    assert headed.header == h;
    var d, moved := SegsMove(kept, opts, doc.trailer, headed);
    ReadTrailer(doc.trailer, d, kept == []);
    ConcatAssociative(h, moved, SegsOut(d.segs, opts));
    CompleteJoin(h, moved);
  }

  lemma CompleteJoin(h: string, more: string)
    requires Complete(h) && Complete(more)
    ensures Complete(h + more)
  {
  }

  /**
   * The exact condition: the output is read as it is meant if and only if the
   * first segment kept does not begin with a tag of the header, as segments
   * behind the first one may.
   */
  lemma RewriteReadsIff(doc: Doc, opts: Opts)
    requires GoodDoc(doc) && GoodHeader(doc)
    ensures Parse(Render(doc, opts)) == Media(Rewritten(doc, opts)) <==> HeadsApart(doc, opts)
  {
    hide Parse, Render, GoodDoc, Numbered, HeadsApart, HeaderPart, SegsOut, Marks;
    if HeadsApart(doc, opts) {
      RewriteReads(doc, opts);
    } else {
      RewriteCounts(doc, opts);
    }
  }

  // ---- What the destination sees ----

  /** RFC 8216 section 6.2.2: the media sequence number of the i-th segment. */
  function MediaNumber(doc: Doc, i: nat): nat
  {
    doc.media + i
  }

  /** The discontinuity sequence number of the i-th segment. */
  function DiscNumber(doc: Doc, i: nat): nat
    requires i < |doc.segs|
  {
    doc.disc + Discontinuities(doc.segs[..i + 1])
  }

  lemma {:induction false} DiscontinuitiesConcat(a: seq<Seg>, b: seq<Seg>)
    ensures Discontinuities(a + b) == Discontinuities(a) + Discontinuities(b)
  {
    if a == [] {
      assert a + b == b;
    } else {
      assert (a + b)[1..] == a[1..] + b;
      DiscontinuitiesConcat(a[1..], b);
    }
  }

  lemma MarkKeepsDiscontinuity(seg: Seg, opts: Opts)
    ensures Discontinuities([Mark(seg, opts)]) == Discontinuities([seg])
  {
    assert [Mark(seg, opts)][1..] == [] && [seg][1..] == [];
  }

  lemma {:induction false} MarksKeepDiscontinuities(segs: seq<Seg>, opts: Opts, n: nat)
    requires n <= |segs|
    ensures Discontinuities(Marks(segs, opts)[..n]) == Discontinuities(segs[..n])
    decreases n
  {
    if n > 0 {
      hide Mark, Marks, Discontinuities;
      var m := Marks(segs, opts);
      MarksKeepDiscontinuities(segs, opts, n - 1);
      MarkKeepsDiscontinuity(segs[n - 1], opts);
      assert m[..n] == m[..n - 1] + [m[n - 1]] && segs[..n] == segs[..n - 1] + [segs[n - 1]];
      DiscontinuitiesConcat(m[..n - 1], [m[n - 1]]);
      DiscontinuitiesConcat(segs[..n - 1], [segs[n - 1]]);
    }
  }

  /** What re-reading a rewritten playlist shows of each kept segment. */
  ghost predicate Kept(doc: Doc, opts: Opts, d: Doc, i: nat)
    requires i < |d.segs| && First(doc.segs, opts) + i < |doc.segs|
  {
    var was, now := doc.segs[First(doc.segs, opts) + i], d.segs[i];
    && now.uri == was.uri
    && MediaNumber(d, i) == MediaNumber(doc, First(doc.segs, opts) + i)
    && DiscNumber(d, i) == DiscNumber(doc, First(doc.segs, opts) + i)
    && now.text == was.text + (if !was.gap && was.uri in opts.missing then GAP_LINE else [])
    && now.gap == (was.gap || was.uri in opts.missing)
  }

  /**
   * The rewrite's promise.  Re-reading the output gives the suffix the window
   * and the first URI leave; every kept segment keeps its media sequence
   * number and its discontinuity sequence number, a missing one gains exactly
   * one gap tag, and nothing else of it changes.
   */
  lemma NumbersKept(s: string, opts: Opts)
    requires Parse(s).Media? && WellFormed(Parse(s).doc, opts)
    requires var doc := Parse(s).doc; doc.media + |doc.segs| < TWO64 && doc.disc + |doc.segs| < TWO64
    ensures var doc := Parse(s).doc;
            var first := First(doc.segs, opts);
            var back := Parse(Render(doc, opts));
            && back.Media? && |back.doc.segs| == |doc.segs| - first && back.doc.trailer == doc.trailer
            && forall i :: 0 <= i < |doc.segs| - first ==> Kept(doc, opts, back.doc, i)
  {
    hide Parse, WellFormed, GoodDoc, Kept, First, HeaderPart, Removed;
    var doc := Parse(s).doc;
    ParseGood(s);
    RewriteReads(doc, opts);
    var first := First(doc.segs, opts);
    forall i | 0 <= i < |doc.segs| - first ensures Kept(doc, opts, Rewritten(doc, opts), i) {
      KeptOf(doc, opts, i);
    }
  }

  lemma KeptOf(doc: Doc, opts: Opts, i: nat)
    requires First(doc.segs, opts) + i < |doc.segs|
    requires doc.media + |doc.segs| < TWO64 && doc.disc + |doc.segs| < TWO64
    ensures Kept(doc, opts, Rewritten(doc, opts), i)
  {
    hide First, HeaderPart, Discontinuities, DiscNumber, Rewritten, Marks;
    var first := First(doc.segs, opts);
    MarkedAt(doc, opts, i);
    DiscKept(doc, opts, i);
  }

  lemma MarkedAt(doc: Doc, opts: Opts, i: nat)
    requires First(doc.segs, opts) + i < |doc.segs| && doc.media + |doc.segs| < TWO64
    ensures var d := Rewritten(doc, opts);
            && |d.segs| == |doc.segs| - First(doc.segs, opts)
            && d.segs[i] == Mark(doc.segs[First(doc.segs, opts) + i], opts)
            && d.media == doc.media + First(doc.segs, opts)
  {
    hide First, HeaderPart, Discontinuities, Mark;
    assert doc.segs[First(doc.segs, opts)..][i] == doc.segs[First(doc.segs, opts) + i];
  }

  lemma SplitAt(segs: seq<Seg>, first: nat, i: nat)
    requires first + i < |segs|
    ensures segs[..first + i + 1] == segs[..first] + segs[first..][..i + 1]
  {
  }

  lemma DiscKept(doc: Doc, opts: Opts, i: nat)
    requires First(doc.segs, opts) + i < |doc.segs| && doc.disc + |doc.segs| < TWO64
    ensures |Rewritten(doc, opts).segs| == |doc.segs| - First(doc.segs, opts)
    ensures DiscNumber(Rewritten(doc, opts), i) == DiscNumber(doc, First(doc.segs, opts) + i)
  {
    hide First, HeaderPart, Discontinuities, Mark;
    var first := First(doc.segs, opts);
    var kept := doc.segs[first..];
    MarksKeepDiscontinuities(kept, opts, i + 1);
    SplitAt(doc.segs, first, i);
    DiscontinuitiesConcat(doc.segs[..first], kept[..i + 1]);
  }

  // ---- A second rewrite ----

  /** The first URI, once it is at the front or gone, does not come again behind it. */
  predicate Stable(segs: seq<Seg>, opts: Opts)
  {
    var first := First(segs, opts);
    || first == |segs| || opts.first == [] || segs[first].uri == opts.first
    || forall k :: first < k < |segs| ==> segs[k].uri != opts.first
  }

  lemma SecondFirst(segs: seq<Seg>, opts: Opts)
    ensures First(segs[First(segs, opts)..], opts) == 0 <==> Stable(segs, opts)
  {
    var first := First(segs, opts);
    var kept := segs[first..];
    var i := IndexOf(kept, opts.first);
    if first < |segs| && i < |kept| {
      assert kept[i] == segs[first + i] && kept[0] == segs[first];
    }
    forall k | first < k < |segs| ensures segs[k] == kept[k - first] {
    }
  }

  /** URIs that are all different are always stable. */
  lemma DistinctIsStable(segs: seq<Seg>, opts: Opts)
    requires forall i, j :: 0 <= i < j < |segs| ==> segs[i].uri != segs[j].uri
    ensures Stable(segs, opts)
  {
    var i := IndexOf(segs, opts.first);
  }

  lemma {:induction false} SameUris(a: seq<Seg>, b: seq<Seg>, opts: Opts)
    requires |a| == |b| && forall i :: 0 <= i < |a| ==> a[i].uri == b[i].uri
    ensures IndexOf(a, opts.first) == IndexOf(b, opts.first) && First(a, opts) == First(b, opts)
    decreases |a|
  {
    if a != [] {
      SameUris(a[1..], b[1..], opts);
    }
  }

  lemma {:induction false} MarkedTwice(segs: seq<Seg>, opts: Opts)
    ensures SegsOut(Marks(segs, opts), opts) == SegsOut(segs, opts)
    decreases |segs|
  {
    if segs != [] {
      hide SegOut, Mark;
      var m := Marks(segs, opts);
      MarkedTwice(segs[1..], opts);
      assert m[0] == Mark(segs[0], opts) && m[1..] == Marks(segs[1..], opts);
    }
  }

  /** With nothing more to remove, a playlist is written as it was read. */
  lemma SameAgain(doc: Doc, opts: Opts)
    requires Complete(doc.header) && First(doc.segs, opts) == 0
    ensures Render(doc, opts) == doc.header + (SegsOut(doc.segs, opts) + doc.trailer)
  {
    hide Complete, HeaderOut, NumbersOut, SegsOut, First;
    HeaderCopied(doc.header);
    NoNumbers(doc);
    assert doc.segs[..0] == [] && doc.segs[0..] == doc.segs;
    assert doc.header + [] == doc.header;
  }

  lemma NoNumbers(doc: Doc)
    ensures NumbersOut(doc, 0, 0) == []
  {
  }

  /**
   * Rewriting what was written, with the same options, changes no byte if and
   * only if the first URI does not come again - for every playlist that begins
   * with its tag, also one whose tags move to the header.
   */
  lemma SecondRewrite(doc: Doc, opts: Opts)
    requires GoodDoc(doc) && M3U <= doc.header
    ensures var out := Render(doc, opts);
            Parse(out).Media? && (Render(Parse(out).doc, opts) == out <==> Stable(doc.segs, opts))
  {
    hide GoodDoc, HeadsApart, Render, First, Stable, Parse, SegsOut, Complete, HeaderPart;
    var first := First(doc.segs, opts);
    var kept, out := doc.segs[first..], Render(doc, opts);
    RewriteCounts(doc, opts);
    SecondFirst(doc.segs, opts);
    var d := Parse(out).doc;
    SameUris(d.segs, kept, opts);
    if First(kept, opts) == 0 {
      var h := HeaderPart(doc, first, Removed(doc, opts));
      SameAgain(d, opts);
      RenderIs(doc, opts);
      ConcatAssociative(d.header, SegsOut(d.segs, opts), doc.trailer);
      ConcatAssociative(h, SegsOut(kept, opts), doc.trailer);
    } else {
      ParseGood(out);
      RewriteCounts(d, opts);
    }
  }

  /** The same from text to text: rewriting the output again gives the output, when no URI is listed twice. */
  lemma Idempotent(s: string, opts: Opts)
    requires Parse(s).Media? && M3U <= Parse(s).doc.header
    requires var segs := Parse(s).doc.segs; forall i, j :: 0 <= i < j < |segs| ==> segs[i].uri != segs[j].uri
    ensures var out := Render(Parse(s).doc, opts); Parse(out).Media? && Render(Parse(out).doc, opts) == out
  {
    hide Parse, GoodDoc, Render, Stable;
    var doc := Parse(s).doc;
    ParseGood(s);
    DistinctIsStable(doc.segs, opts);
    SecondRewrite(doc, opts);
  }

  // ---- Playlists for which a promise fails ----

  /** No window, no first URI and nothing missing. */
  const KEEP := Opts(0, [], [])

  const M3U_LINE := M3U + "\n"
  const VERSION_LINE := "#EXT-X-VERSION:3\n"

  function Plain(text: string, uri: string): Seg
  {
    Seg(text, uri, false, false)
  }

  function Small(segs: seq<Seg>): Doc
  {
    Doc(M3U_LINE, segs, [], 0, 0)
  }

  lemma M3ULine()
    ensures OneLine(M3U_LINE) && Strip(M3U_LINE) == M3U && HeadLines(M3U_LINE) && Numbered(M3U_LINE)
    ensures MediaOf(M3U_LINE, 0) == 0 == DiscOf(M3U_LINE, 0)
  {
    StripUnique(M3U_LINE, M3U);
    WholeLine(M3U_LINE);
    assert Tag(M3U, HEADER[0]);
    assert M3U[4] == 'M' && MEDIA[4] == '-' && DISC[4] == '-';
  }

  lemma VersionLine()
    ensures OneLine(VERSION_LINE) && Tag(Strip(VERSION_LINE), HEADER[1])
    ensures |Strip(VERSION_LINE)| > 7 && Strip(VERSION_LINE)[7] == 'V'
  {
    hide Strip;
    StripUnique(VERSION_LINE, VERSION_LINE[..|VERSION_LINE| - 1]);
  }

  lemma VersionText()
    ensures SegText(VERSION_LINE) && StartsWithHeaderTag(VERSION_LINE) && StartsWithTag(VERSION_LINE)
    ensures !HasDisc(VERSION_LINE) && !HasGap(VERSION_LINE)
  {
    hide Strip, LineLen, OneLine, Tag;
    VersionLine();
    WholeLine(VERSION_LINE);
    var t := Strip(VERSION_LINE);
    assert HeaderTag(t);
    HeaderTagsAreTags(t);
    NotSegmentTag(t);
  }

  lemma NotSegmentTag(t: string)
    requires |t| > 7 && t[7] == 'V'
    ensures !Tag(t, DISCONTINUITY) && !Tag(t, GAP)
  {
    assert DISCONTINUITY[7] == 'D' && GAP[7] == 'G';
  }

  lemma {:induction false} NothingMissing(segs: seq<Seg>)
    ensures Marks(segs, KEEP) == segs
  {
    if segs != [] {
      NothingMissing(segs[1..]);
    }
  }

  lemma SmallKept(segs: seq<Seg>)
    ensures First(segs, KEEP) == 0 && Removed(Small(segs), KEEP) == 0
    ensures Render(Small(segs), KEEP) == M3U_LINE + SegsOut(segs, KEEP)
    ensures Rewritten(Small(segs), KEEP) == Small(segs)
  {
    hide SegsOut;
    M3ULine();
    hide HeadLines, Numbered, MediaOf, DiscOf, Strip, LineLen, HeaderOut;
    HeaderCopied(M3U_LINE);
    NothingMissing(segs);
    NoNumbers(Small(segs));
    assert segs[..0] == [] && segs[0..] == segs;
    assert M3U_LINE + [] == M3U_LINE && SegsOut(segs, KEEP) + [] == SegsOut(segs, KEEP);
  }

  /** A small playlist, written as it is, reads as it is. */
  lemma SmallReads(segs: seq<Seg>) returns (s: string)
    requires |segs| <= SEGMENTS_MAX && forall i :: 0 <= i < |segs| ==> GoodSeg(segs[i])
    requires segs != [] ==> !StartsWithHeaderTag(segs[0].text)
    ensures s == M3U_LINE + SegsOut(segs, KEEP) && Parse(s) == Media(Small(segs))
    ensures GoodDoc(Small(segs)) && GoodHeader(Small(segs))
  {
    hide HeadLines, Numbered, MediaOf, DiscOf, GoodSeg, StartsWithHeaderTag, SegsOut, Parse, Render, Rewritten, First;
    M3ULine();
    SmallKept(segs);
    RewriteReads(Small(segs), KEEP);
    return Render(Small(segs), KEEP);
  }

  lemma TwoUris(text: string)
    requires SegText(text) && StartsWithTag(text) && !HasDisc(text) && !HasGap(text)
    ensures GoodSeg(Plain(text, "a.ts")) && GoodSeg(Plain(text, "b.ts"))
  {
    hide SegText, StartsWithTag, HasDisc, HasGap;
  }

  /**
   * A URI listed twice, a window of two and that URI as the first one: the
   * window removes its first listing, and the second rewrite then trims to
   * the other one.
   */
  lemma RepeatedUriTrimsAgain() returns (s: string)
    ensures var a, b := Plain([], "a.ts"), Plain([], "b.ts");
            s == M3U_LINE + SegsOut([a, b, a], KEEP)
    ensures var opts := Opts(2, "a.ts", []);
            && Parse(s).Media? && WellFormed(Parse(s).doc, opts)
            && var out := Render(Parse(s).doc, opts);
               Parse(out).Media? && Render(Parse(out).doc, opts) != out
  {
    var a, b := Plain([], "a.ts"), Plain([], "b.ts");
    var segs, opts := [a, b, a], Opts(2, "a.ts", []);
    NoTextGood();
    TwoUris([]);
    s := SmallReads(segs);
    hide Parse, GoodDoc, GoodHeader, Render, SegsOut, Rewritten;
    assert First(segs, opts) == 1 && !Stable(segs, opts) by {
      assert a.uri[0] == 'a' && b.uri[0] == 'b';
      assert IndexOf(segs, "a.ts") == 0;
      assert segs[2].uri == "a.ts";
    }
    SecondRewrite(Small(segs), opts);
  }

  /** A version tag behind the first segment: once that segment left, the tag is read as part of the header. */
  lemma TagMovesToHeader() returns (s: string)
    ensures s == M3U_LINE + SegsOut([Plain([], "a.ts"), Plain(VERSION_LINE, "b.ts")], KEEP)
    ensures var opts := Opts(1, [], []);
            && Parse(s).Media? && GoodHeader(Parse(s).doc)
            && Parse(Render(Parse(s).doc, opts)) != Media(Rewritten(Parse(s).doc, opts))
  {
    hide Parse, GoodDoc, GoodHeader, Render, SegsOut, Rewritten, StartsWithHeaderTag, GoodSeg, SegText, HasDisc, HasGap,
      StartsWithTag;
    var segs, opts := [Plain([], "a.ts"), Plain(VERSION_LINE, "b.ts")], Opts(1, [], []);
    NoTextGood();
    TwoUris([]);
    VersionText();
    TwoUris(VERSION_LINE);
    s := SmallReads(segs);
    assert First(segs, opts) == 1 && !HeadsApart(Small(segs), opts);
    RewriteReadsIff(Small(segs), opts);
  }

  lemma NoTextGood()
    ensures SegText([]) && !HasDisc([]) && !HasGap([]) && StartsWithTag([]) && !StartsWithHeaderTag([])
  {
  }
}
