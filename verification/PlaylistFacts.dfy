/** Reading text made of known lines: the building blocks of the playlist theorems. */
module PlaylistFacts {
  import opened Common
  import opened Playlist

  predicate Complete(s: string)
  {
    s == [] || s[|s| - 1] == '\n'
  }

  predicate OneLine(line: string)
  {
    line != [] && line[|line| - 1] == '\n' && forall k :: 0 <= k < |line| - 1 ==> line[k] != '\n'
  }

  /** The first line does not depend on what follows it. */
  lemma {:induction false} LineLenOf(line: string, b: string)
    requires OneLine(line)
    ensures LineLen(line + b) == |line|
    ensures (line + b)[..|line|] == line && (line + b)[|line|..] == b
  {
    if |line| > 1 {
      assert (line + b)[1..] == line[1..] + b;
      LineLenOf(line[1..], b);
    }
  }

  /** One complete line read. */
  lemma ReadLine(line: string, b: string, st: State)
    requires OneLine(line) && st.Reading?
    ensures Read(line + b, st) == Read(b, Step(st, line, b))
  {
    hide Step;
    LineLenOf(line, b);
  }

  lemma {:induction false} StripUnique(line: string, t: string)
    requires t <= line && (t != [] ==> !Ending(t[|t| - 1])) && forall k :: |t| <= k < |line| ==> Ending(line[k])
    ensures Strip(line) == t
    decreases |line|
  {
    if line != [] && Ending(line[|line| - 1]) {
      assert t <= line[..|line| - 1];
      StripUnique(line[..|line| - 1], t);
    } else {
      assert |t| == |line|;
    }
  }

  // ---- Telling tags apart ----

  lemma HeaderTagsAreTags(t: string)
    requires HeaderTag(t)
    ensures t != [] && t[0] == '#' && !Tag(t, MASTER) && !Tag(t, ENDLIST)
  {
    hide Tag;
    var i :| 0 <= i < |HEADER| && Tag(t, HEADER[i]);
    if i == 0 {
      FirstHeaderTag(t);
    } else {
      OtherHeaderTag(t, HEADER[i]);
    }
  }

  lemma FirstHeaderTag(t: string)
    requires Tag(t, M3U)
    ensures t != [] && t[0] == '#' && !Tag(t, MASTER) && !Tag(t, ENDLIST)
  {
    assert t[0] == M3U[0];
    assert M3U[4] == 'M' && MASTER[4] == '-' && ENDLIST[4] == '-';
  }

  lemma OtherHeaderTag(t: string, tag: string)
    requires Tag(t, tag) && |tag| > 10 && tag[0] == '#' && tag[7] != ENDLIST[7]
    requires tag[7] != MASTER[7] || tag[8] != MASTER[8] || tag[9] != MASTER[9]
    ensures t != [] && t[0] == '#' && !Tag(t, MASTER) && !Tag(t, ENDLIST)
  {
    assert t[0] == tag[0];
  }

  lemma EndTag(t: string)
    requires Tag(t, ENDLIST)
    ensures t != [] && t[0] == '#' && !Tag(t, MASTER) && !HeaderTag(t)
  {
    assert t[0] == ENDLIST[0] && t[7] == ENDLIST[7] == 'E';
    assert MASTER[7] == 'S';
    if HeaderTag(t) {
      HeaderTagsAreTags(t);
    }
  }

  /** A line that does not begin with '#' is no tag. */
  lemma UriIsNoTag(t: string)
    requires t != [] && t[0] != '#'
    ensures !Tag(t, MASTER) && !Tag(t, ENDLIST) && !HeaderTag(t)
  {
    assert MASTER[0] == '#' && ENDLIST[0] == '#';
    forall i | 0 <= i < |HEADER| ensures !Tag(t, HEADER[i]) {
      assert HEADER[i][0] == '#';
    }
  }

  // ---- The lines of a segment ----

  /** A tag line of a segment, or a blank line inside one. */
  predicate SegLine(line: string)
  {
    var t := Strip(line);
    OneLine(line) && !Tag(t, MASTER) && !Tag(t, ENDLIST) && (t == [] || t[0] == '#')
  }

  predicate SegText(text: string)
    decreases |text|
  {
    text == [] || (SegLine(text[..LineLen(text)]) && SegText(text[LineLen(text)..]))
  }

  predicate HasDisc(text: string)
    decreases |text|
  {
    text != [] && (Tag(Strip(text[..LineLen(text)]), DISCONTINUITY) || HasDisc(text[LineLen(text)..]))
  }

  predicate IsGapLine(t: string)
  {
    Tag(t, GAP) && !Tag(t, DISCONTINUITY)
  }

  predicate HasGap(text: string)
    decreases |text|
  {
    text != [] && (IsGapLine(Strip(text[..LineLen(text)])) || HasGap(text[LineLen(text)..]))
  }

  /** The first line of a segment's text is a tag. */
  predicate StartsWithTag(text: string)
  {
    text != [] ==> Strip(text[..LineLen(text)]) != []
  }

  predicate StartsWithHeaderTag(text: string)
  {
    text != [] && HeaderTag(Strip(text[..LineLen(text)]))
  }

  predicate GoodUri(uri: string)
  {
    uri != [] && uri[0] != '#' && !Ending(uri[|uri| - 1]) && forall k :: 0 <= k < |uri| ==> uri[k] != '\n'
  }

  predicate GoodSeg(seg: Seg)
  {
    && SegText(seg.text) && StartsWithTag(seg.text) && GoodUri(seg.uri)
    && seg.discontinuity == HasDisc(seg.text) && seg.gap == HasGap(seg.text)
  }

  function Joined(part: Part, text: string): Part
  {
    Part(part.text + text, part.discontinuity || HasDisc(text), part.gap || HasGap(text))
  }

  /** Tag lines behind others extend the segment's part. */
  lemma {:induction false} ReadPart(text: string, b: string, doc: Doc, part: Part)
    requires SegText(text)
    ensures Read(text + b, Reading(doc, false, Some(part))) == Read(b, Reading(doc, false, Some(Joined(part, text))))
    decreases |text|
  {
    if text == [] {
      assert text + b == b && part.text + text == part.text;
    } else {
      hide Read, Strip, Tag, LineLen;
      var n := LineLen(text);
      var line, rest := text[..n], text[n..];
      assert text == line + rest;
      ConcatAssociative(line, rest, b);
      ReadLine(line, rest + b, Reading(doc, false, Some(part)));
      var next := Joined(part, line);
      ReadPart(rest, b, doc, OneMore(part, line));
      ConcatAssociative(part.text, line, rest);
    }
  }

  function OneMore(part: Part, line: string): Part
  {
    Part(part.text + line, part.discontinuity || Tag(Strip(line), DISCONTINUITY), part.gap || IsGapLine(Strip(line)))
  }

  /** The tag lines of a new segment; the header ends with the first of them. */
  lemma ReadText(text: string, b: string, doc: Doc, heading: bool)
    requires SegText(text) && text != [] && StartsWithTag(text) && (heading ==> !StartsWithHeaderTag(text))
    requires |doc.segs| < SEGMENTS_MAX
    ensures Read(text + b, Reading(doc, heading, None))
            == Read(b, Reading(doc, false, Some(Part(text, HasDisc(text), HasGap(text)))))
  {
    hide Read, Strip, Tag, LineLen, HeaderTag;
    var n := LineLen(text);
    var line, rest := text[..n], text[n..];
    assert text == line + rest;
    ConcatAssociative(line, rest, b);
    ReadLine(line, rest + b, Reading(doc, heading, None));
    var none := Part([], false, false);
    assert Step(Reading(doc, heading, None), line, rest + b) == Reading(doc, false, Some(OneMore(none, line)));
    ReadPart(rest, b, doc, OneMore(none, line));
    assert [] + line == line;
  }

  lemma UriLine(uri: string)
    requires GoodUri(uri)
    ensures OneLine(uri + "\n") && Strip(uri + "\n") == uri
  {
    var line := uri + "\n";
    assert line[..|uri|] == uri;
    StripUnique(line, uri);
  }

  /** The URI closes the segment. */
  lemma ReadUri(uri: string, b: string, doc: Doc, heading: bool, part: Option<Part>)
    requires GoodUri(uri) && (part.None? ==> |doc.segs| < SEGMENTS_MAX)
    ensures var p := if part.Some? then part.value else Part([], false, false);
            Read((uri + "\n") + b, Reading(doc, heading, part))
            == Read(b, Reading(doc.(segs := doc.segs + [Seg(p.text, uri, p.discontinuity, p.gap)]), false, None))
  {
    hide Read, Strip, Tag, LineLen, HeaderTag;
    UriLine(uri);
    UriIsNoTag(uri);
    ReadLine(uri + "\n", b, Reading(doc, heading, part));
  }

  /** A whole segment. */
  lemma ReadSeg(seg: Seg, b: string, doc: Doc, heading: bool)
    requires GoodSeg(seg) && (heading ==> !StartsWithHeaderTag(seg.text)) && |doc.segs| < SEGMENTS_MAX
    ensures Read(seg.text + ((seg.uri + "\n") + b), Reading(doc, heading, None))
            == Read(b, Reading(doc.(segs := doc.segs + [seg]), false, None))
  {
    hide Read, Strip, Tag, LineLen, HeaderTag, SegText;
    var line := seg.uri + "\n";
    if seg.text == [] {
      assert seg.text + (line + b) == line + b;
      ReadUri(seg.uri, b, doc, heading, None);
    } else {
      ReadText(seg.text, line + b, doc, heading);
      ReadUri(seg.uri, b, doc, false, Some(Part(seg.text, seg.discontinuity, seg.gap)));
    }
  }

  // ---- The lines of a header ----

  predicate HeadLines(h: string)
    decreases |h|
  {
    h == [] || (HeaderLine(Strip(h[..LineLen(h)])) && HeadLines(h[LineLen(h)..]))
  }

  /** The text of every line that sets a number: it begins right behind the colon. */
  predicate NumberedLine(line: string)
  {
    && (Tag(Strip(line), MEDIA) ==> |line| > 22 && line[21] == ':' && IsDigit(line[22]))
    && (Tag(Strip(line), DISC) ==> |line| > 30 && line[29] == ':' && IsDigit(line[30]))
  }

  predicate Numbered(h: string)
    decreases |h|
  {
    h == [] || (NumberedLine(h[..LineLen(h)]) && Numbered(h[LineLen(h)..]))
  }

  function MediaStep(line: string, v: nat): nat
  {
    if Tag(Strip(line), MEDIA) then Strtoull(From(line, 22)) else v
  }

  function DiscStep(line: string, v: nat): nat
  {
    if Tag(Strip(line), DISC) then Strtoull(From(line, 30)) else v
  }

  /** The media sequence number a header sets: its last tag wins. */
  function MediaOf(h: string, v: nat): nat
    decreases |h|
  {
    if h == [] then v else MediaOf(h[LineLen(h)..], MediaStep(h[..LineLen(h)], v))
  }

  function DiscOf(h: string, v: nat): nat
    decreases |h|
  {
    if h == [] then v else DiscOf(h[LineLen(h)..], DiscStep(h[..LineLen(h)], v))
  }

  lemma {:induction false} DigitsStop(s: string, x: string, v: nat)
    requires (s != [] && !IsDigit(s[|s| - 1])) || x == [] || !IsDigit(x[0])
    ensures Digits(s + x, v) == Digits(s, v)
    decreases |s|
  {
    if s == [] {
      assert s + x == x;
    } else if IsDigit(s[0]) {
      assert (s + x)[1..] == s[1..] + x;
      DigitsStop(s[1..], x, v * 10 + (s[0] as int - '0' as int));
    }
  }

  /** A number in its own line does not depend on what follows the line. */
  lemma NumberStays(line: string, k: nat, x: string)
    requires k < |line| && IsDigit(line[k]) && (line[|line| - 1] == '\n' || x == [] || x[0] == '\n')
    ensures Strtoull(From(line + x, k)) == Strtoull(From(line, k))
  {
    assert (line + x)[k..] == line[k..] + x;
    DigitsStop(line[k..], x, 0);
  }

  function Headed(doc: Doc, h: string): Doc
  {
    Doc(doc.header + h, doc.segs, doc.trailer, MediaOf(h, doc.media), DiscOf(h, doc.disc))
  }

  function OneHeaded(doc: Doc, line: string): Doc
  {
    Doc(doc.header + line, doc.segs, doc.trailer, MediaStep(line, doc.media), DiscStep(line, doc.disc))
  }

  lemma HeadIs(line: string, ahead: string, doc: Doc)
    requires NumberedLine(line) && ((line != [] && line[|line| - 1] == '\n') || ahead == [])
    ensures Head(doc, line, ahead) == OneHeaded(doc, line)
  {
    hide Strip, Strtoull, Tag, HeaderTag, From;
    var t := Strip(line);
    if Tag(t, MEDIA) {
      OneNumber(t);
      NumberStays(line, 22, ahead);
    } else if Tag(t, DISC) {
      NumberStays(line, 30, ahead);
    }
  }

  lemma HeadStep(line: string, ahead: string, doc: Doc)
    requires HeaderLine(Strip(line)) && NumberedLine(line) && ((line != [] && line[|line| - 1] == '\n') || ahead == [])
    ensures Step(Reading(doc, true, None), line, ahead) == Reading(OneHeaded(doc, line), true, None)
  {
    hide Step, Strip, Tag, HeaderLine, Head, NumberedLine, OneHeaded;
    StepIsHead(line, ahead, doc);
    HeadIs(line, ahead, doc);
  }

  lemma StepIsHead(line: string, ahead: string, doc: Doc)
    requires HeaderLine(Strip(line))
    ensures Step(Reading(doc, true, None), line, ahead) == Reading(Head(doc, line, ahead), true, None)
  {
    hide Strip, Tag, HeaderLine, Head, InSegment;
    HeaderIsNoMaster(Strip(line));
  }

  lemma HeaderIsNoMaster(t: string)
    requires HeaderLine(t)
    ensures !Tag(t, MASTER) && !Tag(t, ENDLIST)
  {
    hide Tag, HeaderTag;
    if t != [] {
      HeaderTagsAreTags(t);
    } else {
      BlankIsNoTag(t);
    }
  }

  lemma HeadedUnfolds(doc: Doc, h: string)
    requires h != []
    ensures var n := LineLen(h);
            Headed(doc, h) == Headed(OneHeaded(doc, h[..n]), h[n..])
  {
    hide MediaStep, DiscStep, LineLen;
    var n := LineLen(h);
    assert h == h[..n] + h[n..];
    ConcatAssociative(doc.header, h[..n], h[n..]);
  }

  lemma BlankIsNoTag(t: string)
    requires t == []
    ensures !Tag(t, MASTER) && !Tag(t, MEDIA) && !Tag(t, DISC) && !Tag(t, ENDLIST)
  {
  }

  lemma OneNumber(t: string)
    requires Tag(t, MEDIA)
    ensures !Tag(t, DISC)
  {
  }

  /** The first line of complete text, and the rest. */
  lemma SplitLine(h: string)
    requires h != [] && Complete(h)
    ensures var n := LineLen(h);
            h == h[..n] + h[n..] && OneLine(h[..n]) && Complete(h[n..])
  {
  }

  lemma OneLineEnds(line: string)
    requires OneLine(line)
    ensures line != [] && line[|line| - 1] == '\n'
  {
  }

  /** Complete header lines at the head of the playlist. */
  lemma {:induction false} ReadHeader(h: string, b: string, doc: Doc)
    requires HeadLines(h) && Numbered(h) && Complete(h)
    ensures Read(h + b, Reading(doc, true, None)) == Read(b, Reading(Headed(doc, h), true, None))
    decreases |h|
  {
    if h == [] {
      assert h + b == b && doc.header + h == doc.header;
    } else {
      hide Read, Strip, Tag, LineLen, HeaderLine, Step, NumberedLine, Headed, OneHeaded, Complete, OneLine;
      var n := LineLen(h);
      var line, rest := h[..n], h[n..];
      SplitLine(h);
      ConcatAssociative(line, rest, b);
      ReadLine(line, rest + b, Reading(doc, true, None));
      OneLineEnds(line);
      HeadStep(line, rest + b, doc);
      ReadHeader(rest, b, OneHeaded(doc, line));
      HeadedUnfolds(doc, h);
    }
  }

  // ---- The end list ----

  predicate GoodTrailer(s: string)
  {
    s == [] || Tag(Strip(s[..LineLen(s)]), ENDLIST)
  }

  /** The end list stops the reading, and is kept as it stands. */
  lemma ReadTrailer(s: string, doc: Doc, heading: bool)
    requires GoodTrailer(s) && doc.trailer == []
    ensures s == [] ==> Read(s, Reading(doc, heading, None)) == Reading(doc, heading, None)
    ensures s != [] ==> Read(s, Reading(doc, heading, None)) == Ended(doc.(trailer := s))
  {
    hide Strip, Tag, LineLen, HeaderTag;
    if s != [] {
      var n := LineLen(s);
      assert s[..n] + s[n..] == s;
      EndTag(Strip(s[..n]));
    }
  }
}
