/** The two passes of the rewrite over the text: positions first, then a bounded output. */
module PlaylistWriter {
  import opened Common
  import opened Playlist

  /** Where a segment lies: its first tag line, its URI line, and past that line's newline. */
  datatype SegPos = SegPos(start: nat, uriStart: nat, end: nat, discontinuity: bool, gap: bool)

  predicate Within(p: SegPos, n: nat)
  {
    p.start <= p.uriStart <= p.end <= n
  }

  function SegAt(s: string, p: SegPos): Seg
    requires Within(p, |s|)
  {
    Seg(s[p.start..p.uriStart], Strip(s[p.uriStart..p.end]), p.discontinuity, p.gap)
  }

  predicate AllWithin(ps: seq<SegPos>, n: nat)
  {
    forall i :: 0 <= i < |ps| ==> Within(ps[i], n)
  }

  function SegsAt(s: string, ps: seq<SegPos>): (segs: seq<Seg>)
    requires AllWithin(ps, |s|)
    ensures |segs| == |ps| && forall i :: 0 <= i < |ps| ==> segs[i] == SegAt(s, ps[i])
  {
    seq(|ps|, i requires 0 <= i < |ps| => SegAt(s, ps[i]))
  }

  // ---- Pass 1 ----

  /** What the first pass has found when it stands at pos; the header has no end yet while headerEnd is the text's. */
  datatype Scan = Scan(
    headerEnd: nat, segs: seq<SegPos>, inSegment: bool, start: nat, discontinuity: bool, gap: bool, media: nat, disc: nat)

  predicate Proper(s: string, pos: nat, c: Scan)
  {
    && pos <= |s| && AllWithin(c.segs, |s|) && c.headerEnd <= |s|
    && (c.headerEnd < |s| ==> c.headerEnd <= pos)
    && (c.inSegment ==> c.start <= pos && c.headerEnd < |s|)
  }

  function StateAt(s: string, pos: nat, c: Scan): State
    requires Proper(s, pos, c)
  {
    Reading(Doc(s[..if c.headerEnd == |s| then pos else c.headerEnd], SegsAt(s, c.segs), [], c.media, c.disc),
            c.headerEnd == |s|,
            if c.inSegment then Some(Part(s[c.start..pos], c.discontinuity, c.gap)) else None)
  }

  /** The end of the line at pos. */
  method LineEnd(s: string, pos: nat, end: nat) returns (next: nat)
    requires pos < end <= |s|
    ensures pos < next <= end && next - pos == LineLen(s[pos..end])
  {
    next := pos;
    while next < end && s[next] != '\n'
      invariant pos <= next <= end && forall k :: pos <= k < next ==> s[k] != '\n'
    {
      next := next + 1;
    }
    if next < end {
      next := next + 1;
    }
    LineLenIs(s[pos..end], next - pos);
  }

  lemma LineLenIs(s: string, n: nat)
    requires 1 <= n <= |s| && (n == |s| || s[n - 1] == '\n') && forall k :: 0 <= k < n - 1 ==> s[k] != '\n'
    ensures LineLen(s) == n
  {
    LineLenIsFirst(s);
    var m := LineLen(s);
    // the characters at the two ends tell them apart
    var endOfLine, endOfSpan := s[m - 1], s[n - 1];
  }

  /** The line without its ending: trailing newlines and carriage returns are left off. */
  method Bare(s: string, pos: nat, next: nat) returns (t: string)
    requires pos <= next <= |s|
    ensures t == Strip(s[pos..next])
  {
    var n: nat := next - pos;
    while n > 0 && Ending(s[pos + n - 1])
      invariant n <= next - pos && Strip(s[pos..next]) == Strip(s[pos..pos + n])
    {
      assert s[pos..pos + n][..n - 1] == s[pos..pos + (n - 1)];
      n := n - 1;
    }
    t := s[pos..pos + n];
  }

  method IsHeaderTag(t: string) returns (header: bool)
    ensures header == HeaderTag(t)
  {
    var i := 0;
    while i < |HEADER|
      invariant i <= |HEADER| && forall k :: 0 <= k < i ==> !Tag(t, HEADER[k])
    {
      if Tag(t, HEADER[i]) {
        return true;
      }
      i := i + 1;
    }
    return false;
  }

  lemma Unfold(s: string, pos: nat, st: State)
    requires pos < |s| && st.Reading?
    ensures var n := LineLen(s[pos..]);
            Read(s[pos..], st) == Read(s[pos + n..], Step(st, s[pos..pos + n], s[pos + n..]))
  {
    hide Read, Step, LineLen;
    SliceLine(s, pos, LineLen(s[pos..]));
    Unfolds(s[pos..], st);
  }

  lemma Unfolds(t: string, st: State)
    requires t != [] && st.Reading?
    ensures var n := LineLen(t); Read(t, st) == Read(t[n..], Step(st, t[..n], t[n..]))
  {
    hide Step, LineLen;
  }

  lemma SliceLine(s: string, pos: nat, n: nat)
    requires pos + n <= |s|
    ensures s[pos..][..n] == s[pos..pos + n] && s[pos..][n..] == s[pos + n..]
  {
  }

  /** A header line moves the end of the header along, and its sequence tag is read from the text. */
  lemma HeadingStep(s: string, pos: nat, next: nat, c: Scan)
    requires Proper(s, pos, c) && pos < next <= |s| && c.headerEnd == |s| && !c.inSegment
    requires var t := Strip(s[pos..next]); !Tag(t, MASTER) && HeaderLine(t)
    ensures var t := Strip(s[pos..next]);
            var d := if Tag(t, MEDIA) then c.(media := Strtoull(From(s, pos + 22)))
                     else if Tag(t, DISC) then c.(disc := Strtoull(From(s, pos + 30))) else c;
            Proper(s, next, d) && Step(StateAt(s, pos, c), s[pos..next], s[next..]) == StateAt(s, next, d)
  {
    hide Strip, Tag, HeaderLine, Strtoull, InSegment, SegsAt;
    assert s[..pos] + s[pos..next] == s[..next];
    assert s[pos..next] + s[next..] == s[pos..];
    if pos + 22 <= |s| {
      assert s[pos..][22..] == s[pos + 22..];
    }
    if pos + 30 <= |s| {
      assert s[pos..][30..] == s[pos + 30..];
    }
  }

  /** The state once the header is known to end at or before pos. */
  function Closing(s: string, pos: nat, c: Scan): Scan
  {
    if c.headerEnd == |s| then c.(headerEnd := pos) else c
  }

  lemma EndStepAt(s: string, pos: nat, next: nat, c: Scan)
    requires Proper(s, pos, c) && pos < next <= |s|
    requires var t := Strip(s[pos..next]); !Tag(t, MASTER) && Tag(t, ENDLIST) && c.headerEnd < |s|
    ensures Step(StateAt(s, pos, c), s[pos..next], s[next..])
            == Ended(Doc(s[..c.headerEnd], SegsAt(s, c.segs), s[pos..], c.media, c.disc))
  {
    hide Strip, Tag, HeaderLine, InSegment, SegsAt, Head;
    assert s[pos..next] + s[next..] == s[pos..];
  }

  /** A blank line between segments is dropped; inside a segment it is one of the segment's lines. */
  lemma BlankStep(s: string, pos: nat, next: nat, c: Scan)
    requires Proper(s, pos, c) && pos < next <= |s| && Strip(s[pos..next]) == []
    requires c.headerEnd < |s|
    ensures Proper(s, next, c) && Step(StateAt(s, pos, c), s[pos..next], s[next..]) == StateAt(s, next, c)
  {
    hide SegsAt, Strip, Head, HeaderLine;
    if c.inSegment {
      assert s[c.start..pos] + s[pos..next] == s[c.start..next];
    }
  }

  /** What a line of a segment makes of the scan: a tag is noted, a URI closes the segment. */
  function Into(s: string, pos: nat, next: nat, c: Scan): Scan
    requires pos <= next <= |s|
  {
    var t := Strip(s[pos..next]);
    var d := if c.inSegment then c else c.(inSegment := true, start := pos, discontinuity := false, gap := false);
    if t == [] || t[0] == '#' then
      if Tag(t, DISCONTINUITY) then d.(discontinuity := true)
      else if Tag(t, GAP) then d.(gap := true) else d
    else
      d.(segs := d.segs + [SegPos(d.start, pos, next, d.discontinuity, d.gap)], inSegment := false)
  }

  lemma IntoIsInSegment(s: string, pos: nat, next: nat, c: Scan)
    requires Proper(s, pos, c) && pos < next <= |s| && c.headerEnd < |s|
    ensures var part := if c.inSegment then Part(s[c.start..pos], c.discontinuity, c.gap) else Part([], false, false);
            var d := Into(s, pos, next, c);
            Proper(s, next, d) && InSegment(StateAt(s, pos, c).doc, part, s[pos..next]) == StateAt(s, next, d)
  {
    hide Strip, Tag, SegsAt;
    var start := if c.inSegment then c.start else pos;
    var part := if c.inSegment then Part(s[c.start..pos], c.discontinuity, c.gap) else Part([], false, false);
    assert part.text == s[start..pos];
    assert s[start..pos] + s[pos..next] == s[start..next];
  }

  lemma LineStep(s: string, pos: nat, next: nat, c: Scan)
    requires Proper(s, pos, c) && pos < next <= |s| && c.headerEnd < |s|
    requires var t := Strip(s[pos..next]); !Tag(t, MASTER) && !Tag(t, ENDLIST) && t != []
    ensures !c.inSegment && |c.segs| == SEGMENTS_MAX ==> Step(StateAt(s, pos, c), s[pos..next], s[next..]) == Full
    ensures c.inSegment || |c.segs| != SEGMENTS_MAX ==>
              var d := Into(s, pos, next, c);
              Proper(s, next, d) && Step(StateAt(s, pos, c), s[pos..next], s[next..]) == StateAt(s, next, d)
  {
    hide Strip, Tag, SegsAt, InSegment, Into, Head, HeaderLine;
    IntoIsInSegment(s, pos, next, c);
  }

  /** Ending the header changes nothing but that a line is no longer looked at as a header line. */
  lemma ClosingStep(s: string, pos: nat, next: nat, c: Scan)
    requires Proper(s, pos, c) && pos < next <= |s|
    requires !(!c.inSegment && c.headerEnd == |s| && HeaderLine(Strip(s[pos..next])))
    ensures Proper(s, pos, Closing(s, pos, c))
    ensures Step(StateAt(s, pos, Closing(s, pos, c)), s[pos..next], s[next..]) == Step(StateAt(s, pos, c), s[pos..next], s[next..])
  {
    hide Strip, Tag, HeaderLine, SegsAt, Head;
  }

  /** What the first pass finds. */
  datatype Found = Found(headerEnd: nat, trailer: nat, segs: seq<SegPos>, media: nat, disc: nat)

  predicate FoundWithin(s: string, f: Found)
  {
    f.headerEnd <= |s| && f.trailer <= |s| && AllWithin(f.segs, |s|)
  }

  function DocAt(s: string, f: Found): Doc
    requires FoundWithin(s, f)
  {
    Doc(s[..f.headerEnd], SegsAt(s, f.segs), s[f.trailer..], f.media, f.disc)
  }

  ghost predicate Says(s: string, rc: Rc, f: Found)
  {
    match Read(s, START)
    case Declined => rc == DECLINED
    case Full => rc == ERROR
    case Reading(doc, _, _) => rc == OK && FoundWithin(s, f) && DocAt(s, f) == doc
    case Ended(doc) => rc == OK && FoundWithin(s, f) && DocAt(s, f) == doc
  }

  lemma StartState(s: string, c: Scan)
    requires c == Scan(|s|, [], false, 0, false, false, 0, 0)
    ensures Proper(s, 0, c) && StateAt(s, 0, c) == START && s[0..] == s
  {
    assert s[..0] == [];
  }

  lemma StateReads(s: string, pos: nat, c: Scan)
    requires Proper(s, pos, c)
    ensures StateAt(s, pos, c).Reading?
  {
  }

  lemma MasterAt(s: string, pos: nat, next: nat, c: Scan)
    requires Proper(s, pos, c) && pos <= next <= |s| && Tag(Strip(s[pos..next]), MASTER)
    ensures Read(s[next..], Step(StateAt(s, pos, c), s[pos..next], s[next..])) == Declined
  {
    hide Strip, Tag, HeaderLine, SegsAt;
  }

  lemma ReadFull(s: string)
    ensures Read(s, Full) == Full
  {
  }

  lemma ClosedNow(s: string, pos: nat, c: Scan)
    requires pos < |s| && Proper(s, pos, c)
    ensures Closing(s, pos, c).headerEnd < |s|
  {
  }

  /** At the end of the text the header, when nothing ended it, is all of it. */
  lemma SaysAll(s: string, c: Scan)
    requires Proper(s, |s|, c) && Read(s, START) == Read(s[|s|..], StateAt(s, |s|, c))
    ensures Says(s, OK, Found(c.headerEnd, |s|, c.segs, c.media, c.disc))
  {
    assert s[|s|..] == [];
    assert Read(s[|s|..], StateAt(s, |s|, c)) == StateAt(s, |s|, c);
  }

  lemma SaysEnded(s: string, pos: nat, next: nat, c: Scan)
    requires Proper(s, pos, c) && pos <= next <= |s|
    requires Read(s, START) == Read(s[next..], Ended(Doc(s[..c.headerEnd], SegsAt(s, c.segs), s[pos..], c.media, c.disc)))
    ensures Says(s, OK, Found(c.headerEnd, pos, c.segs, c.media, c.disc))
  {
    hide SegsAt;
  }

  /** Pass 1: the header's extent, every segment's lines, and the end list. */
  method Survey(s: string) returns (rc: Rc, f: Found)
    ensures Says(s, rc, f)
  {
    hide Read, Step, StateAt, Proper, Into, Strip, LineLen, Tag, HeaderTag;
    var pos := 0;
    var c := Scan(|s|, [], false, 0, false, false, 0, 0);
    f := Found(0, 0, [], 0, 0);
    StartState(s, c);
    while pos < |s|
      invariant Proper(s, pos, c) && pos <= |s|
      invariant Read(s, START) == Read(s[pos..], StateAt(s, pos, c)) && StateAt(s, pos, c).Reading?
      decreases |s| - pos
    {
      assert s[pos..|s|] == s[pos..];
      var next := LineEnd(s, pos, |s|);
      var t := Bare(s, pos, next);
      Unfold(s, pos, StateAt(s, pos, c));
      if Tag(t, MASTER) {
        MasterAt(s, pos, next, c);
        return DECLINED, f;
      }
      var header := IsHeaderTag(t);
      if !c.inSegment && c.headerEnd == |s| && (t == [] || header) {
        HeadingStep(s, pos, next, c);
        if Tag(t, MEDIA) {
          c := c.(media := Strtoull(From(s, pos + 22)));
        } else if Tag(t, DISC) {
          c := c.(disc := Strtoull(From(s, pos + 30)));
        }
        StateReads(s, next, c);
        pos := next;
        continue;
      }
      ClosingStep(s, pos, next, c);
      ClosedNow(s, pos, c);
      c := Closing(s, pos, c);
      if Tag(t, ENDLIST) {
        EndStepAt(s, pos, next, c);
        f := Found(c.headerEnd, pos, c.segs, c.media, c.disc);
        SaysEnded(s, pos, next, c);
        return OK, f;
      }
      if t == [] {
        BlankStep(s, pos, next, c);
        StateReads(s, next, c);
        pos := next;
        continue;
      }
      LineStep(s, pos, next, c);
      if !c.inSegment && |c.segs| == SEGMENTS_MAX {
        ReadFull(s[next..]);
        return ERROR, f;
      }
      c := Into(s, pos, next, c);
      StateReads(s, next, c);
      pos := next;
    }
    rc, f := OK, Found(c.headerEnd, |s|, c.segs, c.media, c.disc);
    SaysAll(s, c);
  }

  // ---- What to keep ----

  /** How many segments leave: those past the window, and those before the first URI when it is listed. */
  method Cut(s: string, ps: seq<SegPos>, opts: Opts) returns (first: nat)
    requires AllWithin(ps, |s|)
    ensures first == First(SegsAt(s, ps), opts)
  {
    ghost var segs := SegsAt(s, ps);
    first := if opts.window != 0 && |ps| > opts.window then |ps| - opts.window else 0;
    if opts.first != [] {
      var i := 0;
      while i < |ps|
        invariant i <= |ps| && forall k :: 0 <= k < i ==> segs[k].uri != opts.first
      {
        var uri := Bare(s, ps[i].uriStart, ps[i].end);
        if uri == opts.first {
          if i > first {
            first := i;
          }
          return;
        }
        i := i + 1;
      }
    }
  }

  method CountRemoved(s: string, ps: seq<SegPos>, first: nat) returns (removed: nat)
    requires AllWithin(ps, |s|) && first <= |ps|
    ensures removed == Discontinuities(SegsAt(s, ps)[..first])
  {
    ghost var segs := SegsAt(s, ps);
    removed := 0;
    var i := 0;
    while i < first
      invariant i <= first && removed == Discontinuities(segs[..i])
    {
      NextSeg(segs, i);
      if ps[i].discontinuity {
        removed := removed + 1;
      }
      i := i + 1;
    }
  }

  lemma {:induction false} NextSeg(segs: seq<Seg>, i: nat)
    requires i < |segs|
    ensures Discontinuities(segs[..i + 1]) == Discontinuities(segs[..i]) + if segs[i].discontinuity then 1 else 0
    decreases i
  {
    if i == 0 {
      assert segs[..1][1..] == [];
    } else {
      assert segs[..i + 1][1..] == segs[1..][..i] && segs[..i][1..] == segs[1..][..i - 1];
      NextSeg(segs[1..], i - 1);
    }
  }

  // ---- Pass 2 ----

  /** What is written so far, and what is still to come, make up the whole. */
  ghost predicate Ahead(all: string, out: array<char>, o: nat, rest: string)
    reads out
  {
    o <= out.Length && all == out[..o] + rest
  }

  /** The text is added behind what was written, if it still fits. */
  method Put(out: array<char>, o: nat, data: string, ghost all: string, ghost rest: string) returns (ok: bool, now: nat)
    requires Ahead(all, out, o, data + rest)
    modifies out
    ensures ok ==> Ahead(all, out, now, rest)
    ensures !ok ==> |all| > out.Length
  {
    now := o;
    if |data| > out.Length - o {
      return false, o;
    }
    ghost var before := out[..o];
    forall i | 0 <= i < |data| {
      out[o + i] := data[i];
    }
    now := o + |data|;
    assert out[..now] == before + data;
    ConcatAssociative(before, data, rest);
    return true, now;
  }

  lemma HeaderUnfolds(h: string, media: bool, disc: bool, rest: string)
    requires h != []
    ensures var n := LineLen(h);
            var line := h[..n];
            HeaderOut(h, media, disc) + rest
            == (if (media && Tag(line, MEDIA)) || (disc && Tag(line, DISC)) then [] else Terminated(line))
               + (HeaderOut(h[n..], media, disc) + rest)
  {
    hide LineLen, Tag, Terminated;
    var n := LineLen(h);
    var line := h[..n];
    ConcatAssociative(if (media && Tag(line, MEDIA)) || (disc && Tag(line, DISC)) then [] else Terminated(line),
                      HeaderOut(h[n..], media, disc), rest);
  }

  /** The header, without the sequence tags that get a new number. */
  method WriteHeader(s: string, end: nat, media: bool, disc: bool, out: array<char>, ghost all: string, ghost rest: string)
      returns (ok: bool, o: nat)
    requires end <= |s| && all == HeaderOut(s[..end], media, disc) + rest
    modifies out
    ensures ok ==> Ahead(all, out, o, rest)
    ensures !ok ==> |all| > out.Length
  {
    hide Tag, LineLen, HeaderOut, Terminated;
    var pos := 0;
    o := 0;
    assert s[0..end] == s[..end];
    assert out[..0] + all == all;
    while pos < end
      invariant pos <= end && Ahead(all, out, o, HeaderOut(s[pos..end], media, disc) + rest)
    {
      var next := LineEnd(s, pos, end);
      var line := s[pos..next];
      HeaderUnfolds(s[pos..end], media, disc, rest);
      SpanLine(s, pos, next, end);
      ghost var more := HeaderOut(s[next..end], media, disc) + rest;
      if (media && Tag(line, MEDIA)) || (disc && Tag(line, DISC)) {
        assert [] + more == more;
      } else {
        ok, o := WriteLine(line, out, o, all, more);
        if !ok {
          return;
        }
      }
      pos := next;
    }
    assert s[end..end] == [];
    NoHeader(media, disc);
    assert [] + rest == rest;
    ok := true;
  }

  lemma SpanLine(s: string, pos: nat, next: nat, end: nat)
    requires pos <= next <= end <= |s|
    ensures s[pos..end][..next - pos] == s[pos..next] && s[pos..end][next - pos..] == s[next..end]
  {
  }

  lemma NoHeader(media: bool, disc: bool)
    ensures HeaderOut([], media, disc) == []
  {
  }

  /** One header line, its newline added when the text ends without one. */
  method WriteLine(line: string, out: array<char>, o: nat, ghost all: string, ghost rest: string) returns (ok: bool, now: nat)
    requires line != [] && Ahead(all, out, o, Terminated(line) + rest)
    modifies out
    ensures ok ==> Ahead(all, out, now, rest)
    ensures !ok ==> |all| > out.Length
  {
    if line[|line| - 1] == '\n' {
      ok, now := Put(out, o, line, all, rest);
    } else {
      ConcatAssociative(line, "\n", rest);
      ok, now := Put(out, o, line, all, "\n" + rest);
      if ok {
        ok, now := Put(out, now, "\n", all, rest);
      }
    }
  }

  method WriteNumber(write: bool, tag: string, n: nat, out: array<char>, o: nat, ghost all: string, ghost rest: string)
      returns (ok: bool, now: nat)
    requires Ahead(all, out, o, (if write then NumberLine(tag, n) else []) + rest)
    modifies out
    ensures ok ==> Ahead(all, out, now, rest)
    ensures !ok ==> |all| > out.Length
  {
    if write {
      ok, now := Put(out, o, NumberLine(tag, n), all, rest);
    } else {
      assert [] + rest == rest;
      ok, now := true, o;
    }
  }

  method IsMissing(opts: Opts, uri: string) returns (missing: bool)
    ensures missing == (uri in opts.missing)
  {
    var i := 0;
    while i < |opts.missing|
      invariant i <= |opts.missing| && forall k :: 0 <= k < i ==> opts.missing[k] != uri
    {
      if opts.missing[i] == uri {
        return true;
      }
      i := i + 1;
    }
    return false;
  }

  /** One kept segment: its tag lines, a gap tag when the destination lacks it, its URI. */
  method WriteSeg(s: string, p: SegPos, opts: Opts, out: array<char>, o: nat, ghost all: string, ghost rest: string)
      returns (ok: bool, now: nat, uri: string, marked: bool)
    requires Within(p, |s|) && Ahead(all, out, o, SegOut(SegAt(s, p), opts) + rest)
    modifies out
    ensures ok ==> Ahead(all, out, now, rest) && uri == SegAt(s, p).uri && marked == Marked(SegAt(s, p), opts)
    ensures !ok ==> |all| > out.Length
  {
    uri := Bare(s, p.uriStart, p.end);
    marked := false;
    var missing := false;
    if !p.gap {
      missing := IsMissing(opts, uri);
    }
    marked := missing;
    ghost var gap := if marked then GAP + "\n" else [];
    ghost var text := s[p.start..p.uriStart];
    ok, now := Put(out, o, s[p.start..p.uriStart], all, gap + (uri + ("\n" + rest)));
    if !ok {
      return;
    }
    if marked {
      ok, now := Put(out, now, GAP + "\n", all, uri + ("\n" + rest));
      if !ok {
        return;
      }
    } else {
      assert [] + (uri + ("\n" + rest)) == uri + ("\n" + rest);
    }
    ok, now := Put(out, now, uri, all, "\n" + rest);
    if ok {
      ok, now := Put(out, now, "\n", all, rest);
    }
  }

  /** The account of a rewrite. */
  datatype Info = Info(segments: nat, removed: nat, gaps: nat, mediaSequence: nat, uris: seq<string>)

  function Gaps(segs: seq<Seg>, opts: Opts): nat
  {
    if segs == [] then 0 else (if Marked(segs[0], opts) then 1 else 0) + Gaps(segs[1..], opts)
  }

  function Uris(segs: seq<Seg>): seq<string>
  {
    seq(|segs|, i requires 0 <= i < |segs| => segs[i].uri)
  }

  function InfoOf(doc: Doc, opts: Opts): Info
  {
    var first := First(doc.segs, opts);
    var kept := doc.segs[first..];
    Info(|kept|, first, Gaps(kept, opts), (doc.media + first) % TWO64, Uris(kept))
  }

  method WriteSegs(s: string, ps: seq<SegPos>, first: nat, opts: Opts, out: array<char>, start: nat, ghost all: string, ghost rest: string)
      returns (ok: bool, o: nat, gaps: nat, uris: seq<string>)
    requires AllWithin(ps, |s|) && first <= |ps|
    requires Ahead(all, out, start, SegsOut(SegsAt(s, ps)[first..], opts) + rest)
    modifies out
    ensures ok ==> Ahead(all, out, o, rest)
    ensures ok ==> gaps == Gaps(SegsAt(s, ps)[first..], opts) && uris == Uris(SegsAt(s, ps)[first..])
    ensures !ok ==> |all| > out.Length
  {
    hide SegOut, Marked, SegAt, SegsOut, Gaps, Uris;
    ghost var segs := SegsAt(s, ps);
    o, gaps, uris, ok := start, 0, [], true;
    var i := first;
    while i < |ps|
      invariant first <= i <= |ps| && ok && Ahead(all, out, o, SegsOut(segs[i..], opts) + rest)
      invariant gaps + Gaps(segs[i..], opts) == Gaps(segs[first..], opts)
      invariant |uris| == i - first && forall k :: 0 <= k < |uris| ==> uris[k] == segs[first + k].uri
    {
      ghost var more := SegsOut(segs[i + 1..], opts) + rest;
      SegsUnfold(segs, i, opts, rest);
      var uri, marked;
      ok, o, uri, marked := WriteSeg(s, ps[i], opts, out, o, all, more);
      if !ok {
        return;
      }
      uris := uris + [uri];
      if marked {
        gaps := gaps + 1;
      }
      i := i + 1;
    }
    NoSegs(segs[i..], opts, rest);
    UrisAre(segs[first..], uris);
  }

  lemma SegsUnfold(segs: seq<Seg>, i: nat, opts: Opts, rest: string)
    requires i < |segs|
    ensures SegsOut(segs[i..], opts) + rest == SegOut(segs[i], opts) + (SegsOut(segs[i + 1..], opts) + rest)
    ensures Gaps(segs[i..], opts) == Gaps(segs[i + 1..], opts) + if Marked(segs[i], opts) then 1 else 0
  {
    hide SegOut, Marked;
    assert segs[i..][0] == segs[i] && segs[i..][1..] == segs[i + 1..];
    ConcatAssociative(SegOut(segs[i], opts), SegsOut(segs[i + 1..], opts), rest);
  }

  lemma NoSegs(segs: seq<Seg>, opts: Opts, rest: string)
    requires segs == []
    ensures SegsOut(segs, opts) + rest == rest && Gaps(segs, opts) == 0
  {
    assert [] + rest == rest;
  }

  lemma UrisAre(segs: seq<Seg>, uris: seq<string>)
    requires |uris| == |segs| && forall k :: 0 <= k < |uris| ==> uris[k] == segs[k].uri
    ensures uris == Uris(segs)
  {
  }

  /** The whole rewrite: what is written, and what is said about it, are those of the playlist that was read. */
  method Rewrite(s: string, opts: Opts, out: array<char>) returns (rc: Rc, len: nat, info: Info)
    modifies out
    ensures Parse(s).NotMedia? <==> rc == DECLINED
    ensures Parse(s).TooMany? ==> rc == ERROR
    ensures Parse(s).Media? ==>
              var text := Render(Parse(s).doc, opts);
              && rc == (if |text| <= out.Length then OK else ERROR)
              && (rc == OK ==> len == |text| && out[..len] == text && info == InfoOf(Parse(s).doc, opts))
  {
    hide Read, HeaderOut, NumbersOut, SegsOut, Discontinuities, First, Gaps, Uris, SegsAt;
    len, info := 0, Info(0, 0, 0, 0, []);
    if |s| < 7 || s[..7] != M3U {
      return DECLINED, len, info;
    }
    var f;
    rc, f := Survey(s);
    if rc != OK {
      return;
    }
    ghost var doc := DocAt(s, f);
    var first := Cut(s, f.segs, opts);
    var removed := CountRemoved(s, f.segs, first);
    var o, ok, gaps, uris := WriteAll(s, f, opts, first, removed, out);
    if !ok {
      return ERROR, 0, info;
    }
    return OK, o, Info(|f.segs| - first, first, gaps, (f.media + first) % TWO64, uris);
  }

  /** Pass 2. */
  method WriteAll(s: string, f: Found, opts: Opts, first: nat, removed: nat, out: array<char>)
      returns (o: nat, ok: bool, gaps: nat, uris: seq<string>)
    requires FoundWithin(s, f) && first == First(SegsAt(s, f.segs), opts)
    requires removed == Discontinuities(SegsAt(s, f.segs)[..first])
    modifies out
    ensures ok <==> |Render(DocAt(s, f), opts)| <= out.Length
    ensures ok ==> o <= out.Length && out[..o] == Render(DocAt(s, f), opts)
    ensures ok ==> gaps == Gaps(SegsAt(s, f.segs)[first..], opts) && uris == Uris(SegsAt(s, f.segs)[first..])
  {
    hide HeaderOut, SegsOut, Discontinuities, First, Gaps, Uris, SegsAt, NumberLine;
    ghost var doc := DocAt(s, f);
    ghost var all := Render(doc, opts);
    ghost var body := SegsOut(doc.segs[first..], opts) + doc.trailer;
    ghost var one := if first > 0 then NumberLine(MEDIA, (f.media + first) % TWO64) else [];
    ghost var two := if removed > 0 then NumberLine(DISC, (f.disc + removed) % TWO64) else [];
    gaps, uris := 0, [];
    ok, o := WriteHeader(s, f.headerEnd, first > 0, removed > 0, out, all, one + (two + body));
    if !ok {
      return;
    }
    ok, o := WriteNumber(first > 0, MEDIA, (f.media + first) % TWO64, out, o, all, two + body);
    if !ok {
      return;
    }
    ok, o := WriteNumber(removed > 0, DISC, (f.disc + removed) % TWO64, out, o, all, body);
    if !ok {
      return;
    }
    ok, o, gaps, uris := WriteSegs(s, f.segs, first, opts, out, o, all, doc.trailer);
    if !ok {
      return;
    }
    assert doc.trailer + [] == doc.trailer;
    ok, o := Put(out, o, s[f.trailer..], all, []);
    if ok {
      assert out[..o] + [] == out[..o];
    }
  }

}
