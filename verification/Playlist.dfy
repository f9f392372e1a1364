/** A destination's view of an HLS media playlist: what the rewrite reads and what it writes. */
module Playlist {
  import opened Common

  const SEGMENTS_MAX := 256

  const MEDIA := "#EXT-X-MEDIA-SEQUENCE"
  const DISC := "#EXT-X-DISCONTINUITY-SEQUENCE"
  const MASTER := "#EXT-X-STREAM-INF"
  const ENDLIST := "#EXT-X-ENDLIST"
  const DISCONTINUITY := "#EXT-X-DISCONTINUITY"
  const GAP := "#EXT-X-GAP"
  const M3U := "#EXTM3U"

  const HEADER := [
    M3U, "#EXT-X-VERSION", "#EXT-X-TARGETDURATION", MEDIA, DISC, "#EXT-X-PLAYLIST-TYPE",
    "#EXT-X-INDEPENDENT-SEGMENTS", "#EXT-X-START", "#EXT-X-ALLOW-CACHE", "#EXT-X-I-FRAMES-ONLY",
    "#EXT-X-SERVER-CONTROL", "#EXT-X-PART-INF"]

  // ---- Lines ----

  /** The length of the first line, its newline included. */
  function LineLen(s: string): (n: nat)
    requires s != []
    ensures 1 <= n <= |s|
  {
    if s[0] == '\n' || |s| == 1 then 1 else 1 + LineLen(s[1..])
  }

  /** The first line ends with the first newline, or with the text. */
  lemma {:induction false} LineLenIsFirst(s: string)
    requires s != []
    ensures LineLen(s) == |s| || s[LineLen(s) - 1] == '\n'
    ensures forall k :: 0 <= k < LineLen(s) - 1 ==> s[k] != '\n'
  {
    if s[0] != '\n' && |s| > 1 {
      LineLenIsFirst(s[1..]);
    }
  }

  predicate Ending(c: char)
  {
    c == '\n' || c == '\r'
  }

  /** A line without its line ending. */
  function Strip(line: string): (t: string)
    ensures |t| <= |line|
  {
    if line != [] && Ending(line[|line| - 1]) then Strip(line[..|line| - 1]) else line
  }

  /** What is left off are line endings, and what is left ends in none. */
  lemma {:induction false} StripLeaves(line: string)
    ensures Strip(line) <= line && (Strip(line) != [] ==> !Ending(Strip(line)[|Strip(line)| - 1]))
    ensures forall k :: |Strip(line)| <= k < |line| ==> Ending(line[k])
    decreases |line|
  {
    if line != [] && Ending(line[|line| - 1]) {
      StripLeaves(line[..|line| - 1]);
    }
  }

  predicate Tag(line: string, tag: string)
  {
    && |line| >= |tag| && (forall i :: 0 <= i < |tag| ==> line[i] == tag[i])
    && (|line| == |tag| || line[|tag|] == ':' || line[|tag|] == '\r')
  }

  predicate HeaderTag(t: string)
  {
    exists i :: 0 <= i < |HEADER| && Tag(t, HEADER[i])
  }

  // ---- Numbers ----

  predicate IsDigit(c: char)
  {
    '0' <= c <= '9'
  }

  predicate IsSpace(c: char)
  {
    c == ' ' || '\t' <= c <= '\r'
  }

  /** The decimal digits at the head of s, read on from v. */
  function Digits(s: string, v: nat): nat
  {
    if s != [] && IsDigit(s[0]) then Digits(s[1..], v * 10 + (s[0] as int - '0' as int)) else v
  }

  /** strtoull: leading space, a sign, digits; saturated at the largest value, a minus sign taken modulo 2^64. */
  function Strtoull(s: string): (v: nat)
    ensures v < TWO64
  {
    if s != [] && IsSpace(s[0]) then Strtoull(s[1..])
    else
      var signed := s != [] && (s[0] == '-' || s[0] == '+');
      var v := Digits(if signed then s[1..] else s, 0);
      if v >= TWO64 then TWO64 - 1
      else if signed && s[0] == '-' then (TWO64 - v) % TWO64 else v
  }

  function From(s: string, k: nat): string
  {
    if k <= |s| then s[k..] else []
  }

  // ---- Reading ----

  /** One segment: its tag lines as they stand, its URI, and the two tags the rewrite looks for. */
  datatype Seg = Seg(text: string, uri: string, discontinuity: bool, gap: bool)

  datatype Doc = Doc(header: string, segs: seq<Seg>, trailer: string, media: nat, disc: nat)

  /** The tag lines of a segment whose URI is still to come. */
  datatype Part = Part(text: string, discontinuity: bool, gap: bool)

  datatype State =
    | Reading(doc: Doc, heading: bool, part: Option<Part>)
    | Ended(doc: Doc)
    | Declined
    | Full

  const START := Reading(Doc([], [], [], 0, 0), true, None)

  predicate HeaderLine(t: string)
  {
    t == [] || HeaderTag(t)
  }

  /** A header line: only the last sequence tag of each kind counts. */
  function Head(doc: Doc, line: string, ahead: string): Doc
  {
    var t := Strip(line);
    var d := doc.(header := doc.header + line);
    if Tag(t, MEDIA) then d.(media := Strtoull(From(line + ahead, 22)))
    else if Tag(t, DISC) then d.(disc := Strtoull(From(line + ahead, 30)))
    else d
  }

  /** A tag or URI line of a segment. */
  function InSegment(doc: Doc, part: Part, line: string): State
  {
    var t := Strip(line);
    if t != [] && t[0] != '#' then
      Reading(doc.(segs := doc.segs + [Seg(part.text, t, part.discontinuity, part.gap)]), false, None)
    else
      Reading(doc, false, Some(Part(part.text + line, part.discontinuity || Tag(t, DISCONTINUITY),
                                    part.gap || (Tag(t, GAP) && !Tag(t, DISCONTINUITY)))))
  }

  function Step(st: State, line: string, ahead: string): State
    requires st.Reading?
  {
    var t := Strip(line);
    if Tag(t, MASTER) then Declined
    else if st.heading && st.part.None? && HeaderLine(t) then st.(doc := Head(st.doc, line, ahead))
    else if Tag(t, ENDLIST) then Ended(st.doc.(trailer := line + ahead))
    else if st.part.Some? then InSegment(st.doc, st.part.value, line)
    else if t == [] then st.(heading := false)
    else if |st.doc.segs| == SEGMENTS_MAX then Full
    else InSegment(st.doc, Part([], false, false), line)
  }

  function Read(s: string, st: State): State
    decreases |s|
  {
    if s == [] || !st.Reading? then st
    else
      var n := LineLen(s);
      Read(s[n..], Step(st, s[..n], s[n..]))
  }

  datatype Parsed = Media(doc: Doc) | NotMedia | TooMany

  /** What a playlist says; tags after the last URI are not part of it. */
  function Parse(s: string): Parsed
  {
    if !(M3U <= s) then NotMedia
    else
      match Read(s, START)
      case Reading(doc, _, _) => Media(doc)
      case Ended(doc) => Media(doc)
      case Declined => NotMedia
      case Full => TooMany
  }

  // ---- Writing ----

  /** The segments to keep, the URI of the first the destination has, and the URIs it lacks. */
  datatype Opts = Opts(window: nat, first: string, missing: seq<string>)

  function IndexOf(segs: seq<Seg>, uri: string): (i: nat)
    ensures i <= |segs| && (i < |segs| ==> segs[i].uri == uri) && forall k :: 0 <= k < i ==> segs[k].uri != uri
  {
    if segs == [] || segs[0].uri == uri then 0 else 1 + IndexOf(segs[1..], uri)
  }

  /** How many segments leave from the front. */
  function First(segs: seq<Seg>, opts: Opts): (n: nat)
    ensures n <= |segs|
  {
    var n := if opts.window != 0 && |segs| > opts.window then |segs| - opts.window else 0;
    var i := if opts.first == [] then |segs| else IndexOf(segs, opts.first);
    if i < |segs| && i > n then i else n
  }

  function Discontinuities(segs: seq<Seg>): (n: nat)
    ensures n <= |segs|
  {
    if segs == [] then 0 else (if segs[0].discontinuity then 1 else 0) + Discontinuities(segs[1..])
  }

  function Terminated(line: string): string
  {
    if line != [] && line[|line| - 1] == '\n' then line else line + "\n"
  }

  /** The header as it is written: without the sequence tags that get a new number, and every line closed. */
  function HeaderOut(header: string, media: bool, disc: bool): string
    decreases |header|
  {
    if header == [] then []
    else
      var n := LineLen(header);
      var line := header[..n];
      (if (media && Tag(line, MEDIA)) || (disc && Tag(line, DISC)) then [] else Terminated(line))
      + HeaderOut(header[n..], media, disc)
  }

  function Digit(d: nat): char
    requires d < 10
  {
    '0' + d as char
  }

  function Decimal(n: nat): (s: string)
    ensures s != [] && forall i :: 0 <= i < |s| ==> IsDigit(s[i])
  {
    if n < 10 then [Digit(n)] else Decimal(n / 10) + [Digit(n % 10)]
  }

  function NumberLine(tag: string, n: nat): string
  {
    tag + (":" + (Decimal(n) + "\n"))
  }

  predicate Marked(seg: Seg, opts: Opts)
  {
    !seg.gap && seg.uri in opts.missing
  }

  function SegOut(seg: Seg, opts: Opts): string
  {
    seg.text + ((if Marked(seg, opts) then GAP + "\n" else []) + (seg.uri + "\n"))
  }

  function SegsOut(segs: seq<Seg>, opts: Opts): string
  {
    if segs == [] then [] else SegOut(segs[0], opts) + SegsOut(segs[1..], opts)
  }

  function NumbersOut(doc: Doc, first: nat, removed: nat): string
  {
    (if first > 0 then NumberLine(MEDIA, (doc.media + first) % TWO64) else [])
    + (if removed > 0 then NumberLine(DISC, (doc.disc + removed) % TWO64) else [])
  }

  /** The rewritten playlist. */
  function Render(doc: Doc, opts: Opts): string
  {
    var first := First(doc.segs, opts);
    var removed := Discontinuities(doc.segs[..first]);
    (HeaderOut(doc.header, first > 0, removed > 0) + NumbersOut(doc, first, removed))
    + (SegsOut(doc.segs[first..], opts) + doc.trailer)
  }
}
