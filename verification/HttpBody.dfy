/** HTTP/1.1 response bodies: decoded over a refilled buffer, specified on the octets that remain. */
module HttpBody {
  import opened Common
  import opened HttpText

  const BUFFER := 8192
  const LINE_MAX := 8192
  const HEADER_MAX := 16384

  // ---- Specification, on the octets of the connection ----

  datatype Line = Line(text: seq<byte>, next: nat, budget: nat)

  /** The line that started at `start`, of which the octets before p are read. */
  function LineFrom(s: seq<byte>, start: nat, p: nat, cap: nat, budget: nat): (r: Option<Line>)
    requires start <= p
    ensures r.Some? ==> p < r.value.next <= |s| && r.value.budget + (r.value.next - p) == budget
    decreases |s| - p
  {
    if budget == 0 || p >= |s| then None
    else if s[p] == 13 then
      if budget == 1 || p + 1 >= |s| || s[p + 1] != 10 then None else Some(Line(s[start..p], p + 2, budget - 2))
    else if s[p] == 10 || s[p] == 0 || p - start + 1 >= cap then None
    else LineFrom(s, start, p + 1, cap, budget - 1)
  }

  function LineAt(s: seq<byte>, p: nat, cap: nat, budget: nat): Option<Line>
  {
    LineFrom(s, p, p, cap, budget)
  }

  predicate LineOctet(b: byte)
  {
    b != 13 && b != 10 && b != 0
  }

  ghost predicate IsLine(s: seq<byte>, start: nat, text: seq<byte>, cap: nat, budget: nat)
  {
    && start + |text| + 2 <= |s| && s[start..start + |text|] == text
    && (forall i :: 0 <= i < |text| ==> LineOctet(text[i]))
    && s[start + |text|] == 13 && s[start + |text| + 1] == 10
    && (text == [] || |text| < cap) && |text| + 2 <= budget
  }

  lemma {:induction false} LineReads(s: seq<byte>, start: nat, p: nat, text: seq<byte>, cap: nat, budget: nat)
    requires start <= p <= start + |text| && IsLine(s, start, text, cap, budget)
    ensures LineFrom(s, start, p, cap, budget - (p - start))
            == Some(Line(text, start + |text| + 2, budget - |text| - 2))
    decreases start + |text| - p
  {
    if p < start + |text| {
      assert s[p] == s[start..start + |text|][p - start] && LineOctet(text[p - start]);
      LineReads(s, start, p + 1, text, cap, budget);
    }
  }

  lemma {:induction false} LineMeans(s: seq<byte>, start: nat, p: nat, cap: nat, budget: nat)
    requires start <= p <= |s| && (forall k :: start <= k < p ==> LineOctet(s[k])) && (p == start || p - start < cap)
    requires LineFrom(s, start, p, cap, budget).Some?
    ensures var l := LineFrom(s, start, p, cap, budget).value;
            IsLine(s, start, l.text, cap, budget + (p - start)) && l.next == start + |l.text| + 2
    decreases |s| - p
  {
    if s[p] != 13 {
      LineMeans(s, start, p + 1, cap, budget - 1);
    }
  }

  /** A line is read exactly when its octets hold no CR, LF or NUL, end in CR LF, and keep within both limits. */
  lemma LineMeaning(s: seq<byte>, p: nat, cap: nat, budget: nat, text: seq<byte>)
    requires p <= |s|
    ensures (exists l :: LineAt(s, p, cap, budget) == Some(l) && l.text == text) <==> IsLine(s, p, text, cap, budget)
  {
    if IsLine(s, p, text, cap, budget) {
      LineReads(s, p, p, text, cap, budget);
    }
    if LineAt(s, p, cap, budget).Some? {
      LineMeans(s, p, p, cap, budget);
    }
  }

  /** The trailer section from p on: the position after its empty line. */
  function TrailersEnd(s: seq<byte>, p: nat, budget: nat): (r: Option<nat>)
    ensures r.Some? ==> p < r.value <= |s|
    decreases |s| - p
  {
    var l := LineAt(s, p, LINE_MAX, budget);
    if l.None? then None
    else if l.value.text == [] then Some(l.value.next)
    else if !TrailerField(l.value.text) then None
    else TrailersEnd(s, l.value.next, l.value.budget)
  }

  datatype Body = Body(data: seq<byte>, next: nat)

  /** The chunk header at p: the size it announces and where its data starts. */
  function HeaderAt(s: seq<byte>, p: nat): (r: Option<(nat, nat)>)
    ensures r.Some? ==> p < r.value.1 <= |s|
  {
    var l := LineAt(s, p, LINE_MAX, LINE_MAX);
    if l.None? || ChunkSize(l.value.text).None? then None else Some((ChunkSize(l.value.text).value, l.value.next))
  }

  /** The CR LF after a chunk's data. */
  predicate CrLfAt(s: seq<byte>, p: nat)
  {
    p + 2 <= |s| && s[p] == 13 && s[p + 1] == 10
  }

  /** The data of a chunk lies within the stream and the room, and CR LF follows it. */
  predicate DataAt(s: seq<byte>, at: nat, size: nat, room: nat): (fits: bool)
    ensures fits ==> size <= room && at + size + 2 <= |s|
  {
    size <= room && CrLfAt(s, at + size)
  }

  /** The chunked body at p, with room for `room` more octets. */
  function Chunked(s: seq<byte>, p: nat, room: nat): (r: Option<Body>)
    ensures r.Some? ==> p < r.value.next <= |s| && |r.value.data| <= room
    decreases |s| - p
  {
    var h := HeaderAt(s, p);
    if h.None? then None
    else
      var (size, at) := h.value;
      if size == 0 then
        var e := TrailersEnd(s, at, HEADER_MAX);
        if e.None? then None else Some(Body([], e.value))
      else if !DataAt(s, at, size, room) then None
      else
        var rest := Chunked(s, at + size + 2, room - size);
        if rest.None? then None else Some(Body(s[at..at + size] + rest.value.data, rest.value.next))
  }

  datatype Framing = ByChunks | ByLength(length: nat) | ByClose

  /** The body at p, given how the header frames it; `whole` says the connection ended in order. */
  function BodyOf(s: seq<byte>, p: nat, framing: Framing, whole: bool, cap: nat): (r: Option<Body>)
    requires p <= |s|
    ensures r.Some? ==> p <= r.value.next <= |s| && |r.value.data| <= cap
  {
    match framing
    case ByChunks => Chunked(s, p, cap)
    case ByLength(n) => if n <= cap && p + n <= |s| then Some(Body(s[p..p + n], p + n)) else None
    case ByClose => if whole && |s| - p <= cap then Some(Body(s[p..], |s|)) else None
  }

  // ---- Encoding ----

  /** One chunk: its header line, any spelling and any extensions, and its data. */
  datatype Chunk = Chunk(header: seq<byte>, data: seq<byte>)

  predicate WellFormed(c: Chunk)
  {
    && c.data != [] && ChunkSize(c.header) == Some(|c.data|)
    && (forall i :: 0 <= i < |c.header| ==> LineOctet(c.header[i])) && |c.header| + 2 <= LINE_MAX
  }

  const CRLF: seq<byte> := [13, 10]

  function ChunkText(c: Chunk): seq<byte>
  {
    c.header + CRLF + c.data + CRLF
  }

  function ChunksText(cs: seq<Chunk>, tail: seq<byte>): seq<byte>
  {
    if cs == [] then tail else ChunkText(cs[0]) + ChunksText(cs[1..], tail)
  }

  function Data(cs: seq<Chunk>): seq<byte>
  {
    if cs == [] then [] else cs[0].data + Data(cs[1..])
  }

  /** The end of a chunked body: a zero chunk and its trailer section. */
  ghost predicate IsTail(tail: seq<byte>)
  {
    exists at: nat :: at <= |tail| && HeaderAt(tail, 0) == Some((0, at)) && TrailersEnd(tail, at, HEADER_MAX) == Some(|tail|)
  }

  /** Reading depends only on what lies ahead. */
  lemma {:induction false} LineShift(pre: seq<byte>, s: seq<byte>, start: nat, p: nat, cap: nat, budget: nat)
    requires start <= p <= |s|
    ensures var a := LineFrom(s, start, p, cap, budget);
            LineFrom(pre + s, |pre| + start, |pre| + p, cap, budget)
            == if a.None? then None else Some(Line(a.value.text, |pre| + a.value.next, a.value.budget))
    decreases |s| - p
  {
    var t := pre + s;
    if p < |s| && budget > 0 {
      assert t[|pre| + p] == s[p];
      if s[p] == 13 {
        if p + 1 < |s| {
          assert t[|pre| + p + 1] == s[p + 1];
        }
        assert t[|pre| + start..|pre| + p] == s[start..p];
      } else {
        LineShift(pre, s, start, p + 1, cap, budget - 1);
      }
    }
  }

  lemma {:induction false} TrailersShift(pre: seq<byte>, s: seq<byte>, p: nat, budget: nat)
    requires p <= |s|
    ensures var a := TrailersEnd(s, p, budget);
            TrailersEnd(pre + s, |pre| + p, budget) == if a.None? then None else Some(|pre| + a.value)
    decreases |s| - p
  {
    hide TrailerField, LineFrom;
    LineShift(pre, s, p, p, LINE_MAX, budget);
    var l := LineAt(s, p, LINE_MAX, budget);
    if l.Some? && l.value.text != [] && TrailerField(l.value.text) {
      TrailersShift(pre, s, l.value.next, l.value.budget);
    }
  }

  lemma HeaderShift(pre: seq<byte>, s: seq<byte>, p: nat)
    requires p <= |s|
    ensures var a := HeaderAt(s, p);
            HeaderAt(pre + s, |pre| + p) == if a.None? then None else Some((a.value.0, |pre| + a.value.1))
  {
    hide LineFrom, ChunkSize;
    LineShift(pre, s, p, p, LINE_MAX, LINE_MAX);
  }

  lemma DataShift(pre: seq<byte>, s: seq<byte>, at: nat, size: nat, room: nat)
    ensures DataAt(pre + s, |pre| + at, size, room) == DataAt(s, at, size, room)
    ensures DataAt(s, at, size, room) ==> (pre + s)[|pre| + at..|pre| + at + size] == s[at..at + size]
  {
    if at + size + 2 <= |s| {
      assert (pre + s)[|pre| + (at + size)] == s[at + size];
      assert (pre + s)[|pre| + (at + size + 1)] == s[at + size + 1];
    }
  }

  lemma {:induction false} ChunkedShift(pre: seq<byte>, s: seq<byte>, p: nat, room: nat)
    requires p <= |s|
    ensures var a := Chunked(s, p, room);
            Chunked(pre + s, |pre| + p, room) == if a.None? then None else Some(Body(a.value.data, |pre| + a.value.next))
    decreases |s| - p
  {
    hide HeaderAt, TrailersEnd, DataAt;
    HeaderShift(pre, s, p);
    var h := HeaderAt(s, p);
    if h.Some? {
      var (size, at) := h.value;
      if size == 0 {
        TrailersShift(pre, s, at, HEADER_MAX);
      } else {
        DataShift(pre, s, at, size, room);
        if DataAt(s, at, size, room) {
          ChunkedShift(pre, s, at + size + 2, room - size);
        }
      }
    }
  }

  /** What stands in one encoded chunk, whatever follows it. */
  lemma ChunkParts(c: Chunk, rest: seq<byte>)
    requires WellFormed(c)
    ensures var t := ChunkText(c) + rest;
            var at := |c.header| + 2;
            && HeaderAt(t, 0) == Some((|c.data|, at))
            && at + |c.data| <= |t| && t[at..at + |c.data|] == c.data && CrLfAt(t, at + |c.data|)
            && |ChunkText(c)| == at + |c.data| + 2
  {
    hide ChunkSize;
    var t := ChunkText(c) + rest;
    var n := |c.header|;
    assert t[0..n] == c.header;
    assert IsLine(t, 0, c.header, LINE_MAX, LINE_MAX);
    LineReads(t, 0, 0, c.header, LINE_MAX, LINE_MAX);
  }

  /** One chunk and whatever follows it. */
  lemma ChunkStep(c: Chunk, rest: seq<byte>, room: nat)
    requires WellFormed(c)
    ensures |c.data| > room ==> Chunked(ChunkText(c) + rest, 0, room) == None
    ensures |c.data| <= room ==>
              var a := Chunked(rest, 0, room - |c.data|);
              Chunked(ChunkText(c) + rest, 0, room)
              == if a.None? then None else Some(Body(c.data + a.value.data, |ChunkText(c)| + a.value.next))
  {
    hide HeaderAt, TrailersEnd, ChunkSize, ChunkText;
    ChunkParts(c, rest);
    if |c.data| <= room {
      ChunkedShift(ChunkText(c), rest, 0, room - |c.data|);
    }
  }

  /**
   * Any body, cut into chunks in any way, each with any spelling of its size
   * and any extensions, closed by any proper trailer: the decoder gives back
   * the body and ends with the text, or fails exactly when the body exceeds
   * the room.
   */
  lemma {:induction false} ChunkedRoundTrip(cs: seq<Chunk>, tail: seq<byte>, room: nat)
    requires (forall i :: 0 <= i < |cs| ==> WellFormed(cs[i])) && IsTail(tail)
    ensures Chunked(ChunksText(cs, tail), 0, room)
            == if |Data(cs)| <= room then Some(Body(Data(cs), |ChunksText(cs, tail)|)) else None
    decreases |cs|
  {
    hide WellFormed, HeaderAt, TrailersEnd, ChunkText;
    if cs != [] {
      var rest := ChunksText(cs[1..], tail);
      ChunkStep(cs[0], rest, room);
      if |cs[0].data| <= room {
        ChunkedRoundTrip(cs[1..], tail, room - |cs[0].data|);
      }
    }
  }

  /** The plain ending, a zero chunk without a trailer, is a proper one. */
  lemma PlainTail(zeros: seq<byte>)
    requires ChunkSize(zeros) == Some(0) && (forall i :: 0 <= i < |zeros| ==> LineOctet(zeros[i])) && |zeros| + 2 <= LINE_MAX
    ensures IsTail(zeros + CRLF + CRLF)
  {
    hide ChunkSize;
    var tail := zeros + CRLF + CRLF;
    var n := |zeros|;
    assert tail[0..n] == zeros && tail[n + 2..n + 2] == [];
    LineReads(tail, 0, 0, zeros, LINE_MAX, LINE_MAX);
    LineReads(tail, n + 2, n + 2, [], LINE_MAX, HEADER_MAX);
    assert HeaderAt(tail, 0) == Some((0, n + 2));
  }
}
