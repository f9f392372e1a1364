/** The chunked coding of RFC 9112 section 7.1 as a grammar: exactly these bodies are accepted, and mean this. */
module HttpChunks {
  import opened Common
  import opened HttpText
  import opened HttpBody

  // ---- Field lines ----

  /** The characters of a token, RFC 9110 section 5.6.2. */
  predicate TokenOctet(b: byte)
  {
    var c := b as char;
    'a' <= c <= 'z' || 'A' <= c <= 'Z' || '0' <= c <= '9' || c in "!#$%&'*+-.^_`|~"
  }

  /** Any octet but a control character; the tab is none. */
  predicate FieldOctet(b: byte)
  {
    b == 9 || 32 <= b <= 126 || 128 <= b
  }

  lemma TokenMeans(b: byte)
    ensures IsToken(b) <==> TokenOctet(b)
  {
  }

  /** The octets are these letters, in either case. */
  predicate Spelled(name: seq<byte>, letters: string)
  {
    |name| == |letters|
    && forall i :: 0 <= i < |name| ==>
         || name[i] as int == letters[i] as int
         || ('a' <= letters[i] <= 'z' && name[i] as int == letters[i] as int - 32)
  }

  lemma SpelledMeans(name: seq<byte>, letters: string)
    requires forall i :: 0 <= i < |letters| ==> letters[i] == '-' || 'a' <= letters[i] <= 'z'
    ensures SameName(name, letters) <==> Spelled(name, letters)
  {
    if Spelled(name, letters) {
      forall i | 0 <= i < |name| ensures Lower(name[i]) as int == letters[i] as int {
      }
    }
  }

  predicate IsField(t: seq<byte>, n: int)
  {
    && 0 < n < |t| && t[n] == ':' as int
    && (forall i :: 0 <= i < n ==> TokenOctet(t[i])) && (forall i :: n < i < |t| ==> FieldOctet(t[i]))
  }

  /** A field line of a trailer section: a name, a colon, a value, and no field that would frame the message. */
  predicate TrailerLine(t: seq<byte>, n: int)
  {
    && IsField(t, n)
    && !Spelled(t[..n], "content-length") && !Spelled(t[..n], "transfer-encoding") && !Spelled(t[..n], "connection")
  }

  lemma NameEnds(t: seq<byte>, n: int)
    requires IsField(t, n)
    ensures SkipToken(t, 0) == n
  {
    forall i | 0 <= i < n ensures IsToken(t[i]) {
      TokenMeans(t[i]);
    }
    TokenMeans(t[n]);
    var e := SkipToken(t, 0);
    var there, here := At(t, e), At(t, n);
  }

  lemma FieldMeans(t: seq<byte>, n: int)
    ensures FieldName(t).Some? && SkipToken(t, 0) == n <==> IsField(t, n)
    ensures IsField(t, n) ==> FieldName(t) == Some(t[..n])
  {
    if IsField(t, n) {
      NameEnds(t, n);
    }
    forall i | 0 <= i < |t| ensures IsToken(t[i]) <==> TokenOctet(t[i]) {
      TokenMeans(t[i]);
    }
  }

  /** Which lines a trailer section may carry. */
  lemma TrailerMeans(t: seq<byte>)
    ensures TrailerField(t) <==> exists n :: TrailerLine(t, n)
  {
    hide IsField, FieldName, SameName, Spelled;
    var n := SkipToken(t, 0);
    FieldMeans(t, n);
    if IsField(t, n) {
      NameSpelled(t[..n]);
    }
    if TrailerField(t) {
      assert TrailerLine(t, n);
    }
    forall k | TrailerLine(t, k) ensures TrailerField(t) {
      FieldMeans(t, k);
    }
  }

  lemma NameSpelled(name: seq<byte>)
    ensures SameName(name, "content-length") <==> Spelled(name, "content-length")
    ensures SameName(name, "transfer-encoding") <==> Spelled(name, "transfer-encoding")
    ensures SameName(name, "connection") <==> Spelled(name, "connection")
  {
    hide SameName, Spelled;
    SpelledMeans(name, "content-length");
    SpelledMeans(name, "transfer-encoding");
    SpelledMeans(name, "connection");
  }

  // ---- The trailer section ----

  function TrailersText(lines: seq<seq<byte>>): (t: seq<byte>)
    ensures t != []
  {
    if lines == [] then [13, 10] else lines[0] + ([13, 10] + TrailersText(lines[1..]))
  }

  ghost predicate Trailer(t: seq<byte>)
  {
    |t| < 8192 && (forall i :: 0 <= i < |t| ==> LineOctet(t[i])) && exists n :: TrailerLine(t, n)
  }

  ghost predicate Trailers(lines: seq<seq<byte>>)
  {
    forall i :: 0 <= i < |lines| ==> Trailer(lines[i])
  }

  /** A line that stands at p is read, and nothing else is. */
  lemma LineThere(s: seq<byte>, p: nat, text: seq<byte>, budget: nat)
    requires Stands(s, p, text + [13, 10]) && (forall i :: 0 <= i < |text| ==> LineOctet(text[i])) && (text == [] || |text| < 8192)
    ensures LineAt(s, p, LINE_MAX, budget)
         == if |text| + 2 <= budget then Some(Line(text, p + |text| + 2, budget - |text| - 2)) else None
  {
    StandsSplit(s, p, text, [13, 10]);
    StandsAt(s, p + |text|, [13, 10]);
    if |text| + 2 <= budget {
      LineReads(s, p, p, text, LINE_MAX, budget);
    } else {
      LineTooLong(s, p, p, text, budget);
    }
  }

  lemma {:induction false} LineTooLong(s: seq<byte>, start: nat, p: nat, text: seq<byte>, budget: nat)
    requires start <= p <= start + |text| && start + |text| + 2 <= |s| && s[start..start + |text|] == text
    requires (forall i :: 0 <= i < |text| ==> LineOctet(text[i])) && s[start + |text|] == 13
    requires start + |text| + 2 > p + budget
    ensures LineFrom(s, start, p, LINE_MAX, budget) == None
    decreases start + |text| - p
  {
    if p < start + |text| && budget > 0 {
      assert s[p] == s[start..start + |text|][p - start] && LineOctet(text[p - start]);
      LineTooLong(s, start, p + 1, text, budget - 1);
    }
  }

  /** What is read as a line stands there as one. */
  lemma LineStands(s: seq<byte>, p: nat, budget: nat)
    requires p <= |s| && LineAt(s, p, LINE_MAX, budget).Some?
    ensures var l := LineAt(s, p, LINE_MAX, budget).value;
            && Stands(s, p, l.text + [13, 10]) && (forall i :: 0 <= i < |l.text| ==> LineOctet(l.text[i]))
            && (l.text == [] || |l.text| < 8192) && |l.text| + 2 <= budget
            && l.next == p + |l.text| + 2 && l.budget == budget - |l.text| - 2
  {
    LineMeans(s, p, p, LINE_MAX, budget);
    var l := LineAt(s, p, LINE_MAX, budget).value;
    assert s[p..p + |l.text + [13, 10]|] == l.text + [13, 10];
  }

  lemma TrailerIsNotEmpty(t: seq<byte>)
    requires Trailer(t)
    ensures t != [] && TrailerField(t)
  {
    TrailerMeans(t);
  }

  lemma {:induction false} TrailersRead(s: seq<byte>, p: nat, lines: seq<seq<byte>>, budget: nat)
    requires Trailers(lines) && Stands(s, p, TrailersText(lines))
    ensures TrailersEnd(s, p, budget)
         == if |TrailersText(lines)| <= budget then Some(p + |TrailersText(lines)|) else None
    decreases |lines|
  {
    hide TrailerField, LineFrom, Trailer, LineAt;
    if lines == [] {
      assert [] + [13, 10] == TrailersText(lines);
      LineThere(s, p, [], budget);
    } else {
      var t, rest := lines[0], TrailersText(lines[1..]);
      ConcatAssociative(t, [13, 10], rest);
      StandsSplit(s, p, t + [13, 10], rest);
      TrailerIs(t);
      TrailerIsNotEmpty(t);
      LineThere(s, p, t, budget);
      if |t| + 2 <= budget {
        TrailersRead(s, p + |t| + 2, lines[1..], budget - |t| - 2);
      }
    }
  }

  lemma TrailerIs(t: seq<byte>)
    requires Trailer(t)
    ensures |t| < 8192 && forall i :: 0 <= i < |t| ==> LineOctet(t[i])
  {
  }

  lemma {:induction false} TrailersOf(s: seq<byte>, p: nat, budget: nat) returns (lines: seq<seq<byte>>)
    requires p <= |s| && TrailersEnd(s, p, budget).Some?
    ensures Trailers(lines) && Stands(s, p, TrailersText(lines)) && |TrailersText(lines)| <= budget
    decreases |s| - p
  {
    hide TrailerField, LineFrom, LineAt, TrailerLine;
    LineStands(s, p, budget);
    var l := LineAt(s, p, LINE_MAX, budget).value;
    if l.text == [] {
      lines := [];
      assert [] + [13, 10] == TrailersText(lines);
    } else {
      TrailerMeans(l.text);
      var rest := TrailersOf(s, l.next, l.budget);
      lines := [l.text] + rest;
      assert lines[1..] == rest && Trailer(l.text);
      StandsJoin(s, p, l.text + [13, 10], TrailersText(rest));
      ConcatAssociative(l.text, [13, 10], TrailersText(rest));
    }
  }

  // ---- Chunks ----

  /** A chunk: its header line, which announces the length of its data. */
  predicate IsChunk(c: Chunk)
  {
    c.data != [] && IsHeader(c.header, |c.data|)
  }

  /** A header line that announces that size; with its line ending it is at most 8192 octets long. */
  predicate IsHeader(t: seq<byte>, size: nat)
  {
    ChunkSize(t) == Some(size) && |t| + 2 <= 8192 && forall i :: 0 <= i < |t| ==> LineOctet(t[i])
  }

  function BodyText(cs: seq<Chunk>, last: seq<byte>, lines: seq<seq<byte>>): seq<byte>
  {
    if cs == [] then last + ([13, 10] + TrailersText(lines))
    else cs[0].header + ([13, 10] + (cs[0].data + ([13, 10] + BodyText(cs[1..], last, lines))))
  }

  /** The octets between p and next are chunks, a last chunk of size 0 and a trailer section of at most 16384 octets. */
  ghost predicate IsChunked(s: seq<byte>, p: nat, next: nat, cs: seq<Chunk>, last: seq<byte>, lines: seq<seq<byte>>)
  {
    && (forall i :: 0 <= i < |cs| ==> IsChunk(cs[i]))
    && IsHeader(last, 0) && Trailers(lines) && |TrailersText(lines)| <= 16384
    && Stands(s, p, BodyText(cs, last, lines)) && next == p + |BodyText(cs, last, lines)|
  }

  lemma HeaderThere(s: seq<byte>, p: nat, t: seq<byte>, size: nat)
    requires IsHeader(t, size) && Stands(s, p, t + [13, 10])
    ensures HeaderAt(s, p) == Some((size, p + |t| + 2))
  {
    hide ChunkSize, LineAt;
    LineThere(s, p, t, LINE_MAX);
  }

  lemma HeaderOf(s: seq<byte>, p: nat) returns (t: seq<byte>)
    requires p <= |s| && HeaderAt(s, p).Some?
    ensures IsHeader(t, HeaderAt(s, p).value.0) && Stands(s, p, t + [13, 10]) && HeaderAt(s, p).value.1 == p + |t| + 2
  {
    hide ChunkSize, LineAt;
    LineStands(s, p, LINE_MAX);
    t := LineAt(s, p, LINE_MAX, LINE_MAX).value.text;
  }

  /** Where the parts of a chunk stand. */
  lemma ChunkPlaces(s: seq<byte>, p: nat, t: seq<byte>, data: seq<byte>, rest: seq<byte>)
    ensures Stands(s, p, t + ([13, 10] + (data + ([13, 10] + rest))))
       <==> var at := p + |t| + 2;
            && Stands(s, p, t + [13, 10]) && Stands(s, at, data) && CrLfAt(s, at + |data|)
            && Stands(s, at + |data| + 2, rest)
  {
    hide Stands;
    var at := p + |t| + 2;
    var crlf: seq<byte> := [13, 10];
    ConcatAssociative(t, crlf, data + (crlf + rest));
    CrLfStands(s, at + |data|);
    if Stands(s, p, t + (crlf + (data + (crlf + rest)))) {
      StandsSplit(s, p, t + crlf, data + (crlf + rest));
      StandsSplit(s, at, data, crlf + rest);
      StandsSplit(s, at + |data|, crlf, rest);
    }
    if Stands(s, p, t + crlf) && Stands(s, at, data) && CrLfAt(s, at + |data|) && Stands(s, at + |data| + 2, rest) {
      StandsJoin(s, at + |data|, crlf, rest);
      StandsJoin(s, at, data, crlf + rest);
      StandsJoin(s, p, t + crlf, data + (crlf + rest));
    }
  }

  lemma CrLfStands(s: seq<byte>, p: nat)
    ensures CrLfAt(s, p) <==> Stands(s, p, [13, 10])
  {
    if Stands(s, p, [13, 10]) {
      StandsAt(s, p, [13, 10]);
    }
    if CrLfAt(s, p) {
      assert s[p..p + 2] == [13, 10];
    }
  }

  /** A chunked body of this grammar is decoded to its data when it fits the room, and refused when it does not. */
  lemma {:induction false} ChunkedReads(s: seq<byte>, p: nat, next: nat, cs: seq<Chunk>, last: seq<byte>, lines: seq<seq<byte>>, room: nat)
    requires IsChunked(s, p, next, cs, last, lines)
    ensures Chunked(s, p, room) == if |Data(cs)| <= room then Some(Body(Data(cs), next)) else None
    decreases |cs|
  {
    hide Chunked, IsHeader, Stands, TrailersText, Trailers;
    if cs == [] {
      LastReads(s, p, last, lines, room);
    } else {
      var c, rest := cs[0], BodyText(cs[1..], last, lines);
      assert IsChunk(c);
      ChunkPlaces(s, p, c.header, c.data, rest);
      var at := p + |c.header| + 2;
      ChunkReads(s, p, c, room);
      if |c.data| <= room {
        assert IsChunked(s, at + |c.data| + 2, next, cs[1..], last, lines);
        ChunkedReads(s, at + |c.data| + 2, next, cs[1..], last, lines, room - |c.data|);
      }
    }
  }

  lemma LastReads(s: seq<byte>, p: nat, last: seq<byte>, lines: seq<seq<byte>>, room: nat)
    requires IsHeader(last, 0) && Trailers(lines) && |TrailersText(lines)| <= 16384
    requires Stands(s, p, last + ([13, 10] + TrailersText(lines)))
    ensures Chunked(s, p, room) == Some(Body([], p + |last| + 2 + |TrailersText(lines)|))
  {
    hide HeaderAt, TrailersEnd, IsHeader, Trailers, Stands, TrailersText, DataAt;
    var crlf: seq<byte> := [13, 10];
    ConcatAssociative(last, crlf, TrailersText(lines));
    StandsSplit(s, p, last + crlf, TrailersText(lines));
    HeaderThere(s, p, last, 0);
    TrailersRead(s, p + |last| + 2, lines, HEADER_MAX);
  }

  lemma ChunkReads(s: seq<byte>, p: nat, c: Chunk, room: nat)
    requires IsChunk(c) && Stands(s, p, c.header + [13, 10])
    requires var at := p + |c.header| + 2; Stands(s, at, c.data) && CrLfAt(s, at + |c.data|)
    ensures |c.data| > room ==> Chunked(s, p, room) == None
    ensures |c.data| <= room ==>
              var rest := Chunked(s, p + |c.header| + |c.data| + 4, room - |c.data|);
              Chunked(s, p, room) == if rest.None? then None else Some(Body(c.data + rest.value.data, rest.value.next))
  {
    hide HeaderAt, TrailersEnd, IsHeader, Stands, CrLfAt;
    HeaderThere(s, p, c.header, |c.data|);
    DataStands(s, p + |c.header| + 2, c.data);
  }

  lemma DataStands(s: seq<byte>, at: nat, data: seq<byte>)
    requires Stands(s, at, data)
    ensures at + |data| <= |s| && s[at..at + |data|] == data
  {
  }

  /** Whatever is decoded is of this grammar. */
  lemma {:induction false} ChunkedOf(s: seq<byte>, p: nat, room: nat)
      returns (cs: seq<Chunk>, last: seq<byte>, lines: seq<seq<byte>>)
    requires p <= |s| && Chunked(s, p, room).Some?
    ensures IsChunked(s, p, Chunked(s, p, room).value.next, cs, last, lines)
    ensures Data(cs) == Chunked(s, p, room).value.data
    decreases |s| - p
  {
    hide HeaderAt, TrailersEnd, ChunkSize, LineOctet, Trailers, IsHeader, Stands, TrailersText;
    var crlf: seq<byte> := [13, 10];
    var (size, at) := HeaderAt(s, p).value;
    var t := HeaderOf(s, p);
    if size == 0 {
      lines := TrailersOf(s, at, HEADER_MAX);
      TrailersRead(s, at, lines, HEADER_MAX);
      StandsJoin(s, p, t + crlf, TrailersText(lines));
      ConcatAssociative(t, crlf, TrailersText(lines));
      cs, last := [], t;
    } else {
      var data := s[at..at + size];
      cs, last, lines := ChunkedOf(s, at + size + 2, room - size);
      var rest := BodyText(cs, last, lines);
      DataIsThere(s, at, size);
      ChunkPlaces(s, p, t, data, rest);
      var c := Chunk(t, data);
      assert IsChunk(c);
      assert ([c] + cs)[1..] == cs;
      cs := [c] + cs;
    }
  }

  lemma DataIsThere(s: seq<byte>, at: nat, size: nat)
    requires at + size <= |s|
    ensures Stands(s, at, s[at..at + size])
  {
  }

  /**
   * The decoder accepts exactly the chunked bodies whose data fits the room,
   * and gives the data of their chunks, joined, and the place behind them.
   */
  lemma ChunkedExact(s: seq<byte>, p: nat, room: nat, data: seq<byte>, next: nat)
    requires p <= |s|
    ensures Chunked(s, p, room) == Some(Body(data, next))
       <==> |data| <= room && exists cs, last, lines :: IsChunked(s, p, next, cs, last, lines) && Data(cs) == data
  {
    hide IsChunked, Chunked;
    if Chunked(s, p, room) == Some(Body(data, next)) {
      var cs, last, lines := ChunkedOf(s, p, room);
      ChunkedReads(s, p, next, cs, last, lines, room);
    }
    forall cs, last, lines | IsChunked(s, p, next, cs, last, lines) && Data(cs) == data && |data| <= room
      ensures Chunked(s, p, room) == Some(Body(data, next))
    {
      ChunkedReads(s, p, next, cs, last, lines, room);
    }
  }

  /** A counted body is the next octets, and one that lasts to the close everything there is, as long as they fit. */
  lemma OtherBodies(s: seq<byte>, p: nat, n: nat, whole: bool, cap: nat, data: seq<byte>, next: nat)
    requires p <= |s|
    ensures BodyOf(s, p, ByLength(n), whole, cap) == Some(Body(data, next))
       <==> |data| == n <= cap && next == p + n && Stands(s, p, data)
    ensures BodyOf(s, p, ByClose, whole, cap) == Some(Body(data, next))
       <==> whole && |data| <= cap && next == |s| && s == s[..p] + data
  {
    if whole && |data| <= cap && next == |s| && s == s[..p] + data {
      assert s[p..] == data;
    }
    assert s == s[..p] + s[p..];
  }
}
