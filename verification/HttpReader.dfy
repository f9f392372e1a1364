/** The buffered reader: whatever the sizes of the reads, it decodes the octets of the connection. */
module HttpReader {
  import opened Common
  import opened HttpText
  import opened HttpBody

  function Join(pieces: seq<seq<byte>>): seq<byte>
  {
    if pieces == [] then [] else pieces[0] + Join(pieces[1..])
  }

  predicate Splits(pieces: seq<seq<byte>>)
  {
    forall i :: 0 <= i < |pieces| ==> 0 < |pieces[i]| <= BUFFER
  }

  class Reader {
    const data: array<byte>
    var pos: nat
    var end: nat
    /** The reads the connection still has to answer. */
    var coming: seq<seq<byte>>
    /** How it ends after them: with an error, or in order. */
    const broken: bool
    /** Every octet of the connection, and how many are consumed. */
    ghost const stream: seq<byte>
    ghost var at: nat

    ghost predicate Valid()
      reads this, data
    {
      && data.Length == BUFFER && pos <= end <= BUFFER && Splits(coming)
      && at <= |stream| && stream[at..] == data[pos..end] + Join(coming)
    }

    constructor (pieces: seq<seq<byte>>, broken: bool)
      requires Splits(pieces)
      ensures Valid() && stream == Join(pieces) && at == 0 && this.broken == broken && fresh(data)
    {
      data := new byte[BUFFER];
      pos, end, coming, at := 0, 0, pieces, 0;
      this.broken := broken;
      stream := Join(pieces);
      new;
      assert data[0..0] + Join(pieces) == stream[0..];
    }

    /** Buffered octets are the next ones of the connection. */
    lemma Ahead(n: nat)
      requires Valid() && pos + n <= end
      ensures at + n <= |stream| && stream[at..at + n] == data[pos..pos + n]
      ensures n > 0 ==> stream[at] == data[pos]
      ensures stream[at + n..] == data[pos + n..end] + Join(coming)
    {
      var rest := stream[at..];
      assert rest[..n] == data[pos..end][..n] == data[pos..pos + n];
      assert stream[at..at + n] == rest[..n];
      assert stream[at + n..] == rest[n..];
      assert rest[n..] == data[pos..end][n..] + Join(coming);
      if n > 0 {
        assert stream[at] == rest[0] == data[pos..end][0];
      }
    }

    /** Makes sure an octet is buffered; DECLINED is the orderly end of the connection. */
    method Fill() returns (rc: Rc)
      requires Valid()
      modifies this, data
      ensures Valid() && at == old(at)
      ensures rc == if at < |stream| then OK else if broken then ERROR else DECLINED
      ensures rc == OK ==> pos < end
    {
      if pos < end {
        Ahead(1);
        return OK;
      }
      assert stream[at..] == Join(coming);
      if coming == [] {
        return if broken then ERROR else DECLINED;
      }
      var got := coming[0];
      forall i | 0 <= i < |got| {
        data[i] := got[i];
      }
      pos, end, coming := 0, |got|, coming[1..];
      assert data[pos..end] == got;
      return OK;
    }

    /** One buffered octet. */
    method Take() returns (c: byte)
      requires Valid() && pos < end
      modifies `pos, `at
      ensures Valid() && at == old(at) + 1 && c == stream[old(at)]
    {
      Ahead(1);
      c := data[pos];
      pos, at := pos + 1, at + 1;
    }

    /** A line up to CR LF, within the room for its text and the budget of octets. */
    method ReadLine(cap: nat, budget: nat) returns (line: Option<seq<byte>>, left: nat)
      requires Valid()
      modifies this, data
      ensures Valid() && old(at) <= at
      ensures var l := LineAt(stream, old(at), cap, budget);
              if l.None? then line.None?
              else line == Some(l.value.text) && left == l.value.budget && at == l.value.next
    {
      hide Splits, Join;
      ghost var start := at;
      var text: seq<byte> := [];
      left := budget;
      line := None;
      while true
        invariant Valid() && start == old(at) <= at && text == stream[start..at]
        invariant LineAt(stream, start, cap, budget) == LineFrom(stream, start, at, cap, left)
        decreases |stream| - at
      {
        if left == 0 {
          return;
        }
        var rc := Fill();
        if rc != OK {
          return;
        }
        var c := Take();
        left := left - 1;
        if c == 13 {
          if left == 0 {
            return;
          }
          rc := Fill();
          if rc != OK {
            return;
          }
          c := Take();
          if c != 10 {
            return;
          }
          return Some(text), left - 1;
        }
        if c == 10 || c == 0 || |text| + 1 >= cap {
          return;
        }
        assert stream[start..at] == stream[start..at - 1] + [c];
        text := text + [c];
      }
    }

    /** Copies `count` octets of the connection behind what the body already holds. */
    method ReadBytes(count: nat, buf: array<byte>, have: nat) returns (ok: bool, now: nat)
      requires Valid() && have <= buf.Length && buf != data
      modifies this, data, buf
      ensures Valid() && old(at) <= at
      ensures ok <==> count <= buf.Length - have && old(at) + count <= |stream|
      ensures ok ==> now == have + count && at == old(at) + count
      ensures ok ==> buf[..now] == old(buf[..have]) + stream[old(at)..old(at) + count]
    {
      now := have;
      if count > buf.Length - have {
        return false, now;
      }
      ghost var start, before := at, buf[..have];
      var left := count;
      assert stream[start..start] == [] && before + [] == before;
      while left != 0
        invariant Valid() && start == old(at) <= at && at - start == count - left == now - have && 0 <= left <= count
        invariant at <= |stream| && now <= buf.Length && buf[..now] == before + stream[start..at]
        decreases left
      {
        ghost var from := at;
        var n := ReadSome(left, buf, now);
        if n == 0 {
          return false, now;
        }
        assert stream[start..from] + stream[from..at] == stream[start..at];
        ConcatAssociative(before, stream[start..from], stream[from..at]);
        now, left := now + n, left - n;
      }
      return true, now;
    }

    /** What one refill has, as far as it is wanted; nothing only at the end of the connection. */
    method ReadSome(left: nat, buf: array<byte>, now: nat) returns (n: nat)
      requires Valid() && 0 < left && now + left <= buf.Length && buf != data
      modifies this, data, buf
      ensures Valid() && n <= left && at == old(at) + n <= |stream|
      ensures n == 0 <==> old(at) == |stream|
      ensures buf[..now + n] == old(buf[..now]) + stream[old(at)..at]
    {
      hide Splits, Join;
      var rc := Fill();
      if rc != OK {
        assert stream[at..at] == [] && buf[..now] + [] == buf[..now];
        return 0;
      }
      n := Min(end - pos, left);
      Ahead(n);
      CopyTo(buf, now, n);
      pos, at := pos + n, at + n;
    }

    method CopyTo(buf: array<byte>, to: nat, n: nat)
      requires pos + n <= end <= data.Length && to + n <= buf.Length && buf != data
      modifies buf
      ensures buf[..to + n] == old(buf[..to]) + data[pos..pos + n]
    {
      forall i | 0 <= i < n {
        buf[to + i] := data[pos + i];
      }
      assert buf[..to + n] == buf[..to] + buf[to..to + n];
    }

    /** The trailer section, up to its empty line. */
    method ReadTrailers() returns (ok: bool)
      requires Valid()
      modifies this, data
      ensures Valid() && old(at) <= at
      ensures ok <==> TrailersEnd(stream, old(at), HEADER_MAX).Some?
      ensures ok ==> at == TrailersEnd(stream, old(at), HEADER_MAX).value
    {
      hide TrailerField, LineFrom;
      var budget: nat := HEADER_MAX;
      ghost var start := at;
      while true
        invariant Valid() && start == old(at) <= at
        invariant TrailersEnd(stream, start, HEADER_MAX) == TrailersEnd(stream, at, budget)
        decreases |stream| - at
      {
        ghost var from := at;
        var line;
        line, budget := ReadLine(LINE_MAX, budget);
        if line.None? {
          return false;
        }
        if line.value == [] {
          return true;
        }
        if !TrailerField(line.value) {
          return false;
        }
      }
    }

    /** A chunk's header line and the size it announces. */
    method ReadHeader() returns (size: Option<nat>)
      requires Valid()
      modifies this, data
      ensures Valid() && old(at) <= at
      ensures var h := HeaderAt(stream, old(at));
              if h.None? then size.None? else size == Some(h.value.0) && at == h.value.1
    {
      hide LineFrom, ChunkSize;
      ghost var start := at;
      var line, left := ReadLine(LINE_MAX, LINE_MAX);
      if line.None? {
        return None;
      }
      LineHasNoNul(stream, start, LINE_MAX, LINE_MAX);
      size := ParseChunkSize(line.value);
    }

    /** The chunk loop. */
    method ReadChunked(buf: array<byte>) returns (ok: bool, have: nat)
      requires Valid() && buf != data
      modifies this, data, buf
      ensures Valid() && old(at) <= at
      ensures var b := Chunked(stream, old(at), buf.Length);
              (ok <==> b.Some?) && (ok ==> have == |b.value.data| && buf[..have] == b.value.data && at == b.value.next)
    {
      hide HeaderAt, TrailersEnd, DataAt, Chunked, StillAhead;
      ghost var start := at;
      have := 0;
      ChunkedStart(stream, start, buf.Length, buf[..have]);
      while true
        invariant Valid() && start == old(at) <= at && have <= buf.Length
        invariant StillAhead(stream, start, at, buf.Length, buf[..have])
        decreases |stream| - at
      {
        ghost var from, written := at, buf[..have];
        var size := ReadHeader();
        AheadStep(stream, start, from, buf.Length, written);
        if size.None? {
          return false, have;
        }
        if size.value == 0 {
          ok := ReadTrailers();
          return ok, have;
        }
        ok, have := ReadChunk(size.value, buf, have);
        if !ok {
          return false, have;
        }
      }
    }

    /** Everything up to the orderly end of the connection. */
    method ReadToClose(buf: array<byte>) returns (ok: bool, have: nat)
      requires Valid() && buf != data
      modifies this, data, buf
      ensures Valid() && old(at) <= at
      ensures ok <==> !broken && |stream| - old(at) <= buf.Length
      ensures ok ==> have == |stream| - old(at) && at == |stream| && buf[..have] == stream[old(at)..]
    {
      hide Splits, Join;
      ghost var start := at;
      have := 0;
      assert stream[start..start] == buf[..0];
      while true
        invariant Valid() && start == old(at) <= at <= |stream| && have == at - start && have <= buf.Length
        invariant buf[..have] == stream[start..at]
        decreases |stream| - at
      {
        ghost var from := at;
        var rc := Fill();
        if rc == DECLINED {
          assert stream[start..at] == stream[start..];
          return true, have;
        }
        if rc != OK {
          return false, have;
        }
        Ahead(end - pos);
        ok, have := ReadBytes(end - pos, buf, have);
        if !ok {
          return false, have;
        }
        assert stream[start..from] + stream[from..at] == stream[start..at];
      }
    }

    /**
     * The body of a response.  It is what the octets of the connection say,
     * however they were split into reads; octets the buffer holds beyond it
     * fail the response.
     */
    method ReadBody(framing: Framing, buf: array<byte>) returns (ok: bool, have: nat)
      requires Valid() && buf != data
      modifies this, data, buf
      ensures Valid()
      ensures var b := BodyOf(stream, old(at), framing, !broken, buf.Length);
              && (b.None? ==> !ok)
              && (ok ==> have == |b.value.data| && buf[..have] == b.value.data && at == b.value.next)
              && (b.Some? && b.value.next == |stream| ==> ok)
    {
      match framing {
        case ByChunks =>
          ok, have := ReadChunked(buf);
        case ByLength(n) =>
          ok, have := ReadBytes(n, buf, 0);
        case ByClose =>
          ok, have := ReadToClose(buf);
      }
      if ok && pos != end {
        Ahead(end - pos);
        ok := false;
      }
    }

    /** A chunk's data and the empty line after it. */
    method ReadChunk(size: nat, buf: array<byte>, have: nat) returns (ok: bool, now: nat)
      requires Valid() && have <= buf.Length && buf != data
      modifies this, data, buf
      ensures Valid() && old(at) <= at
      ensures ok <==> DataAt(stream, old(at), size, buf.Length - have)
      ensures ok ==> now == have + size <= buf.Length && at == old(at) + size + 2
      ensures ok ==> buf[..now] == old(buf[..have]) + stream[old(at)..old(at) + size]
    {
      ok, now := ReadBytes(size, buf, have);
      if !ok {
        return;
      }
      ghost var after := at;
      var line, left := ReadLine(LINE_MAX, 2);
      EmptyLine(stream, after);
      ok := line == Some([]);
    }
  }

  /**
   * A connection whose octets are one chunked response, split into reads in
   * any way: the body comes out whole, or nothing does when it exceeds the room.
   */
  method DecodeReads(ghost cs: seq<Chunk>, ghost tail: seq<byte>, pieces: seq<seq<byte>>, broken: bool, cap: nat)
      returns (ok: bool, body: seq<byte>)
    requires (forall i :: 0 <= i < |cs| ==> WellFormed(cs[i])) && IsTail(tail)
    requires Splits(pieces) && Join(pieces) == ChunksText(cs, tail)
    ensures ok <==> |Data(cs)| <= cap
    ensures ok ==> body == Data(cs)
  {
    hide WellFormed, IsTail, ChunksText, Chunked, Join, Splits;
    ChunkedRoundTrip(cs, tail, cap);
    var r := new Reader(pieces, broken);
    var buf := new byte[cap];
    var have;
    ok, have := r.ReadBody(ByChunks, buf);
    body := if ok then buf[..have] else [];
  }

  /** A line within two octets is a bare CR LF. */
  lemma EmptyLine(s: seq<byte>, p: nat)
    requires p <= |s|
    ensures CrLfAt(s, p) <==> LineAt(s, p, LINE_MAX, 2).Some? && LineAt(s, p, LINE_MAX, 2).value.text == []
    ensures CrLfAt(s, p) ==> LineAt(s, p, LINE_MAX, 2).value.next == p + 2
  {
    if CrLfAt(s, p) {
      assert s[p..p] == [];
      LineReads(s, p, p, [], LINE_MAX, 2);
    }
    if LineAt(s, p, LINE_MAX, 2).Some? {
      LineMeans(s, p, p, LINE_MAX, 2);
    }
  }

  lemma LineHasNoNul(s: seq<byte>, p: nat, cap: nat, budget: nat)
    requires p <= |s| && LineAt(s, p, cap, budget).Some?
    ensures NoNul(LineAt(s, p, cap, budget).value.text)
  {
    LineMeans(s, p, p, cap, budget);
  }

  /** What is still to be decoded, given what is already in the body. */
  ghost predicate StillAhead(s: seq<byte>, start: nat, p: nat, cap: nat, written: seq<byte>)
  {
    && |written| <= cap
    && var rest := Chunked(s, p, cap - |written|);
       Chunked(s, start, cap) == if rest.None? then None else Some(Body(written + rest.value.data, rest.value.next))
  }

  lemma ChunkedStart(s: seq<byte>, start: nat, cap: nat, nothing: seq<byte>)
    requires nothing == []
    ensures StillAhead(s, start, start, cap, nothing)
  {
    hide Chunked;
    if Chunked(s, start, cap).Some? {
      assert nothing + Chunked(s, start, cap).value.data == Chunked(s, start, cap).value.data;
    }
  }

  /** The chunked body, unfolded once. */
  lemma ChunkedUnfolds(s: seq<byte>, p: nat, room: nat)
    ensures var h := HeaderAt(s, p);
            Chunked(s, p, room) ==
            if h.None? then None
            else
              var (size, at) := h.value;
              if size == 0 then (var e := TrailersEnd(s, at, HEADER_MAX); if e.None? then None else Some(Body([], e.value)))
              else if !DataAt(s, at, size, room) then None
              else
                var rest := Chunked(s, at + size + 2, room - size);
                if rest.None? then None else Some(Body(s[at..at + size] + rest.value.data, rest.value.next))
  {
  }

  /** One chunk further: the end, a failure, or the same question behind the chunk. */
  lemma AheadStep(s: seq<byte>, start: nat, p: nat, cap: nat, written: seq<byte>)
    requires StillAhead(s, start, p, cap, written)
    ensures var h := HeaderAt(s, p);
            if h.None? then Chunked(s, start, cap) == None
            else
              var (size, at) := h.value;
              if size == 0 then
                Chunked(s, start, cap) == (var e := TrailersEnd(s, at, HEADER_MAX); if e.None? then None else Some(Body(written, e.value)))
              else if !DataAt(s, at, size, cap - |written|) then Chunked(s, start, cap) == None
              else at + size <= |s| && StillAhead(s, start, at + size + 2, cap, written + s[at..at + size])
  {
    hide HeaderAt, TrailersEnd, DataAt, Chunked;
    ChunkedUnfolds(s, p, cap - |written|);
    assert written + [] == written;
    var h := HeaderAt(s, p);
    if h.Some? {
      var (size, at) := h.value;
      if size > 0 && DataAt(s, at, size, cap - |written|) {
        var rest := Chunked(s, at + size + 2, cap - |written| - size);
        if rest.Some? {
          ConcatAssociative(written, s[at..at + size], rest.value.data);
        }
      }
    }
  }
}
