/**
 * What the numbering of frames is for: two frames of one identity and one
 * length can be spliced by a channel that loses datagrams, unless they differ
 * within a single datagram's payload.
 */
module Splice {
  import opened Common
  import opened Ipc
  import opened Transport

  predicate Twins(a: Frame, b: Frame)
  {
    Fits(a) && a.header.id == b.header.id && |a.data| == |b.data|
  }

  /** No two chunks tell the frames apart. */
  predicate OneChunkApart(a: Frame, b: Frame)
    requires |a.data| == |b.data|
  {
    forall x, y :: 0 <= x < y < |a.data| && a.data[x] != b.data[x] && a.data[y] != b.data[y] ==>
      x / MAX_PAYLOAD == y / MAX_PAYLOAD
  }

  predicate ArePicks(frames: seq<Frame>, picks: seq<Pick>, memory: seq<bool>)
  {
    |memory| == |picks| && forall p :: p in picks ==> IsPick(frames, p)
  }

  /** Everything handed on is one of the two frames, whole. */
  predicate OneOrOther(a: Frame, b: Frame, got: seq<Unit>)
  {
    forall k :: 0 <= k < |got| ==> got[k] == UnitOf(a) || got[k] == UnitOf(b)
  }

  /** The reassembly holds a prefix of one frame or of the other. */
  predicate HalfOf(a: Frame, b: Frame, p: Partial)
  {
    p.Open? ==> PrefixOf(a, p.header, p.data) || PrefixOf(b, p.header, p.data)
  }

  /** Differences within one chunk: before a chunk that differs, nothing does. */
  lemma SameBefore(f: Frame, g: Frame, c: nat, x: nat)
    requires |f.data| == |g.data| && OneChunkApart(f, g)
    requires c * MAX_PAYLOAD <= x < |f.data| && f.data[x] != g.data[x]
    ensures f.data[..c * MAX_PAYLOAD] == g.data[..c * MAX_PAYLOAD]
  {
    forall y | 0 <= y < c * MAX_PAYLOAD ensures g.data[y] == f.data[y] {
      assert y / MAX_PAYLOAD < c <= x / MAX_PAYLOAD;
    }
  }

  lemma JoinedAt(t: seq<byte>, pos: nat, end: nat)
    requires pos <= end <= |t|
    ensures t[..pos] + t[pos..end] == t[..end]
  {
  }

  /** A prefix of one frame and the chunk of the other that follows make a prefix of one of them. */
  lemma EitherPrefix(f: Frame, g: Frame, c: nat, end: nat)
    requires |f.data| == |g.data| && OneChunkApart(f, g)
    requires c * MAX_PAYLOAD < end <= |f.data| && end <= (c + 1) * MAX_PAYLOAD
    ensures var mixed := g.data[..c * MAX_PAYLOAD] + f.data[c * MAX_PAYLOAD..end];
            mixed == f.data[..end] || mixed == g.data[..end]
  {
    hide OneChunkApart;
    var pos := c * MAX_PAYLOAD;
    if x :| pos <= x < end && f.data[x] != g.data[x] {
      SameBefore(f, g, c, x);
      JoinedAt(f.data, pos, end);
    } else {
      assert f.data[pos..end] == g.data[pos..end];
      JoinedAt(g.data, pos, end);
    }
  }

  /** A chunk appended to what is open: refused, or joined where it follows. */
  lemma AppendAt(f: Frame, pos: nat, h: Header, data: seq<byte>)
    requires Fits(f) && pos < |f.data| && h.id == f.header.id && h.total == |f.data| && |data| <= |f.data|
    ensures var r := Append(h, data, Chunk(f.header, f.data, pos));
            if |data| != pos then r == (Idle, ERROR)
            else
              var end := pos + Take(|f.data|, pos);
              r == (Open(h, data + f.data[pos..end]), if end < |f.data| then AGAIN else OK)
  {
  }

  /** So does the reassembly: a chunk of one frame, appended to a prefix of the other. */
  lemma AppendTwin(f: Frame, g: Frame, p: Pick, h: Header, data: seq<byte>)
    requires Twins(f, g) && OneChunkApart(f, g) && p.Pos() < |f.data| && PrefixOf(g, h, data)
    ensures var r := Append(h, data, Chunk(f.header, f.data, p.Pos()));
            && HalfOf(f, g, r.0)
            && (r.1 == OK ==> r.0.Open? && (r.0.data == f.data || r.0.data == g.data))
  {
    hide Append, Chunk, OneChunkApart;
    AppendAt(f, p.Pos(), h, data);
    if |data| == p.Pos() {
      var end := p.Pos() + Take(|f.data|, p.Pos());
      EitherPrefix(f, g, p.chunk, end);
      assert data == g.data[..p.chunk * MAX_PAYLOAD];
      assert f.data[..|f.data|] == f.data && g.data[..|f.data|] == g.data;
    }
  }

  lemma TwinPick(a: Frame, b: Frame, s: Slot, p: Pick, memory: bool)
    requires Twins(a, b) && OneChunkApart(a, b) && IsPick([a, b], p) && HalfOf(a, b, s.partial)
    ensures var s' := Deliver(s, Picked([a, b], p), memory);
            && HalfOf(a, b, s'.partial)
            && (s'.emitted == s.emitted
                || s'.emitted == s.emitted + [UnitOf(a)] || s'.emitted == s.emitted + [UnitOf(b)])
  {
    hide OneChunkApart, Append;
    var f, m := [a, b][p.frame], Picked([a, b], p);
    var g := if p.frame == 0 then b else a;
    Swapped(a, b);
    if s.partial.Open? && p.chunk != 0 {
      if PrefixOf(f, s.partial.header, s.partial.data) {
        AppendOwn(f, p, s.partial.header, s.partial.data);
      } else {
        AppendTwin(f, g, p, s.partial.header, s.partial.data);
      }
    } else if p.chunk == 0 {
      AppendOwn(f, p, m.header, []);
    }
    AppendFrames(s.partial, m);
  }

  lemma Swapped(a: Frame, b: Frame)
    requires Twins(a, b) && OneChunkApart(a, b)
    ensures Twins(b, a) && OneChunkApart(b, a)
  {
  }

  lemma AppendOwn(f: Frame, p: Pick, h: Header, data: seq<byte>)
    requires Fits(f) && p.Pos() < |f.data| && PrefixOf(f, h, data)
    ensures var r := Append(h, data, Chunk(f.header, f.data, p.Pos()));
            && (r.0.Open? ==> PrefixOf(f, r.0.header, r.0.data))
            && (r.1 == OK ==> r.0.Open? && r.0.data == f.data)
  {
    if |data| == p.Pos() {
      AppendNext(f, h, data);
      assert f.data[..|f.data|] == f.data;
    }
  }

  /** What a chunk is appended to keeps its header. */
  lemma AppendFrames(p: Partial, m: Message)
    ensures p.Open? && Append(p.header, p.data, m).0.Open? ==> Append(p.header, p.data, m).0.header == p.header
    ensures p.Open? ==> Append(p.header, p.data, m).1 in {OK, AGAIN, ERROR}
    ensures p.Open? && Append(p.header, p.data, m).1 == OK ==> p.header.id == m.header.id
  {
  }

  lemma {:induction false} TwinsWhole(a: Frame, b: Frame, s: Slot, picks: seq<Pick>, memory: seq<bool>)
    requires Twins(a, b) && OneChunkApart(a, b) && ArePicks([a, b], picks, memory)
    requires HalfOf(a, b, s.partial) && OneOrOther(a, b, s.emitted)
    ensures OneOrOther(a, b, Receive([a, b], s, picks, memory).emitted)
    decreases |picks|
  {
    if picks != [] {
      TwinPick(a, b, s, picks[0], memory[0]);
      TwinsWhole(a, b, Deliver(s, Picked([a, b], picks[0]), memory[0]), picks[1..], memory[1..]);
    }
  }

  // ---- two chunks apart ----------------------------------------------------------

  /** The message is, to the receiver, the chunk of f at pos. */
  predicate LikeChunk(m: Message, f: Frame, pos: nat)
    requires pos < |f.data|
  {
    var c := Chunk(f.header, f.data, pos);
    && m.payload == c.payload && m.header.id == c.header.id && m.header.total == c.header.total
    && m.header.offset == c.header.offset && m.header.flags.more == c.header.flags.more
  }

  /** What the receiver makes of the next chunk of f. */
  lemma LikeFed(p: Partial, m: Message, f: Frame, pos: nat)
    requires Fits(f) && pos < |f.data| && LikeChunk(m, f, pos)
    requires if pos == 0 then p.Idle? else OpenAt(p, f, pos)
    ensures var r, end := Feed(p, m, true), pos + Take(|f.data|, pos);
            && m.payload != [] && m.header.id == f.header.id
            && r.rc == (if end == |f.data| then OK else AGAIN) && OpenAt(r.partial, f, end)
  {
    var end := pos + Take(|f.data|, pos);
    assert f.data[..pos] + f.data[pos..end] == f.data[..end];
    assert [] + f.data[0..end] == f.data[..end];
  }

  lemma LikeNext(s: Slot, m: Message, f: Frame, pos: nat) returns (s': Slot)
    requires Fits(f) && pos < |f.data| && LikeChunk(m, f, pos)
    requires if pos == 0 then s.partial.Idle? else OpenAt(s.partial, f, pos)
    ensures s' == Deliver(s, m, true)
    ensures var end := pos + Take(|f.data|, pos);
            if end == |f.data| then s'.emitted == s.emitted + [UnitOf(f)]
            else OpenAt(s'.partial, f, end) && s'.emitted == s.emitted
  {
    hide Feed, LikeChunk;
    s' := Deliver(s, m, true);
    LikeFed(s.partial, m, f, pos);
    assert f.data[..|f.data|] == f.data;
  }

  /** Picks that carry, chunk by chunk, the bytes of f. */
  predicate Carry(frames: seq<Frame>, picks: seq<Pick>, f: Frame)
  {
    && |picks| * MAX_PAYLOAD >= |f.data| > (|picks| - 1) * MAX_PAYLOAD
    && forall k {:trigger picks[k]} :: 0 <= k < |picks| ==>
         && IsPick(frames, picks[k])
         && LikeChunk(Picked(frames, picks[k]), f, k * MAX_PAYLOAD)
  }

  lemma {:induction false} CarryRun(frames: seq<Frame>, s: Slot, picks: seq<Pick>, memory: seq<bool>, f: Frame, i: nat)
    requires Fits(f) && ArePicks(frames, picks, memory) && Carry(frames, picks, f) && i < |picks|
    requires forall k :: 0 <= k < |memory| ==> memory[k]
    requires if i == 0 then s.partial.Idle? else OpenAt(s.partial, f, i * MAX_PAYLOAD)
    ensures Receive(frames, s, picks[i..], memory[i..]).emitted == s.emitted + [UnitOf(f)]
    decreases |picks| - i
  {
    hide LikeChunk, OpenAt, Picked;
    assert picks[i] in picks && picks[i..][0] == picks[i] && memory[i..][0] == memory[i];
    var s' := LikeNext(s, Picked(frames, picks[i]), f, i * MAX_PAYLOAD);
    assert picks[i..][1..] == picks[i + 1..] && memory[i..][1..] == memory[i + 1..];
    if i + 1 < |picks| {
      CarryRun(frames, s', picks, memory, f, i + 1);
    } else {
      assert picks[i + 1..] == [];
    }
  }

  /** The first j + 1 datagrams of one frame and the others of the second: an ordered channel that loses the rest. */
  function Mixed(n: nat, j: nat): (picks: seq<Pick>)
    ensures |picks| == n && forall k :: 0 <= k < n ==> picks[k] == Pick(if k <= j then 0 else 1, k)
  {
    seq(n, (k: nat) => Pick(if k <= j then 0 else 1, k))
  }

  function Yes(n: nat): (memory: seq<bool>)
    ensures |memory| == n && forall k :: 0 <= k < n ==> memory[k]
  {
    seq(n, _ => true)
  }

  /** The first cut bytes of one frame, then what follows in the other. */
  function Spliced(a: Frame, b: Frame, cut: nat): (f: Frame)
    requires |a.data| == |b.data| && cut <= |a.data|
    ensures f.header == a.header && |f.data| == |a.data|
  {
    Frame(a.header, a.data[..cut] + b.data[cut..])
  }

  lemma SlicesOf(a: seq<byte>, b: seq<byte>, cut: nat, pos: nat, end: nat)
    requires |a| == |b| && cut <= |a| && pos <= end <= |a|
    ensures end <= cut ==> (a[..cut] + b[cut..])[pos..end] == a[pos..end]
    ensures cut <= pos ==> (a[..cut] + b[cut..])[pos..end] == b[pos..end]
  {
  }

  /** A chunk of a frame of the same identity and length, where the bytes are the same. */
  lemma SameBytes(g: Frame, f: Frame, pos: nat)
    requires pos < |f.data| == |g.data| && g.header.id == f.header.id
    requires g.data[pos..pos + Take(|f.data|, pos)] == f.data[pos..pos + Take(|f.data|, pos)]
    ensures LikeChunk(Chunk(g.header, g.data, pos), f, pos)
  {
  }

  lemma MixedLike(a: Frame, b: Frame, j: nat, k: nat, f: Frame)
    requires Twins(a, b) && (j + 1) * MAX_PAYLOAD <= |a.data| && k * MAX_PAYLOAD < |a.data|
    requires f == Spliced(a, b, (j + 1) * MAX_PAYLOAD)
    ensures var g := if k <= j then a else b; LikeChunk(Chunk(g.header, g.data, k * MAX_PAYLOAD), f, k * MAX_PAYLOAD)
  {
    hide LikeChunk, Chunk;
    var pos := k * MAX_PAYLOAD;
    SlicesOf(a.data, b.data, (j + 1) * MAX_PAYLOAD, pos, pos + Take(|f.data|, pos));
    SameBytes(if k <= j then a else b, f, pos);
  }

  lemma MixedCarry(a: Frame, b: Frame, n: nat, j: nat, f: Frame)
    requires Twins(a, b) && n * MAX_PAYLOAD >= |a.data| > (n - 1) * MAX_PAYLOAD
    requires (j + 1) * MAX_PAYLOAD <= |a.data| && f == Spliced(a, b, (j + 1) * MAX_PAYLOAD)
    ensures Carry([a, b], Mixed(n, j), f) && ArePicks([a, b], Mixed(n, j), Yes(n)) && Ordered(Mixed(n, j))
  {
    hide LikeChunk, Chunk, Spliced, Yes;
    var frames, picks := [a, b], Mixed(n, j);
    forall k | 0 <= k < n
      ensures IsPick(frames, picks[k]) && LikeChunk(Picked(frames, picks[k]), f, k * MAX_PAYLOAD)
    {
      MixedLike(a, b, j, k, f);
      assert picks[k].Pos() == k * MAX_PAYLOAD;
    }
  }

  /** Where the frames are cut, and into how many chunks. */
  lemma Cut(length: nat, x: nat, y: nat) returns (j: nat, n: nat)
    requires x < y < length && x / MAX_PAYLOAD != y / MAX_PAYLOAD
    ensures x < (j + 1) * MAX_PAYLOAD <= y && n * MAX_PAYLOAD >= length > (n - 1) * MAX_PAYLOAD && n > 0
  {
    j, n := x / MAX_PAYLOAD, (length - 1) / MAX_PAYLOAD + 1;
  }

  /** Two places in two chunks: an ordered channel can splice the frames there. */
  lemma TwinsSplice(a: Frame, b: Frame, x: nat, y: nat) returns (picks: seq<Pick>)
    requires Twins(a, b) && x < y < |a.data| && a.data[x] != b.data[x] && a.data[y] != b.data[y]
    requires x / MAX_PAYLOAD != y / MAX_PAYLOAD
    ensures ArePicks([a, b], picks, Yes(|picks|)) && Ordered(picks)
    ensures !OneOrOther(a, b, Receive([a, b], FRESH_SLOT, picks, Yes(|picks|)).emitted)
  {
    hide Receive, Carry, ArePicks, Ordered, Mixed, Yes;
    var j, n := Cut(|a.data|, x, y);
    var f := Spliced(a, b, (j + 1) * MAX_PAYLOAD);
    picks := Mixed(n, j);
    MixedCarry(a, b, n, j, f);
    assert picks[0..] == picks && Yes(n)[0..] == Yes(n);
    CarryRun([a, b], FRESH_SLOT, picks, Yes(n), f, 0);
    var got := Receive([a, b], FRESH_SLOT, picks, Yes(n)).emitted;
    assert got[0] == UnitOf(f) && f.data[x] == a.data[x] && f.data[y] == b.data[y];
  }

  /**
   * Exactly when the numbering is needed: two frames of one identity and
   * length are never spliced, whatever is lost, doubled, reordered or not
   * allocated, if and only if all their differences lie within one chunk.
   */
  lemma SpliceFreeIff(a: Frame, b: Frame)
    requires Twins(a, b)
    ensures (forall picks, memory :: ArePicks([a, b], picks, memory) ==>
               OneOrOther(a, b, Receive([a, b], FRESH_SLOT, picks, memory).emitted))
            <==> OneChunkApart(a, b)
  {
    if OneChunkApart(a, b) {
      forall picks, memory | ArePicks([a, b], picks, memory)
        ensures OneOrOther(a, b, Receive([a, b], FRESH_SLOT, picks, memory).emitted)
      {
        TwinsWhole(a, b, FRESH_SLOT, picks, memory);
      }
    } else {
      var x, y :| 0 <= x < y < |a.data| && a.data[x] != b.data[x] && a.data[y] != b.data[y]
                  && x / MAX_PAYLOAD != y / MAX_PAYLOAD;
      var picks := TwinsSplice(a, b, x, y);
      assert ArePicks([a, b], picks, Yes(|picks|));
    }
  }

  /** The smallest case: two such frames, each losing one datagram, are handed on as a frame nobody sent. */
  lemma SpliceWithoutNumbers(h: Header)
    ensures var a := Frame(h, seq(MAX_PAYLOAD + 1, _ => 0));
            var b := Frame(h, seq(MAX_PAYLOAD + 1, _ => 1));
            var r := Receive([a, b], FRESH_SLOT, [Pick(0, 0), Pick(1, 1)], [true, true]);
            && |r.emitted| == 1
            && r.emitted[0].data != a.data && r.emitted[0].data != b.data
  {
    var a := Frame(h, seq(MAX_PAYLOAD + 1, _ => 0));
    var b := Frame(h, seq(MAX_PAYLOAD + 1, _ => 1));
    var frames := [a, b];
    var picks := [Pick(0, 0), Pick(1, 1)];
    var m0, m1 := Picked(frames, picks[0]), Picked(frames, picks[1]);
    var s1 := Deliver(FRESH_SLOT, m0, true);
    assert s1.partial.Open? && s1.partial.data == m0.payload && s1.emitted == [];
    var s2 := Deliver(s1, m1, true);
    assert s2.emitted == [Unit(h.id, m0.payload + m1.payload)];
    assert (m0.payload + m1.payload)[0] == 0 && (m0.payload + m1.payload)[MAX_PAYLOAD] == 1;
    assert picks[1..] == [picks[1]] && [true, true][1..] == [true];
    assert Receive(frames, s1, [picks[1]], [true]) == s2;
    assert a.data[MAX_PAYLOAD] == 0 && b.data[0] == 1;
  }
}
