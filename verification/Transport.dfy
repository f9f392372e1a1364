/**
 * What the frame transport promises over whole runs: exact delivery over a
 * FIFO channel with backpressure, frame integrity over a lossy one, and the
 * owner's account of what it did not receive.
 */
module Transport {
  import opened Common
  import opened Ipc

  /** The receiver takes frames of 1 byte to 4 MiB; the sender does not check. */
  predicate Fits(f: Frame) { 0 < |f.data| <= MAX_FRAME }

  /** A payload whose length the header's 32-bit total can name. */
  predicate Nameable(f: Frame) { |f.data| < TWO32 }

  predicate AllFit(frames: seq<Frame>)
  {
    forall i :: 0 <= i < |frames| ==> Fits(frames[i])
  }

  predicate AllNameable(frames: seq<Frame>)
  {
    forall i :: 0 <= i < |frames| ==> Nameable(frames[i])
  }

  function UnitOf(f: Frame): Unit { Unit(f.header.id, f.data) }

  /** Send answers OK for a frame whose first datagram is the w-th write. */
  predicate SentWhole(f: Frame, kernel: Kernel, w: nat)
  {
    Taken(kernel, w, |Chunks(f)|) == |Chunks(f)|
  }

  function NextWrite(f: Frame, kernel: Kernel, w: nat): nat
  {
    w + WritesUsed(kernel, w, |Chunks(f)|)
  }

  /** Everything that sending the frames one after the other puts on the wire. */
  function Wire(frames: seq<Frame>, kernel: Kernel, w: nat): seq<Message>
    decreases |frames|
  {
    if frames == [] then [] else
      Chunks(frames[0])[..Taken(kernel, w, |Chunks(frames[0])|)]
      + Wire(frames[1..], kernel, NextWrite(frames[0], kernel, w))
  }

  /** The frames whose send answered OK and that the receiver accepts, in send order. */
  function Carried(frames: seq<Frame>, kernel: Kernel, w: nat): seq<Unit>
    decreases |frames|
  {
    if frames == [] then [] else
      (if SentWhole(frames[0], kernel, w) && Fits(frames[0]) then [UnitOf(frames[0])] else [])
      + Carried(frames[1..], kernel, NextWrite(frames[0], kernel, w))
  }

  lemma {:induction false} DeliverConcat(s: Slot, a: seq<Message>, b: seq<Message>)
    ensures DeliverAll(s, a + b) == DeliverAll(DeliverAll(s, a), b)
    decreases |a|
  {
    if a == [] {
      assert a + b == b;
    } else {
      assert (a + b)[0] == a[0] && (a + b)[1..] == a[1..] + b;
      DeliverConcat(Deliver(s, a[0], true), a[1..], b);
    }
  }

  /** The open reassembly holds the first pos bytes of f. */
  predicate OpenAt(p: Partial, f: Frame, pos: nat)
  {
    && pos <= |f.data| && p.Open? && p.data == f.data[..pos]
    && p.header.id == f.header.id && p.header.total == |f.data|
  }

  lemma NextChunk(s: Slot, f: Frame, pos: nat) returns (s': Slot)
    requires Fits(f) && 0 < pos < |f.data| && OpenAt(s.partial, f, pos)
    ensures s' == Deliver(s, Chunk(f.header, f.data, pos), true)
    ensures var end := pos + Take(|f.data|, pos);
            if end == |f.data| then s' == s.(partial := Idle, emitted := s.emitted + [UnitOf(f)])
            else OpenAt(s'.partial, f, end) && s' == s.(partial := s'.partial)
  {
    var end := pos + Take(|f.data|, pos);
    s' := Deliver(s, Chunk(f.header, f.data, pos), true);
    assert f.data[..pos] + f.data[pos..end] == f.data[..end];
    assert f.data[..|f.data|] == f.data;
  }

  /** The chunks after the first, fed to the frame that is open for them. */
  lemma {:induction false} TailRun(s: Slot, f: Frame, pos: nat, n: nat)
    requires Fits(f) && 0 < pos < |f.data| && OpenAt(s.partial, f, pos)
    requires n <= |ChunksFrom(f.header, f.data, pos)|
    ensures var r := DeliverAll(s, ChunksFrom(f.header, f.data, pos)[..n]);
            if n == |ChunksFrom(f.header, f.data, pos)| then
              r == s.(partial := Idle, emitted := s.emitted + [UnitOf(f)])
            else
              r.partial.Open? && r == s.(partial := r.partial)
    decreases |f.data| - pos
  {
    if n > 0 {
      var end := pos + Take(|f.data|, pos);
      var m, rest := Chunk(f.header, f.data, pos), ChunksFrom(f.header, f.data, end);
      assert ChunksFrom(f.header, f.data, pos)[..n] == [m] + rest[..n - 1];
      var s' := NextChunk(s, f, pos);
      assert DeliverAll(s, [m] + rest[..n - 1]) == DeliverAll(s', rest[..n - 1]);
      if end < |f.data| {
        TailRun(s', f, end, n - 1);
      }
    }
  }

  /** A prefix of the chunks of a frame no receiver takes: each one is refused. */
  lemma {:induction false} OversizeTail(s: Slot, f: Frame, pos: nat, n: nat)
    requires Nameable(f) && |f.data| > MAX_FRAME && 0 < pos <= |f.data|
    requires n <= |ChunksFrom(f.header, f.data, pos)| && s.partial.Idle?
    ensures var r := DeliverAll(s, ChunksFrom(f.header, f.data, pos)[..n]);
            r == s.(errors := r.errors)
    decreases |f.data| - pos
  {
    var all := ChunksFrom(f.header, f.data, pos);
    if pos < |f.data| && n > 0 {
      assert all[..n][0] == Chunk(f.header, f.data, pos);
      assert all[..n][1..] == ChunksFrom(f.header, f.data, pos + Take(|f.data|, pos))[..n - 1];
      OversizeTail(Deliver(s, all[0], true), f, pos + Take(|f.data|, pos), n - 1);
    }
  }

  /** The effect on the slot of the first n chunks of one frame, whatever was open before. */
  predicate AfterFrame(s: Slot, f: Frame, n: nat, r: Slot)
  {
    && r.emitted == s.emitted + (if Fits(f) && n == |Chunks(f)| then [UnitOf(f)] else [])
    && r.restarts == s.restarts + (if n > 0 && f.data != [] && s.partial.Open? then 1 else 0)
    && (r.partial.Open? <==> if n == 0 || f.data == [] then s.partial.Open?
                             else Fits(f) && n < |Chunks(f)|)
    && if n > 0 && Fits(f) then
         r.sequenced && r.next == f.header.id.sequence + 1
         && r.gaps == Sequenced(s, f.header.id.sequence).gaps
       else r.sequenced == s.sequenced && r.next == s.next && r.gaps == s.gaps
  }

  /** The first chunk opens its frame, whatever was open before. */
  lemma FirstChunk(s: Slot, f: Frame) returns (r: Slot)
    requires Fits(f)
    ensures r == Deliver(s, Chunk(f.header, f.data, 0), true)
    ensures var all := |f.data| <= MAX_PAYLOAD;
            && r.emitted == s.emitted + (if all then [UnitOf(f)] else [])
            && r.restarts == s.restarts + (if s.partial.Open? then 1 else 0)
            && r.sequenced && r.next == f.header.id.sequence + 1
            && r.gaps == Sequenced(s, f.header.id.sequence).gaps
            && (if all then r.partial.Idle? else
                  && r.partial.Open? && r.partial.data == f.data[..MAX_PAYLOAD]
                  && r.partial.header.id == f.header.id && r.partial.header.total == |f.data|)
  {
    var take := Take(|f.data|, 0);
    r := Deliver(s, Chunk(f.header, f.data, 0), true);
    assert [] + f.data[0..take] == f.data[..take];
    if take == |f.data| {
      assert f.data[..take] == f.data;
    }
  }

  lemma FittingRun(s: Slot, f: Frame, n: nat)
    requires Fits(f) && 0 < n <= |Chunks(f)|
    ensures AfterFrame(s, f, n, DeliverAll(s, Chunks(f)[..n]))
  {
    var take := Take(|f.data|, 0);
    var first, tail := Chunk(f.header, f.data, 0), ChunksFrom(f.header, f.data, take);
    assert Chunks(f)[..n] == [first] + tail[..n - 1];
    var s' := FirstChunk(s, f);
    var r := DeliverAll(s', tail[..n - 1]);
    assert DeliverAll(s, [first] + tail[..n - 1]) == r;
    if take < |f.data| {
      TailRun(s', f, take, n - 1);
    }
  }

  lemma OversizeRun(s: Slot, f: Frame, n: nat)
    requires Nameable(f) && |f.data| > MAX_FRAME && 0 < n <= |Chunks(f)|
    ensures AfterFrame(s, f, n, DeliverAll(s, Chunks(f)[..n]))
  {
    var take := Take(|f.data|, 0);
    var first, tail := Chunk(f.header, f.data, 0), ChunksFrom(f.header, f.data, take);
    assert Chunks(f)[..n] == [first] + tail[..n - 1];
    var s' := Deliver(s, first, true);
    OversizeTail(s', f, take, n - 1);
  }

  lemma FrameRun(s: Slot, f: Frame, n: nat)
    requires Nameable(f) && n <= |Chunks(f)|
    ensures AfterFrame(s, f, n, DeliverAll(s, Chunks(f)[..n]))
  {
    if n > 0 {
      if f.data == [] {
        assert Chunks(f)[..n] == [Message(f.header, [])];
      } else if Fits(f) {
        FittingRun(s, f, n);
      } else {
        OversizeRun(s, f, n);
      }
    }
  }

  /** One frame of a run: its chunks, then the rest of the wire. */
  lemma FrameThenRest(s: Slot, frames: seq<Frame>, kernel: Kernel, w: nat) returns (s': Slot)
    requires frames != [] && Nameable(frames[0])
    ensures AfterFrame(s, frames[0], Taken(kernel, w, |Chunks(frames[0])|), s')
    ensures DeliverAll(s, Wire(frames, kernel, w))
         == DeliverAll(s', Wire(frames[1..], kernel, NextWrite(frames[0], kernel, w)))
  {
    var n := Taken(kernel, w, |Chunks(frames[0])|);
    FrameRun(s, frames[0], n);
    DeliverConcat(s, Chunks(frames[0])[..n], Wire(frames[1..], kernel, NextWrite(frames[0], kernel, w)));
    s' := DeliverAll(s, Chunks(frames[0])[..n]);
  }

  /**
   * Over a FIFO channel, whatever datagram backpressure strikes, the owner
   * hands on exactly the frames whose send answered OK (and that fit), byte
   * for byte and in order: a frame abandoned after any number of chunks is
   * never handed on and never costs the frame that follows it.
   */
  lemma {:induction false} ExactDelivery(frames: seq<Frame>, kernel: Kernel, w: nat, s: Slot)
    requires AllNameable(frames)
    ensures DeliverAll(s, Wire(frames, kernel, w)).emitted == s.emitted + Carried(frames, kernel, w)
    decreases |frames|
  {
    if frames == [] {
      assert Wire(frames, kernel, w) == [] && s.emitted + [] == s.emitted;
    } else {
      var s' := FrameThenRest(s, frames, kernel, w);
      var w' := NextWrite(frames[0], kernel, w);
      ExactDelivery(frames[1..], kernel, w', s');
      var head := if SentWhole(frames[0], kernel, w) && Fits(frames[0]) then [UnitOf(frames[0])] else [];
      var rest := Carried(frames[1..], kernel, w');
      assert Carried(frames, kernel, w) == head + rest;
      assert s'.emitted == s.emitted + head;
      ConcatAssociative(s.emitted, head, rest);
    }
  }

  // ---- what the owner can tell it lost --------------------------------------

  predicate Increasing(frames: seq<Frame>)
  {
    forall i, j :: 0 <= i < j < |frames| ==>
      frames[i].header.id.sequence < frames[j].header.id.sequence
  }

  /** The sequence number of the first frame the owner sees a chunk of. */
  function FirstSeen(frames: seq<Frame>, kernel: Kernel, w: nat): nat
    decreases |frames|
  {
    if frames == [] then 0
    else if Fits(frames[0]) && Taken(kernel, w, |Chunks(frames[0])|) > 0 then
      frames[0].header.id.sequence
    else FirstSeen(frames[1..], kernel, NextWrite(frames[0], kernel, w))
  }

  /** Handed on, abandoned, open and skipped frames add up to the numbers passed. */
  predicate Accounted(s: Slot, first: nat)
  {
    if s.sequenced then
      |s.emitted| + s.restarts + s.gaps + (if s.partial.Open? then 1 else 0) + first == s.next
    else
      s.emitted == [] && s.restarts == 0 && s.gaps == 0 && s.partial.Idle?
  }

  lemma AccountStep(s: Slot, f: Frame, n: nat, s': Slot, first: nat)
    requires n <= |Chunks(f)| && AfterFrame(s, f, n, s') && Accounted(s, first)
    requires s.sequenced ==> f.header.id.sequence >= s.next
    ensures Accounted(s', if s.sequenced then first else f.header.id.sequence)
  {
  }

  /**
   * The owner's counters account for every number the sender used: over any
   * run of numbered frames, frames handed on + frames seen to be abandoned +
   * sequence gaps + the one still open = the numbers from the first seen on.
   */
  lemma {:induction false} LossAccount(frames: seq<Frame>, kernel: Kernel, w: nat, s: Slot, first: nat)
    requires AllNameable(frames)
    requires Increasing(frames)
    requires Accounted(s, first)
    requires s.sequenced ==> forall i :: 0 <= i < |frames| ==> frames[i].header.id.sequence >= s.next
    ensures Accounted(DeliverAll(s, Wire(frames, kernel, w)),
                      if s.sequenced then first else FirstSeen(frames, kernel, w))
    decreases |frames|
  {
    if frames != [] {
      var f := frames[0];
      var s' := FrameThenRest(s, frames, kernel, w);
      AccountStep(s, f, Taken(kernel, w, |Chunks(f)|), s', first);
      assert forall i :: 0 <= i < |frames[1..]| ==> f.header.id.sequence < frames[1..][i].header.id.sequence;
      LossAccount(frames[1..], kernel, NextWrite(f, kernel, w), s',
                  if s.sequenced then first else f.header.id.sequence);
    }
  }

  // ---- a channel that loses datagrams ----------------------------------------

  /** The chunk-th datagram of frames[frame]. */
  datatype Pick = Pick(frame: nat, chunk: nat) {
    function Pos(): nat { chunk * MAX_PAYLOAD }
  }

  predicate IsPick(frames: seq<Frame>, p: Pick)
  {
    p.frame < |frames| && p.Pos() < |frames[p.frame].data|
  }

  function Picked(frames: seq<Frame>, p: Pick): Message
    requires IsPick(frames, p)
  {
    Chunk(frames[p.frame].header, frames[p.frame].data, p.Pos())
  }

  predicate Last(frames: seq<Frame>, p: Pick)
    requires IsPick(frames, p)
  {
    p.Pos() + MAX_PAYLOAD >= |frames[p.frame].data|
  }

  lemma {:induction false} ChunkAt(h: Header, data: seq<byte>, pos: nat, k: nat)
    requires pos <= |data| && k < |ChunksFrom(h, data, pos)|
    ensures pos + k * MAX_PAYLOAD < |data|
    ensures ChunksFrom(h, data, pos)[k] == Chunk(h, data, pos + k * MAX_PAYLOAD)
    decreases k
  {
    var next := pos + Take(|data|, pos);
    assert ChunksFrom(h, data, pos) == [Chunk(h, data, pos)] + ChunksFrom(h, data, next);
    if k > 0 {
      ChunkAt(h, data, next, k - 1);
      assert next + (k - 1) * MAX_PAYLOAD == pos + k * MAX_PAYLOAD;
    }
  }

  /** Every datagram the sender writes for a frame is one of its picks. */
  lemma ChunkIsPick(frames: seq<Frame>, i: nat, k: nat)
    requires i < |frames| && frames[i].data != [] && k < |Chunks(frames[i])|
    ensures IsPick(frames, Pick(i, k)) && Picked(frames, Pick(i, k)) == Chunks(frames[i])[k]
  {
    ChunkAt(frames[i].header, frames[i].data, 0, k);
  }

  /** No two frames of the session carry the same number (and so the same identity). */
  predicate Distinct(frames: seq<Frame>)
  {
    forall i, j :: 0 <= i < j < |frames| ==> frames[i].header.id != frames[j].header.id
  }

  predicate Before(p: Pick, q: Pick)
  {
    p.frame < q.frame || (p.frame == q.frame && p.chunk < q.chunk)
  }

  predicate Ordered(picks: seq<Pick>)
  {
    forall i, j :: 0 <= i < j < |picks| ==> Before(picks[i], picks[j])
  }

  predicate Valid(frames: seq<Frame>, picks: seq<Pick>)
  {
    && AllNameable(frames)
    && Distinct(frames)
    && forall p :: p in picks ==> IsPick(frames, p)
  }

  predicate PrefixOf(f: Frame, h: Header, data: seq<byte>)
  {
    h.id == f.header.id && h.total == |f.data| && data <= f.data
  }

  /** What the open reassembly holds is a prefix of one frame. */
  predicate Prefix(frames: seq<Frame>, p: Partial)
  {
    p.Open? ==> exists f :: f in frames && PrefixOf(f, p.header, p.data)
  }

  /** The slot after the picked datagrams, memory[k] saying whether the k-th can allocate. */
  function Receive(frames: seq<Frame>, s: Slot, picks: seq<Pick>, memory: seq<bool>): Slot
    requires |memory| == |picks| && forall p :: p in picks ==> IsPick(frames, p)
    decreases |picks|
  {
    if picks == [] then s else
      Receive(frames, Deliver(s, Picked(frames, picks[0]), memory[0]), picks[1..], memory[1..])
  }

  /** The frames handed on while the picks arrive, by index. */
  function HandedOn(frames: seq<Frame>, s: Slot, picks: seq<Pick>, memory: seq<bool>): seq<nat>
    requires |memory| == |picks| && forall p :: p in picks ==> IsPick(frames, p)
    decreases |picks|
  {
    if picks == [] then [] else
      var s' := Deliver(s, Picked(frames, picks[0]), memory[0]);
      (if s'.emitted == s.emitted then [] else [picks[0].frame])
      + HandedOn(frames, s', picks[1..], memory[1..])
  }

  function Units(frames: seq<Frame>, idx: seq<nat>): seq<Unit>
    requires forall k :: 0 <= k < |idx| ==> idx[k] < |frames|
  {
    if idx == [] then [] else [UnitOf(frames[idx[0]])] + Units(frames, idx[1..])
  }

  /** A frame's next chunk appended to its prefix. */
  lemma AppendNext(f: Frame, h: Header, data: seq<byte>)
    requires Nameable(f) && PrefixOf(f, h, data) && |data| < |f.data|
    ensures var end := |data| + Take(|f.data|, |data|);
            Append(h, data, Chunk(f.header, f.data, |data|)) ==
              (Open(h, f.data[..end]), if end < |f.data| then AGAIN else OK)
  {
    var end := |data| + Take(|f.data|, |data|);
    assert data + f.data[|data|..end] == f.data[..end];
  }

  /** A chunk appended to a prefix of some frame. */
  lemma AppendPick(frames: seq<Frame>, p: Pick, h: Header, data: seq<byte>)
    requires Valid(frames, [p]) && IsPick(frames, p)
    requires exists f :: f in frames && PrefixOf(f, h, data)
    ensures var f := frames[p.frame];
            var r := Append(h, data, Picked(frames, p));
            && (r.1 == AGAIN ==> PrefixOf(f, h, r.0.data) && r.0 == Open(h, r.0.data))
            && (r.1 == OK ==> Last(frames, p) && r.0 == Open(h, f.data))
  {
    var g :| g in frames && PrefixOf(g, h, data);
    var f := frames[p.frame];
    assert f in frames && Nameable(f);
    if h.id == f.header.id && |data| == p.Pos() {
      assert g == f;
      AppendNext(f, h, data);
      assert f.data[..|f.data|] == f.data;
    } else {
      assert Append(h, data, Picked(frames, p)).1 == ERROR;
    }
  }

  /** One datagram either hands on nothing or the whole frame it belongs to. */
  lemma OnePick(frames: seq<Frame>, s: Slot, p: Pick, memory: bool)
    requires Valid(frames, [p]) && IsPick(frames, p) && Prefix(frames, s.partial)
    ensures var s' := Deliver(s, Picked(frames, p), memory);
            && Prefix(frames, s'.partial)
            && (s'.emitted != s.emitted ==>
                  Last(frames, p) && s'.emitted == s.emitted + [UnitOf(frames[p.frame])])
  {
    var f, m := frames[p.frame], Picked(frames, p);
    assert f in frames && Nameable(f) && m.header.offset == p.Pos();
    if s.partial.Open? && p.chunk != 0 {
      AppendPick(frames, p, s.partial.header, s.partial.data);
    } else if p.chunk == 0 {
      assert PrefixOf(f, m.header, []);
      AppendPick(frames, p, m.header, []);
    }
  }

  /**
   * Whatever datagrams are lost (or doubled, or reordered) and whatever
   * allocation fails, every frame handed on is one whole sent frame, never a
   * splice of two.
   */
  lemma {:induction false} NoSplice(frames: seq<Frame>, s: Slot, picks: seq<Pick>, memory: seq<bool>)
    requires Valid(frames, picks) && |memory| == |picks| && Prefix(frames, s.partial)
    ensures var idx := HandedOn(frames, s, picks, memory);
            forall k :: 0 <= k < |idx| ==> idx[k] < |frames|
    ensures Receive(frames, s, picks, memory).emitted
         == s.emitted + Units(frames, HandedOn(frames, s, picks, memory))
    ensures Prefix(frames, Receive(frames, s, picks, memory).partial)
    decreases |picks|
  {
    if picks == [] {
      assert s.emitted + [] == s.emitted;
    } else {
      var p := picks[0];
      var s' := Deliver(s, Picked(frames, p), memory[0]);
      OnePick(frames, s, p, memory[0]);
      NoSplice(frames, s', picks[1..], memory[1..]);
      var rest := HandedOn(frames, s', picks[1..], memory[1..]);
      if s'.emitted != s.emitted {
        ConcatAssociative(s.emitted, [UnitOf(frames[p.frame])], Units(frames, rest));
        assert ([p.frame] + rest)[1..] == rest;
      } else {
        assert [] + rest == rest;
      }
    }
  }

  /** Frames handed on come from the picks. */
  lemma {:induction false} HandedOnPicked(frames: seq<Frame>, s: Slot, picks: seq<Pick>, memory: seq<bool>, i: nat)
    requires |memory| == |picks| && forall p :: p in picks ==> IsPick(frames, p)
    requires i in HandedOn(frames, s, picks, memory)
    ensures exists p :: p in picks && p.frame == i
    decreases |picks|
  {
    var s' := Deliver(s, Picked(frames, picks[0]), memory[0]);
    if i in HandedOn(frames, s', picks[1..], memory[1..]) {
      HandedOnPicked(frames, s', picks[1..], memory[1..], i);
    }
  }

  /** After a frame's last datagram, an ordered channel delivers later frames only. */
  lemma AfterLast(frames: seq<Frame>, picks: seq<Pick>, q: Pick)
    requires picks != [] && (forall p :: p in picks ==> IsPick(frames, p)) && Ordered(picks)
    requires IsPick(frames, picks[0]) && Last(frames, picks[0]) && q in picks[1..]
    ensures picks[0].frame < q.frame
  {
    var k :| 0 <= k < |picks[1..]| && picks[1..][k] == q;
    assert picks[k + 1] == q && Before(picks[0], picks[k + 1]);
    assert IsPick(frames, q);
  }

  predicate Climbing(idx: seq<nat>)
  {
    forall i, j :: 0 <= i < j < |idx| ==> idx[i] < idx[j]
  }

  /** When the channel keeps order, frames are handed on in send order, each at most once. */
  lemma {:induction false} InOrder(frames: seq<Frame>, s: Slot, picks: seq<Pick>, memory: seq<bool>)
    requires Valid(frames, picks) && |memory| == |picks| && Prefix(frames, s.partial)
    requires Ordered(picks)
    ensures Climbing(HandedOn(frames, s, picks, memory))
    decreases |picks|
  {
    if picks != [] {
      var p := picks[0];
      var s' := Deliver(s, Picked(frames, p), memory[0]);
      assert IsPick(frames, p);
      OnePick(frames, s, p, memory[0]);
      InOrder(frames, s', picks[1..], memory[1..]);
      var rest := HandedOn(frames, s', picks[1..], memory[1..]);
      if s'.emitted != s.emitted {
        forall k | 0 <= k < |rest| ensures p.frame < rest[k] {
          HandedOnPicked(frames, s', picks[1..], memory[1..], rest[k]);
          var q :| q in picks[1..] && q.frame == rest[k];
          AfterLast(frames, picks, q);
        }
        assert Climbing([p.frame] + rest);
      } else {
        assert HandedOn(frames, s, picks, memory) == rest;
      }
    }
  }
}
