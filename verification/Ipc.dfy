/**
 * The inter-worker frame transport: the sender's chunk loop, the receiver's
 * reassembly and the slot of the owner's runtime that a session feeds.
 */
module Ipc {
  import opened Common

  const MAX_PAYLOAD := 64 * 1024 - 96
  const MAX_FRAME := 4 * 1024 * 1024

  /** The header fields the receiver compares chunk by chunk, total aside. */
  datatype FrameId = FrameId(
    hash: nat, incarnation: nat, session: nat, sequence: nat, kind: nat,
    pts: int, dts: int, mediaType: nat, codec: nat, payloadFormat: nat,
    track: nat, keyframe: bool, config: bool)

  /** The 16 flag bits: bit 0 says more chunks follow, the others are carried along. */
  datatype Flags = Flags(more: bool, others: nat)

  datatype Header = Header(
    id: FrameId, flags: Flags, length: nat, total: nat, offset: nat,
    sourceType: nat, priority: nat)

  /** One datagram: SOCK_SEQPACKET delivers it whole or not at all. */
  datatype Message = Message(header: Header, payload: seq<byte>)

  datatype Frame = Frame(header: Header, data: seq<byte>)

  // ---- the sender ---------------------------------------------------------

  /** What sendmsg answers to one datagram. */
  datatype WriteOutcome = Written | NoRoom | Interrupted | Failed

  /** The outcome of the k-th datagram written to an endpoint. */
  type Kernel = nat -> WriteOutcome

  /** The bytes of the chunk that starts at pos. */
  function Take(length: nat, pos: nat): (take: nat)
    requires pos < length
  {
    Min(length - pos, MAX_PAYLOAD)
  }

  /** The header of a chunk: the casts to uint32_t wrap, as the code's do. */
  function ChunkHeader(h: Header, length: nat, pos: nat, take: nat): Header
  {
    h.(length := take % TWO32, total := length % TWO32, offset := pos % TWO32,
       flags := h.flags.(more := pos + take < length))
  }

  function Chunk(h: Header, data: seq<byte>, pos: nat): Message
    requires pos < |data|
  {
    var take := Take(|data|, pos);
    Message(ChunkHeader(h, |data|, pos, take), data[pos..pos + take])
  }

  function ChunksFrom(h: Header, data: seq<byte>, pos: nat): seq<Message>
    requires pos <= |data|
    decreases |data| - pos
  {
    if pos == |data| then [] else
      [Chunk(h, data, pos)] + ChunksFrom(h, data, pos + Take(|data|, pos))
  }

  /** The datagrams of one frame; a frame without payload is its header alone. */
  function Chunks(f: Frame): seq<Message>
  {
    if f.data == [] then [Message(f.header, [])] else ChunksFrom(f.header, f.data, 0)
  }

  /**
   * A frame of at most 2^32 - 1 octets is cut into pieces of 65440, the last
   * one shorter: datagram i carries piece i, says where it belongs, how long
   * the whole is, and whether more follow.
   */
  lemma {:induction false} ChunkAt(f: Frame, i: nat)
    requires 0 < |f.data| < 0x1_0000_0000 && 65440 * i < |f.data|
    ensures var chunks := Chunks(f);
            var at := 65440 * i;
            var end := if at + 65440 < |f.data| then at + 65440 else |f.data|;
            && i < |chunks|
            && (i == |chunks| - 1 <==> end == |f.data|)
            && chunks[i] == Message(
                 Header(f.header.id, Flags(end < |f.data|, f.header.flags.others), end - at, |f.data|, at,
                        f.header.sourceType, f.header.priority),
                 f.data[at..end])
  {
    ChunkFrom(f.header, f.data, 0, i);
  }

  lemma {:induction false} ChunkFrom(h: Header, data: seq<byte>, pos: nat, i: nat)
    requires pos + 65440 * i < |data|
    ensures var chunks := ChunksFrom(h, data, pos);
            && i < |chunks| && chunks[i] == Chunk(h, data, pos + 65440 * i)
            && (i == |chunks| - 1 <==> pos + 65440 * (i + 1) >= |data|)
    decreases i
  {
    hide Chunk;
    if i > 0 {
      ChunkFrom(h, data, pos + 65440, i - 1);
    }
  }

  /** How many of n writes, the first being the w-th, succeed before one does not. */
  function Taken(kernel: Kernel, w: nat, n: nat): (taken: nat)
    ensures taken <= n
    ensures forall k: nat :: w <= k < w + taken ==> kernel(k) == Written
    ensures taken < n ==> kernel(w + taken) != Written
    decreases n
  {
    if n == 0 || kernel(w) != Written then 0 else 1 + Taken(kernel, w + 1, n - 1)
  }

  function WritesUsed(kernel: Kernel, w: nat, n: nat): nat
  {
    Min(Taken(kernel, w, n) + 1, n)
  }

  /** The sender stands at pos of the frame and has sent exactly the chunks before it. */
  ghost predicate Progress(h: Header, data: seq<byte>, pos: nat, sent: seq<Message>)
  {
    pos <= |data| && ChunksFrom(h, data, 0) == sent + ChunksFrom(h, data, pos)
  }

  lemma ProgressStep(h: Header, data: seq<byte>, pos: nat, sent: seq<Message>)
    requires Progress(h, data, pos, sent) && pos < |data|
    ensures Progress(h, data, pos + Take(|data|, pos), sent + [Chunk(h, data, pos)])
  {
    ConcatAssociative(sent, [Chunk(h, data, pos)], ChunksFrom(h, data, pos + Take(|data|, pos)));
  }

  lemma ProgressPrefix(h: Header, data: seq<byte>, pos: nat, sent: seq<Message>)
    requires Progress(h, data, pos, sent)
    ensures |sent| <= |ChunksFrom(h, data, 0)| && ChunksFrom(h, data, 0)[..|sent|] == sent
    ensures pos == |data| ==> |sent| == |ChunksFrom(h, data, 0)|
  {
  }

  ghost predicate AllWritten(kernel: Kernel, w: nat, n: nat)
  {
    forall k: nat :: w <= k < w + n ==> kernel(k) == Written
  }

  /** What a send leaves behind: a prefix of the chunks, all of them exactly when it answers OK. */
  ghost predicate Sent(kernel: Kernel, w: nat, chunks: seq<Message>, rc: Rc, w': nat, added: seq<Message>)
  {
    var taken := Taken(kernel, w, |chunks|);
    && added == chunks[..taken]
    && w' == w + WritesUsed(kernel, w, |chunks|)
    && (rc == OK <==> taken == |chunks|)
  }

  lemma ProgressStart(h: Header, data: seq<byte>, kernel: Kernel, w: nat)
    ensures Progress(h, data, 0, []) && AllWritten(kernel, w, 0)
  {
    assert [] + ChunksFrom(h, data, 0) == ChunksFrom(h, data, 0);
  }

  lemma AllWrittenNext(kernel: Kernel, w: nat, n: nat)
    requires AllWritten(kernel, w, n) && kernel(w + n) == Written
    ensures AllWritten(kernel, w, n + 1)
  {
  }

  lemma SendEnds(kernel: Kernel, w: nat, h: Header, data: seq<byte>, pos: nat, sent: seq<Message>)
    requires Progress(h, data, pos, sent) && AllWritten(kernel, w, |sent|)
    ensures pos == |data| ==> Sent(kernel, w, ChunksFrom(h, data, 0), OK, w + |sent|, sent)
    ensures pos < |data| && kernel(w + |sent|) != Written ==>
              Sent(kernel, w, ChunksFrom(h, data, 0), AGAIN, w + |sent| + 1, sent)
  {
    ProgressPrefix(h, data, pos, sent);
  }

  /** One socket of a SOCK_SEQPACKET pair, with what it has put on the wire. */
  class Endpoint {
    const kernel: Kernel
    var fd: int
    var writes: nat
    var wire: seq<Message>
    var sentMessages: nat
    var sentBytes: nat
    var dropped: nat

    ghost predicate Valid()
      reads this
    {
      sentMessages == |wire| <= writes
    }

    constructor (fd: int, kernel: Kernel)
      ensures Valid() && this.fd == fd && this.kernel == kernel && wire == [] && writes == 0
    {
      this.fd := fd;
      this.kernel := kernel;
      writes, wire, sentMessages, sentBytes, dropped := 0, [], 0, 0, 0;
    }

    method Write(m: Message) returns (rc: Rc)
      requires Valid()
      modifies this
      ensures Valid() && fd == old(fd) && writes == old(writes) + 1
      ensures rc == OK <==> kernel(old(writes)) == Written
      ensures rc == ERROR <==> kernel(old(writes)) == Failed
      ensures rc in {OK, AGAIN, ERROR}
      ensures wire == old(wire) + (if rc == OK then [m] else [])
      ensures dropped == old(dropped) + (if kernel(old(writes)) == NoRoom then 1 else 0)
      ensures sentMessages == old(sentMessages) + (if rc == OK then 1 else 0)
      ensures sentBytes == old(sentBytes) + (if rc == OK then 96 + |m.payload| else 0)
    {
      var outcome := kernel(writes);
      writes := writes + 1;
      match outcome {
        case NoRoom =>
          dropped := dropped + 1;
          return AGAIN;
        case Interrupted =>
          return AGAIN;
        case Failed =>
          return ERROR;
        case Written =>
          wire := wire + [m];
          sentMessages := sentMessages + 1;
          sentBytes := sentBytes + 96 + |m.payload|;
          return OK;
      }
    }

    /**
     * ngx_media_ipc_send: the chunk loop stops at the first datagram the
     * kernel does not take, so the wire gains a prefix of the frame's chunks
     * and the answer is OK exactly when that prefix is all of them.
     */
    method Send(header: Header, payload: Option<seq<byte>>, offset: nat, length: nat) returns (rc: Rc)
      requires Valid()
      modifies this
      ensures Valid() && fd == old(fd)
      ensures fd < 0 || (length > 0 && (payload.None? || |payload.value| < offset + length)) ==>
                rc == ERROR && wire == old(wire) && writes == old(writes)
      ensures fd >= 0 && (length > 0 ==> payload.Some? && offset + length <= |payload.value|) ==>
                var chunks := Chunks(Frame(header, if length == 0 then [] else payload.value[offset..offset + length]));
                && |old(wire)| <= |wire| && wire[..|old(wire)|] == old(wire)
                && Sent(kernel, old(writes), chunks, rc, writes, wire[|old(wire)|..])
    {
      if fd < 0 {
        return ERROR;
      }
      if length > 0 && (payload.None? || |payload.value| < offset + length) {
        return ERROR;
      }
      if length == 0 {
        rc := Write(Message(header, []));
        return;
      }
      ghost var sent;
      rc, sent := SendChunks(header, payload.value[offset..offset + length]);
    }

    method SendChunks(header: Header, data: seq<byte>) returns (rc: Rc, ghost sent: seq<Message>)
      requires data != [] && Valid()
      modifies this
      ensures Valid() && fd == old(fd) && rc in {OK, AGAIN}
      ensures wire == old(wire) + sent
      ensures Sent(kernel, old(writes), ChunksFrom(header, data, 0), rc, writes, sent)
    {
      hide ChunksFrom, Sent, Progress, AllWritten, Taken;
      sent := [];
      var pos := 0;
      ProgressStart(header, data, kernel, writes);
      while pos < |data|
        invariant 0 <= pos <= |data| && fd == old(fd) && Valid()
        invariant Progress(header, data, pos, sent)
        invariant wire == old(wire) + sent && writes == old(writes) + |sent|
        invariant AllWritten(kernel, old(writes), |sent|)
        decreases |data| - pos
      {
        var take := |data| - pos;
        if take > MAX_PAYLOAD {
          take := MAX_PAYLOAD;
        }
        ProgressStep(header, data, pos, sent);
        SendEnds(kernel, old(writes), header, data, pos, sent);
        var chunk := Message(ChunkHeader(header, |data|, pos, take), data[pos..pos + take]);
        var written := Write(chunk);
        if written != OK {
          return AGAIN, sent;
        }
        ConcatAssociative(old(wire), sent, [chunk]);
        AllWrittenNext(kernel, old(writes), |sent|);
        pos, sent := pos + take, sent + [chunk];
      }
      SendEnds(kernel, old(writes), header, data, pos, sent);
      return OK, sent;
    }
  }

  // ---- the receiver -------------------------------------------------------

  /** A frame under reassembly: its first chunk's header and the bytes so far. */
  datatype Partial = Idle | Open(header: Header, data: seq<byte>)

  datatype FeedResult = FeedResult(partial: Partial, rc: Rc, restarted: bool)

  /** A chunk offered to the open frame. */
  function Append(h: Header, data: seq<byte>, m: Message): (r: (Partial, Rc))
  {
    if m.header.id != h.id || m.header.total != h.total then (Idle, ERROR)
    else if m.header.offset != |data| || |data| + |m.payload| > h.total then (Idle, ERROR)
    else if m.header.flags.more then (Open(h, data + m.payload), AGAIN)
    else if |data| + |m.payload| != h.total then (Idle, ERROR)
    else (Open(h, data + m.payload), OK)
  }

  /** One message fed to the reassembly; memory says whether an allocation succeeds. */
  function Feed(p: Partial, m: Message, memory: bool): FeedResult
  {
    var restarted := p.Open? && m.header.offset == 0;
    if p.Open? && !restarted then
      var r := Append(p.header, p.data, m);
      FeedResult(r.0, r.1, false)
    else if m.header.offset != 0 || m.header.total == 0 || m.header.total > MAX_FRAME || !memory then
      FeedResult(Idle, ERROR, restarted)
    else
      var r := Append(m.header, [], m);
      FeedResult(r.0, r.1, restarted)
  }

  /**
   * What the datagram at the head of a frame starts: nothing if the announced
   * size is 0, above 4 MiB or cannot be had; else a frame of that size with
   * these octets, whole if they are all of it, and given up if they overrun it
   * or end short of it.
   */
  lemma FirstMeans(p: Partial, m: Message, memory: bool)
    requires m.header.offset == 0
    ensures var r := Feed(p, m, memory);
            var n, total := |m.payload|, m.header.total;
            && (r.restarted <==> p != Idle)
            && (if total == 0 || total > 4194304 || !memory then r.partial == Idle && r.rc == ERROR
                else if n > total || (n != total && !m.header.flags.more) then r.partial == Idle && r.rc == ERROR
                else r.partial == Open(m.header, m.payload) && r.rc == if m.header.flags.more then AGAIN else OK)
  {
    assert [] + m.payload == m.payload;
  }

  /** ngx_media_ipc_frame_t: a buffer of the announced size, filled from the front. */
  class Reassembler {
    var header: Header
    var payload: array?<byte>
    var capacity: nat
    var received: nat
    var active: bool
    var restarts: nat

    ghost predicate Valid()
      reads this
    {
      if active then
        payload != null && payload.Length == capacity == header.total && received <= capacity
      else
        payload == null && capacity == 0 && received == 0
    }

    ghost function View(): Partial
      reads this, payload
      requires Valid()
    {
      if active then Open(header, payload[..received]) else Idle
    }

    constructor (blank: Header)
      ensures Valid() && View() == Idle && restarts == 0
    {
      header, payload, capacity, received, active, restarts := blank, null, 0, 0, false, 0;
    }

    method Reset()
      requires Valid()
      modifies this
      ensures Valid() && View() == Idle && restarts == old(restarts)
    {
      payload, capacity, received, active := null, 0, 0, false;
    }

    /** ngx_media_ipc_frame_feed refines Feed, and never holds more than was announced. */
    method FeedMessage(m: Message, memory: bool) returns (rc: Rc)
      requires Valid()
      modifies this, payload
      ensures Valid()
      ensures payload != null ==> payload == old(payload) || fresh(payload)
      ensures FeedResult(View(), rc, restarts != old(restarts)) == Feed(old(View()), m, memory)
      ensures restarts == old(restarts) || restarts == old(restarts) + 1
      ensures received <= capacity && (rc == OK ==> active && received == capacity)
    {
      ghost var before := View();
      if active && m.header.offset == 0 {
        Reset();
        restarts := restarts + 1;
      }
      if !active {
        if m.header.offset != 0 {
          return ERROR;
        }
        if m.header.total == 0 || m.header.total > MAX_FRAME {
          return ERROR;
        }
        if !memory {
          return ERROR;
        }
        payload := new byte[m.header.total](_ => 0);
        header, capacity, received, active := m.header, m.header.total, 0, true;
      }
      assert Feed(before, m, memory).partial == Append(header, payload[..received], m).0;
      assert Feed(before, m, memory).rc == Append(header, payload[..received], m).1;
      ghost var had := payload[..received];
      if m.header.id != header.id || m.header.total != header.total {
        Reset();
        return ERROR;
      }
      if m.header.offset != received || received + |m.payload| > capacity {
        Reset();
        return ERROR;
      }
      forall i | 0 <= i < |m.payload| {
        payload[received + i] := m.payload[i];
      }
      assert payload[..received] == had;
      received := received + |m.payload|;
      assert payload[..received] == had + m.payload;
      if m.header.flags.more {
        return AGAIN;
      }
      if received != capacity {
        Reset();
        return ERROR;
      }
      return OK;
    }
  }

  // ---- the owner's slot for one publisher session ---------------------------

  /** A frame handed on to the program. */
  datatype Unit = Unit(id: FrameId, data: seq<byte>)

  /** What the owner keeps of a routed session, and the frames it has handed on. */
  datatype Slot = Slot(partial: Partial, restarts: nat, errors: nat,
                       sequenced: bool, next: nat, gaps: nat, emitted: seq<Unit>)

  const FRESH_SLOT := Slot(Idle, 0, 0, false, 0, 0, [])

  /** The sequence check, made at a frame's first chunk. */
  function Sequenced(s: Slot, sequence: nat): Slot
  {
    s.(gaps := s.gaps + (if s.sequenced && sequence > s.next then sequence - s.next else 0),
       sequenced := true, next := sequence + 1)
  }

  /** The slot after the reassembly answered r to m. */
  function Absorb(s: Slot, m: Message, r: FeedResult): Slot
  {
    var fed := s.(partial := if r.rc == OK then Idle else r.partial,
                  restarts := s.restarts + if r.restarted then 1 else 0);
    var seen := if r.rc != ERROR && m.header.offset == 0 then Sequenced(fed, m.header.id.sequence) else fed;
    if r.rc == AGAIN then seen
    else if r.rc == OK && r.partial.Open? then
      seen.(emitted := seen.emitted + [Unit(m.header.id, r.partial.data)])
    else seen.(errors := seen.errors + 1)
  }

  function Deliver(s: Slot, m: Message, memory: bool): Slot
  {
    if m.payload == [] then s else Absorb(s, m, Feed(s.partial, m, memory))
  }

  function DeliverAll(s: Slot, ms: seq<Message>): Slot
    decreases |ms|
  {
    if ms == [] then s else DeliverAll(Deliver(s, ms[0], true), ms[1..])
  }

  class RoutedSlot {
    const frame: Reassembler
    var errors: nat
    var sequenced: bool
    var next: nat
    var gaps: nat
    var emitted: seq<Unit>

    ghost predicate Valid()
      reads this, frame
    {
      frame.Valid()
    }

    ghost function View(): Slot
      reads this, frame, frame.payload
      requires Valid()
    {
      Slot(frame.View(), frame.restarts, errors, sequenced, next, gaps, emitted)
    }

    constructor (blank: Header)
      ensures Valid() && View() == FRESH_SLOT && fresh(frame)
    {
      frame := new Reassembler(blank);
      errors, sequenced, next, gaps, emitted := 0, false, 0, 0, [];
    }

    /** The media branch of the routing sink: feed, count what was skipped, hand on, reset. */
    method DeliverMessage(m: Message, memory: bool)
      requires Valid()
      modifies this, frame, frame.payload
      ensures Valid() && View() == Deliver(old(View()), m, memory)
      ensures frame.payload != null ==> frame.payload == old(frame.payload) || fresh(frame.payload)
    {
      if m.payload == [] {
        return;
      }
      ghost var before := View();
      var rc := frame.FeedMessage(m, memory);
      Settle(m, rc, before, Feed(before.partial, m, memory));
    }

    /** What follows the feed: the sequence check, the hand-over and the reset. */
    method Settle(m: Message, rc: Rc, ghost before: Slot, ghost r: FeedResult)
      requires Valid() && r.rc == rc && r.partial == frame.View()
      requires rc == OK ==> frame.active && frame.received == frame.capacity
      requires View() == before.(partial := r.partial, restarts := before.restarts + if r.restarted then 1 else 0)
      modifies this, frame
      ensures Valid() && View() == Absorb(before, m, r)
      ensures frame.payload == null || frame.payload == old(frame.payload)
    {
      if rc != ERROR && m.header.offset == 0 {
        if sequenced && m.header.id.sequence > next {
          gaps := gaps + (m.header.id.sequence - next);
        }
        sequenced, next := true, m.header.id.sequence + 1;
      }
      if rc == AGAIN {
        return;
      }
      if rc != OK {
        errors := errors + 1;
        return;
      }
      emitted := emitted + [Unit(m.header.id, frame.payload[..frame.capacity])];
      frame.Reset();
    }
  }
}
