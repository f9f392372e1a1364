/**
 * The program feed: a single-producer ring of frames with unit, byte and age
 * ceilings, read through cursors.
 */
module Feed {
  import opened Common
  import opened RingMath
  import opened Histogram
  import opened Media

  /** A published frame and the time the producer gave. */
  datatype Entry = Entry(frame: Frame, time: Msec)

  /** A released slot is all zeros. */
  const NO_ENTRY := Entry(NO_FRAME, 0)

  function Len(e: Entry): nat
  {
    Size(e.frame)
  }

  /** The payload bytes of log[from..to]. */
  function Bytes(log: seq<Entry>, from: nat, to: nat): nat
    requires from <= to <= |log|
    decreases |log| - from
  {
    if from == to then 0 else Len(log[from]) + Bytes(log, from + 1, to)
  }

  lemma {:induction false} BytesExtend(log: seq<Entry>, e: Entry, from: nat)
    requires from <= |log|
    ensures Bytes(log + [e], from, |log| + 1) == Bytes(log, from, |log|) + Len(e)
    decreases |log| - from
  {
    if from < |log| {
      BytesExtend(log, e, from + 1);
    }
  }

  datatype Conf = Conf(maxUnits: nat, maxBytes: nat, maxAge: nat)

  /** The entries from tail on may stay when incoming more bytes arrive now. */
  predicate Keeps(conf: Conf, log: seq<Entry>, tail: nat, now: Msec, incoming: nat)
    requires tail <= |log|
  {
    tail < |log| ==>
      && |log| - tail < conf.maxUnits
      && (conf.maxBytes != 0 ==> Bytes(log, tail, |log|) + incoming <= conf.maxBytes)
      && (conf.maxAge != 0 ==> Sub64(now, log[tail].time) <= conf.maxAge)
  }

  /** What is counted are the octets of the payloads. */
  lemma {:induction false} BytesAreOctets(log: seq<Entry>, from: nat, end: nat)
    requires from <= end <= |log|
    ensures Bytes(log, from, end) == |Octets(Frames(log, from, end))|
    decreases end
  {
    if from < end {
      BytesAreOctets(log, from, end - 1);
      BytesAppend(log, from, end - 1);
      var frames := Frames(log, from, end);
      assert frames[..|frames| - 1] == Frames(log, from, end - 1);
    }
  }

  /** The producer's clock never went back. */
  predicate ClockRises(log: seq<Entry>, now: Msec)
  {
    forall i, j :: 0 <= i <= j < |log| ==> log[i].time <= log[j].time <= now
  }

  /** The entries from t on, and the incoming one, are within all three ceilings; a ceiling of 0 is none. */
  predicate WithinCeilings(conf: Conf, log: seq<Entry>, t: nat, now: Msec, incoming: nat)
    requires t <= |log|
  {
    && |log| - t + 1 <= conf.maxUnits
    && (conf.maxBytes > 0 ==> |Octets(Frames(log, t, |log|))| + incoming <= conf.maxBytes)
    && (conf.maxAge > 0 ==> forall s :: t <= s < |log| ==> now <= log[s].time + conf.maxAge)
  }

  /**
   * Under a clock that never goes back, what stays after a publication is the
   * longest end of the log that is within all the ceilings together with the
   * new frame: a unit past the age ceiling leaves, and none leaves that fits.
   */
  lemma LongestEndStays(conf: Conf, log: seq<Entry>, tail: nat, kept: nat, now: Msec, incoming: nat)
    requires tail <= kept <= |log| && ClockRises(log, now)
    requires Keeps(conf, log, kept, now, incoming)
    requires forall t :: tail <= t < kept ==> !Keeps(conf, log, t, now, incoming)
    ensures kept < |log| ==> WithinCeilings(conf, log, kept, now, incoming)
    ensures forall t :: tail <= t < kept ==> !WithinCeilings(conf, log, t, now, incoming)
  {
    forall t | tail <= t < |log|
      ensures Keeps(conf, log, t, now, incoming) <==> WithinCeilings(conf, log, t, now, incoming)
    {
      BytesAreOctets(log, t, |log|);
    }
  }

  // ---- what a cursor sees ---------------------------------------------------------

  datatype Position = Position(generation: nat, next: nat)

  datatype Status = BATCH | EMPTY | OVERRUN | MISMATCH

  function Frames(log: seq<Entry>, from: nat, to: nat): (frames: seq<Frame>)
    requires from <= to <= |log|
    ensures |frames| == to - from
    ensures forall i {:trigger frames[i]} :: 0 <= i < |frames| ==> frames[i] == log[from + i].frame
    decreases |log| - from
  {
    if from == to then [] else [log[from].frame] + Frames(log, from + 1, to)
  }

  /** The published log, as far as it can be read. */
  datatype Window = Window(log: seq<Entry>, tail: nat, generation: nat)

  /** One read: its answer, the frames it hands out and the cursor it leaves. */
  predicate ReadStep(w: Window, p: Position, maxUnits: nat, maxBytes: nat,
                     status: Status, out: seq<Frame>, p': Position)
    requires w.tail <= |w.log|
  {
    if p.generation != w.generation || p.next > |w.log| then
      status == MISMATCH && out == [] && p' == p
    else if p.next < w.tail then
      status == OVERRUN && out == [] && p' == p
    else if p.next == |w.log| || maxUnits == 0 then
      status == EMPTY && out == [] && p' == p
    else
      && status == BATCH && p' == p.(next := p'.next)
      && p.next < p'.next <= |w.log| && out == Frames(w.log, p.next, p'.next)
      && |out| <= maxUnits
      && (maxBytes != 0 ==> |out| == 1 || Bytes(w.log, p.next, p'.next) <= maxBytes)
      && (p'.next < |w.log| && |out| < maxUnits ==>
            maxBytes != 0 && Bytes(w.log, p.next, p'.next) + Len(w.log[p'.next]) > maxBytes)
  }

  /** A cursor resynchronised to the head, or to the newest retained key frame when there is one. */
  predicate ResyncStep(w: Window, keyframe: bool, p': Position)
    requires w.tail <= |w.log|
  {
    && p'.generation == w.generation && w.tail <= p'.next <= |w.log|
    && (!keyframe ==> p'.next == |w.log|)
    && (keyframe && p'.next < |w.log| ==> w.log[p'.next].frame.keyframe)
    && (keyframe ==> forall s :: w.tail <= s < |w.log| && w.log[s].frame.keyframe ==> s <= p'.next < |w.log|)
  }

  /** The key frame the producer remembers is the newest one published. */
  predicate NewestKey(log: seq<Entry>, has: bool, last: nat)
  {
    && (has ==> last < |log| && log[last].frame.keyframe)
    && (forall s :: 0 <= s < |log| && log[s].frame.keyframe ==> has && s <= last)
  }

  /** How long the frames read had waited: only a clock that did not go back counts. */
  function Waited(log: seq<Entry>, from: nat, end: nat, now: Msec): seq<nat>
    requires from <= end <= |log|
    decreases end
  {
    if from == end then [] else Waited(log, from, end - 1, now) + Wait(log[end - 1], now)
  }

  function Wait(e: Entry, now: Msec): seq<nat>
  {
    if now >= e.time then [Min(now - e.time, CEILING)] else []
  }

  /** Every frame read is one delay, in order, when the clock did not go back: how long it waited, a minute at most. */
  lemma {:induction false} WaitedMeans(log: seq<Entry>, from: nat, end: nat, now: Msec)
    requires from <= end <= |log| && forall i :: from <= i < end ==> log[i].time <= now
    ensures |Waited(log, from, end, now)| == end - from
    ensures forall i :: 0 <= i < end - from ==>
              Waited(log, from, end, now)[i] == if now - log[from + i].time < 60000 then now - log[from + i].time else 60000
    decreases end
  {
    if from < end {
      WaitedMeans(log, from, end - 1, now);
    }
  }

  // ---- the ring ---------------------------------------------------------------------

  class Cursor {
    var generation: nat
    var next: nat

    ghost function View(): Position
      reads this
    {
      Position(generation, next)
    }

    constructor ()
      ensures View() == Position(0, 0)
    {
      generation, next := 0, 0;
    }
  }

  class FrameRing {
    const slots: array<Entry>
    const capacity: nat
    const maxUnits: nat
    const maxBytes: nat
    const maxAge: nat
    const fanout: Hist
    var generation: nat
    var head: nat
    var tail: nat
    var lastKeyframe: nat
    var hasKeyframe: bool
    var bytes: nat
    var highWaterUnits: nat
    var highWaterBytes: nat
    var evictions: nat
    var overruns: nat
    var mismatches: nat
    /** Everything ever published. */
    ghost var log: seq<Entry>

    /** The slots of the window [tail, head) hold the log; the others hold no payload. */
    ghost predicate Holds()
      requires capacity == slots.Length > 0
      reads `head, `tail, `log, slots
    {
      && tail <= head == |log| && head - tail <= capacity
      && (forall s {:trigger SlotOf(s, capacity)} :: tail <= s < head ==> slots[SlotOf(s, capacity)] == log[s])
      && (forall s {:trigger SlotOf(s, capacity)} :: head <= s < tail + capacity ==>
            slots[SlotOf(s, capacity)].frame.payload.None?)
    }

    ghost predicate Bounded()
      requires tail <= head == |log|
      reads `head, `tail, `log, `bytes, `highWaterUnits, `highWaterBytes, `evictions
    {
      && bytes == Bytes(log, tail, head)
      && head - tail <= maxUnits
      && (maxBytes != 0 ==> bytes <= maxBytes || head - tail == 1)
      && highWaterUnits >= head - tail && highWaterBytes >= bytes
      && evictions == tail
    }

    ghost predicate Valid()
      reads `generation, `head, `tail, `lastKeyframe, `hasKeyframe, `bytes
      reads `highWaterUnits, `highWaterBytes, `evictions, `log, slots, fanout, fanout.buckets
    {
      && capacity == slots.Length && 0 < maxUnits <= capacity && IsPow2(capacity)
      && generation > 0
      && Holds() && Bounded() && NewestKey(log, hasKeyframe, lastKeyframe)
      && fanout.Valid()
    }

    ghost function View(): Window
      reads `log, `tail, `generation
    {
      Window(log, tail, generation)
    }

    function Config(): Conf
    {
      Conf(maxUnits, maxBytes, maxAge)
    }

    constructor (conf: Conf, capacity: nat)
      requires 0 < conf.maxUnits <= capacity && IsPow2(capacity)
      ensures Valid() && fresh(slots) && fresh(fanout) && fresh(fanout.buckets)
      ensures View() == Window([], 0, 1) && Config() == conf && this.capacity == capacity
      ensures fanout.delays == []
    {
      slots := new Entry[capacity](_ => NO_ENTRY);
      this.capacity, maxUnits, maxBytes, maxAge := capacity, conf.maxUnits, conf.maxBytes, conf.maxAge;
      fanout := new Hist();
      generation, head, tail, lastKeyframe, hasKeyframe, bytes := 1, 0, 0, 0, false, 0;
      highWaterUnits, highWaterBytes, evictions, overruns, mismatches := 0, 0, 0, 0, 0;
      log := [];
    }

    /** The init: slotSize is the size of one slot, memory whether their allocation succeeds. */
    static method Create(conf: Conf, slotSize: nat, memory: bool) returns (feed: FrameRing?)
      requires conf.maxUnits < TWO64 && 0 < slotSize < TWO64
      ensures feed == null <==>
                conf.maxUnits == 0 || conf.maxUnits > Pow2(63)
                || PowerFor(conf.maxUnits) > (TWO64 - 1) / slotSize || !memory
      ensures feed != null ==>
                && feed.Valid() && fresh(feed) && fresh(feed.slots) && fresh(feed.fanout) && fresh(feed.fanout.buckets)
                && feed.View() == Window([], 0, 1) && feed.Config() == conf
                && feed.capacity == PowerFor(conf.maxUnits)
    {
      if conf.maxUnits == 0 {
        return null;
      }
      var capacity := RoundUp(conf.maxUnits);
      if capacity == 0 {
        return null;
      }
      if capacity > (TWO64 - 1) / slotSize {
        return null;
      }
      if !memory {
        return null;
      }
      feed := new FrameRing(conf, capacity);
    }

    /** The oldest unit leaves; its slot is released. */
    method Evict()
      requires Valid() && tail < head
      modifies this, slots
      ensures Valid() && tail == old(tail) + 1 && log == old(log) && generation == old(generation)
      ensures highWaterUnits == old(highWaterUnits) && highWaterBytes == old(highWaterBytes)
    {
      var at := SlotOf(tail, capacity);
      bytes := bytes - Len(slots[at]);
      slots[at] := NO_ENTRY;
      forall s | tail < s < tail + capacity ensures SlotOf(s, capacity) != at {
        SlotsDiffer(tail, s, capacity);
      }
      SlotShared(tail, capacity);
      tail := tail + 1;
      evictions := evictions + 1;
    }

    /** Evicts from the oldest unit on, and no more than the ceilings ask for. */
    method Prune(now: Msec, incoming: nat)
      requires Valid()
      modifies this, slots
      ensures Valid() && log == old(log) && generation == old(generation)
      ensures highWaterUnits == old(highWaterUnits) && highWaterBytes == old(highWaterBytes)
      ensures old(tail) <= tail && Keeps(Config(), log, tail, now, incoming)
      ensures forall t :: old(tail) <= t < tail ==> !Keeps(Config(), log, t, now, incoming)
    {
      while head > tail
        invariant Valid() && log == old(log) && generation == old(generation) && old(tail) <= tail
        invariant highWaterUnits == old(highWaterUnits) && highWaterBytes == old(highWaterBytes)
        invariant forall t :: old(tail) <= t < tail ==> !Keeps(Config(), log, t, now, incoming)
        decreases head - tail
      {
        if head - tail >= maxUnits {
          Evict();
          continue;
        }
        if maxBytes != 0 && bytes + incoming > maxBytes {
          Evict();
          continue;
        }
        if maxAge != 0 {
          var oldest := slots[SlotOf(tail, capacity)];
          if Sub64(now, oldest.time) > maxAge {
            Evict();
            continue;
          }
        }
        break;
      }
    }

    /**
     * Publishing always succeeds: after the eviction the ceilings ask for, the
     * slot of the head is free, so the frame is appended to the log.
     */
    method Publish(frame: Frame, now: Msec) returns (rc: Rc)
      requires Valid()
      modifies this, slots
      ensures Valid() && rc == OK
      ensures log == old(log) + [Entry(frame, now)] && generation == old(generation)
      ensures var incoming := Len(Entry(frame, now));
              && old(tail) <= tail <= |old(log)|
              && Keeps(Config(), old(log), tail, now, incoming)
              && (forall t :: old(tail) <= t < tail ==> !Keeps(Config(), old(log), t, now, incoming))
      ensures tail < |old(log)| ==>
                && |log| - tail <= maxUnits
                && (maxBytes != 0 ==> Bytes(log, tail, |log|) <= maxBytes)
                && (maxAge != 0 ==> (now - log[tail].time) % 0x1_0000_0000_0000_0000 <= maxAge)
      ensures highWaterUnits == Max(old(highWaterUnits), |log| - tail)
      ensures highWaterBytes == Max(old(highWaterBytes), Bytes(log, tail, |log|))
    {
      var entry := Entry(frame, now);
      var len := Len(entry);
      Prune(now, len);
      if slots[SlotOf(head, capacity)].frame.payload.Some? {
        // the ring's accounting error, which no run reaches
        assert false;
      }
      BytesExtend(log, entry, tail);
      Append(entry);
      return OK;
    }

    /** Writes the slot of the head and moves it. */
    method Store(entry: Entry)
      requires capacity == slots.Length > 0 && Holds() && head - tail < capacity
      modifies this`head, this`log, slots
      ensures Holds() && head == old(head) + 1 && log == old(log) + [entry]
    {
      var at := SlotOf(head, capacity);
      forall s | tail <= s < tail + capacity && s != head ensures SlotOf(s, capacity) != at {
        SlotsDiffer(Min(s, head), Max(s, head), capacity);
      }
      slots[at] := entry;
      log := log + [entry];
      head := head + 1;
    }

    /** The newest key frame, after entry was stored at the head. */
    method Remember(entry: Entry, ghost before: seq<Entry>)
      requires log == before + [entry] && head == |log| && NewestKey(before, hasKeyframe, lastKeyframe)
      modifies this`hasKeyframe, this`lastKeyframe
      ensures NewestKey(log, hasKeyframe, lastKeyframe)
    {
      if entry.frame.keyframe {
        hasKeyframe, lastKeyframe := true, head - 1;
      }
    }

    /** The byte count and the high-water marks, after entry was stored at the head. */
    method Account(entry: Entry, ghost before: seq<Entry>)
      requires log == before + [entry] && tail < head == |log| && evictions == tail
      requires bytes == Bytes(before, tail, |before|) && head - tail <= maxUnits
      requires maxBytes != 0 ==> head - tail == 1 || bytes + Len(entry) <= maxBytes
      requires highWaterUnits + 1 >= head - tail && highWaterBytes >= bytes
      modifies this`bytes, this`highWaterUnits, this`highWaterBytes
      ensures Bounded()
      ensures highWaterUnits == Max(old(highWaterUnits), head - tail)
      ensures highWaterBytes == Max(old(highWaterBytes), Bytes(log, tail, |log|))
    {
      BytesExtend(before, entry, tail);
      bytes := bytes + Len(entry);
      if head - tail > highWaterUnits {
        highWaterUnits := head - tail;
      }
      if bytes > highWaterBytes {
        highWaterBytes := bytes;
      }
    }

    method Append(entry: Entry)
      requires Valid() && head - tail < maxUnits
      requires maxBytes != 0 ==> head == tail || bytes + Len(entry) <= maxBytes
      modifies this, slots
      ensures Valid() && log == old(log) + [entry] && generation == old(generation) && tail == old(tail)
      ensures highWaterUnits == Max(old(highWaterUnits), head - tail)
      ensures highWaterBytes == Max(old(highWaterBytes), Bytes(log, tail, |log|))
    {
      ghost var before := log;
      Store(entry);
      Remember(entry, before);
      Account(entry, before);
    }

    method Discontinuity()
      requires Valid()
      modifies this`generation
      ensures Valid() && generation == old(generation) + 1
    {
      generation := generation + 1;
    }

    method CursorInit(cursor: Cursor)
      requires Valid()
      modifies cursor
      ensures ResyncStep(View(), false, cursor.View())
    {
      cursor.generation, cursor.next := generation, head;
    }

    method Resync(cursor: Cursor, keyframe: bool)
      requires Valid()
      modifies cursor
      ensures ResyncStep(View(), keyframe, cursor.View())
    {
      var seq_ := head;
      if keyframe && hasKeyframe && lastKeyframe >= tail && lastKeyframe < head {
        seq_ := lastKeyframe;
      }
      cursor.generation, cursor.next := generation, seq_;
    }

    method RecordWait(entry: Entry, now: Msec)
      requires fanout.Valid()
      modifies fanout, fanout.buckets
      ensures fanout.Valid() && fanout.delays == old(fanout.delays) + Wait(entry, now)
    {
      if now >= entry.time {
        fanout.Record(now - entry.time);
      }
    }

    /** Hands out frames from start on until a budget or the head is reached. */
    method Collect(start: nat, maxUnits: nat, maxBytes: nat, now: Msec) returns (sequence: nat, out: seq<Frame>)
      requires Valid() && tail <= start <= head
      modifies fanout, fanout.buckets
      ensures Valid() && start <= sequence <= head && out == Frames(log, start, sequence)
      ensures sequence - start <= maxUnits
      ensures maxBytes != 0 ==> sequence - start <= 1 || Bytes(log, start, sequence) <= maxBytes
      ensures sequence < head && sequence - start < maxUnits ==>
                sequence > start && maxBytes != 0 && Bytes(log, start, sequence) + Len(log[sequence]) > maxBytes
      ensures fanout.delays == old(fanout.delays) + Waited(log, start, sequence, now)
    {
      hide IsPow2, NewestKey, Counts, IsMax;
      sequence, out := start, [];
      var count := 0;
      var taken := 0;
      assert fanout.delays + [] == fanout.delays;
      while count < maxUnits && sequence < head
        invariant fanout.Valid() && start <= sequence <= head && count == sequence - start <= maxUnits
        invariant out == Frames(log, start, sequence) && taken == Bytes(log, start, sequence)
        invariant maxBytes != 0 ==> count <= 1 || taken <= maxBytes
        invariant fanout.delays == old(fanout.delays) + Waited(log, start, sequence, now)
      {
        var entry := slots[SlotOf(sequence, capacity)];
        var len := Len(entry);
        if count > 0 && maxBytes != 0 && taken + len > maxBytes {
          break;
        }
        BytesAppend(log, start, sequence);
        ConcatAssociative(old(fanout.delays), Waited(log, start, sequence, now), Wait(entry, now));
        out := out + [entry.frame];
        RecordWait(entry, now);
        taken := taken + len;
        count := count + 1;
        sequence := sequence + 1;
      }
    }

    /** A cursor of another generation or ring, or one whose next frame is gone. */
    method Refuse(cursor: Cursor) returns (status: Option<Status>)
      requires Valid()
      modifies this`overruns, this`mismatches
      ensures status.None? <==> cursor.generation == generation && tail <= cursor.next <= head
      ensures status.Some? ==> forall maxUnits, maxBytes ::
                ReadStep(View(), cursor.View(), maxUnits, maxBytes, status.value, [], cursor.View())
      ensures status.Some? ==> status.value in {MISMATCH, OVERRUN}
      ensures overruns == old(overruns) + if status == Some(OVERRUN) then 1 else 0
      ensures mismatches == old(mismatches) + if status == Some(MISMATCH) then 1 else 0
    {
      if cursor.generation != generation {
        mismatches := mismatches + 1;
        return Some(MISMATCH);
      }
      if cursor.next < tail {
        overruns := overruns + 1;
        return Some(OVERRUN);
      }
      if cursor.next > head {
        mismatches := mismatches + 1;
        return Some(MISMATCH);
      }
      return None;
    }

    method Dispatch(cursor: Cursor, maxUnits: nat, maxBytes: nat, now: Msec)
        returns (status: Status, out: seq<Frame>)
      requires Valid() && cursor.generation == generation && tail <= cursor.next <= head
      modifies cursor, fanout, fanout.buckets
      ensures Valid()
      ensures ReadStep(View(), old(cursor.View()), maxUnits, maxBytes, status, out, cursor.View())
      ensures tail <= old(cursor.next) <= cursor.next <= head
      ensures fanout.delays == old(fanout.delays) + Waited(log, old(cursor.next), cursor.next, now)
    {
      ghost var before := cursor.View();
      var sequence;
      sequence, out := Collect(cursor.next, maxUnits, maxBytes, now);
      if sequence == cursor.next {
        return EMPTY, [];
      }
      cursor.next := sequence;
      return BATCH, out;
    }

    /** A read answers as ReadStep says, and every frame handed out is counted in the histogram. */
    method Read(cursor: Cursor, maxUnits: nat, maxBytes: nat, now: Msec)
        returns (status: Status, out: seq<Frame>)
      requires Valid()
      modifies cursor, this`overruns, this`mismatches, fanout, fanout.buckets
      ensures Valid()
      ensures ReadStep(View(), old(cursor.View()), maxUnits, maxBytes, status, out, cursor.View())
      ensures overruns == old(overruns) + if status == OVERRUN then 1 else 0
      ensures mismatches == old(mismatches) + if status == MISMATCH then 1 else 0
      ensures status in {MISMATCH, OVERRUN} ==> fanout.delays == old(fanout.delays)
      ensures status in {BATCH, EMPTY} ==>
                && old(cursor.next) <= cursor.next <= |log|
                && fanout.delays == old(fanout.delays) + Waited(log, old(cursor.next), cursor.next, now)
    {
      var refused := Refuse(cursor);
      if refused.Some? {
        return refused.value, [];
      }
      status, out := Dispatch(cursor, maxUnits, maxBytes, now);
    }
  }

  lemma {:induction false} BytesAppend(log: seq<Entry>, from: nat, to: nat)
    requires from <= to < |log|
    ensures Bytes(log, from, to + 1) == Bytes(log, from, to) + Len(log[to])
    decreases |log| - from
  {
    if from < to {
      BytesAppend(log, from + 1, to);
    }
  }

  // ---- runs ---------------------------------------------------------------------------

  /** What happens to a feed and one of its cursors; reads of other cursors change neither. */
  datatype Event =
    | Published(entry: Entry, tail: nat)
    | Discontinued
    | Resynced(keyframe: bool, to: Position)
    | ReadBy(maxUnits: nat, maxBytes: nat, status: Status, out: seq<Frame>, to: Position)

  /** A cursor, where it last resynchronised and what it has been handed since. */
  datatype Consumer = Consumer(window: Window, position: Position, start: nat, got: seq<Frame>)

  predicate Happens(c: Consumer, e: Event, c': Consumer)
  {
    && c.window.tail <= |c.window.log|
    && match e
       case Published(entry, tail) =>
         && c.window.tail <= tail <= |c.window.log|
         && c' == c.(window := Window(c.window.log + [entry], tail, c.window.generation))
       case Discontinued =>
         c' == c.(window := c.window.(generation := c.window.generation + 1))
       case Resynced(keyframe, to) =>
         ResyncStep(c.window, keyframe, to) && c' == Consumer(c.window, to, to.next, [])
       case ReadBy(maxUnits, maxBytes, status, out, to) =>
         && ReadStep(c.window, c.position, maxUnits, maxBytes, status, out, to)
         && c' == c.(position := to, got := c.got + out)
  }

  predicate IsRun(states: seq<Consumer>, events: seq<Event>)
  {
    && |states| == |events| + 1
    && forall k {:trigger events[k]} :: 0 <= k < |events| ==> Happens(states[k], events[k], states[k + 1])
  }

  /** The batches since the last resynchronisation are the published frames from there on. */
  predicate Faithful(c: Consumer)
  {
    && c.window.tail <= |c.window.log|
    && c.position.generation <= c.window.generation
    && c.start <= c.position.next <= |c.window.log|
    && c.got == Frames(c.window.log, c.start, c.position.next)
  }

  lemma EventFaithful(c: Consumer, e: Event, c': Consumer)
    requires Faithful(c) && Happens(c, e, c')
    ensures Faithful(c')
  {
    match e {
      case Published(entry, tail) =>
      case ReadBy(_, _, status, out, to) =>
        if status != BATCH {
          assert c.got + [] == c.got;
        }
      case _ =>
    }
  }

  /**
   * Over every run, what a cursor has been handed since it last
   * resynchronised is exactly the frames published from there to its
   * position, each once and in order, however much was evicted meanwhile.
   */
  lemma {:induction false} BatchesAreTheLog(states: seq<Consumer>, events: seq<Event>, k: nat)
    requires IsRun(states, events) && k < |states| && Faithful(states[0])
    ensures Faithful(states[k])
  {
    if k > 0 {
      BatchesAreTheLog(states, events, k - 1);
      EventFaithful(states[k - 1], events[k - 1], states[k]);
    }
  }

  /**
   * A read of a faithful cursor reports OVERRUN exactly when the next frame
   * was evicted, EMPTY only when it has caught up (or may take nothing), a
   * mismatch only after a discontinuity, and otherwise it makes progress.
   */
  lemma AnswersAreRight(c: Consumer, maxUnits: nat, maxBytes: nat, status: Status, out: seq<Frame>, to: Position)
    requires Faithful(c) && ReadStep(c.window, c.position, maxUnits, maxBytes, status, out, to)
    ensures status == MISMATCH <==> c.position.generation < c.window.generation
    ensures status == OVERRUN <==>
              c.position.generation == c.window.generation && c.position.next < c.window.tail
    ensures status == EMPTY ==> c.position.next == |c.window.log| || maxUnits == 0
    ensures status == BATCH ==> to.next > c.position.next
    ensures status == BATCH ==> |out| > 0 && out[0] == c.window.log[c.position.next].frame
  {
  }

  /**
   * What a batch is: the frames from the cursor on, at most maxUnits of them,
   * within maxBytes octets unless it is a single frame, and as many as that
   * allows; the cursor then stands behind them.  A budget of 0 octets is none.
   */
  lemma BatchMeans(w: Window, p: Position, maxUnits: nat, maxBytes: nat, out: seq<Frame>, p': Position)
    requires w.tail <= |w.log| && ReadStep(w, p, maxUnits, maxBytes, BATCH, out, p')
    ensures w.tail <= p.next && p.next + |out| <= |w.log| && p' == Position(p.generation, p.next + |out|)
    ensures forall i :: 0 <= i < |out| ==> out[i] == w.log[p.next + i].frame
    ensures 0 < |out| <= maxUnits
    ensures maxBytes > 0 && |out| > 1 ==> |Octets(out)| <= maxBytes
    ensures |out| == maxUnits || p.next + |out| == |w.log|
            || (maxBytes > 0 && |Octets(out)| + Size(w.log[p.next + |out|].frame) > maxBytes)
  {
    BytesAreOctets(w.log, p.next, p'.next);
  }

  /** A cursor that asks for a key frame gets the newest one still held; any other, or when none is held, the head. */
  lemma ResyncMeans(w: Window, keyframe: bool, p': Position)
    requires w.tail <= |w.log|
    ensures ResyncStep(w, keyframe, p')
       <==> && p'.generation == w.generation
            && if keyframe && exists s :: w.tail <= s < |w.log| && w.log[s].frame.keyframe then
                 && w.tail <= p'.next < |w.log| && w.log[p'.next].frame.keyframe
                 && forall s :: p'.next < s < |w.log| ==> !w.log[s].frame.keyframe
               else p'.next == |w.log|
  {
  }
}
