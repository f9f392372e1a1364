/**
 * One HLS push destination: a bounded queue that several uploader threads
 * take from, one upload in flight at a time.
 */
module PushQueue {
  import opened Common
  import opened RingMath

  const QUEUE := 64
  const MISSING := 8
  const NAME_MAX := 64

  datatype File = File(path: string, size: nat)

  /**
   * A queued object.  The ticket is the order in which the destination
   * accepted it; the code has no such field, it is what runs are stated with.
   */
  datatype Item = Item(file: File, enqueued: nat, firstNs: nat, notBeforeNs: nat, attempts: nat, ticket: nat)

  const NO_ITEM := Item(File("", 0), 0, 0, 0, 0, 0)

  datatype Outcome = DONE | FAILED | RETRY | SKIPPED

  /** What follows the last slash. */
  function Basename(path: string): string
  {
    if path == [] then []
    else if path[|path| - 1] == '/' then []
    else Basename(path[..|path| - 1]) + [path[|path| - 1]]
  }

  function Lower(c: char): char
  {
    if 'A' <= c <= 'Z' then ((c as int) + 32) as char else c
  }

  predicate IsPlaylist(name: string)
  {
    |name| > 5 &&
    var end := name[|name| - 5..];
    [Lower(end[0]), Lower(end[1]), Lower(end[2]), Lower(end[3]), Lower(end[4])] == ".m3u8"
  }

  /** Remembers a segment the destination lacks; the list keeps the last eight. */
  function MissingAdd(missing: seq<string>, name: string): (r: seq<string>)
    ensures |missing| <= MISSING ==> |r| <= MISSING
  {
    (if |missing| == MISSING then missing[1..] else missing) + [Shown(name)]
  }

  /** What a name looks like in the list: its first 63 characters. */
  function Shown(name: string): string
  {
    if |name| < NAME_MAX then name else name[..NAME_MAX - 1]
  }

  /** A segment that arrived late is taken off the list, where it is listed first. */
  function MissingRemove(missing: seq<string>, name: string): (r: seq<string>)
    ensures |r| <= |missing|
    ensures name !in missing ==> r == missing
  {
    if missing == [] then []
    else if missing[0] == name then missing[1..]
    else [missing[0]] + MissingRemove(missing[1..], name)
  }

  /** What a playlist that was taken still lists stays missing. */
  function MissingKeep(missing: seq<string>, listed: seq<string>): (r: seq<string>)
    ensures |r| <= |missing|
    ensures forall name :: name in r <==> name in missing && name in listed
  {
    if missing == [] then []
    else (if missing[0] in listed then [missing[0]] else []) + MissingKeep(missing[1..], listed)
  }

  datatype Counters = Counters(uploaded: nat, uploadedBytes: nat, dropped: nat, failed: nat, retried: nat)

  datatype Dest = Dest(queue: seq<Item>, inflight: Option<Item>, stopping: bool,
                       counters: Counters, missing: seq<string>)

  /** The oldest queued object makes room. */
  function DropOldest(d: Dest): Dest
    requires d.queue != []
  {
    var lost := Basename(d.queue[0].file.path);
    d.(queue := d.queue[1..],
       counters := d.counters.(dropped := d.counters.dropped + 1),
       missing := if IsPlaylist(lost) then d.missing else MissingAdd(d.missing, lost))
  }

  function Enqueue(d: Dest, item: Item): (r: (Dest, Rc))
    ensures |d.queue| <= QUEUE ==> |r.0.queue| <= QUEUE
  {
    if d.stopping then (d, ERROR) else
    var room := if |d.queue| == QUEUE then DropOldest(d) else d;
    (room.(queue := room.queue + [item]), OK)
  }

  /** An uploader may take the head: something is queued, nothing is in flight, its time has come. */
  predicate Ready(d: Dest, now: nat)
  {
    d.queue != [] && !d.stopping && d.inflight.None? && d.queue[0].notBeforeNs <= now
  }

  function Dequeue(d: Dest): Dest
    requires d.queue != []
  {
    d.(queue := d.queue[1..], inflight := Some(d.queue[0]))
  }

  /** A retried object goes back to the head, unless the queue filled up or stopped meanwhile. */
  predicate Requeues(d: Dest, outcome: Outcome)
  {
    outcome == RETRY && !d.stopping && |d.queue| < QUEUE
  }

  function Complete(d: Dest, item: Item, outcome: Outcome): Dest
  {
    var idle := d.(inflight := None);
    var c := d.counters;
    if Requeues(d, outcome) then
      idle.(queue := [item] + d.queue, counters := c.(retried := c.retried + 1))
    else match outcome
      case SKIPPED => idle
      case DONE =>
        idle.(counters := c.(uploaded := c.uploaded + 1, uploadedBytes := c.uploadedBytes + item.file.size))
      case _ => idle.(counters := c.(failed := c.failed + 1))
  }

  /**
   * What an upload leaves in the list before it completes: a segment that
   * arrived is no longer missing, one that is given up is, and a playlist
   * that was taken keeps only the segments it lists.
   */
  function Uploaded(missing: seq<string>, name: string, outcome: Outcome, listed: Option<seq<string>>): (r: seq<string>)
    ensures |missing| <= MISSING ==> |r| <= MISSING
  {
    match outcome
    case DONE =>
      if !IsPlaylist(name) then MissingRemove(missing, name)
      else if listed.Some? then MissingKeep(missing, listed.value) else missing
    case FAILED => if IsPlaylist(name) then missing else MissingAdd(missing, name)
    case _ => missing
  }

  /** Stopping drops everything queued; an upload in flight goes on. */
  function Stop(d: Dest): Dest
  {
    d.(queue := [], stopping := true, counters := d.counters.(dropped := d.counters.dropped + |d.queue|))
  }

  // ---- the ring -------------------------------------------------------------------

  lemma SlotWraps(a: nat, i: nat)
    ensures SlotOf(SlotOf(a, QUEUE) + i, QUEUE) == SlotOf(a + i, QUEUE)
  {
  }

  /** The count items of a ring from head on. */
  ghost function Window(ring: seq<Item>, head: nat, count: nat): (w: seq<Item>)
    requires |ring| == QUEUE && count <= QUEUE
    ensures |w| == count
    ensures forall i {:trigger w[i]} :: 0 <= i < count ==> w[i] == ring[SlotOf(head + i, QUEUE)]
  {
    seq(count, i requires 0 <= i < count => ring[SlotOf(head + i, QUEUE)])
  }

  lemma SlotBack(a: nat, i: nat)
    ensures SlotOf(SlotOf(a + QUEUE - 1, QUEUE) + (i + 1), QUEUE) == SlotOf(a + i, QUEUE)
    ensures SlotOf(SlotOf(a + QUEUE - 1, QUEUE), QUEUE) == SlotOf(a + QUEUE - 1, QUEUE)
  {
  }

  lemma WindowPop(ring: seq<Item>, head: nat, count: nat)
    requires |ring| == QUEUE && head < QUEUE && 0 < count <= QUEUE
    ensures Window(ring[head := NO_ITEM], SlotOf(head + 1, QUEUE), count - 1) == Window(ring, head, count)[1..]
    ensures Window(ring, head, count)[0] == ring[head]
    ensures SlotOf(SlotOf(head + 1, QUEUE) + count - 1, QUEUE) == SlotOf(head + count, QUEUE)
  {
    assert SlotOf(head, QUEUE) == head;
    SlotWraps(head + 1, count - 1);
    hide SlotOf, Window;
    var w, w' := Window(ring, head, count), Window(ring[head := NO_ITEM], SlotOf(head + 1, QUEUE), count - 1);
    assert w[0] == ring[SlotOf(head + 0, QUEUE)];
    forall i | 0 <= i < count - 1 ensures w'[i] == w[i + 1] {
      SlotWraps(head + 1, i);
      SlotsDiffer(head, head + 1 + i, QUEUE);
      assert w[i + 1] == ring[SlotOf(head + (i + 1), QUEUE)];
    }
  }

  lemma WindowPushTail(ring: seq<Item>, head: nat, count: nat, item: Item)
    requires |ring| == QUEUE && head < QUEUE && count < QUEUE
    ensures Window(ring[SlotOf(head + count, QUEUE) := item], head, count + 1) == Window(ring, head, count) + [item]
    ensures SlotOf(SlotOf(head + count, QUEUE) + 1, QUEUE) == SlotOf(head + count + 1, QUEUE)
  {
    SlotWraps(head + count, 1);
    hide SlotOf, Window;
    var w, w' := Window(ring, head, count), Window(ring[SlotOf(head + count, QUEUE) := item], head, count + 1);
    forall i | 0 <= i < count ensures w'[i] == w[i] {
      SlotsDiffer(head + i, head + count, QUEUE);
    }
  }

  lemma WindowPushHead(ring: seq<Item>, head: nat, count: nat, item: Item)
    requires |ring| == QUEUE && head < QUEUE && count < QUEUE
    ensures var h := SlotOf(head + QUEUE - 1, QUEUE);
            && Window(ring[h := item], h, count + 1) == [item] + Window(ring, head, count)
            && SlotOf(h + count + 1, QUEUE) == SlotOf(head + count, QUEUE)
  {
    var h := SlotOf(head + QUEUE - 1, QUEUE);
    SlotBack(head, count);
    hide SlotOf, Window;
    var w, w' := Window(ring, head, count), Window(ring[h := item], h, count + 1);
    assert w'[0] == ring[h := item][SlotOf(h + 0, QUEUE)];
    forall i | 0 < i < count + 1 ensures w'[i] == w[i - 1] {
      SlotBack(head, i - 1);
      SlotsDiffer(head + (i - 1), head + QUEUE - 1, QUEUE);
      assert w'[i] == ring[h := item][SlotOf(h + i, QUEUE)];
    }
  }

  lemma RemoveNothing(missing: seq<string>, name: string)
    ensures missing[..0] + MissingRemove(missing[0..], name) == MissingRemove(missing, name)
    ensures missing[..|missing|] + MissingRemove(missing[|missing|..], name) == missing
  {
    assert missing[0..] == missing && missing[..0] == [] && missing[|missing|..] == [];
    assert [] + MissingRemove(missing, name) == MissingRemove(missing, name);
  }

  lemma KeepAll(missing: seq<string>, listed: seq<string>)
    ensures [] + MissingKeep(missing[0..], listed) == MissingKeep(missing, listed)
    ensures forall kept: seq<string> :: kept + MissingKeep(missing[|missing|..], listed) == kept
  {
    assert missing[0..] == missing && missing[|missing|..] == [];
    assert forall kept: seq<string> :: kept + [] == kept;
  }

  lemma RemoveHead(missing: seq<string>, name: string, i: nat)
    requires i < |missing|
    ensures missing[..i] + MissingRemove(missing[i..], name)
         == if missing[i] == name then missing[..i] + missing[i + 1..]
            else missing[..i + 1] + MissingRemove(missing[i + 1..], name)
  {
    assert missing[i..][1..] == missing[i + 1..];
    assert missing[..i] + [missing[i]] == missing[..i + 1];
    ConcatAssociative(missing[..i], [missing[i]], MissingRemove(missing[i + 1..], name));
  }

  lemma KeepHead(missing: seq<string>, listed: seq<string>, i: nat, kept: seq<string>)
    requires i < |missing|
    ensures kept + MissingKeep(missing[i..], listed)
         == (if missing[i] in listed then kept + [missing[i]] else kept) + MissingKeep(missing[i + 1..], listed)
  {
    assert missing[i..][1..] == missing[i + 1..];
    var rest := MissingKeep(missing[i + 1..], listed);
    ConcatAssociative(kept, [missing[i]], rest);
    assert [] + rest == rest;
  }

  class Push {
    const queue: array<Item>
    var head: nat
    var tail: nat
    var count: nat
    var inflight: bool
    var inflightItem: Item
    var stopping: bool
    var uploaded: nat
    var uploadedBytes: nat
    var dropped: nat
    var failed: nat
    var retried: nat
    var missing: seq<string>

    ghost predicate Valid()
      reads `head, `tail, `count, `missing
    {
      && queue.Length == QUEUE && head < QUEUE && count <= QUEUE
      && tail == SlotOf(head + count, QUEUE)
      && |missing| <= MISSING
    }

    /** The queued items, oldest first. */
    ghost function Queued(): (q: seq<Item>)
      requires Valid()
      reads `head, `tail, `count, `missing, queue
      ensures |q| == count
    {
      Window(queue[..], head, count)
    }

    ghost function View(): Dest
      requires Valid()
      reads this, queue
    {
      Dest(Queued(), if inflight then Some(inflightItem) else None, stopping,
           Counters(uploaded, uploadedBytes, dropped, failed, retried), missing)
    }

    constructor ()
      ensures Valid() && fresh(queue)
      ensures View() == Dest([], None, false, Counters(0, 0, 0, 0, 0), [])
    {
      queue := new Item[QUEUE](_ => NO_ITEM);
      head, tail, count, inflight, inflightItem, stopping := 0, 0, 0, false, NO_ITEM, false;
      uploaded, uploadedBytes, dropped, failed, retried, missing := 0, 0, 0, 0, 0, [];
    }

    /** Clears the head slot and moves on. */
    method PopHead() returns (item: Item)
      requires Valid() && count > 0
      modifies this`head, this`count, queue
      ensures Valid() && item == old(Queued())[0] && Queued() == old(Queued())[1..]
    {
      ghost var ring := queue[..];
      WindowPop(ring, head, count);
      item := queue[head];
      queue[head] := NO_ITEM;
      assert queue[..] == ring[head := NO_ITEM];
      head := SlotOf(head + 1, QUEUE);
      count := count - 1;
    }

    method PushTail(item: Item)
      requires Valid() && count < QUEUE
      modifies this`tail, this`count, queue
      ensures Valid() && Queued() == old(Queued()) + [item]
    {
      ghost var ring := queue[..];
      WindowPushTail(ring, head, count, item);
      queue[tail] := item;
      assert queue[..] == ring[tail := item];
      tail := SlotOf(tail + 1, QUEUE);
      count := count + 1;
    }

    method PushHead(item: Item)
      requires Valid() && count < QUEUE
      modifies this`head, this`count, queue
      ensures Valid() && Queued() == [item] + old(Queued())
    {
      ghost var ring := queue[..];
      WindowPushHead(ring, head, count, item);
      head := SlotOf(head + QUEUE - 1, QUEUE);
      queue[head] := item;
      assert queue[..] == ring[head := item];
      count := count + 1;
    }

    /** ngx_media_hls_push_enqueue. */
    method EnqueueItem(item: Item) returns (rc: Rc)
      requires Valid()
      modifies this, queue
      ensures Valid() && (View(), rc) == Enqueue(old(View()), item)
    {
      hide Basename, IsPlaylist, Shown, MissingAdd, SlotOf, Window;
      if stopping {
        return ERROR;
      }
      if count == QUEUE {
        var oldest := PopHead();
        var lost := Basename(oldest.file.path);
        if !IsPlaylist(lost) {
          missing := MissingAdd(missing, lost);
        }
        dropped := dropped + 1;
      }
      PushTail(item);
      return OK;
    }

    /** The uploader's visit of one destination: it takes the head exactly when it is ready. */
    method Take(now: nat) returns (item: Option<Item>)
      requires Valid()
      modifies this, queue
      ensures Valid() && (item.Some? <==> Ready(old(View()), now))
      ensures View() == if item.Some? then Dequeue(old(View())) else old(View())
      ensures item.Some? ==> item == View().inflight
    {
      if count == 0 || stopping || inflight {
        return None;
      }
      assert Queued()[0] == queue[head] by {
        assert SlotOf(head, QUEUE) == head;
      }
      if queue[head].notBeforeNs != 0 && queue[head].notBeforeNs > now {
        return None;
      }
      var taken := PopHead();
      inflight := true;
      inflightItem := taken;
      return Some(taken);
    }

    /** The segment was taken: it is no longer missing. */
    method Arrived(name: string)
      requires Valid()
      modifies `missing
      ensures Valid() && missing == MissingRemove(old(missing), name)
    {
      hide MissingRemove;
      RemoveNothing(missing, name);
      var i := 0;
      while i < |missing|
        invariant i <= |missing| && missing == old(missing)
        invariant MissingRemove(missing, name) == missing[..i] + MissingRemove(missing[i..], name)
      {
        RemoveHead(missing, name, i);
        if missing[i] == name {
          missing := missing[..i] + missing[i + 1..];
          return;
        }
        i := i + 1;
      }
    }

    /** A playlist was taken: missing segments that left its window are nobody's concern any more. */
    method Expire(listed: seq<string>)
      requires Valid()
      modifies `missing
      ensures Valid() && missing == MissingKeep(old(missing), listed)
    {
      hide MissingKeep;
      var kept: seq<string> := [];
      var i := 0;
      KeepAll(missing, listed);
      while i < |missing|
        invariant i <= |missing| && missing == old(missing)
        invariant MissingKeep(missing, listed) == kept + MissingKeep(missing[i..], listed)
      {
        var still := Lists(listed, missing[i]);
        KeepHead(missing, listed, i, kept);
        if still {
          kept := kept + [missing[i]];
        }
        i := i + 1;
      }
      missing := kept;
    }

    static method Lists(listed: seq<string>, name: string) returns (yes: bool)
      ensures yes == (name in listed)
    {
      var k := 0;
      while k < |listed|
        invariant k <= |listed| && forall j :: 0 <= j < k ==> listed[j] != name
      {
        if listed[k] == name {
          return true;
        }
        k := k + 1;
      }
      return false;
    }

    /** What the upload of an item does to the list under the mutex, before its completion. */
    method Report(name: string, outcome: Outcome, listed: Option<seq<string>>)
      requires Valid()
      modifies `missing
      ensures Valid() && missing == Uploaded(old(missing), name, outcome, listed)
    {
      if outcome == DONE {
        if !IsPlaylist(name) {
          Arrived(name);
        } else if listed.Some? {
          Expire(listed.value);
        }
      } else if outcome == FAILED && !IsPlaylist(name) {
        missing := MissingAdd(missing, name);
      }
    }

    /** The uploader's completion of the upload it took. */
    method Finish(item: Item, outcome: Outcome)
      requires Valid() && inflight
      modifies this, queue
      ensures Valid() && View() == Complete(old(View()), item, outcome)
    {
      inflight := false;
      inflightItem := NO_ITEM;
      if outcome == RETRY && !stopping && count < QUEUE {
        PushHead(item);
        retried := retried + 1;
      } else if outcome == SKIPPED {
        // a skipped playlist counts nowhere
      } else if outcome == DONE {
        uploaded := uploaded + 1;
        uploadedBytes := uploadedBytes + item.file.size;
      } else {
        failed := failed + 1;
      }
    }

    /** Removal and shutdown: stop and drain. */
    method Drain()
      requires Valid()
      modifies this, queue
      ensures Valid() && View() == Stop(old(View()))
    {
      stopping := true;
      ghost var n := count;
      while count > 0
        invariant Valid() && stopping && count <= n && dropped == old(dropped) + (n - count)
        invariant inflight == old(inflight) && inflightItem == old(inflightItem) && missing == old(missing)
        invariant (uploaded, uploadedBytes, failed, retried) == old((uploaded, uploadedBytes, failed, retried))
        decreases count
      {
        var item := PopHead();
        dropped := dropped + 1;
      }
      tail := head;
      assert Queued() == [];
    }
  }
}
