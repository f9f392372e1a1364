/** The bounded repair journal of graph operations: reserve before sending, keep what some peer missed, retry round robin. */
module Journal {
  import opened Common

  const CAPACITY := 256
  const PER_TICK := 4

  datatype Item = Item(header: nat, payload: seq<byte>)

  /** What each worker's endpoint does with one message: None is not connected, Some(took) whether its socket had room. */
  type Peers = seq<Option<bool>>

  /** The workers of this process, and which of them this one is. */
  datatype Place = Place(workers: nat, slot: nat)

  predicate Addressed(at: Place, peers: Peers, i: nat)
  {
    i < at.workers && i < |peers| && i != at.slot && peers[i].Some?
  }

  predicate AnyPeer(at: Place, peers: Peers)
  {
    exists i :: 0 <= i < |peers| && Addressed(at, peers, i)
  }

  /** Every connected peer took the message. */
  predicate AllTook(at: Place, peers: Peers)
  {
    forall i :: 0 <= i < |peers| && Addressed(at, peers, i) ==> peers[i].value
  }

  /** The broadcast loop: the two counters agree exactly when no connected peer missed the message. */
  method Broadcast(at: Place, peers: Peers) returns (delivered: nat, addressed: nat)
    requires |peers| >= at.workers
    ensures delivered <= addressed
    ensures at.workers < 2 || at.slot >= at.workers ==> addressed == 0
    ensures at.workers >= 2 && at.slot < at.workers ==> (addressed > 0 <==> AnyPeer(at, peers))
    ensures at.workers >= 2 && at.slot < at.workers ==> (delivered == addressed <==> AllTook(at, peers))
  {
    delivered, addressed := 0, 0;
    if at.workers < 2 || at.slot >= at.workers {
      return;
    }
    var i := 0;
    while i < at.workers
      invariant i <= at.workers && delivered <= addressed
      invariant addressed > 0 <==> exists k :: 0 <= k < i && Addressed(at, peers, k)
      invariant delivered == addressed <==> forall k :: 0 <= k < i && Addressed(at, peers, k) ==> peers[k].value
    {
      if i != at.slot && peers[i].Some? {
        assert Addressed(at, peers, i);
        addressed := addressed + 1;
        if peers[i].value {
          delivered := delivered + 1;
        }
      }
      i := i + 1;
    }
  }

  // ---- Specification ----

  datatype Told = Told(item: Item, peers: Peers)

  /** The journal and its history: every broadcast made and every operation accepted. */
  datatype State = State(slots: seq<Option<Item>>, cursor: nat, told: seq<Told>, accepted: seq<Item>)

  predicate WellFormed(s: State)
  {
    |s.slots| == CAPACITY && s.cursor < CAPACITY
  }

  const EMPTY := State(seq(CAPACITY, _ => None), 0, [], [])

  predicate Used(slots: seq<Option<Item>>, i: nat)
    requires i < |slots|
  {
    slots[i].Some?
  }

  /** The slot `offset` places after the cursor. */
  function At(cursor: nat, offset: nat): (i: nat)
    requires cursor < CAPACITY && offset < CAPACITY
    ensures i < CAPACITY
  {
    if cursor + offset < CAPACITY then cursor + offset else cursor + offset - CAPACITY
  }

  lemma AtIsRemainder(cursor: nat, offset: nat)
    requires cursor < CAPACITY && offset < CAPACITY
    ensures (cursor + offset) % CAPACITY == At(cursor, offset)
  {
  }

  lemma UsedSlot(slots: seq<Option<Item>>, i: nat)
    requires i < |slots|
    ensures Used(slots, i) <==> slots[i].Some?
  {
  }

  /** How far ahead of the cursor a slot is. */
  function Distance(cursor: nat, i: nat): (d: nat)
    requires cursor < CAPACITY && i < CAPACITY
    ensures d < CAPACITY && At(cursor, d) == i
  {
    if cursor <= i then i - cursor else i + CAPACITY - cursor
  }

  function FirstFree(slots: seq<Option<Item>>, i: nat): (free: nat)
    requires i <= |slots|
    ensures i <= free <= |slots|
    ensures free < |slots| ==> slots[free].None?
    ensures forall k :: i <= k < free ==> slots[k].Some?
    decreases |slots| - i
  {
    if i < |slots| && slots[i].Some? then FirstFree(slots, i + 1) else i
  }

  function FirstUsed(slots: seq<Option<Item>>, cursor: nat, offset: nat): (found: nat)
    requires |slots| == CAPACITY && cursor < CAPACITY && offset <= CAPACITY
    ensures offset <= found <= CAPACITY
    ensures found < CAPACITY ==> Used(slots, At(cursor, found))
    ensures forall k :: offset <= k < found ==> !Used(slots, At(cursor, k))
    decreases CAPACITY - offset
  {
    if offset < CAPACITY && !Used(slots, At(cursor, offset)) then FirstUsed(slots, cursor, offset + 1) else offset
  }

  /** One retry: the first held entry from the cursor on; it leaves when every connected peer takes it. */
  ghost function Try(at: Place, s: State, peers: Peers): (t: State)
    requires WellFormed(s)
    ensures WellFormed(t)
  {
    var offset := FirstUsed(s.slots, s.cursor, 0);
    if offset == CAPACITY then s
    else
      var i := At(s.cursor, offset);
      var told := s.told + [Told(s.slots[i].value, peers)];
      var slots := if Delivered(at, peers) then s.slots[i := None] else s.slots;
      State(slots, At(i, 1), told, s.accepted)
  }

  ghost predicate Delivered(at: Place, peers: Peers)
  {
    at.workers >= 2 && at.slot < at.workers && AnyPeer(at, peers) && AllTook(at, peers)
  }

  /** Offering an operation: a slot is reserved first, and kept when the broadcast missed a peer. */
  ghost function Offer(at: Place, s: State, item: Item, peers: Peers): (r: (State, Rc))
    requires WellFormed(s)
    ensures WellFormed(r.0)
  {
    if at.workers <= 1 then (s.(told := s.told + [Told(item, peers)], accepted := s.accepted + [item]), OK)
    else
      var free := FirstFree(s.slots, 0);
      if free == CAPACITY then (s, ERROR)
      else
        var t := s.(told := s.told + [Told(item, peers)], accepted := s.accepted + [item]);
        if Delivered(at, peers) then (t, OK) else (t.(slots := s.slots[free := Some(item)]), AGAIN)
  }

  /** A refused operation reaches no peer and leaves no trace; it is refused exactly when the journal is full. */
  lemma RefusedReachesNobody(at: Place, s: State, item: Item, peers: Peers)
    requires WellFormed(s)
    ensures Offer(at, s, item, peers).1 == ERROR
            <==> at.workers > 1 && forall i :: 0 <= i < CAPACITY ==> Used(s.slots, i)
    ensures Offer(at, s, item, peers).1 == ERROR ==> Offer(at, s, item, peers).0 == s
  {
    var free := FirstFree(s.slots, 0);
    if free < CAPACITY {
      assert !Used(s.slots, free);
    }
  }

  // ---- Runs ----

  datatype Step = Retry(peers: Peers) | Send(item: Item, peers: Peers)

  ghost function Next(at: Place, s: State, step: Step): (t: State)
    requires WellFormed(s)
    ensures WellFormed(t)
  {
    match step
    case Retry(peers) => Try(at, s, peers)
    case Send(item, peers) => Offer(at, s, item, peers).0
  }

  ghost function Run(at: Place, s: State, steps: seq<Step>): (t: State)
    requires WellFormed(s)
    ensures WellFormed(t)
    decreases |steps|
  {
    if steps == [] then s else Run(at, Next(at, s, steps[0]), steps[1..])
  }

  predicate Holds(slots: seq<Option<Item>>, i: nat, item: Item)
  {
    i < |slots| && slots[i] == Some(item)
  }

  /** Some broadcast of the item was taken by every connected peer. */
  ghost predicate Reached(at: Place, told: seq<Told>, item: Item)
  {
    exists k :: 0 <= k < |told| && told[k].item == item && (at.workers <= 1 || Delivered(at, told[k].peers))
  }

  ghost predicate Safe(at: Place, s: State, item: Item)
  {
    Reached(at, s.told, item) || exists i: nat :: Holds(s.slots, i, item)
  }

  lemma ReachedStays(at: Place, told: seq<Told>, more: Told, item: Item)
    requires Reached(at, told, item)
    ensures Reached(at, told + [more], item)
  {
    var k :| 0 <= k < |told| && told[k].item == item && (at.workers <= 1 || Delivered(at, told[k].peers));
    assert (told + [more])[k] == told[k];
  }

  lemma ReachedLast(at: Place, told: seq<Told>, more: Told)
    requires at.workers <= 1 || Delivered(at, more.peers)
    ensures Reached(at, told + [more], more.item)
  {
    assert (told + [more])[|told|] == more;
  }

  lemma StepKeepsSafe(at: Place, s: State, step: Step, item: Item)
    requires WellFormed(s) && Safe(at, s, item)
    ensures Safe(at, Next(at, s, step), item)
  {
    hide Reached, Delivered;
    var t := Next(at, s, step);
    if t.told != s.told {
      var last := t.told[|s.told|];
      assert t.told == s.told + [last];
      if Reached(at, s.told, item) {
        ReachedStays(at, s.told, last, item);
      } else {
        var i: nat :| Holds(s.slots, i, item);
        if t.slots[i] == s.slots[i] {
          assert Holds(t.slots, i, item);
        } else {
          ReachedLast(at, s.told, last);
        }
      }
    }
  }

  lemma StepAccepts(at: Place, s: State, step: Step)
    requires WellFormed(s)
    ensures var t := Next(at, s, step);
            t.accepted == s.accepted
            || (step.Send? && t.accepted == s.accepted + [step.item] && Safe(at, t, step.item))
  {
    hide Reached, Delivered;
    var t := Next(at, s, step);
    if step.Send? && t.accepted != s.accepted {
      if at.workers <= 1 || Delivered(at, step.peers) {
        ReachedLast(at, s.told, Told(step.item, step.peers));
      } else {
        assert Holds(t.slots, FirstFree(s.slots, 0), step.item);
      }
    }
  }

  /** In every run, an accepted operation is held or was taken by every connected peer in one broadcast. */
  lemma {:induction false} AcceptedIsHeldOrTaken(at: Place, s: State, steps: seq<Step>)
    requires WellFormed(s) && forall k :: 0 <= k < |s.accepted| ==> Safe(at, s, s.accepted[k])
    ensures forall k :: 0 <= k < |Run(at, s, steps).accepted| ==> Safe(at, Run(at, s, steps), Run(at, s, steps).accepted[k])
    decreases |steps|
  {
    hide Safe, Try, Offer;
    if steps != [] {
      var t := Next(at, s, steps[0]);
      StepAccepts(at, s, steps[0]);
      forall k | 0 <= k < |t.accepted| ensures Safe(at, t, t.accepted[k]) {
        if k < |s.accepted| {
          assert t.accepted[k] == s.accepted[k];
          StepKeepsSafe(at, s, steps[0], s.accepted[k]);
        }
      }
      AcceptedIsHeldOrTaken(at, t, steps[1..]);
    }
  }

  // ---- Fairness ----

  /** The slot the next retry broadcasts. */
  function Picked(s: State): (i: Option<nat>)
    requires WellFormed(s)
    ensures i.Some? ==> i.value < CAPACITY && Used(s.slots, i.value)
  {
    var offset := FirstUsed(s.slots, s.cursor, 0);
    if offset == CAPACITY then None else Some(At(s.cursor, offset))
  }

  /** Some worker but this one is connected, and every such worker had room for the message. */
  ghost predicate EveryPeerTakes(at: Place, peers: Peers)
  {
    && 2 <= at.workers && at.slot < at.workers
    && (exists p :: 0 <= p < at.workers && p < |peers| && p != at.slot && peers[p] != None)
    && (forall p :: 0 <= p < at.workers && p < |peers| && p != at.slot ==> peers[p] != Some(false))
  }

  lemma DeliveredMeans(at: Place, peers: Peers)
    ensures Delivered(at, peers) <==> EveryPeerTakes(at, peers)
  {
    if Delivered(at, peers) {
      var p :| 0 <= p < |peers| && Addressed(at, peers, p);
      assert peers[p] != None;
      forall q | 0 <= q < at.workers && q < |peers| && q != at.slot ensures peers[q] != Some(false) {
        assert peers[q].Some? ==> Addressed(at, peers, q);
      }
    }
    if EveryPeerTakes(at, peers) {
      var p :| 0 <= p < at.workers && p < |peers| && p != at.slot && peers[p] != None;
      assert Addressed(at, peers, p);
    }
  }

  /** A retry picks the first held entry from the cursor on, going round. */
  lemma PickedMeans(s: State)
    requires WellFormed(s)
    ensures Picked(s).None? <==> forall i :: 0 <= i < 256 ==> s.slots[i] == None
    ensures Picked(s).Some? ==>
              && s.slots[Picked(s).value] != None
              && exists d :: 0 <= d < 256 && FirstHeldAt(s, d) && Picked(s).value == (s.cursor + d) % 256
  {
    var d := FirstUsed(s.slots, s.cursor, 0);
    if d < CAPACITY {
      forall k | 0 <= k < d ensures FreeAhead(s, k) {
        AtIsRemainder(s.cursor, k);
        assert !Used(s.slots, At(s.cursor, k));
      }
      AtIsRemainder(s.cursor, d);
      assert Used(s.slots, At(s.cursor, d)) && FirstHeldAt(s, d);
    } else {
      forall i | 0 <= i < 256 ensures s.slots[i] == None {
        assert !Used(s.slots, At(s.cursor, Distance(s.cursor, i)));
      }
    }
  }

  predicate FreeAhead(s: State, d: nat)
    requires WellFormed(s)
  {
    s.slots[(s.cursor + d) % 256] == None
  }

  ghost predicate FirstHeldAt(s: State, d: nat)
    requires WellFormed(s)
  {
    !FreeAhead(s, d) && forall k :: 0 <= k < d ==> FreeAhead(s, k)
  }

  /**
   * A retry tells the entry it picks to the peers and gives its slot back if
   * and only if there is a connected peer and every one took it; every other
   * slot stays as it is.
   */
  lemma RetryFrees(at: Place, s: State, peers: Peers)
    requires WellFormed(s)
    ensures Picked(s).None? ==> Try(at, s, peers) == s
    ensures Picked(s).Some? ==>
              var t, i := Try(at, s, peers), Picked(s).value;
              && (t.slots[i] == None <==> EveryPeerTakes(at, peers))
              && (t.slots[i] != None ==> t.slots[i] == s.slots[i])
              && (forall j :: 0 <= j < 256 && j != i ==> t.slots[j] == s.slots[j])
              && t.cursor == (i + 1) % 256
              && Some(t.told[|t.told| - 1].item) == s.slots[i] && t.told[|t.told| - 1].peers == peers
              && t.told[..|t.told| - 1] == s.told && t.accepted == s.accepted
  {
    DeliveredMeans(at, peers);
    hide Delivered, EveryPeerTakes, FirstUsed;
    if Picked(s).Some? {
      AtIsRemainder(Picked(s).value, 1);
      assert (s.told + [Told(s.slots[Picked(s).value].value, peers)])[..|s.told|] == s.told;
    }
  }

  /**
   * An offer with other workers about takes the lowest free slot if some
   * connected peer missed it or none is connected, and no slot at all if every one took it.
   */
  lemma OfferMeans(at: Place, s: State, item: Item, peers: Peers)
    requires WellFormed(s)
    ensures var (t, rc) := Offer(at, s, item, peers);
            && (rc != ERROR ==> t.cursor == s.cursor && t.accepted == s.accepted + [item]
                                && t.told == s.told + [Told(item, peers)])
            && (rc == OK <==> (at.workers <= 1
                               || (EveryPeerTakes(at, peers) && exists i :: 0 <= i < 256 && s.slots[i] == None)))
            && (rc != AGAIN ==> t.slots == s.slots)
            && (rc == AGAIN ==> exists i :: 0 <= i < 256 && LowestFree(s, i) && t.slots == s.slots[i := Some(item)])
  {
    DeliveredMeans(at, peers);
    hide Delivered, EveryPeerTakes;
    var free := FirstFree(s.slots, 0);
    if free < CAPACITY {
      assert LowestFree(s, free);
    }
  }

  ghost predicate LowestFree(s: State, i: nat)
    requires WellFormed(s) && i < 256
  {
    s.slots[i] == None && forall k :: 0 <= k < i ==> s.slots[k] != None
  }

  ghost function HeldSlots(s: State): set<nat>
    requires WellFormed(s)
  {
    set i: nat | i < 256 && s.slots[i] != None
  }

  lemma {:induction false} AtMostBelow(held: set<nat>, n: nat)
    requires forall i :: i in held ==> i < n
    ensures |held| <= n
  {
    if n > 0 {
      AtMostBelow(held - {n - 1}, n - 1);
    }
  }

  /** Retries that every peer takes give back one slot each until the journal is empty. */
  lemma {:induction false} RetriesEmpty(at: Place, s: State, steps: seq<Step>)
    requires WellFormed(s)
    requires forall k :: 0 <= k < |steps| ==> steps[k].Retry? && EveryPeerTakes(at, steps[k].peers)
    ensures |HeldSlots(Run(at, s, steps))| == Max(0, |HeldSlots(s)| - |steps|)
    decreases |steps|
  {
    hide EveryPeerTakes, Try, Picked;
    if steps != [] {
      var t := Try(at, s, steps[0].peers);
      RetryFrees(at, s, steps[0].peers);
      PickedMeans(s);
      if Picked(s).Some? {
        assert HeldSlots(t) == HeldSlots(s) - {Picked(s).value};
      } else {
        assert HeldSlots(s) == {};
      }
      RetriesEmpty(at, t, steps[1..]);
    }
  }

  /** A retry takes the held entry or moves the cursor strictly closer to it, and leaves it held. */
  lemma CloserEachTry(at: Place, s: State, peers: Peers, i: nat, item: Item)
    requires WellFormed(s) && Holds(s.slots, i, item)
    ensures Picked(s).Some?
    ensures Picked(s) != Some(i) ==>
              && Holds(Try(at, s, peers).slots, i, item)
              && Distance(Try(at, s, peers).cursor, i) < Distance(s.cursor, i)
  {
    hide Delivered;
    assert Used(s.slots, At(s.cursor, Distance(s.cursor, i)));
  }

  /** New operations take other slots and never move the cursor. */
  lemma SendKeepsPlace(at: Place, s: State, item: Item, peers: Peers, i: nat, held: Item)
    requires WellFormed(s) && Holds(s.slots, i, held)
    ensures var t := Offer(at, s, item, peers).0;
            Holds(t.slots, i, held) && t.cursor == s.cursor
  {
    hide Delivered;
  }

  function Retries(steps: seq<Step>): nat
  {
    if steps == [] then 0 else (if steps[0].Retry? then 1 else 0) + Retries(steps[1..])
  }

  /**
   * An entry that is held is broadcast again before the retries outnumber its
   * distance from the cursor, whatever else is added or taken meanwhile.
   */
  lemma {:induction false} RetriedWithinDistance(at: Place, s: State, steps: seq<Step>, i: nat, item: Item) returns (k: nat)
    requires WellFormed(s) && Holds(s.slots, i, item) && Retries(steps) > Distance(s.cursor, i)
    ensures k < |steps| && steps[k].Retry? && Retries(steps[..k]) <= Distance(s.cursor, i)
    ensures Picked(Run(at, s, steps[..k])) == Some(i) && Holds(Run(at, s, steps[..k]).slots, i, item)
    decreases |steps|
  {
    hide Try, Offer, Picked;
    var step := steps[0];
    if step.Retry? && Picked(s) == Some(i) {
      k := 0;
      assert steps[..0] == [];
    } else {
      var t := Next(at, s, step);
      if step.Retry? {
        CloserEachTry(at, s, step.peers, i, item);
      } else {
        SendKeepsPlace(at, s, step.item, step.peers, i, item);
      }
      var n := RetriedWithinDistance(at, t, steps[1..], i, item);
      k := n + 1;
      assert steps[..k][0] == step && steps[..k][1..] == steps[1..][..n];
    }
  }

  // ---- Ticks ----

  datatype Turn = Tick(each: seq<Peers>) | Mutation(item: Item, peers: Peers)

  /** A tick is four retries; a journal that runs empty makes the rest of them do nothing. */
  function Unrolled(turns: seq<Turn>): seq<Step>
    requires forall k :: 0 <= k < |turns| && turns[k].Tick? ==> |turns[k].each| == PER_TICK
  {
    if turns == [] then []
    else (match turns[0]
      case Tick(peers) => seq(PER_TICK, k requires 0 <= k < PER_TICK => Retry(peers[k]))
      case Mutation(item, peers) => [Send(item, peers)]) + Unrolled(turns[1..])
  }

  function Ticks(turns: seq<Turn>): nat
  {
    if turns == [] then 0 else (if turns[0].Tick? then 1 else 0) + Ticks(turns[1..])
  }

  lemma {:induction false} RetriesConcat(a: seq<Step>, b: seq<Step>)
    ensures Retries(a + b) == Retries(a) + Retries(b)
  {
    if a == [] {
      assert a + b == b;
    } else {
      assert (a + b)[1..] == a[1..] + b;
      RetriesConcat(a[1..], b);
    }
  }

  lemma {:induction false} TicksRetry(turns: seq<Turn>)
    requires forall k :: 0 <= k < |turns| && turns[k].Tick? ==> |turns[k].each| == PER_TICK
    ensures Retries(Unrolled(turns)) == PER_TICK * Ticks(turns)
  {
    if turns != [] {
      TicksRetry(turns[1..]);
      var head := match turns[0]
        case Tick(peers) => seq(PER_TICK, k requires 0 <= k < PER_TICK => Retry(peers[k]))
        case Mutation(item, peers) => [Send(item, peers)];
      RetriesConcat(head, Unrolled(turns[1..]));
      if turns[0].Tick? {
        var p := turns[0].each;
        assert head == [Retry(p[0]), Retry(p[1]), Retry(p[2]), Retry(p[3])];
        FourRetries(Retry(p[0]), Retry(p[1]), Retry(p[2]), Retry(p[3]));
      }
    }
  }

  lemma FourRetries(a: Step, b: Step, c: Step, d: Step)
    requires a.Retry? && b.Retry? && c.Retry? && d.Retry?
    ensures Retries([a, b, c, d]) == 4
  {
    RetriesConcat([a], [b]);
    RetriesConcat([c], [d]);
    RetriesConcat([a] + [b], [c] + [d]);
    assert ([a] + [b]) + ([c] + [d]) == [a, b, c, d];
  }

  /** Sixty-four ticks retry every entry that is held at their start. */
  lemma RetriedWithin64Ticks(at: Place, s: State, turns: seq<Turn>, i: nat, item: Item) returns (k: nat)
    requires WellFormed(s) && Holds(s.slots, i, item) && Ticks(turns) >= 64
    requires forall k :: 0 <= k < |turns| && turns[k].Tick? ==> |turns[k].each| == PER_TICK
    ensures var steps := Unrolled(turns);
            && k < |steps| && steps[k].Retry? && Retries(steps[..k]) < CAPACITY
            && Picked(Run(at, s, steps[..k])) == Some(i) && Holds(Run(at, s, steps[..k]).slots, i, item)
  {
    hide Run, Picked;
    TicksRetry(turns);
    k := RetriedWithinDistance(at, s, Unrolled(turns), i, item);
  }

  lemma {:induction false} UnrolledTicks(at: Place, turns: seq<Turn>)
    requires forall k :: 0 <= k < |turns| ==> turns[k].Tick? && |turns[k].each| == PER_TICK
    requires forall k, p :: 0 <= k < |turns| && 0 <= p < PER_TICK ==> EveryPeerTakes(at, turns[k].each[p])
    ensures |Unrolled(turns)| == PER_TICK * |turns|
    ensures var steps := Unrolled(turns);
            forall k :: 0 <= k < |steps| ==> steps[k].Retry? && EveryPeerTakes(at, steps[k].peers)
  {
    hide EveryPeerTakes;
    if turns != [] {
      UnrolledTicks(at, turns[1..]);
    }
  }

  /**
   * The journal gives its entries back: once every connected peer takes what
   * it is sent and nothing new is offered, sixty-four ticks leave it empty,
   * and the next operation offered is not refused.
   */
  lemma EmptyAfter64Ticks(at: Place, s: State, turns: seq<Turn>, item: Item, peers: Peers)
    requires WellFormed(s) && |turns| >= 64
    requires forall k :: 0 <= k < |turns| ==> turns[k].Tick? && |turns[k].each| == PER_TICK
    requires forall k, p :: 0 <= k < |turns| && 0 <= p < PER_TICK ==> EveryPeerTakes(at, turns[k].each[p])
    ensures var t := Run(at, s, Unrolled(turns));
            && (forall i :: 0 <= i < 256 ==> t.slots[i] == None)
            && Offer(at, t, item, peers).1 != ERROR
  {
    hide EveryPeerTakes, Unrolled, Offer, Run;
    UnrolledTicks(at, turns);
    RetriesEmpty(at, s, Unrolled(turns));
    AtMostBelow(HeldSlots(s), 256);
    var t := Run(at, s, Unrolled(turns));
    assert HeldSlots(t) == {};
    forall i | 0 <= i < 256 ensures t.slots[i] == None {
      assert i !in HeldSlots(t);
    }
    assert !Used(t.slots, 0);
    RefusedReachesNobody(at, t, item, peers);
  }

  /**
   * While other operations keep coming, too: an entry held at the start is
   * given back within sixty-four ticks if every connected peer takes the
   * retries.
   */
  lemma GivenBackWithin64Ticks(at: Place, s: State, turns: seq<Turn>, i: nat, item: Item) returns (k: nat)
    requires WellFormed(s) && Holds(s.slots, i, item) && Ticks(turns) >= 64
    requires forall k :: 0 <= k < |turns| && turns[k].Tick? ==> |turns[k].each| == PER_TICK
    requires forall j :: 0 <= j < |Unrolled(turns)| && Unrolled(turns)[j].Retry? ==> EveryPeerTakes(at, Unrolled(turns)[j].peers)
    ensures k < |Unrolled(turns)| && i < 256 && Run(at, s, Unrolled(turns)[..k + 1]).slots[i] == None
  {
    hide EveryPeerTakes, Unrolled, Try, Offer, Picked;
    var steps := Unrolled(turns);
    k := RetriedWithin64Ticks(at, s, turns, i, item);
    RunSplit(at, s, steps[..k], [steps[k]]);
    assert steps[..k + 1] == steps[..k] + [steps[k]];
    RetryFrees(at, Run(at, s, steps[..k]), steps[k].peers);
  }

  lemma {:induction false} RunSplit(at: Place, s: State, a: seq<Step>, b: seq<Step>)
    requires WellFormed(s)
    ensures Run(at, s, a + b) == Run(at, Run(at, s, a), b)
    decreases |a|
  {
    hide Next;
    if a == [] {
      assert a + b == b;
    } else {
      assert (a + b)[1..] == a[1..] + b;
      RunSplit(at, Next(at, s, a[0]), a[1..], b);
    }
  }

  // ---- The journal itself ----

  class Repair {
    const at: Place
    const slots: array<Option<Item>>
    var cursor: nat
    ghost var told: seq<Told>
    ghost var accepted: seq<Item>

    ghost predicate Valid()
      reads this, slots
    {
      slots.Length == CAPACITY && cursor < CAPACITY
    }

    ghost function View(): State
      reads this, slots
    {
      State(slots[..], cursor, told, accepted)
    }

    constructor (at: Place)
      ensures Valid() && View() == EMPTY && this.at == at && fresh(slots)
    {
      this.at := at;
      slots := new Option<Item>[CAPACITY](_ => None);
      cursor, told, accepted := 0, [], [];
      new;
      assert slots[..] == EMPTY.slots;
    }

    /** The first free slot takes the operation; none free is AGAIN. */
    method Enqueue(item: Item) returns (rc: Rc, index: nat)
      requires Valid()
      modifies slots
      ensures Valid()
      ensures item.payload == [] ==> rc == ERROR && slots[..] == old(slots[..])
      ensures item.payload != [] ==>
                var free := FirstFree(old(slots[..]), 0);
                if free == CAPACITY then rc == AGAIN && slots[..] == old(slots[..])
                else rc == OK && index == free && slots[..] == old(slots[..])[free := Some(item)]
    {
      index := CAPACITY;
      if item.payload == [] {
        return ERROR, index;
      }
      ghost var before := slots[..];
      var i := 0;
      while i < CAPACITY
        invariant i <= CAPACITY && slots[..] == before
        invariant FirstFree(before, 0) == FirstFree(before, i)
      {
        if slots[i].None? {
          slots[i] := Some(item);
          return OK, i;
        }
        i := i + 1;
      }
      return AGAIN, index;
    }

    method Clear(index: nat)
      requires Valid()
      modifies slots
      ensures Valid()
      ensures slots[..] == if index < CAPACITY then old(slots[..])[index := None] else old(slots[..])
    {
      if index >= CAPACITY || slots[index].None? {
        return;
      }
      slots[index] := None;
    }

    /** The scan of one attempt: the offset of the first held entry, and the cursor moved past it. */
    method Scan() returns (i: nat)
      requires Valid()
      modifies `cursor
      ensures Valid()
      ensures var offset := FirstUsed(slots[..], old(cursor), 0);
              if offset == CAPACITY then i == CAPACITY && cursor == old(cursor)
              else i == At(old(cursor), offset) && cursor == At(i, 1)
    {
      hide Used, At;
      var offset := 0;
      while offset < CAPACITY
        invariant offset <= CAPACITY && cursor == old(cursor)
        invariant FirstUsed(slots[..], cursor, 0) == FirstUsed(slots[..], cursor, offset)
      {
        i := (cursor + offset) % CAPACITY;
        AtIsRemainder(cursor, offset);
        UsedSlot(slots[..], i);
        if slots[i].Some? {
          AtIsRemainder(i, 1);
          cursor := (i + 1) % CAPACITY;
          return;
        }
        offset := offset + 1;
      }
      i := CAPACITY;
    }

    method Attempt(peers: Peers) returns (found: bool)
      requires Valid() && |peers| >= at.workers
      modifies this, slots
      ensures Valid() && View() == Try(at, old(View()), peers)
      ensures !found ==> View() == old(View()) && Picked(View()).None?
    {
      hide AnyPeer, AllTook, At, Used, FirstUsed;
      ghost var before := slots[..];
      var i := Scan();
      assert slots[..] == before;
      if i == CAPACITY {
        return false;
      }
      UsedSlot(slots[..], i);
      var entry := slots[i].value;
      var delivered, addressed := Broadcast(at, peers);
      told := told + [Told(entry, peers)];
      if addressed > 0 && delivered == addressed {
        Clear(i);
      }
      return true;
    }

    /** Up to four attempts, ending early when nothing is held. */
    method RunTick(peers: seq<Peers>)
      requires Valid() && |peers| == PER_TICK
      requires forall k :: 0 <= k < PER_TICK ==> |peers[k]| >= at.workers
      modifies this, slots
      ensures Valid()
      ensures View() == Run(at, old(View()), [Retry(peers[0]), Retry(peers[1]), Retry(peers[2]), Retry(peers[3])])
    {
      ghost var start := View();
      ghost var all := [Retry(peers[0]), Retry(peers[1]), Retry(peers[2]), Retry(peers[3])];
      var attempts := 0;
      while attempts < PER_TICK
        invariant attempts <= PER_TICK && Valid()
        invariant Run(at, start, all) == Run(at, View(), all[attempts..])
      {
        var found := Attempt(peers[attempts]);
        if !found {
          RunEmpty(at, View(), all[attempts..]);
          return;
        }
        attempts := attempts + 1;
      }
    }

    /** An operation of this worker's own, sent to every other. */
    method SendItem(item: Item, peers: Peers) returns (rc: Rc)
      requires Valid() && item.payload != [] && |peers| >= at.workers
      modifies this, slots
      ensures Valid() && (View(), rc) == Offer(at, old(View()), item, peers)
    {
      var reserved := CAPACITY;
      ghost var before := slots[..];
      if at.workers > 1 {
        var kept;
        kept, reserved := Enqueue(item);
        if kept != OK {
          return ERROR;
        }
      }
      var delivered, addressed := Broadcast(at, peers);
      told := told + [Told(item, peers)];
      accepted := accepted + [item];
      if (addressed == 0 && at.workers <= 1) || (addressed > 0 && delivered == addressed) {
        if reserved != CAPACITY {
          Clear(reserved);
          assert slots[..] == before;
        }
        return OK;
      }
      return AGAIN;
    }
  }

  /** Retries of an empty journal do nothing. */
  lemma {:induction false} RunEmpty(at: Place, s: State, steps: seq<Step>)
    requires WellFormed(s) && Picked(s).None? && forall k :: 0 <= k < |steps| ==> steps[k].Retry?
    ensures Run(at, s, steps) == s
  {
    if steps != [] {
      RunEmpty(at, s, steps[1..]);
    }
  }
}
