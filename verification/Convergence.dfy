/** When replicas that received the same stream operations, in any order and with repeats, agree. */
module Convergence {
  import opened Common
  import opened Tombstone
  import opened Replica

  const IDEAL := Env(true, true, true, true)

  ghost function OpsOn(events: seq<Event>, n: Name): set<Op>
  {
    set i | 0 <= i < |events| && events[i].op.name == n :: events[i].op
  }

  lemma OpsOnLast(events: seq<Event>, n: Name)
    requires events != []
    ensures var last := events[|events| - 1].op;
            OpsOn(events, n) == OpsOn(events[..|events| - 1], n) + if last.name == n then {last} else {}
  {
    var m := |events| - 1;
    var last := events[m].op;
    var before := events[..m];
    forall o | o in OpsOn(events, n) ensures o in OpsOn(before, n) + if last.name == n then {last} else {} {
      var i :| 0 <= i < |events| && events[i].op.name == n && events[i].op == o;
      if i < m {
        assert before[i].op == o;
      }
    }
    forall o | o in OpsOn(before, n) ensures o in OpsOn(events, n) {
      var i :| 0 <= i < |before| && before[i].op.name == n && before[i].op == o;
      assert events[i].op == o;
    }
    if last.name == n {
      assert events[m].op in OpsOn(events, n);
    }
  }

  /** Stream operations on one name, no two of them at the same revision. */
  ghost predicate Sound(ops: set<Op>, n: Name)
  {
    && (forall o <- ops :: o.name == n && (o.StreamSet? || o.StreamDelete?) && Decodes(o))
    && (forall o <- ops, p <- ops :: o.revision == p.revision ==> o == p)
  }

  /** A run that delivers exactly these operations of the name, in some order with any repeats, on a worker with room. */
  ghost predicate Delivers(hash: Name -> nat, events: seq<Event>, ops: set<Op>, n: Name)
  {
    && OpsOn(events, n) == ops
    && (forall i :: 0 <= i < |events| ==> events[i].env == IDEAL)
    && HashIsOwn(hash, events, n) && Remembers(hash, events, n)
  }

  /** The operation that decides: the newest one if it sets the stream, or a deletion newer than every set that none can dodge. */
  ghost predicate Decides(ops: set<Op>, w: Op)
  {
    && w in ops
    && (w.StreamSet? ==> forall o <- ops :: o.revision <= w.revision)
    && (w.StreamDelete? ==>
          forall o <- ops :: o.StreamSet? ==>
                               o.revision < w.revision && (w.incarnation == 0 || w.incarnation == o.incarnation))
  }

  ghost predicate Settled(ops: set<Op>)
  {
    ops == {} || exists w :: Decides(ops, w)
  }

  function StreamOf(o: Op): Stream
    requires o.StreamSet?
  {
    Stream(o.incarnation, o.revision, o.settings, map[])
  }

  function Outcome(w: Op): Option<Stream>
  {
    if w.StreamSet? then Some(StreamOf(w)) else None
  }

  // ---- A settled set of operations converges ----

  /** The stream is the one some delivered set describes. */
  ghost predicate FromSet(s: State, n: Name, ops: set<Op>)
  {
    n in s.streams ==> exists o :: o in ops && o.StreamSet? && s.streams[n] == StreamOf(o)
  }

  ghost predicate TombsBelow(s: State, h: nat, revision: nat)
  {
    forall i :: 0 <= i < |s.adds| && s.adds[i].hash == h ==> s.adds[i].revision < revision
  }

  ghost predicate TombAtLeast(s: State, h: nat, revision: nat)
  {
    exists i :: 0 <= i < |s.adds| && s.adds[i].hash == h && revision <= s.adds[i].revision
  }

  /** What holds between deliveries once the deciding operation is known. */
  ghost predicate Tracks(s: State, h: nat, n: Name, ops: set<Op>, w: Op, seen: bool)
  {
    && FromSet(s, n, ops)
    && (w.StreamSet? ==> TombsBelow(s, h, w.revision) && (seen ==> n in s.streams && s.streams[n] == StreamOf(w)))
    && (!w.StreamSet? && seen ==> n !in s.streams && TombAtLeast(s, h, w.revision))
  }

  lemma SetStep(hash: Name -> nat, s: State, o: Op, n: Name, ops: set<Op>, w: Op, seen: bool)
    requires Sound(ops, n) && Decides(ops, w) && w.StreamSet? && o in ops
    requires Tracks(s, hash(n), n, ops, w, seen)
    ensures Tracks(Step(hash, s, Event(o, IDEAL)), hash(n), n, ops, w, seen || o == w)
  {
    var t := Step(hash, s, Event(o, IDEAL));
    if Covered(s.adds, hash(n), o.revision) {
      var i :| 0 <= i < |s.adds| && Covers(s.adds, i, hash(n), o.revision);
      assert s.adds[i].revision < w.revision;
      assert t == s && o != w;
    } else {
      hide Covered;
      if o.StreamSet? && n in t.streams && t != s {
        assert t.streams[n] == StreamOf(o);
      }
      if o.revision == w.revision {
        assert o == w;
      }
    }
  }

  lemma DeleteStep(hash: Name -> nat, s: State, o: Op, n: Name, ops: set<Op>, w: Op, seen: bool)
    requires Sound(ops, n) && Decides(ops, w) && w.StreamDelete? && o in ops
    requires Tracks(s, hash(n), n, ops, w, seen) && Ordered(hash, s, n) && Kept(s.adds, hash(n))
    ensures Tracks(Step(hash, s, Event(o, IDEAL)), hash(n), n, ops, w, seen || o == w)
  {
    var h := hash(n);
    var t := Step(hash, s, Event(o, IDEAL));
    CoveredIffSome(hash, s, n, o.revision);
    hide Covered, Kept;
    if n in s.streams {
      var p :| p in ops && p.StreamSet? && s.streams[n] == StreamOf(p);
      assert p.revision < w.revision && (w.incarnation == 0 || w.incarnation == p.incarnation);
    }
    if t != s {
      if o.StreamSet? {
        assert !seen && o != w;
        assert t.streams[n] == StreamOf(o);
      } else {
        assert n !in t.streams;
        var m := |s.adds|;
        assert t.adds == s.adds + [Tomb(h, o.revision)];
        if o == w {
          assert t.adds[m].revision == w.revision;
        } else if seen {
          var i :| 0 <= i < |s.adds| && s.adds[i].hash == h && w.revision <= s.adds[i].revision;
          assert t.adds[i] == s.adds[i];
        }
      }
    }
  }

  lemma OtherStep(hash: Name -> nat, s: State, e: Event, n: Name, ops: set<Op>, w: Op, seen: bool)
    requires e.op.name != n && hash(e.op.name) != hash(n)
    requires Tracks(s, hash(n), n, ops, w, seen)
    ensures Tracks(Step(hash, s, e), hash(n), n, ops, w, seen)
  {
    hide Apply;
    StepFrame(hash, s, e, n);
    var t := Step(hash, s, e);
    assert n in s.streams <==> n in t.streams;
    if t.adds != s.adds {
      var r :| t.adds == s.adds + [Tomb(hash(e.op.name), r)];
      assert forall i :: 0 <= i < |s.adds| ==> t.adds[i] == s.adds[i];
      assert t.adds[|s.adds|].hash != hash(n);
      if !w.StreamSet? && seen {
        var i :| 0 <= i < |s.adds| && s.adds[i].hash == hash(n) && w.revision <= s.adds[i].revision;
        assert t.adds[i] == s.adds[i];
      }
    }
  }

  lemma TracksNothing(h: nat, n: Name, ops: set<Op>, w: Op)
    ensures Tracks(EMPTY, h, n, ops, w, false)
  {
  }

  lemma {:induction false} RunTracks(hash: Name -> nat, events: seq<Event>, n: Name, ops: set<Op>, w: Op)
    requires Sound(ops, n) && Decides(ops, w) && OpsOn(events, n) <= ops
    requires forall i :: 0 <= i < |events| ==> events[i].env == IDEAL
    requires HashIsOwn(hash, events, n) && Remembers(hash, events, n)
    ensures Tracks(Run(hash, events), hash(n), n, ops, w, w in OpsOn(events, n))
  {
    hide Apply, Covered, Kept, Tracks;
    if events == [] {
      TracksNothing(hash(n), n, ops, w);
    } else {
      var m := |events| - 1;
      var before, e := events[..m], events[m];
      OpsOnLast(events, n);
      RunTracks(hash, before, n, ops, w);
      assert e == Event(e.op, IDEAL);
      RunOrdered(hash, before, n);
      if e.op.name != n {
        assert hash(events[m].op.name) != hash(n);
        OtherStep(hash, Run(hash, before), e, n, ops, w, w in OpsOn(before, n));
      } else {
        assert e.op in OpsOn(events, n) && w in ops;
        if w.StreamSet? {
          SetStep(hash, Run(hash, before), e.op, n, ops, w, w in OpsOn(before, n));
        } else {
          DeleteStep(hash, Run(hash, before), e.op, n, ops, w, w in OpsOn(before, n));
        }
      }
    }
  }

  /** Every delivery of a settled set ends in what its deciding operation says. */
  lemma DeliveryOutcome(hash: Name -> nat, events: seq<Event>, n: Name, ops: set<Op>, w: Op)
    requires Sound(ops, n) && Decides(ops, w) && Delivers(hash, events, ops, n)
    ensures Lookup(Run(hash, events), n) == Outcome(w)
  {
    hide Apply, Covered, Kept;
    RunTracks(hash, events, n, ops, w);
  }

  /** A name no operation names stays absent. */
  lemma {:induction false} Untouched(hash: Name -> nat, events: seq<Event>, n: Name)
    requires OpsOn(events, n) == {}
    ensures Lookup(Run(hash, events), n) == None
  {
    if events != [] {
      OpsOnLast(events, n);
      var m := |events| - 1;
      Untouched(hash, events[..m], n);
      StepFrame(hash, Run(hash, events[..m]), events[m], n);
    }
  }

  /** Replicas that received the same settled operations hold the same stream. */
  lemma SettledConverges(hash: Name -> nat, one: seq<Event>, two: seq<Event>, n: Name, ops: set<Op>)
    requires Sound(ops, n) && Settled(ops) && Delivers(hash, one, ops, n) && Delivers(hash, two, ops, n)
    ensures Lookup(Run(hash, one), n) == Lookup(Run(hash, two), n)
  {
    hide Run;
    if ops == {} {
      Untouched(hash, one, n);
      Untouched(hash, two, n);
    } else {
      var w :| Decides(ops, w);
      DeliveryOutcome(hash, one, n, ops, w);
      DeliveryOutcome(hash, two, n, ops, w);
    }
  }

  /** Within one incarnation the newest operation decides, so every delivery ends in what it says. */
  lemma OneIncarnation(hash: Name -> nat, events: seq<Event>, n: Name, ops: set<Op>, w: Op, incarnation: nat)
    requires Sound(ops, n) && Delivers(hash, events, ops, n)
    requires forall o <- ops :: o.incarnation == incarnation || (o.StreamDelete? && o.incarnation == 0)
    requires w in ops && forall o <- ops :: o.revision <= w.revision
    ensures Settled(ops) && Lookup(Run(hash, events), n) == Outcome(w)
  {
    assert Decides(ops, w) by {
      forall o <- ops | o.StreamSet? && w.StreamDelete? ensures o.revision < w.revision {
        assert o != w;
      }
    }
    DeliveryOutcome(hash, events, n, ops, w);
  }

  // ---- An unsettled set does not ----

  /** The newest of some operations. */
  lemma {:induction false} Newest(ops: set<Op>) returns (w: Op)
    requires ops != {}
    ensures w in ops && forall o <- ops :: o.revision <= w.revision
    decreases |ops|
  {
    var p :| p in ops;
    var rest := ops - {p};
    if rest == {} {
      assert ops == {p};
      w := p;
    } else {
      var q := Newest(rest);
      w := if q.revision <= p.revision then p else q;
      assert forall o <- ops :: o == p || o in rest;
    }
  }

  /** A delivery of operations of one name only; every deletion it records is of that name, so none is forgotten. */
  ghost predicate Alone(hash: Name -> nat, events: seq<Event>, n: Name)
  {
    && (forall i :: 0 <= i < |events| ==> events[i].env == IDEAL && events[i].op.name == n)
    && Remembers(hash, events, n)
    && forall i :: 0 <= i < |Run(hash, events).adds| ==> Run(hash, events).adds[i].hash == hash(n)
  }

  lemma AloneAppend(hash: Name -> nat, events: seq<Event>, o: Op)
    requires Alone(hash, events, o.name)
    ensures Alone(hash, events + [Event(o, IDEAL)], o.name)
    ensures Run(hash, events + [Event(o, IDEAL)]) == Step(hash, Run(hash, events), Event(o, IDEAL))
    ensures OpsOn(events + [Event(o, IDEAL)], o.name) == OpsOn(events, o.name) + {o}
  {
    hide Apply, Covered;
    var longer := events + [Event(o, IDEAL)];
    assert longer[..|events|] == events;
    OpsOnLast(longer, o.name);
    var adds := Run(hash, events).adds;
    StepMoves(hash, Run(hash, events), Event(o, IDEAL));
    if adds != [] {
      assert adds[|adds| - 1].hash == hash(o.name);
    }
  }

  /** Operations the current state is deaf to can be delivered without effect. */
  lemma {:induction false} AppendDeaf(hash: Name -> nat, events: seq<Event>, deaf: set<Op>, n: Name) returns (longer: seq<Event>)
    requires Alone(hash, events, n)
    requires forall o <- deaf :: o.name == n && Step(hash, Run(hash, events), Event(o, IDEAL)) == Run(hash, events)
    ensures Alone(hash, longer, n)
    ensures Run(hash, longer) == Run(hash, events) && OpsOn(longer, n) == OpsOn(events, n) + deaf
    decreases |deaf|
  {
    hide Apply, Covered, Run, Alone, OpsOn;
    if deaf == {} {
      longer := events;
    } else {
      var o :| o in deaf;
      AloneAppend(hash, events, o);
      longer := AppendDeaf(hash, events + [Event(o, IDEAL)], deaf - {o}, n);
      assert {o} + (deaf - {o}) == deaf;
    }
  }

  /** Some set names another incarnation than this deletion does. */
  ghost predicate Dodged(d: Op, sets: set<Op>)
  {
    exists s :: s in sets && d.incarnation != 0 && d.incarnation != s.incarnation
  }

  ghost predicate Dodges(s: Op, d: Op)
  {
    d.incarnation != 0 && d.incarnation != s.incarnation
  }

  /** Holds the stream of one set, every deletion so far older than it. */
  ghost predicate Holds(hash: Name -> nat, events: seq<Event>, t: Op)
    requires t.StreamSet?
  {
    && Alone(hash, events, t.name)
    && Lookup(Run(hash, events), t.name) == Some(StreamOf(t))
    && TombsBelow(Run(hash, events), hash(t.name), t.revision)
  }

  lemma AppendSet(hash: Name -> nat, events: seq<Event>, last: Option<Op>, t: Op)
    requires t.StreamSet? && Decodes(t) && Alone(hash, events, t.name)
    requires last.None? ==> events == []
    requires last.Some? ==> last.value.StreamSet? && last.value.name == t.name && last.value.revision < t.revision
                            && Holds(hash, events, last.value)
    ensures Holds(hash, events + [Event(t, IDEAL)], t)
    ensures OpsOn(events + [Event(t, IDEAL)], t.name) == OpsOn(events, t.name) + {t}
  {
    AloneAppend(hash, events, t);
    var s := Run(hash, events);
    assert !Covered(s.adds, hash(t.name), t.revision) by {
      forall i | 0 <= i < |s.adds| ensures !Covers(s.adds, i, hash(t.name), t.revision) {
        assert s.adds[i].revision < t.revision;
      }
    }
    hide Covered, Run, Alone, OpsOn;
  }

  /** Sets delivered oldest first, each followed by the deletions that miss it: the newest set survives them all. */
  lemma {:induction false} Survive(hash: Name -> nat, sets: set<Op>, deletions: set<Op>, n: Name)
      returns (events: seq<Event>, t: Op)
    requires Sound(sets + deletions, n) && sets != {}
    requires forall s <- sets :: s.StreamSet?
    requires forall d <- deletions :: d.StreamDelete? && Dodged(d, sets) && forall s <- sets :: s.revision < d.revision
    ensures t in sets && (forall s <- sets :: s.revision <= t.revision)
    ensures Holds(hash, events, t) && OpsOn(events, n) == sets + deletions
    decreases |sets|
  {
    hide Apply, Covered, Run, Alone, OpsOn, Holds, Dodged, Dodges;
    t := Newest(sets);
    var older := sets - {t};
    var missing := set d <- deletions | Dodges(t, d);
    var left := deletions - missing;
    var last: Option<Op> := None;
    events := [];
    if older == {} {
      assert sets == {t};
      AllMiss(t, deletions);
      assert left == {};
      NothingAlone(hash, n);
    } else {
      LeftShape(sets, deletions, n, t);
      var u;
      events, u := Survive(hash, older, left, n);
      last := Some(u);
      HoldsAlone(hash, events, u);
    }
    AppendSet(hash, events, last, t);
    events := events + [Event(t, IDEAL)];
    forall d <- missing ensures d.name == n && Step(hash, Run(hash, events), Event(d, IDEAL)) == Run(hash, events) {
      MissesHeld(hash, events, t, d);
    }
    HoldsAlone(hash, events, t);
    var longer := AppendDeaf(hash, events, missing, n);
    HoldsSame(hash, events, longer, t);
    events := longer;
    Parts(sets, deletions, t, missing);
  }

  lemma Parts(sets: set<Op>, deletions: set<Op>, t: Op, missing: set<Op>)
    requires t in sets && missing <= deletions
    ensures (((sets - {t}) + (deletions - missing)) + {t}) + missing == sets + deletions
  {
  }

  /** Without the newest set and the deletions that miss it, the rest has the same shape. */
  lemma LeftShape(sets: set<Op>, deletions: set<Op>, n: Name, t: Op)
    requires Sound(sets + deletions, n) && t in sets
    requires forall d <- deletions :: d.StreamDelete? && Dodged(d, sets) && forall s <- sets :: s.revision < d.revision
    ensures var left := deletions - set d <- deletions | Dodges(t, d);
            Sound((sets - {t}) + left, n) && forall d <- left :: d in deletions && Dodged(d, sets - {t})
  {
    var left := deletions - set d <- deletions | Dodges(t, d);
    assert forall o <- (sets - {t}) + left :: o in sets + deletions;
    forall d <- left ensures d in deletions && Dodged(d, sets - {t}) {
      var s :| s in sets && d.incarnation != 0 && d.incarnation != s.incarnation;
      assert s in sets - {t};
    }
  }

  lemma AllMiss(t: Op, deletions: set<Op>)
    requires forall d <- deletions :: Dodged(d, {t})
    ensures (set d <- deletions | Dodges(t, d)) == deletions
  {
    forall d <- deletions ensures Dodges(t, d) {
      assert Dodged(d, {t});
    }
  }

  lemma NothingAlone(hash: Name -> nat, n: Name)
    ensures Alone(hash, [], n) && OpsOn([], n) == {}
  {
  }

  lemma HoldsAlone(hash: Name -> nat, events: seq<Event>, t: Op)
    requires t.StreamSet? && Holds(hash, events, t)
    ensures Alone(hash, events, t.name)
  {
  }

  lemma HoldsSame(hash: Name -> nat, events: seq<Event>, longer: seq<Event>, t: Op)
    requires t.StreamSet? && Holds(hash, events, t)
    requires Alone(hash, longer, t.name) && Run(hash, longer) == Run(hash, events)
    ensures Holds(hash, longer, t)
  {
  }

  /** A deletion of another incarnation, or an older one, does nothing to the stream that is held. */
  lemma MissesHeld(hash: Name -> nat, events: seq<Event>, t: Op, d: Op)
    requires t.StreamSet? && Holds(hash, events, t) && d.StreamDelete? && d.name == t.name
    requires Dodges(t, d) || d.revision < t.revision
    ensures Step(hash, Run(hash, events), Event(d, IDEAL)) == Run(hash, events)
  {
    hide Run, Alone, Covered;
  }

  /** The newest operation, a deletion, delivered first: nothing ever appears. */
  lemma DeleteFirst(hash: Name -> nat, ops: set<Op>, d: Op, n: Name) returns (events: seq<Event>)
    requires Sound(ops, n) && d in ops && d.StreamDelete? && forall o <- ops :: o.revision <= d.revision
    ensures Alone(hash, events, n) && OpsOn(events, n) == ops && Lookup(Run(hash, events), n) == None
  {
    NothingAlone(hash, n);
    AloneAppend(hash, [], d);
    var first := [] + [Event(d, IDEAL)];
    var s := Run(hash, first);
    assert s == State(map[], [Tomb(hash(n), d.revision)]);
    hide Run, Alone, OpsOn;
    forall o <- ops ensures o.name == n && Step(hash, s, Event(o, IDEAL)) == s {
      assert Covers(s.adds, 0, hash(n), o.revision);
    }
    events := AppendDeaf(hash, first, ops, n);
    assert {d} + ops == ops;
  }

  lemma AloneDelivers(hash: Name -> nat, events: seq<Event>, ops: set<Op>, n: Name)
    requires Alone(hash, events, n) && OpsOn(events, n) == ops
    ensures Delivers(hash, events, ops, n)
  {
  }

  /** The newest set of an unsettled collection, and the deletions above it: each misses some set. */
  lemma UnsettledShape(ops: set<Op>, n: Name) returns (t: Op, d: Op)
    requires Sound(ops, n) && !Settled(ops)
    ensures t in ops && t.StreamSet? && forall o <- ops :: o.StreamSet? ==> o.revision <= t.revision
    ensures d in ops && d.StreamDelete? && forall o <- ops :: o.revision <= d.revision
    ensures forall o <- ops :: t.revision < o.revision ==> o.StreamDelete? && Dodged(o, set s <- ops | s.StreamSet?)
  {
    var sets := set s <- ops | s.StreamSet?;
    d := Newest(ops);
    assert !Decides(ops, d);
    assert forall o <- ops :: o.StreamSet? ==> o in sets;
    assert sets != {};
    t := Newest(sets);
    forall o <- ops | t.revision < o.revision ensures o.StreamDelete? && Dodged(o, sets) {
      assert !Decides(ops, o);
      var s :| s in ops && s.StreamSet? && !(s.revision < o.revision && (o.incarnation == 0 || o.incarnation == s.incarnation));
      assert s in sets;
    }
  }

  /** Two deliveries of the same unsettled operations that leave different states. */
  lemma UnsettledDiverges(hash: Name -> nat, ops: set<Op>, n: Name) returns (one: seq<Event>, two: seq<Event>)
    requires Sound(ops, n) && !Settled(ops)
    ensures Delivers(hash, one, ops, n) && Delivers(hash, two, ops, n)
    ensures Lookup(Run(hash, one), n) != Lookup(Run(hash, two), n)
  {
    hide Run, Alone, OpsOn, Holds, Delivers, Settled, Dodged, Apply;
    var t, d := UnsettledShape(ops, n);
    two := DeleteFirst(hash, ops, d, n);
    AloneDelivers(hash, two, ops, n);
    var sets := set s <- ops | s.StreamSet?;
    var above := set o <- ops | t.revision < o.revision;
    var below := ops - sets - above;
    assert t in sets;
    var u;
    one, u := Survive(hash, sets, above, n);
    assert u == t;
    HoldsAlone(hash, one, t);
    forall o <- below ensures o.name == n && Step(hash, Run(hash, one), Event(o, IDEAL)) == Run(hash, one) {
      assert o.revision <= t.revision && o != t;
      MissesHeld(hash, one, t, o);
    }
    var longer := AppendDeaf(hash, one, below, n);
    HoldsSame(hash, one, longer, t);
    HoldsLookup(hash, longer, t);
    one := longer;
    assert sets + above + below == ops;
    AloneDelivers(hash, one, ops, n);
  }

  lemma HoldsLookup(hash: Name -> nat, events: seq<Event>, t: Op)
    requires t.StreamSet? && Holds(hash, events, t)
    ensures Lookup(Run(hash, events), t.name) == Some(StreamOf(t))
  {
  }

  /** Replicas agree on a name, whatever the order and the repeats, exactly when its operations are settled. */
  lemma ConvergesIffSettled(hash: Name -> nat, ops: set<Op>, n: Name)
    requires Sound(ops, n)
    ensures Settled(ops)
            <==> forall one, two :: Delivers(hash, one, ops, n) && Delivers(hash, two, ops, n)
                                    ==> Lookup(Run(hash, one), n) == Lookup(Run(hash, two), n)
  {
    hide Run, Delivers, Settled, Sound;
    if Settled(ops) {
      forall one, two | Delivers(hash, one, ops, n) && Delivers(hash, two, ops, n)
        ensures Lookup(Run(hash, one), n) == Lookup(Run(hash, two), n)
      {
        SettledConverges(hash, one, two, n, ops);
      }
    } else {
      var one, two := UnsettledDiverges(hash, ops, n);
    }
  }

  /**
   * Unsettled sets exist: an incarnation set at revision 1 and the deletion,
   * at revision 2, of another one.  Deleted last, the stream stays; deleted
   * first, it never comes.
   */
  lemma DodgedDeletionDiverges(hash: Name -> nat, n: Name, settings: Settings)
      returns (one: seq<Event>, two: seq<Event>)
    requires n.application != "" && n.name != ""
    ensures var ops := {StreamSet(n, 1, 1, settings), StreamDelete(n, 2, 2)};
            && Sound(ops, n) && !Settled(ops)
            && Delivers(hash, one, ops, n) && Delivers(hash, two, ops, n)
            && Lookup(Run(hash, one), n) != Lookup(Run(hash, two), n)
  {
    var ops := {StreamSet(n, 1, 1, settings), StreamDelete(n, 2, 2)};
    assert StreamSet(n, 1, 1, settings) in ops && StreamDelete(n, 2, 2) in ops;
    one, two := UnsettledDiverges(hash, ops, n);
  }

  // ---- Source operations ----

  /** Both sources are this stream's to set: neither operation meets an obstacle but the stream's revision. */
  ghost predicate BothFit(hash: Name -> nat, s: State, a: Op, b: Op, env: Env)
  {
    && a.SourceSet? && b.SourceSet? && a.name == b.name && a.name in s.streams && a.id != b.id
    && a.incarnation == b.incarnation == s.streams[a.name].incarnation
    && Arrives(hash, s, a) && Arrives(hash, s, b)
    && SourceFits(s, a, env) && SourceFits(s, b, env)
  }

  /** The operation is news: the stream does not have the source as it says. */
  ghost predicate News(hash: Name -> nat, s: State, op: Op, env: Env)
    requires op.SourceSet? && op.name in s.streams
  {
    var t := Apply(hash, s, op, env).state;
    op.name in t.streams && t.streams[op.name].sources != s.streams[op.name].sources
  }

  /**
   * Two sets of different sources of one stream, delivered in either order:
   * the replicas agree if and only if the two carry the same revision, as the
   * stream's revision lets the newer one overtake the older.
   */
  lemma SourceSetsCommuteIff(hash: Name -> nat, s: State, a: Op, b: Op, env: Env)
    requires BothFit(hash, s, a, b, env) && News(hash, s, a, env) && News(hash, s, b, env)
    ensures Apply(hash, Apply(hash, s, a, env).state, b, env).state == Apply(hash, Apply(hash, s, b, env).state, a, env).state
       <==> a.revision == b.revision
  {
    if a.revision < b.revision {
      OlderIsLost(hash, s, a, b, env);
    } else if b.revision < a.revision {
      OlderIsLost(hash, s, b, a, env);
    } else {
      SameRevision(hash, s, a, b, env);
    }
  }

  /** The older of two source sets is lost when it comes second, and kept when it comes first. */
  lemma OlderIsLost(hash: Name -> nat, s: State, a: Op, b: Op, env: Env)
    requires BothFit(hash, s, a, b, env) && News(hash, s, a, env) && a.revision < b.revision
    ensures var ab := Apply(hash, Apply(hash, s, a, env).state, b, env).state;
            var ba := Apply(hash, Apply(hash, s, b, env).state, a, env).state;
            && a.name in ab.streams && a.name in ba.streams
            && (a.id in ba.streams[a.name].sources <==> a.id in s.streams[a.name].sources)
            && a.id in ab.streams[a.name].sources && ab != ba
  {
    hide Covered;
    SourceSetMeans(hash, s, a, env);
    var t := Apply(hash, s, a, env).state;
    SourceSetMeans(hash, t, b, env);
    SourceSetMeans(hash, s, b, env);
  }

  lemma SameRevision(hash: Name -> nat, s: State, a: Op, b: Op, env: Env)
    requires BothFit(hash, s, a, b, env) && a.revision == b.revision
    ensures Apply(hash, Apply(hash, s, a, env).state, b, env).state == Apply(hash, Apply(hash, s, b, env).state, a, env).state
  {
    hide Covered;
    var was := s.streams[a.name].sources;
    var x, y := if a.id in was then Some(was[a.id]) else None, if b.id in was then Some(was[b.id]) else None;
    var ab := Apply(hash, Apply(hash, s, a, env).state, b, env).state;
    var ba := Apply(hash, Apply(hash, s, b, env).state, a, env).state;
    assert was[a.id := Updated(x, a.wanted)][b.id := Updated(y, b.wanted)]
        == was[b.id := Updated(y, b.wanted)][a.id := Updated(x, a.wanted)];
    assert ab.streams == ba.streams;
  }

  /** Two sources set on one stream at revisions 6 and 7: behind the other, the older one never shows up. */
  lemma SourceSetsDiverge(hash: Name -> nat)
    ensures var n := Name("live", "a");
            var env, wanted := Env(true, true, true, true), Source(0, 0, "", "", true, 1, None, None);
            var s := State(map[n := Stream(1, 5, Settings(0, 0, 0), map[])], []);
            var a, b := SourceSet(n, 1, 6, "cam", wanted), SourceSet(n, 1, 7, "mic", wanted);
            var ba := Apply(hash, Apply(hash, s, b, env).state, a, env).state;
            && Apply(hash, Apply(hash, s, a, env).state, b, env).state != ba
            && n in ba.streams && "cam" !in ba.streams[n].sources
  {
    var n := Name("live", "a");
    var env, wanted := Env(true, true, true, true), Source(0, 0, "", "", true, 1, None, None);
    var s := State(map[n := Stream(1, 5, Settings(0, 0, 0), map[])], []);
    var a, b := SourceSet(n, 1, 6, "cam", wanted), SourceSet(n, 1, 7, "mic", wanted);
    assert "cam" != "mic" by {
      assert "cam"[0] != "mic"[0];
    }
    SourceSetMeans(hash, s, a, env);
    OlderIsLost(hash, s, a, b, env);
  }
}
