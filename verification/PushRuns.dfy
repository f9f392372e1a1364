/**
 * A push destination over its whole life: sealed files, any number of
 * uploader threads, removal and shutdown, interleaved.  Each step is what one
 * thread does under the destination's mutex (or one atomic on its count of
 * references); an upload itself runs outside any lock.
 */
module PushRuns {
  import opened Common
  import opened PushQueue

  /** How far the removal of the destination has come. */
  datatype Removal = Listed | Unlinked | Drained | Released

  /**
   * How an object leaves: taken by the remote, given up, as a retry that found
   * no room, skipped, or dropped from the queue by a newer object or a stop.
   */
  datatype How = Sent | GaveUp | RetryLost | Skipped | Overflowed | Cleared

  datatype Gone = Gone(ticket: nat, name: string, how: How)

  /**
   * dest and refs are the object's own; verdict is what the upload in flight
   * came to, once it has reported and before it completes; holders counts
   * uploaders that have completed and not yet dropped their reference.  The
   * rest records the run: tickets accepted, the names of files that could not be
   * opened, uploads skipped, the tickets of finished uploads and of objects dropped
   * from the queue, all of them in the order they left, and the tickets whose
   * segments were put on the list of missing ones.
   */
  datatype System = System(
    dest: Dest, verdict: Option<Outcome>, refs: int, removal: Removal, holders: nat, freed: bool,
    accepted: nat, unopened: seq<string>, skipped: nat, done: seq<nat>, lost: seq<nat>,
    finished: seq<Gone>, listed: seq<nat>)

  datatype Step =
    | Seal(file: File, time: nat)
    | SealFailed(file: File, missing: bool)
    | Take(now: nat)
    | Report(outcome: Outcome, uris: Option<seq<string>>)
    | Finish(outcome: Outcome, item: Item)
    | DropRef
    | Unlink
    | Drain
    | ReleaseList
    | Shutdown

  function Name(item: Item): string
  {
    Basename(item.file.path)
  }

  /** Sealing and taking walk the destination list; completion and release need only a reference. */
  predicate Enabled(s: System, step: Step)
  {
    match step
    case Seal(_, _) => s.removal == Listed
    case SealFailed(_, _) => s.removal == Listed
    case Take(now) => s.removal == Listed && Ready(s.dest, now)
    case Report(outcome, _) =>
      // only a playlist is skipped: one that lists nothing this destination ever had
      s.dest.inflight.Some? && s.verdict.None? && (outcome == SKIPPED ==> IsPlaylist(Name(s.dest.inflight.value)))
    case Finish(outcome, item) =>
      && s.dest.inflight.Some? && s.verdict == Some(outcome)
      // the upload may change its item's retry fields, not which object it is
      && item.ticket == s.dest.inflight.value.ticket && item.file == s.dest.inflight.value.file
    case DropRef => s.holders > 0
    case Unlink => s.removal == Listed
    case Drain => s.removal == Unlinked
    case ReleaseList => s.removal == Drained
    case Shutdown => s.removal == Listed
  }

  function Tickets(q: seq<Item>): (t: seq<nat>)
    ensures |t| == |q| && forall i :: 0 <= i < |q| ==> t[i] == q[i].ticket
  {
    seq(|q|, i requires 0 <= i < |q| => q[i].ticket)
  }

  /** One reference dropped: the last one frees the object. */
  function Unref(s: System): System
  {
    s.(refs := s.refs - 1, freed := s.freed || s.refs == 1)
  }

  function HowOf(outcome: Outcome): How
  {
    match outcome
    case DONE => Sent
    case FAILED => GaveUp
    case RETRY => RetryLost
    case SKIPPED => Skipped
  }

  /** Everything queued, as it leaves when the queue is drained. */
  function Emptied(q: seq<Item>): (g: seq<Gone>)
    ensures |g| == |q| && forall i :: 0 <= i < |q| ==> g[i] == Gone(q[i].ticket, Name(q[i]), Cleared)
  {
    seq(|q|, i requires 0 <= i < |q| => Gone(q[i].ticket, Name(q[i]), Cleared))
  }

  /** A segment, and not a playlist, is put on the list. */
  function Tell(listed: seq<nat>, item: Item): seq<nat>
  {
    if IsPlaylist(Name(item)) then listed else listed + [item.ticket]
  }

  /** A sealed file is queued; the oldest object makes room when there is none. */
  function AfterSeal(s: System, file: File, time: nat): System
  {
    var r := Enqueue(s.dest, Item(file, time, 0, 0, 0, s.accepted));
    if r.1 != OK then s
    else if |s.dest.queue| < QUEUE then s.(dest := r.0, accepted := s.accepted + 1)
    else
      var x := s.dest.queue[0];
      s.(dest := r.0, accepted := s.accepted + 1, lost := s.lost + [x.ticket],
         finished := s.finished + [Gone(x.ticket, Name(x), Overflowed)], listed := Tell(s.listed, x))
  }

  /** The upload reports: the list of missing segments changes, the object is still in flight. */
  function AfterReport(s: System, outcome: Outcome, uris: Option<seq<string>>): System
    requires s.dest.inflight.Some?
  {
    var item := s.dest.inflight.value;
    s.(dest := s.dest.(missing := Uploaded(s.dest.missing, Name(item), outcome, uris)), verdict := Some(outcome),
       listed := if outcome == FAILED then Tell(s.listed, item) else s.listed)
  }

  function AfterFinish(s: System, outcome: Outcome, item: Item): System
  {
    var t := s.(dest := Complete(s.dest, item, outcome), verdict := None, holders := s.holders + 1,
                skipped := s.skipped + (if outcome == SKIPPED then 1 else 0));
    if Requeues(s.dest, outcome) then t
    else t.(done := s.done + [item.ticket], finished := s.finished + [Gone(item.ticket, Name(item), HowOf(outcome))])
  }

  function AfterStop(s: System): System
  {
    s.(dest := Stop(s.dest), lost := s.lost + Tickets(s.dest.queue), finished := s.finished + Emptied(s.dest.queue))
  }

  function Apply(s: System, step: Step): System
    requires Enabled(s, step)
  {
    match step
    case Seal(file, time) => AfterSeal(s, file, time)
    case SealFailed(file, missing) =>
      var c := s.dest.counters;
      s.(dest := s.dest.(counters := if missing then c.(dropped := c.dropped + 1) else c.(failed := c.failed + 1)),
         unopened := s.unopened + [Basename(file.path)])
    case Take(_) => s.(dest := Dequeue(s.dest), refs := s.refs + 1)
    case Report(outcome, uris) => AfterReport(s, outcome, uris)
    case Finish(outcome, item) => AfterFinish(s, outcome, item)
    case DropRef => Unref(s.(holders := s.holders - 1))
    case Unlink => s.(removal := Unlinked)
    case Drain => AfterStop(s).(removal := Drained)
    case ReleaseList => Unref(s.(removal := Released))
    case Shutdown => AfterStop(s)
  }

  const START :=
    System(Dest([], None, false, Counters(0, 0, 0, 0, 0), []), None, 1, Listed, 0, false, 0, [], 0, [], [], [], [])

  // ---- references ---------------------------------------------------------------

  /** The list holds one reference, an upload in flight one, an uploader about to let go one. */
  predicate RefsRight(s: System)
  {
    && s.refs == (if s.removal == Released then 0 else 1)
               + (if s.dest.inflight.Some? then 1 else 0) + s.holders
    && (s.freed <==> s.refs == 0)
    && (s.removal in {Drained, Released} ==> s.dest.stopping && s.dest.queue == [])
  }

  lemma RefsStep(s: System, step: Step)
    requires RefsRight(s) && Enabled(s, step)
    ensures RefsRight(Apply(s, step))
    ensures !s.freed
    ensures Apply(s, step).freed ==> step.DropRef? || step.ReleaseList?
  {
  }

  // ---- order --------------------------------------------------------------------

  predicate Increasing(t: seq<nat>)
  {
    forall i, j :: 0 <= i < j < |t| ==> t[i] < t[j]
  }

  /** Every element of t is below every element of u. */
  predicate Below(t: seq<nat>, u: seq<nat>)
  {
    forall i, j :: 0 <= i < |t| && 0 <= j < |u| ==> t[i] < u[j]
  }

  predicate Disjoint(t: seq<nat>, u: seq<nat>)
  {
    forall i, j :: 0 <= i < |t| && 0 <= j < |u| ==> t[i] != u[j]
  }

  predicate AllBelow(t: seq<nat>, n: nat)
  {
    forall i :: 0 <= i < |t| ==> t[i] < n
  }

  function Flying(d: Dest): seq<nat>
  {
    match d.inflight
    case Some(item) => [item.ticket]
    case None => []
  }

  /** Uploads finish before what is in flight, that before what is queued; drops leave from the head. */
  predicate OrderRight(s: System)
  {
    |s.dest.queue| <= QUEUE && Sorted(s) && DropsBehind(s)
  }

  /**
   * An object dropped after the one in flight was taken is behind it in line;
   * then the queue is full, and stays so as long as the upload lasts.
   */
  predicate DropsBehind(s: System)
  {
    !s.dest.stopping && |s.dest.queue| < QUEUE ==> Below(s.lost, Flying(s.dest))
  }

  predicate Sorted(s: System)
  {
    var queued, flying := Tickets(s.dest.queue), Flying(s.dest);
    && Increasing(queued) && Increasing(s.done) && Increasing(s.lost)
    && Below(flying, queued) && Below(s.done, flying) && Below(s.done, queued) && Below(s.lost, queued)
    && Disjoint(s.done, s.lost) && Disjoint(flying, s.lost)
    && AllBelow(queued, s.accepted) && AllBelow(flying, s.accepted)
    && AllBelow(s.done, s.accepted) && AllBelow(s.lost, s.accepted)
  }

  lemma DropSorted(s: System)
    requires Sorted(s) && s.dest.queue != []
    ensures Sorted(s.(dest := DropOldest(s.dest), lost := s.lost + [s.dest.queue[0].ticket]))
  {
    var queued, flying := Tickets(s.dest.queue), Flying(s.dest);
    var x, rest := queued[0], queued[1..];
    assert Tickets(s.dest.queue[1..]) == rest && x == s.dest.queue[0].ticket;
    HeadLeaves(x, rest, queued);
    SnocLost(s.lost, x, rest, queued);
    assert Disjoint(s.done, s.lost + [x]) && Disjoint(flying, s.lost + [x]);
  }

  lemma HeadLeaves(x: nat, rest: seq<nat>, queued: seq<nat>)
    requires Increasing(queued) && queued == [x] + rest
    ensures Increasing(rest) && Below([x], rest)
  {
    assert queued[0] == x;
    assert forall i :: 0 <= i < |rest| ==> rest[i] == queued[i + 1] > x;
  }

  lemma SnocLost(lost: seq<nat>, x: nat, rest: seq<nat>, queued: seq<nat>)
    requires Increasing(lost) && Below(lost, queued) && queued == [x] + rest && Below([x], rest)
    ensures Increasing(lost + [x]) && Below(lost + [x], rest)
  {
    assert queued[0] == x;
    assert forall i :: 0 <= i < |rest| ==> rest[i] == queued[i + 1];
  }

  lemma AppendSorted(s: System, item: Item)
    requires Sorted(s) && item.ticket == s.accepted
    ensures Sorted(s.(dest := s.dest.(queue := s.dest.queue + [item]), accepted := s.accepted + 1))
  {
    assert Tickets(s.dest.queue + [item]) == Tickets(s.dest.queue) + [s.accepted];
  }

  lemma SealOrder(s: System, file: File, time: nat)
    requires OrderRight(s) && Enabled(s, Seal(file, time))
    ensures OrderRight(Apply(s, Seal(file, time)))
  {
    hide Sorted, DropOldest;
    if !s.dest.stopping {
      var item := Item(file, time, 0, 0, 0, s.accepted);
      if |s.dest.queue| == QUEUE {
        var s1 := s.(dest := DropOldest(s.dest), lost := s.lost + [s.dest.queue[0].ticket]);
        DropSorted(s);
        AppendSorted(s1, item);
        DropKeepsShape(s.dest);
        var s2 := s1.(dest := s1.dest.(queue := s1.dest.queue + [item]), accepted := s1.accepted + 1);
        SortedFrame(s2, Apply(s, Seal(file, time)));
      } else {
        AppendSorted(s, item);
      }
    }
  }

  lemma SortedFrame(s: System, s': System)
    requires Sorted(s) && s'.dest.queue == s.dest.queue && s'.dest.inflight == s.dest.inflight
    requires s'.done == s.done && s'.lost == s.lost && s'.accepted == s.accepted
    ensures Sorted(s')
  {
  }

  lemma DropKeepsShape(d: Dest)
    requires d.queue != []
    ensures var d' := DropOldest(d);
            d'.queue == d.queue[1..] && d'.inflight == d.inflight && d'.stopping == d.stopping
  {
  }

  lemma TakeOrder(s: System, now: nat)
    requires OrderRight(s) && Enabled(s, Take(now))
    ensures OrderRight(Apply(s, Take(now)))
  {
    assert Tickets(s.dest.queue[1..]) == Tickets(s.dest.queue)[1..];
  }

  lemma RequeueOrder(s: System, item: Item)
    requires OrderRight(s) && Enabled(s, Finish(RETRY, item)) && Requeues(s.dest, RETRY)
    ensures OrderRight(Apply(s, Finish(RETRY, item)))
  {
    assert Flying(s.dest) == [item.ticket];
    assert Tickets([item] + s.dest.queue) == [item.ticket] + Tickets(s.dest.queue);
    assert Below(s.lost, [item.ticket]);
  }

  lemma CompleteOrder(s: System, outcome: Outcome, item: Item)
    requires OrderRight(s) && Enabled(s, Finish(outcome, item)) && !Requeues(s.dest, outcome)
    ensures OrderRight(Apply(s, Finish(outcome, item)))
  {
    var s' := Apply(s, Finish(outcome, item));
    assert Flying(s.dest) == [item.ticket] && s'.done == s.done + [item.ticket];
    assert s'.dest.queue == s.dest.queue && Flying(s'.dest) == [];
    var t := item.ticket;
    assert Increasing(s.done + [t]) && Below(s.done + [t], Tickets(s.dest.queue)) by {
      assert [t][0] == t;
    }
    assert Disjoint(s.done + [t], s.lost) by {
      assert [t][0] == t;
    }
  }

  lemma FinishOrder(s: System, outcome: Outcome, item: Item)
    requires OrderRight(s) && Enabled(s, Finish(outcome, item))
    ensures OrderRight(Apply(s, Finish(outcome, item)))
  {
    if Requeues(s.dest, outcome) {
      RequeueOrder(s, item);
    } else {
      CompleteOrder(s, outcome, item);
    }
  }

  lemma StopOrder(s: System, s': System)
    requires OrderRight(s)
    requires s'.dest == Stop(s.dest) && s'.lost == s.lost + Tickets(s.dest.queue)
    requires s'.done == s.done && s'.accepted == s.accepted
    ensures OrderRight(s')
  {
  }

  lemma OrderStep(s: System, step: Step)
    requires OrderRight(s) && Enabled(s, step)
    ensures OrderRight(Apply(s, step))
  {
    hide OrderRight;
    match step {
      case Seal(file, time) => SealOrder(s, file, time);
      case Take(now) => TakeOrder(s, now);
      case Finish(outcome, item) => FinishOrder(s, outcome, item);
      case Drain => StopOrder(s, Apply(s, step));
      case Shutdown => StopOrder(s, Apply(s, step));
      case _ => OrderFrame(s, Apply(s, step));
    }
  }

  lemma OrderFrame(s: System, s': System)
    requires OrderRight(s)
    requires s'.dest.queue == s.dest.queue && s'.dest.inflight == s.dest.inflight
    requires s'.dest.stopping == s.dest.stopping
    requires s'.done == s.done && s'.lost == s.lost && s'.accepted == s.accepted
    ensures OrderRight(s')
  {
  }

  // ---- the order in which objects leave -------------------------------------------

  function GoneTickets(g: seq<Gone>): (t: seq<nat>)
    ensures |t| == |g| && forall i :: 0 <= i < |g| ==> t[i] == g[i].ticket
  {
    seq(|g|, i requires 0 <= i < |g| => g[i].ticket)
  }

  /** Objects that left, then the one in flight. */
  function Leaving(s: System): seq<nat>
  {
    GoneTickets(s.finished) + Flying(s.dest)
  }

  /** Everything ever accepted, in the order it left or will leave if nothing is dropped. */
  function Line(s: System): seq<nat>
  {
    Leaving(s) + Tickets(s.dest.queue)
  }

  /** The line is in order of acceptance. */
  predicate InLine(s: System)
  {
    Increasing(Line(s)) && AllBelow(Line(s), s.accepted)
  }

  /**
   * Something left before an older object.  While that one is still in
   * flight it cannot go back to the queue, which is full or stopped.
   */
  predicate Overtaken(s: System)
  {
    && !Increasing(Leaving(s))
    && (Increasing(GoneTickets(s.finished)) ==>
          s.dest.inflight.Some? && (s.dest.stopping || |s.dest.queue| == QUEUE))
  }

  /** The step drops queued objects: a file sealed for a full queue, or a stop that finds one. */
  predicate Drops(s: System, step: Step)
  {
    match step
    case Seal(_, _) => !s.dest.stopping && |s.dest.queue| == QUEUE
    case Drain => s.dest.queue != []
    case Shutdown => s.dest.queue != []
    case _ => false
  }

  lemma SameLine(s: System, s': System)
    requires InLine(s) && Line(s') == Line(s) && s'.accepted == s.accepted
    ensures InLine(s')
  {
  }

  lemma LongerLine(s: System, s': System)
    requires InLine(s) && Line(s') == Line(s) + [s.accepted] && s'.accepted == s.accepted + 1
    ensures InLine(s')
  {
  }

  /** The oldest queued object joins those that left, when nothing is in flight between. */
  lemma MoveUp(g: seq<Gone>, x: Item, rest: seq<Item>, how: How, more: seq<Item>)
    ensures (GoneTickets(g + [Gone(x.ticket, Name(x), how)]) + []) + Tickets(rest + more)
         == ((GoneTickets(g) + []) + Tickets([x] + rest)) + Tickets(more)
  {
  }

  lemma SealInLine(s: System, file: File, time: nat)
    requires InLine(s) && |s.dest.queue| <= QUEUE
    requires Drops(s, Seal(file, time)) ==> s.dest.inflight.None?
    ensures InLine(AfterSeal(s, file, time))
  {
    hide InLine;
    var s' := AfterSeal(s, file, time);
    if !s.dest.stopping {
      var item := Item(file, time, 0, 0, 0, s.accepted);
      if |s.dest.queue| == QUEUE {
        var x := s.dest.queue[0];
        assert s.dest.queue == [x] + s.dest.queue[1..];
        MoveUp(s.finished, x, s.dest.queue[1..], Overflowed, [item]);
      } else {
        assert Tickets(s.dest.queue + [item]) == Tickets(s.dest.queue) + Tickets([item]);
        ConcatAssociative(Leaving(s), Tickets(s.dest.queue), Tickets([item]));
      }
      assert Tickets([item]) == [s.accepted];
      LongerLine(s, s');
    }
  }

  lemma TakeInLine(s: System)
    requires InLine(s) && s.dest.queue != [] && s.dest.inflight.None?
    ensures InLine(s.(dest := Dequeue(s.dest), refs := s.refs + 1))
  {
    hide InLine, Increasing;
    var s' := s.(dest := Dequeue(s.dest), refs := s.refs + 1);
    assert Tickets(s.dest.queue) == [s.dest.queue[0].ticket] + Tickets(s.dest.queue[1..]);
    assert Line(s') == Line(s);
    SameLine(s, s');
  }

  lemma FinishInLine(s: System, outcome: Outcome, item: Item)
    requires InLine(s) && s.dest.inflight.Some? && s.dest.inflight.value.ticket == item.ticket
    ensures InLine(AfterFinish(s, outcome, item))
  {
    hide InLine, Increasing;
    var s' := AfterFinish(s, outcome, item);
    if Requeues(s.dest, outcome) {
      assert Tickets([item] + s.dest.queue) == [item.ticket] + Tickets(s.dest.queue);
    } else {
      assert GoneTickets(s'.finished) == GoneTickets(s.finished) + [item.ticket];
    }
    assert Line(s') == Line(s);
    SameLine(s, s');
  }

  lemma StopInLine(s: System)
    requires InLine(s) && (s.dest.queue == [] || s.dest.inflight.None?)
    ensures InLine(AfterStop(s))
  {
    hide InLine, Increasing;
    var s' := AfterStop(s);
    assert GoneTickets(s'.finished) == GoneTickets(s.finished) + Tickets(s.dest.queue);
    assert Line(s') == Line(s);
    SameLine(s, s');
  }

  /** As long as nothing is dropped beside an upload, everything leaves in order. */
  lemma InLineStep(s: System, step: Step)
    requires InLine(s) && |s.dest.queue| <= QUEUE && Enabled(s, step)
    requires s.dest.inflight.Some? ==> !Drops(s, step)
    ensures InLine(Apply(s, step))
  {
    hide InLine, Line;
    match step {
      case Seal(file, time) => SealInLine(s, file, time);
      case Take(_) => TakeInLine(s);
      case Finish(outcome, item) => FinishInLine(s, outcome, item);
      case Drain =>
        StopInLine(s);
        LineFrame(AfterStop(s), Apply(s, step));
      case Shutdown => StopInLine(s);
      case _ => LineFrame(s, Apply(s, step));
    }
  }

  lemma LineFrame(s: System, s': System)
    requires InLine(s) && s'.dest.queue == s.dest.queue && s'.dest.inflight == s.dest.inflight
    requires s'.finished == s.finished && s'.accepted == s.accepted
    ensures InLine(s')
  {
    hide Increasing, AllBelow;
    assert Line(s') == Line(s);
  }

  /** Something put behind an inversion leaves the inversion. */
  lemma StillWrong(t: seq<nat>, u: seq<nat>)
    requires !Increasing(t)
    ensures !Increasing(t + u)
  {
    var i, j :| 0 <= i < j < |t| && t[i] >= t[j];
    assert (t + u)[i] == t[i] && (t + u)[j] == t[j];
  }

  /** An inversion with the last element survives what is put in front of it. */
  lemma WrongLast(t: seq<nat>, u: seq<nat>, x: nat)
    requires Increasing(t) && !Increasing(t + [x])
    ensures !Increasing((t + u) + [x])
  {
    var i, j :| 0 <= i < j < |t + [x]| && (t + [x])[i] >= (t + [x])[j];
    assert j == |t| && ((t + u) + [x])[i] == t[i] && ((t + u) + [x])[|t + u|] == x;
  }

  /** A drop beside an upload lets a younger object leave first. */
  lemma DropOvertakes(s: System, step: Step)
    requires InLine(s) && |s.dest.queue| <= QUEUE && Enabled(s, step)
    requires s.dest.inflight.Some? && Drops(s, step)
    ensures Overtaken(Apply(s, step))
  {
    var s', n := Apply(s, step), |s.finished|;
    var x, y := s.dest.queue[0].ticket, s.dest.inflight.value.ticket;
    assert Line(s)[n] == y && Line(s)[n + 1] == x;
    assert s'.dest.inflight == s.dest.inflight && s'.finished[n].ticket == x;
    assert Leaving(s')[n] == x && Leaving(s')[|s'.finished|] == y;
  }

  lemma AfterStepGrows(s: System, step: Step)
    requires Enabled(s, step) && |s.dest.queue| <= QUEUE
    ensures var s' := Apply(s, step);
            && |s.finished| <= |s'.finished| && s'.finished[..|s.finished|] == s.finished
            && (s.dest.stopping ==> s'.dest.stopping)
            && (s.dest.inflight.Some? && !step.Finish? ==> s'.dest.inflight == s.dest.inflight)
            && (s.dest.inflight.Some? && !step.Finish? && |s.dest.queue| == QUEUE ==>
                  s'.dest.stopping || |s'.dest.queue| == QUEUE)
  {
  }

  /** What overtook an object in flight is seen once that one has left. */
  lemma OvertakenFinish(s: System, outcome: Outcome, item: Item)
    requires Overtaken(s) && Increasing(GoneTickets(s.finished)) && Enabled(s, Finish(outcome, item))
    ensures !Increasing(GoneTickets(AfterFinish(s, outcome, item).finished))
  {
    hide Increasing, Complete;
    var s' := AfterFinish(s, outcome, item);
    assert !Requeues(s.dest, outcome);
    assert GoneTickets(s'.finished) == GoneTickets(s.finished) + [item.ticket] == Leaving(s);
  }

  /** Once an object was overtaken, it stays overtaken. */
  lemma OvertakenStep(s: System, step: Step)
    requires Overtaken(s) && |s.dest.queue| <= QUEUE && Enabled(s, step)
    ensures Overtaken(Apply(s, step))
  {
    hide Increasing;
    var s' := Apply(s, step);
    if step.Finish? && Increasing(GoneTickets(s.finished)) {
      OvertakenFinish(s, step.outcome, step.item);
      StillWrong(GoneTickets(s'.finished), Flying(s'.dest));
    } else {
      AfterStepGrows(s, step);
      StillOvertaken(s, s');
    }
  }

  lemma GoneConcat(g: seq<Gone>, more: seq<Gone>)
    ensures GoneTickets(g + more) == GoneTickets(g) + GoneTickets(more)
  {
  }

  lemma StillOvertaken(s: System, s': System)
    requires Overtaken(s) && |s.finished| <= |s'.finished| && s'.finished[..|s.finished|] == s.finished
    requires Increasing(GoneTickets(s.finished)) ==>
               && s'.dest.inflight == s.dest.inflight
               && (s'.dest.stopping || |s'.dest.queue| == QUEUE)
    ensures Overtaken(s')
  {
    hide Increasing, GoneTickets;
    var more := s'.finished[|s.finished|..];
    assert s'.finished == s.finished + more;
    GoneConcat(s.finished, more);
    var t, u := GoneTickets(s.finished), GoneTickets(more);
    if !Increasing(t) {
      StillWrong(t, u);
      StillWrong(t + u, Flying(s'.dest));
    } else {
      WrongLast(t, u, s.dest.inflight.value.ticket);
    }
  }

  // ---- what the list of missing segments tells ------------------------------------

  /** The destination lacks the object and no stop is the reason. */
  predicate Wanting(how: How)
  {
    how in {GaveUp, RetryLost, Overflowed}
  }

  /** Every object that left is told of as it should be; what is still here is not, but for an upload given up. */
  predicate Told(s: System)
  {
    && (forall i :: 0 <= i < |s.finished| ==> ToldRight(s.listed, s.finished[i]))
    && (forall i :: 0 <= i < |s.dest.queue| ==> s.dest.queue[i].ticket !in s.listed)
    && (s.dest.inflight.Some? ==>
          var item := s.dest.inflight.value;
          item.ticket in s.listed <==> s.verdict == Some(FAILED) && !IsPlaylist(Name(item)))
    && AllBelow(s.listed, s.accepted)
    && (s.verdict.Some? ==> s.dest.inflight.Some?)
  }

  predicate ToldRight(listed: seq<nat>, g: Gone)
  {
    g.ticket in listed <==> !IsPlaylist(g.name) && g.how in {GaveUp, Overflowed}
  }

  /** All that left are the finished uploads and the dropped objects, each once. */
  predicate Merged(s: System)
  {
    multiset(GoneTickets(s.finished)) == multiset(s.done) + multiset(s.lost)
  }

  lemma Merge(s: System, s': System, more: seq<Gone>, done: seq<nat>, lost: seq<nat>)
    requires Merged(s) && s'.finished == s.finished + more && s'.done == s.done + done && s'.lost == s.lost + lost
    requires GoneTickets(more) == done + lost
    ensures Merged(s')
  {
    assert GoneTickets(s'.finished) == GoneTickets(s.finished) + GoneTickets(more);
  }

  lemma MergedStep(s: System, step: Step)
    requires Merged(s) && Enabled(s, step) && |s.dest.queue| <= QUEUE
    ensures Merged(Apply(s, step))
  {
    hide Merged, IsPlaylist, Basename, Enqueue, Complete, Stop, Uploaded, Enabled;
    var s' := Apply(s, step);
    match step {
      case Seal(file, time) =>
        if s'.finished != s.finished {
          var x := s.dest.queue[0];
          Merge(s, s', [Gone(x.ticket, Name(x), Overflowed)], [], [x.ticket]);
        } else {
          MergedSame(s, s');
        }
      case Finish(outcome, item) =>
        if !Requeues(s.dest, outcome) {
          Merge(s, s', [Gone(item.ticket, Name(item), HowOf(outcome))], [item.ticket], []);
        } else {
          MergedSame(s, s');
        }
      case Drain => Merge(s, s', Emptied(s.dest.queue), [], Tickets(s.dest.queue));
      case Shutdown => Merge(s, s', Emptied(s.dest.queue), [], Tickets(s.dest.queue));
      case _ => MergedSame(s, s');
    }
  }

  lemma MergedSame(s: System, s': System)
    requires Merged(s) && s'.finished == s.finished && s'.done == s.done && s'.lost == s.lost
    ensures Merged(s')
  {
  }

  /** An object that left is not the one in flight, nor queued. */
  lemma GoneIsGone(s: System, i: nat)
    requires Sorted(s) && Merged(s) && i < |s.finished|
    ensures forall j :: 0 <= j < |Flying(s.dest)| ==> Flying(s.dest)[j] != s.finished[i].ticket
    ensures forall j :: 0 <= j < |s.dest.queue| ==> s.dest.queue[j].ticket != s.finished[i].ticket
    ensures s.finished[i].ticket < s.accepted
  {
    var x := GoneTickets(s.finished)[i];
    assert x in multiset(GoneTickets(s.finished));
    assert x in s.done || x in s.lost;
    forall j | 0 <= j < |s.dest.queue| ensures s.dest.queue[j].ticket != x {
      assert Tickets(s.dest.queue)[j] == s.dest.queue[j].ticket;
    }
  }

  lemma NewTicket(listed: seq<nat>, x: nat, y: nat)
    ensures y in listed + [x] <==> y in listed || y == x
  {
  }

  /** One ticket more on the list. */
  lemma TellOne(s: System, item: Item)
    requires Told(s) && Sorted(s) && Merged(s)
    ensures forall i :: 0 <= i < |s.finished| && s.finished[i].ticket != item.ticket ==>
                          ToldRight(Tell(s.listed, item), s.finished[i])
    ensures forall y :: y in Tell(s.listed, item) <==> y in s.listed || (y == item.ticket && !IsPlaylist(Name(item)))
  {
    hide IsPlaylist;
    forall y ensures y in Tell(s.listed, item) <==> y in s.listed || (y == item.ticket && !IsPlaylist(Name(item))) {
      NewTicket(s.listed, item.ticket, y);
    }
  }

  lemma SealTold(s: System, file: File, time: nat)
    requires Told(s) && OrderRight(s) && Merged(s)
    ensures Told(AfterSeal(s, file, time))
  {
    hide IsPlaylist, Sorted, Merged, MissingAdd, Basename;
    var s' := AfterSeal(s, file, time);
    if !s.dest.stopping {
      if |s.dest.queue| == QUEUE {
        var x := s.dest.queue[0];
        TellOne(s, x);
        QueueApart(s);
        forall i | 0 <= i < |s.finished| ensures ToldRight(s'.listed, s'.finished[i]) {
          GoneIsGone(s, i);
        }
        assert s'.finished[|s.finished|] == Gone(x.ticket, Name(x), Overflowed);
        forall i | 0 <= i < |s'.dest.queue| ensures s'.dest.queue[i].ticket !in s'.listed {
          assert i < QUEUE - 1 ==> s'.dest.queue[i] == s.dest.queue[i + 1];
        }
      }
    }
  }

  /** The head of the queue is none of the others, nor the one in flight. */
  lemma QueueApart(s: System)
    requires Sorted(s) && s.dest.queue != []
    ensures forall i :: 0 < i < |s.dest.queue| ==> s.dest.queue[i].ticket != s.dest.queue[0].ticket
    ensures s.dest.inflight.Some? ==> s.dest.inflight.value.ticket != s.dest.queue[0].ticket
    ensures forall i :: 0 <= i < |s.dest.queue| ==> s.dest.queue[i].ticket < s.accepted
  {
    var q := Tickets(s.dest.queue);
    assert forall i :: 0 < i < |s.dest.queue| ==> q[0] < q[i];
    if s.dest.inflight.Some? {
      assert Flying(s.dest)[0] < q[0];
    }
    forall i | 0 <= i < |s.dest.queue| ensures s.dest.queue[i].ticket < s.accepted {
      assert q[i] < s.accepted;
    }
  }

  lemma ReportTold(s: System, outcome: Outcome, uris: Option<seq<string>>)
    requires Told(s) && OrderRight(s) && Merged(s) && s.dest.inflight.Some? && s.verdict.None?
    ensures Told(AfterReport(s, outcome, uris))
  {
    hide IsPlaylist, Merged, Uploaded, Basename;
    var s', item := AfterReport(s, outcome, uris), s.dest.inflight.value;
    if outcome == FAILED {
      TellOne(s, item);
      assert Flying(s.dest)[0] == item.ticket;
      forall i | 0 <= i < |s.finished| ensures ToldRight(s'.listed, s'.finished[i]) {
        GoneIsGone(s, i);
      }
      forall i | 0 <= i < |s.dest.queue| ensures s.dest.queue[i].ticket !in s'.listed {
        assert Tickets(s.dest.queue)[i] > Flying(s.dest)[0];
      }
    }
  }

  lemma FinishTold(s: System, outcome: Outcome, item: Item)
    requires Told(s) && Enabled(s, Finish(outcome, item))
    ensures Told(AfterFinish(s, outcome, item))
  {
    hide IsPlaylist, Basename;
    var s' := AfterFinish(s, outcome, item);
    assert Name(item) == Name(s.dest.inflight.value);
    if !Requeues(s.dest, outcome) {
      assert ToldRight(s'.listed, Gone(item.ticket, Name(item), HowOf(outcome)));
    }
  }

  lemma StopTold(s: System)
    requires Told(s)
    ensures Told(AfterStop(s))
  {
    hide IsPlaylist, Basename;
    var s' := AfterStop(s);
    forall i | 0 <= i < |s'.finished| ensures ToldRight(s'.listed, s'.finished[i]) {
      if i >= |s.finished| {
        var g := Emptied(s.dest.queue)[i - |s.finished|];
        assert s'.finished[i] == g && g.ticket == s.dest.queue[i - |s.finished|].ticket;
      }
    }
  }

  lemma TakeTold(s: System, now: nat)
    requires Told(s) && Enabled(s, Take(now))
    ensures Told(Apply(s, Take(now)))
  {
    hide IsPlaylist, Basename;
  }

  lemma ToldStep(s: System, step: Step)
    requires Told(s) && OrderRight(s) && Merged(s) && Enabled(s, step)
    ensures Told(Apply(s, step))
  {
    hide Told, OrderRight, Merged;
    match step {
      case Seal(file, time) => SealTold(s, file, time);
      case Take(now) => TakeTold(s, now);
      case Report(outcome, uris) => ReportTold(s, outcome, uris);
      case Finish(outcome, item) => FinishTold(s, outcome, item);
      case Drain =>
        StopTold(s);
        ToldFrame(AfterStop(s), Apply(s, step));
      case Shutdown => StopTold(s);
      case _ => ToldFrame(s, Apply(s, step));
    }
  }

  lemma ToldFrame(s: System, s': System)
    requires Told(s) && s'.dest.queue == s.dest.queue && s'.dest.inflight == s.dest.inflight
    requires s'.finished == s.finished && s'.accepted == s.accepted && s'.listed == s.listed && s'.verdict == s.verdict
    ensures Told(s')
  {
  }

  // ---- conservation ---------------------------------------------------------------

  /** Everything accepted is somewhere, and the counters say where. */
  predicate Conserved(s: System)
  {
    var d := s.dest;
    && s.accepted == |d.queue| + |Flying(d)| + |s.done| + |s.lost|
    && s.accepted + |s.unopened| == |d.queue| + |Flying(d)|
         + d.counters.uploaded + d.counters.failed + d.counters.dropped + s.skipped
  }

  lemma ConservedStep(s: System, step: Step)
    requires Conserved(s) && Enabled(s, step) && |s.dest.queue| <= QUEUE
    ensures Conserved(Apply(s, step))
  {
  }

  // ---- runs -------------------------------------------------------------------------

  predicate IsRun(states: seq<System>, steps: seq<Step>)
  {
    && |states| == |steps| + 1 && states[0] == START
    && forall k {:trigger steps[k]} :: 0 <= k < |steps| ==>
         Enabled(states[k], steps[k]) && states[k + 1] == Apply(states[k], steps[k])
  }

  /** No step before the k-th dropped a queued object while another was being uploaded. */
  predicate NoDropBesideUpload(states: seq<System>, steps: seq<Step>, k: nat)
    requires |states| == |steps| + 1 && k < |states|
  {
    forall j :: 0 <= j < k && states[j].dest.inflight.Some? ==> !Drops(states[j], steps[j])
  }

  lemma {:induction false} RunRight(states: seq<System>, steps: seq<Step>, k: nat)
    requires IsRun(states, steps) && k < |states|
    ensures RefsRight(states[k]) && OrderRight(states[k]) && Conserved(states[k])
    ensures Merged(states[k]) && Told(states[k])
    ensures if NoDropBesideUpload(states, steps, k) then InLine(states[k]) else Overtaken(states[k])
  {
    hide RefsRight, OrderRight, Conserved, Merged, Told, InLine, Overtaken, Drops;
    if k == 0 {
      StartRight();
    } else {
      var s, step := states[k - 1], steps[k - 1];
      RunRight(states, steps, k - 1);
      assert steps[k - 1] == step && Enabled(s, step) && states[k] == Apply(s, step);
      FewQueued(s);
      RefsStep(s, step);
      OrderStep(s, step);
      ConservedStep(s, step);
      MergedStep(s, step);
      ToldStep(s, step);
      OneStepMore(states, steps, k);
      if !NoDropBesideUpload(states, steps, k - 1) {
        OvertakenStep(s, step);
      } else if s.dest.inflight.Some? && Drops(s, step) {
        DropOvertakes(s, step);
      } else {
        InLineStep(s, step);
      }
    }
  }

  lemma StartRight()
    ensures RefsRight(START) && OrderRight(START) && Conserved(START) && Merged(START) && Told(START) && InLine(START)
  {
    assert GoneTickets([]) == [];
  }

  lemma FewQueued(s: System)
    requires OrderRight(s)
    ensures |s.dest.queue| <= QUEUE
  {
  }

  lemma OneStepMore(states: seq<System>, steps: seq<Step>, k: nat)
    requires |states| == |steps| + 1 && 0 < k < |states|
    ensures NoDropBesideUpload(states, steps, k)
            <==> NoDropBesideUpload(states, steps, k - 1)
                 && (states[k - 1].dest.inflight.Some? ==> !Drops(states[k - 1], steps[k - 1]))
  {
  }

  /**
   * For any interleaving: uploads finish in the order their objects were
   * accepted, dropped objects leave in that order too, what left is exactly
   * the one and the other with no object twice, and accepted (and unopened)
   * files are exactly those queued, in flight, uploaded, failed, dropped or
   * skipped.
   */
  lemma EveryObjectOnceInOrder(states: seq<System>, steps: seq<Step>, k: nat)
    requires IsRun(states, steps) && k < |states|
    ensures var s, d, c := states[k], states[k].dest, states[k].dest.counters;
            && Increasing(s.done) && Increasing(s.lost) && Disjoint(s.done, s.lost)
            && multiset(GoneTickets(s.finished)) == multiset(s.done) + multiset(s.lost)
            && Below(s.done, Flying(d)) && Below(s.done + Flying(d), Tickets(d.queue))
            && s.accepted + |s.unopened| ==
                 |d.queue| + |Flying(d)| + c.uploaded + c.failed + c.dropped + s.skipped
            && s.accepted == |d.queue| + |Flying(d)| + |s.done| + |s.lost|
  {
    RunRight(states, steps, k);
  }

  /**
   * The object is freed at most once, by the last reference: only after it
   * was unlinked and drained and with no upload in flight; nothing touches it
   * afterwards.
   */
  lemma FreedOnceAndLast(states: seq<System>, steps: seq<Step>, k: nat)
    requires IsRun(states, steps) && k < |states|
    ensures states[k].freed ==>
              && states[k].removal == Released && states[k].dest.inflight.None? && states[k].holders == 0
              && k == |steps|
    ensures states[k].freed <==> states[k].refs == 0
    ensures k < |steps| && states[k + 1].freed ==> !states[k].freed
  {
    RunRight(states, steps, k);
    hide Told, Merged, OrderRight, Conserved, InLine, Overtaken;
    if k < |steps| {
      assert Enabled(states[k], steps[k]);
      RefsStep(states[k], steps[k]);
    }
  }

  /**
   * The exact condition of the combined order: in every run, everything that
   * left, and then the object in flight, is in order of acceptance if and
   * only if no queued object was ever dropped - by a full queue, a removal or
   * a shutdown - while another one was being uploaded.
   */
  lemma DropKeepsOrderIffIdle(states: seq<System>, steps: seq<Step>, k: nat)
    requires IsRun(states, steps) && k < |states|
    ensures Increasing(GoneTickets(states[k].finished) + Flying(states[k].dest))
            <==> forall j :: 0 <= j < k && states[j].dest.inflight.Some? ==> !Drops(states[j], steps[j])
  {
    RunRight(states, steps, k);
    hide Told, Merged, OrderRight, Conserved, RefsRight, Drops;
    var s := states[k];
    if NoDropBesideUpload(states, steps, k) {
      var line := Line(s);
      assert forall i :: 0 <= i < |Leaving(s)| ==> Leaving(s)[i] == line[i];
    }
  }

  /**
   * What was ever put on the list of missing segments, over every run: of the
   * objects that left, exactly the segments (playlists never) that were given
   * up or pushed out by a full queue; a retry that found no room never was.
   * What the list still names is another matter: see PushMissing.
   */
  lemma ListTellsAllButLostRetries(states: seq<System>, steps: seq<Step>, k: nat, i: nat)
    requires IsRun(states, steps) && k < |states| && i < |states[k].finished|
    ensures var s, g := states[k], states[k].finished[i];
            && (g.ticket in s.listed <==> !IsPlaylist(g.name) && g.how in {GaveUp, Overflowed})
            && (Wanting(g.how) ==> (g.ticket in s.listed <==> !IsPlaylist(g.name) && g.how != RetryLost))
  {
    RunRight(states, steps, k);
    hide RefsRight, Merged, OrderRight, Conserved, InLine, Overtaken, IsPlaylist;
    assert ToldRight(states[k].listed, states[k].finished[i]);
  }

  /** The step finds out that the destination will lack a segment: a full queue drops it, or its upload is given up. */
  predicate Tells(s: System, step: Step)
    requires Enabled(s, step)
  {
    match step
    case Seal(_, _) => Drops(s, step) && !IsPlaylist(Name(s.dest.queue[0]))
    case Report(outcome, _) => outcome == FAILED && !IsPlaylist(Name(s.dest.inflight.value))
    case _ => false
  }

  function Subject(s: System, step: Step): Item
    requires Enabled(s, step) && Tells(s, step)
  {
    if step.Seal? then s.dest.queue[0] else s.dest.inflight.value
  }

  /** Telling of a segment puts its name last on the list of the latest eight; no other step adds a name. */
  lemma ListChanges(s: System, step: Step)
    requires Enabled(s, step) && |s.dest.queue| <= QUEUE
    ensures var s' := Apply(s, step);
            if Tells(s, step) then
              var item := Subject(s, step);
              && s'.listed == s.listed + [item.ticket]
              && s'.dest.missing == MissingAdd(s.dest.missing, Name(item))
              && s'.dest.missing[|s'.dest.missing| - 1] == Shown(Name(item))
            else
              s'.listed == s.listed && forall name :: name in s'.dest.missing ==> name in s.dest.missing
  {
    hide IsPlaylist, Basename, Shown;
    if step.Report? && !Tells(s, step) {
      ReportShrinks(s.dest.missing, Name(s.dest.inflight.value), step.outcome, step.uris);
    }
  }

  lemma {:induction false} RemoveShrinks(missing: seq<string>, name: string)
    ensures forall x :: x in MissingRemove(missing, name) ==> x in missing
  {
    if missing != [] && missing[0] != name {
      RemoveShrinks(missing[1..], name);
    }
  }

  /** Only a segment given up is added by a report. */
  lemma ReportShrinks(missing: seq<string>, name: string, outcome: Outcome, uris: Option<seq<string>>)
    requires outcome != FAILED || IsPlaylist(name)
    ensures forall x :: x in Uploaded(missing, name, outcome, uris) ==> x in missing
  {
    RemoveShrinks(missing, name);
  }

  /**
   * A retry is lost exactly when its queue filled up or stopped meanwhile;
   * it is then counted as failed and gone without being told of, the list
   * as it was.  Any other retry keeps it first in line.
   */
  lemma RetryLosesOnlyWhenFull(states: seq<System>, steps: seq<Step>, k: nat, item: Item)
    requires IsRun(states, steps) && k < |states| && Enabled(states[k], Finish(RETRY, item))
    ensures var s, s' := states[k], Apply(states[k], Finish(RETRY, item));
            && (s'.finished == s.finished + [Gone(item.ticket, Name(item), RetryLost)]
                <==> s.dest.stopping || |s.dest.queue| == QUEUE)
            && (s'.finished != s.finished ==> s'.dest.counters.failed == s.dest.counters.failed + 1)
            && item.ticket !in s'.listed && s'.dest.missing == s.dest.missing
            && (!s.dest.stopping && |s.dest.queue| < QUEUE ==>
                  s'.dest.queue == [item] + s.dest.queue && s'.finished == s.finished)
  {
    RunRight(states, steps, k);
    hide RefsRight, Merged, Conserved, InLine, Overtaken, Sorted, DropsBehind, IsPlaylist, Basename;
    assert states[k].verdict == Some(RETRY);
  }

  // ---- runs that show it ----------------------------------------------------------

  const DIR := "/hls/"
  const CLIP := File(DIR + "a.ts", 1)

  /** A run one step longer. */
  lemma Longer(states: seq<System>, steps: seq<Step>, step: Step) returns (more: seq<System>, longer: seq<Step>)
    requires IsRun(states, steps) && Enabled(states[|steps|], step)
    ensures |longer| == |steps| + 1 && IsRun(more, longer)
    ensures longer == steps + [step] && more == states + [Apply(states[|steps|], step)]
  {
    hide Apply, Enabled;
    longer, more := steps + [step], states + [Apply(states[|steps|], step)];
    forall k {:trigger longer[k]} | 0 <= k < |longer|
      ensures Enabled(more[k], longer[k]) && more[k + 1] == Apply(more[k], longer[k])
    {
      assert k < |steps| ==> longer[k] == steps[k] && more[k + 1] == states[k + 1];
    }
  }

  /** The first file is being uploaded, the others wait behind it, and nothing has happened yet. */
  ghost predicate Waiting(s: System, files: seq<File>)
    requires files != []
  {
    && s.removal == Listed && !s.dest.stopping && |s.dest.queue| == |files| - 1 && s.finished == []
    && s.dest.inflight == Some(Item(files[0], 0, 0, 0, 0, 0)) && s.verdict.None?
    && s.accepted == |files| && s.dest.missing == [] && s.unopened == []
    && (forall i :: 0 <= i < |files| - 1 ==> s.dest.queue[i] == Item(files[i + 1], 0, 0, 0, 0, i + 1))
  }

  lemma {:induction false} QueueUp(files: seq<File>) returns (states: seq<System>, steps: seq<Step>)
    requires 0 < |files| <= QUEUE + 1
    ensures |steps| == |files| + 1 && IsRun(states, steps) && Waiting(states[|steps|], files)
    ensures steps[0] == Seal(files[0], 0) && steps[1] == Take(0)
    ensures forall j :: 1 < j < |steps| ==> steps[j] == Seal(files[j - 1], 0)
  {
    var n := |files| - 1;
    if n == 0 {
      states, steps := Longer([START], [], Seal(files[0], 0));
      assert states[1].dest.queue == [Item(files[0], 0, 0, 0, 0, 0)];
      states, steps := Longer(states, steps, Take(0));
      assert states[2].dest.queue == [];
    } else {
      states, steps := QueueUp(files[..n]);
      var s := states[n + 1];
      states, steps := Longer(states, steps, Seal(files[n], 0));
      assert states[n + 2].dest.queue == s.dest.queue + [Item(files[n], 0, 0, 0, 0, n)];
    }
  }

  /** n files of one name. */
  function Clips(n: nat): (files: seq<File>)
    ensures |files| == n && forall i :: 0 <= i < n ==> files[i] == CLIP
  {
    seq(n, _ => CLIP)
  }

  /** A 66th file sealed beside an upload makes the second object leave before the first. */
  lemma FullQueueOvertakes() returns (states: seq<System>, steps: seq<Step>)
    ensures IsRun(states, steps) && |states| == QUEUE + 4
    ensures !Increasing(GoneTickets(states[QUEUE + 3].finished) + Flying(states[QUEUE + 3].dest))
  {
    states, steps := QueueUp(Clips(QUEUE + 1));
    states, steps := Longer(states, steps, Seal(CLIP, 0));
    var t := GoneTickets(states[QUEUE + 3].finished) + Flying(states[QUEUE + 3].dest);
    assert t[0] == 1 && t[1] == 0;
  }

  /** So does a shutdown, with hardly anything queued. */
  lemma ShutdownOvertakes() returns (states: seq<System>, steps: seq<Step>)
    ensures IsRun(states, steps) && |states| == 5
    ensures !Increasing(GoneTickets(states[4].finished) + Flying(states[4].dest))
  {
    states, steps := QueueUp(Clips(2));
    states, steps := Longer(states, steps, Shutdown);
    var t := GoneTickets(states[4].finished) + Flying(states[4].dest);
    assert t[0] == 1 && t[1] == 0;
  }

  /** A path's last part is what follows its directory. */
  lemma {:induction false} BasenameOf(dir: string, name: string)
    requires dir != [] && dir[|dir| - 1] == '/' && '/' !in name
    ensures Basename(dir + name) == name
    decreases |name|
  {
    var path := dir + name;
    if name == [] {
      assert path == dir;
    } else {
      var n := |name| - 1;
      assert path[..|path| - 1] == dir + name[..n];
      BasenameOf(dir, name[..n]);
      assert name == name[..n] + [name[n]];
    }
  }

  lemma ClipName()
    ensures Basename(CLIP.path) == "a.ts" && !IsPlaylist("a.ts")
  {
    assert DIR[4] == '/';
    BasenameOf(DIR, "a.ts");
  }
}
