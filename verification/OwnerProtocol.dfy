/**
 * The workers of several generations, and the master's reloads, interleaved
 * step by step over one directory: the lock word is a compare-and-swap and
 * nothing else is atomic, so a lookup and the write it leads to are two steps.
 */
module OwnerProtocol {
  import opened Common
  import opened OwnerTable

  datatype Op =
    | ClaimOp(hash: nat, slot: nat, now: Msec)
    | ReleaseOp(hash: nat, slot: nat, now: Msec)
    | HeartbeatOp(hash: nat, slot: nat, generation: nat, frames: nat, sources: nat, now: Msec)
    | ObserveOp(hash: nat, now: Msec)

  /** Where a worker stands in the function it is calling. */
  datatype Pc =
    | Outside
    | Acquired(op: Op)
    | Checked(op: Op)
    | Found(op: Op, at: Option<nat>)
    | Leaving

  /** A worker process: what it inherited from its cycle, and where it stands. */
  datatype Worker = Worker(epoch: nat, workers: nat, pc: Pc)

  datatype MasterPc = Serving | Reloading(workers: nat) | Reloaded

  /**
   * counts[e] is the worker count of the generation of epoch e; authors[j]
   * the epoch of the worker that last claimed record j (a ghost of the proof).
   */
  datatype System = System(
    locked: bool, epoch: nat, table: Table, counts: seq<nat>,
    workers: map<nat, Worker>, master: MasterPc, authors: seq<nat>)

  /** One step of the master or of one worker. */
  datatype Step =
    | MasterLock(count: nat)
    | MasterBump
    | MasterUnlock
    | Fork(pid: nat)
    | Crash(pid: nat)
    | TryLock(pid: nat, op: Op)
    | GiveUp(pid: nat, op: Op)
    | CheckEpoch(pid: nat)
    | Lookup(pid: nat)
    | Act(pid: nat)
    | Unlock(pid: nat)

  function SetPc(s: System, pid: nat, pc: Pc): System
    requires pid in s.workers
  {
    s.(workers := s.workers[pid := s.workers[pid].(pc := pc)])
  }

  /** Only a claim is guarded before the lock: it must name the hash's owner. */
  predicate MayStart(w: Worker, op: Op)
  {
    op.ClaimOp? ==> op.slot == OwnerSlot(op.hash, w.workers)
  }

  predicate Enabled(s: System, step: Step)
  {
    match step
    case MasterLock(_) => s.master.Serving? && !s.locked
    case MasterBump => s.master.Reloading?
    case MasterUnlock => s.master.Reloaded?
    case Fork(pid) => s.master.Serving? && pid !in s.workers && s.epoch < |s.counts|
    case Crash(pid) => pid in s.workers
    case TryLock(pid, op) => pid in s.workers && s.workers[pid].pc.Outside? && MayStart(s.workers[pid], op) && !s.locked
    case GiveUp(pid, op) => pid in s.workers && s.workers[pid].pc.Outside? && MayStart(s.workers[pid], op) && s.locked
    case CheckEpoch(pid) => pid in s.workers && s.workers[pid].pc.Acquired?
    case Lookup(pid) => pid in s.workers && s.workers[pid].pc.Checked?
    case Act(pid) =>
      && pid in s.workers && s.workers[pid].pc.Found?
      && (s.workers[pid].pc.at.Some? ==> s.workers[pid].pc.at.value < |s.table| == |s.authors|)
    case Unlock(pid) => pid in s.workers && s.workers[pid].pc.Leaving?
  }

  /** The write that follows a lookup; observe writes nothing. */
  function Write(table: Table, at: nat, op: Op, pid: nat): Table
    requires at < |table|
  {
    match op
    case ClaimOp(hash, slot, now) => Claim(table, at, hash, slot, pid, now)
    case ReleaseOp(hash, slot, _) => Release(table, at, hash, slot, pid)
    case HeartbeatOp(hash, slot, generation, frames, sources, now) =>
      Heartbeat(table, at, hash, slot, pid, generation, frames, sources, now)
    case ObserveOp(_, _) => table
  }

  function Apply(s: System, step: Step): System
    requires Enabled(s, step)
  {
    match step
    case MasterLock(count) => s.(locked := true, master := Reloading(count))
    case MasterBump =>
      s.(epoch := s.epoch + 1, counts := s.counts + [s.master.workers], master := Reloaded)
    case MasterUnlock => s.(locked := false, master := Serving)
    case Fork(pid) => s.(workers := s.workers[pid := Worker(s.epoch, s.counts[s.epoch], Outside)])
    case Crash(pid) => s.(workers := s.workers - {pid})
    case TryLock(pid, op) => SetPc(s.(locked := true), pid, Acquired(op))
    case GiveUp(pid, op) => s
    case CheckEpoch(pid) =>
      var w := s.workers[pid];
      if w.pc.op.ObserveOp? || w.epoch == s.epoch then SetPc(s, pid, Checked(w.pc.op))
      else SetPc(s, pid, Leaving)
    case Lookup(pid) =>
      var op := s.workers[pid].pc.op;
      SetPc(s, pid, Found(op, Find(s.table, op.hash, op.now)))
    case Act(pid) =>
      var w := s.workers[pid];
      if w.pc.at.None? then SetPc(s, pid, Leaving) else
        var at := w.pc.at.value;
        var table' := Write(s.table, at, w.pc.op, pid);
        var authors' := if table'[at] != s.table[at] && w.pc.op.ClaimOp? then s.authors[at := w.epoch] else s.authors;
        SetPc(s.(table := table', authors := authors'), pid, Leaving)
    case Unlock(pid) => SetPc(s.(locked := false), pid, Outside)
  }

  function Start(slots: nat, count: nat): System
    requires slots > 0
  {
    System(false, 1, seq(slots, _ => ZEROED), [0, count], map[], Serving, seq(slots, _ => 0))
  }

  // ---- the invariant ---------------------------------------------------------------

  predicate Inside(s: System, pid: nat)
  {
    pid in s.workers && !s.workers[pid].pc.Outside?
  }

  /** One critical section at a time, and the lock is held while there is one. */
  ghost predicate Exclusive(s: System)
  {
    && (forall p, q :: Inside(s, p) && Inside(s, q) ==> p == q)
    && (forall p :: Inside(s, p) ==> s.locked && s.master.Serving?)
    && (!s.master.Serving? ==> s.locked)
  }

  /** What a worker that is past the epoch check knows. */
  predicate PcRight(s: System, w: Worker)
  {
    && w.epoch < |s.counts| && w.workers == s.counts[w.epoch] && 1 <= w.epoch <= s.epoch
    && ((w.pc.Acquired? || w.pc.Checked? || w.pc.Found?) ==> MayStart(w, w.pc.op))
    && ((w.pc.Checked? || w.pc.Found?) && !w.pc.op.ObserveOp? ==> w.epoch == s.epoch)
    && (w.pc.Found? ==> w.pc.at == Find(s.table, w.pc.op.hash, w.pc.op.now))
  }

  predicate RecordRight(s: System, j: nat)
    requires j < |s.table| == |s.authors|
  {
    s.table[j].state == OWNED ==>
      && s.authors[j] < |s.counts| && 1 <= s.authors[j] <= s.epoch
      && s.table[j].slot == OwnerSlot(s.table[j].hash, s.counts[s.authors[j]])
  }

  ghost predicate Inv(s: System)
  {
    && WellFormed(s.table) && |s.authors| == |s.table|
    && |s.counts| == s.epoch + 1 >= 2
    && Exclusive(s)
    && (forall p :: p in s.workers ==> PcRight(s, s.workers[p]))
    && (forall j :: 0 <= j < |s.table| ==> RecordRight(s, j))
  }

  lemma StartRight(slots: nat, count: nat)
    requires slots > 0
    ensures Inv(Start(slots, count))
  {
  }

  /** A worker step that touches neither the table nor the lock. */
  lemma PcStep(s: System, pid: nat, pc: Pc)
    requires Inv(s) && Inside(s, pid)
    requires PcRight(s, s.workers[pid].(pc := pc)) && !pc.Outside?
    ensures Inv(SetPc(s, pid, pc))
  {
    var s' := SetPc(s, pid, pc);
    forall j | 0 <= j < |s'.table| ensures RecordRight(s', j) {
      assert RecordRight(s, j);
    }
    forall p | p in s'.workers ensures PcRight(s', s'.workers[p]) {
      assert p in s.workers && PcRight(s, s.workers[p]);
    }
    forall p | Inside(s', p) ensures Inside(s, p) { }
  }

  /** The write of a worker that looked up the table it writes to. */
  lemma WriteRight(s: System, pid: nat)
    requires Inv(s) && pid in s.workers && s.workers[pid].pc.Found? && s.workers[pid].pc.at.Some?
    ensures var op, at := s.workers[pid].pc.op, s.workers[pid].pc.at.value;
            && at < |s.table|
            && WellFormed(Write(s.table, at, op, pid))
            && (forall j :: 0 <= j < |s.table| && j != at ==> Write(s.table, at, op, pid)[j] == s.table[j])
            && var r := Write(s.table, at, op, pid)[at];
               && (op.ClaimOp? ==> r.hash == op.hash && r.slot == op.slot)
               && (!op.ClaimOp? ==> r.state == OWNED ==>
                     s.table[at].state == OWNED && r.hash == s.table[at].hash && r.slot == s.table[at].slot)
  {
    assert PcRight(s, s.workers[pid]);
    var op, at := s.workers[pid].pc.op, s.workers[pid].pc.at.value;
    FindIsReached(s.table, op.hash, op.now);
    match op {
      case ClaimOp(hash, slot, now) => ClaimKeeps(s.table, hash, slot, pid, now);
      case ReleaseOp(hash, slot, _) => ReleaseKeeps(s.table, at, hash, slot, pid);
      case HeartbeatOp(hash, slot, g, f, n, now) => HeartbeatKeeps(s.table, at, hash, slot, pid, g, f, n, now);
      case ObserveOp(_, _) =>
    }
  }

  lemma ActRight(s: System, pid: nat)
    requires Inv(s) && Enabled(s, Act(pid))
    ensures Inv(Apply(s, Act(pid)))
  {
    var w, s' := s.workers[pid], Apply(s, Act(pid));
    assert PcRight(s, w) && Inside(s, pid);
    if w.pc.at.None? {
      PcStep(s, pid, Leaving);
    } else {
      WriteRight(s, pid);
      var at := w.pc.at.value;
      forall j | 0 <= j < |s'.table| ensures RecordRight(s', j) {
        assert RecordRight(s, j);
      }
      forall p | p in s'.workers ensures PcRight(s', s'.workers[p]) {
        assert p in s.workers && PcRight(s, s.workers[p]);
        if p != pid {
          assert !Inside(s, p);
        }
      }
      forall p | Inside(s', p) ensures Inside(s, p) { }
    }
  }

  lemma WorkerStepRight(s: System, step: Step)
    requires Inv(s) && Enabled(s, step)
    requires step.CheckEpoch? || step.Lookup? || step.Act?
    ensures Inv(Apply(s, step))
  {
    var w := s.workers[step.pid];
    assert PcRight(s, w) && Inside(s, step.pid);
    match step {
      case CheckEpoch(pid) =>
        PcStep(s, pid, if w.pc.op.ObserveOp? || w.epoch == s.epoch then Checked(w.pc.op) else Leaving);
      case Lookup(pid) =>
        PcStep(s, pid, Found(w.pc.op, Find(s.table, w.pc.op.hash, w.pc.op.now)));
      case Act(pid) => ActRight(s, pid);
      case _ =>
    }
  }

  /** Steps that leave the table alone keep what is known of records and workers. */
  lemma FrameRight(s: System, s': System)
    requires Inv(s) && s'.table == s.table && s'.authors == s.authors
    requires s.counts <= s'.counts && s.epoch <= s'.epoch && |s'.counts| == s'.epoch + 1
    requires Exclusive(s')
    requires forall p :: p in s'.workers ==>
               (p in s.workers && s'.workers[p] == s.workers[p] && (s'.epoch == s.epoch || !Inside(s, p)))
               || PcRight(s', s'.workers[p])
    ensures Inv(s')
  {
    forall j | 0 <= j < |s'.table| ensures RecordRight(s', j) {
      assert RecordRight(s, j);
    }
    forall p | p in s'.workers ensures PcRight(s', s'.workers[p]) {
      if p in s.workers {
        assert PcRight(s, s.workers[p]);
      }
    }
  }

  lemma LockStepRight(s: System, step: Step)
    requires Inv(s) && Enabled(s, step)
    requires step.TryLock? || step.GiveUp? || step.Unlock?
    ensures Inv(Apply(s, step))
  {
    var s' := Apply(s, step);
    assert PcRight(s, s.workers[step.pid]);
    assert step.Unlock? ==> Inside(s, step.pid);
    forall p | Inside(s', p) && p != step.pid ensures Inside(s, p) { }
    FrameRight(s, s');
  }

  lemma MasterStepRight(s: System, step: Step)
    requires Inv(s) && Enabled(s, step)
    requires step.MasterLock? || step.MasterBump? || step.MasterUnlock? || step.Fork? || step.Crash?
    ensures Inv(Apply(s, step))
  {
    var s' := Apply(s, step);
    forall p | Inside(s', p) ensures Inside(s, p) { }
    FrameRight(s, s');
  }

  /** Every step of every process keeps the invariant. */
  lemma StepRight(s: System, step: Step)
    requires Inv(s) && Enabled(s, step)
    ensures Inv(Apply(s, step))
  {
    if step.CheckEpoch? || step.Lookup? || step.Act? {
      WorkerStepRight(s, step);
    } else if step.TryLock? || step.GiveUp? || step.Unlock? {
      LockStepRight(s, step);
    } else {
      MasterStepRight(s, step);
    }
  }

  // ---- runs -----------------------------------------------------------------------

  /** states[k + 1] is states[k] after steps[k]. */
  ghost predicate IsRun(states: seq<System>, steps: seq<Step>)
  {
    && |states| == |steps| + 1
    && (exists slots: nat, count: nat :: slots > 0 && Start(slots, count) == states[0])
    && forall k :: 0 <= k < |steps| ==> Enabled(states[k], steps[k]) && states[k + 1] == Apply(states[k], steps[k])
  }

  lemma {:induction false} RunInv(states: seq<System>, steps: seq<Step>, k: nat)
    requires IsRun(states, steps) && k < |states|
    ensures Inv(states[k])
  {
    if k == 0 {
      var slots: nat, count: nat :| slots > 0 && states[0] == Start(slots, count);
      StartRight(slots, count);
    } else {
      RunInv(states, steps, k - 1);
      StepRight(states[k - 1], steps[k - 1]);
    }
  }

  /** At most one process is in the critical section, and only a process inside opens the lock. */
  lemma MutualExclusion(states: seq<System>, steps: seq<Step>, k: nat)
    requires IsRun(states, steps) && k < |states|
    ensures forall p, q :: Inside(states[k], p) && Inside(states[k], q) ==> p == q
    ensures !states[k].master.Serving? ==> forall p :: !Inside(states[k], p)
    ensures k < |steps| && states[k].locked && !states[k + 1].locked ==>
              || steps[k].MasterUnlock?
              || (steps[k].Unlock? && Inside(states[k], steps[k].pid))
    ensures k < |steps| && steps[k].GiveUp? ==> states[k + 1] == states[k]
  {
    RunInv(states, steps, k);
  }

  /**
   * Only a worker of the current epoch changes a record, and what it claims
   * names slot hash mod its own generation's worker count.
   */
  lemma OnlyCurrentEpochWrites(states: seq<System>, steps: seq<Step>, k: nat)
    requires IsRun(states, steps) && k < |steps| && states[k + 1].table != states[k].table
    ensures steps[k].Act? && steps[k].pid in states[k].workers
    ensures states[k].workers[steps[k].pid].epoch == states[k].epoch
    ensures steps[k].Act? ==> forall j :: 0 <= j < |states[k].table| <= |states[k + 1].table| ==>
              states[k + 1].table[j] != states[k].table[j] && states[k].workers[steps[k].pid].pc.op.ClaimOp? ==>
                var workers := states[k].workers[steps[k].pid].workers;
                states[k + 1].table[j].slot == if workers > 0 then states[k + 1].table[j].hash % workers else 0
  {
    RunInv(states, steps, k);
    var s, pid := states[k], steps[k].pid;
    assert PcRight(s, s.workers[pid]);
    WriteRight(s, pid);
  }

  /**
   * In every reachable directory a hash has at most one record, find returns
   * it, and its slot is the owner's among the workers of the generation that
   * claimed it, one that was really started.
   */
  lemma DirectoryRight(states: seq<System>, steps: seq<Step>, k: nat, hash: nat, now: Msec, j: nat)
    requires IsRun(states, steps) && k < |states| && Owns(states[k].table, j, hash)
    ensures Find(states[k].table, hash, now) == Some(j)
    ensures var s := states[k];
            && |s.authors| == |s.table| && |s.counts| == s.epoch + 1
            && 1 <= s.authors[j] <= s.epoch
            && var workers := s.counts[s.authors[j]];
               s.table[j].slot == if workers > 0 then hash % workers else 0
  {
    RunInv(states, steps, k);
    FindReturnsOwner(states[k].table, hash, now, j);
    assert RecordRight(states[k], j);
  }

  /** A worker that looked a slot up is never stuck: the slot is still there to be written. */
  lemma FoundCanAct(states: seq<System>, steps: seq<Step>, k: nat, pid: nat)
    requires IsRun(states, steps) && k < |states|
    requires pid in states[k].workers && states[k].workers[pid].pc.Found?
    ensures Enabled(states[k], Act(pid))
  {
    RunInv(states, steps, k);
    assert PcRight(states[k], states[k].workers[pid]);
    if states[k].workers[pid].pc.at.Some? {
      WriteRight(states[k], pid);
    }
  }

  /** The step leaves a hash's record alone: it writes for another hash, at a time at which this owner was heard of. */
  predicate SparesOwner(s: System, step: Step, hash: nat, heartbeat: Msec)
  {
    step.Act? && step.pid in s.workers && s.workers[step.pid].pc.Found? && !s.workers[step.pid].pc.op.ObserveOp? ==>
      && s.workers[step.pid].pc.op.hash != hash
      && (s.workers[step.pid].pc.op.now - heartbeat) % 0x1_0000_0000_0000_0000 <= 10000
  }

  lemma OwnerSpared(s: System, step: Step, hash: nat, j: nat)
    requires Inv(s) && Enabled(s, step) && Owns(s.table, j, hash) && SparesOwner(s, step, hash, s.table[j].heartbeat)
    ensures Owns(Apply(s, step).table, j, hash) && Apply(s, step).table[j] == s.table[j]
  {
    hide WellFormed, Find;
    if step.Act? && s.workers[step.pid].pc.at.Some? {
      assert PcRight(s, s.workers[step.pid]);
      WriteRight(s, step.pid);
      var op := s.workers[step.pid].pc.op;
      if !op.ObserveOp? {
        assert j < |s.table| && s.table[j].hash == hash;
        LiveOwnerNotFound(s.table, j, hash, op.hash, op.now);
      }
    }
  }

  lemma RunStep(states: seq<System>, steps: seq<Step>, k: nat)
    requires IsRun(states, steps) && k < |steps|
    ensures Enabled(states[k], steps[k]) && states[k + 1] == Apply(states[k], steps[k])
  {
    hide Enabled, Apply, Start;
  }

  /**
   * Whatever the workers of all generations do for other streams, reloads and
   * crashes included, a record is read exactly as its owner's last heartbeat
   * left it for ten seconds, and is not read after that.
   */
  lemma {:induction false} HeartbeatLasts(states: seq<System>, steps: seq<Step>, k: nat, m: nat,
                                          hash: nat, j: nat, later: Msec)
    requires IsRun(states, steps) && k <= m < |states| && Owns(states[k].table, j, hash)
    requires forall i :: k <= i < m ==> SparesOwner(states[i], steps[i], hash, states[k].table[j].heartbeat)
    ensures Owns(states[m].table, j, hash) && states[m].table[j] == states[k].table[j]
    ensures Observed(states[m].table, hash, later)
         == if (later - states[k].table[j].heartbeat) % 0x1_0000_0000_0000_0000 <= 10000
            then Some(states[k].table[j]) else None
    decreases m - k
  {
    hide WellFormed, Find, Exclusive, PcRight, RecordRight, Observed, Apply, Enabled, SparesOwner, Start;
    RunInv(states, steps, m);
    if m > k {
      HeartbeatLasts(states, steps, k, m - 1, hash, j, later);
      RunInv(states, steps, m - 1);
      RunStep(states, steps, m - 1);
      OwnerSpared(states[m - 1], steps[m - 1], hash, j);
    }
    ReadableTenSeconds(states[m].table, j, hash, later);
  }

  /** Somebody is in the critical section. */
  ghost predicate Busy(s: System)
  {
    !s.master.Serving? || exists pid :: Inside(s, pid)
  }

  lemma BusyStep(s: System, step: Step)
    requires Inv(s) && Enabled(s, step) && (s.locked <==> Busy(s))
    requires step.Crash? ==> !Inside(s, step.pid)
    ensures Apply(s, step).locked <==> Busy(Apply(s, step))
  {
    hide WellFormed, Find, PcRight, RecordRight, Write;
    var s' := Apply(s, step);
    forall pid | Inside(s, pid) && (step.MasterLock? || step.MasterBump? || step.MasterUnlock? || pid != step.pid)
      ensures Inside(s', pid)
    {
    }
    forall pid | Inside(s', pid) && (step.MasterLock? || step.MasterBump? || step.MasterUnlock? || pid != step.pid)
      ensures Inside(s, pid)
    {
    }
    if step.TryLock? || step.CheckEpoch? || step.Lookup? || step.Act? {
      assert Inside(s', step.pid);
    }
    if step.CheckEpoch? || step.Lookup? || step.Act? || step.Unlock? {
      assert Inside(s, step.pid);
    }
  }

  /**
   * No lock is left behind: as long as no process dies in the critical
   * section, the lock is held exactly while the master or a worker is in it.
   */
  lemma {:induction false} LockNotLeftBehind(states: seq<System>, steps: seq<Step>, k: nat)
    requires IsRun(states, steps) && k < |states|
    requires forall i :: 0 <= i < k && steps[i].Crash? ==> !Inside(states[i], steps[i].pid)
    ensures states[k].locked <==> Busy(states[k])
  {
    if k > 0 {
      LockNotLeftBehind(states, steps, k - 1);
      RunInv(states, steps, k - 1);
      BusyStep(states[k - 1], steps[k - 1]);
    }
  }

  /**
   * What a reload and a fork come to: the master raises the epoch for the
   * worker count it read, and a worker forked then starts outside, with that
   * epoch and count, beside workers that keep theirs.
   */
  lemma ReloadAndFork(s: System, count: nat, pid: nat)
    requires Inv(s) && Enabled(s, MasterLock(count)) && pid !in s.workers
    ensures var a := Apply(s, MasterLock(count));
            && Enabled(a, MasterBump)
            && var b := Apply(a, MasterBump);
               && Enabled(b, MasterUnlock)
               && var c := Apply(b, MasterUnlock);
                  && c.epoch == s.epoch + 1 && c.counts == s.counts + [count] && !c.locked && c.table == s.table
                  && Enabled(c, Fork(pid))
                  && var d := Apply(c, Fork(pid));
                     && d.workers == s.workers[pid := Worker(s.epoch + 1, count, Outside)]
                     && d.table == s.table && !d.locked && d.epoch == s.epoch + 1
  {
    hide WellFormed, Exclusive, PcRight, RecordRight;
  }
}
