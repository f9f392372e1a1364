/**
 * What a destination's list of missing segments names, over whole runs: when
 * an entry stands, which losses it does not tell of, and why.
 */
module PushMissing {
  import opened Common
  import opened PushQueue
  import opened PushRuns

  // ---- the entries of the list ----------------------------------------------------

  /** An entry: the step that put it on the list, and the name it shows. */
  datatype Mark = Mark(at: nat, name: string)

  function Names(marks: seq<Mark>): (names: seq<string>)
    ensures |names| == |marks| && forall i :: 0 <= i < |marks| ==> names[i] == marks[i].name
  {
    seq(|marks|, i requires 0 <= i < |marks| => marks[i].name)
  }

  function AddMark(marks: seq<Mark>, mark: Mark): seq<Mark>
  {
    (if |marks| == MISSING then marks[1..] else marks) + [mark]
  }

  /** The place of the first entry of that name. */
  function FirstNamed(marks: seq<Mark>, name: string): (i: nat)
    ensures i <= |marks| && (i < |marks| ==> marks[i].name == name) && forall k :: 0 <= k < i ==> marks[k].name != name
  {
    if marks == [] || marks[0].name == name then 0 else 1 + FirstNamed(marks[1..], name)
  }

  function RemoveMark(marks: seq<Mark>, name: string): seq<Mark>
  {
    if marks == [] then []
    else if marks[0].name == name then marks[1..]
    else [marks[0]] + RemoveMark(marks[1..], name)
  }

  function KeepMarks(marks: seq<Mark>, listed: seq<string>): seq<Mark>
  {
    if marks == [] then []
    else (if marks[0].name in listed then [marks[0]] else []) + KeepMarks(marks[1..], listed)
  }

  /** The entries after a step, the at-th of its run. */
  function NextMarks(marks: seq<Mark>, s: System, step: Step, at: nat): seq<Mark>
    requires Enabled(s, step)
  {
    if Tells(s, step) then AddMark(marks, Mark(at, Shown(Name(Subject(s, step)))))
    else if !(step.Report? && step.outcome == DONE) then marks
    else
      var name := Name(s.dest.inflight.value);
      if !IsPlaylist(name) then RemoveMark(marks, name)
      else if step.uris.Some? then KeepMarks(marks, step.uris.value)
      else marks
  }

  /** The entries of the list after k steps of a run. */
  function Marks(states: seq<System>, steps: seq<Step>, k: nat): seq<Mark>
    requires IsRun(states, steps) && k < |states|
  {
    if k == 0 then [] else
      assert Enabled(states[k - 1], steps[k - 1]);
      NextMarks(Marks(states, steps, k - 1), states[k - 1], steps[k - 1], k - 1)
  }

  lemma {:induction false} NamesRemove(marks: seq<Mark>, name: string)
    ensures Names(RemoveMark(marks, name)) == MissingRemove(Names(marks), name)
  {
    if marks != [] {
      assert Names(marks)[1..] == Names(marks[1..]);
      NamesRemove(marks[1..], name);
    }
  }

  lemma {:induction false} NamesKeep(marks: seq<Mark>, listed: seq<string>)
    ensures Names(KeepMarks(marks, listed)) == MissingKeep(Names(marks), listed)
  {
    if marks != [] {
      NamesKeep(marks[1..], listed);
      assert Names(marks)[1..] == Names(marks[1..]);
    }
  }

  lemma NamesStep(marks: seq<Mark>, s: System, step: Step, at: nat)
    requires Enabled(s, step) && |s.dest.queue| <= QUEUE && Names(marks) == s.dest.missing
    ensures Names(NextMarks(marks, s, step, at)) == Apply(s, step).dest.missing
  {
    hide IsPlaylist, Basename, Shown, RemoveMark, KeepMarks;
    if step.Report? && step.outcome == DONE {
      NamesRemove(marks, Name(s.dest.inflight.value));
      if step.uris.Some? {
        NamesKeep(marks, step.uris.value);
      }
    } else if !Tells(s, step) {
      ListOnlyChangesSo(s, step);
    } else {
      ListChanges(s, step);
    }
  }

  lemma ListOnlyChangesSo(s: System, step: Step)
    requires Enabled(s, step) && |s.dest.queue| <= QUEUE && !Tells(s, step) && !(step.Report? && step.outcome == DONE)
    ensures Apply(s, step).dest.missing == s.dest.missing
  {
    hide IsPlaylist, Basename, Shown;
  }

  /** The entries show exactly the names on the destination's list, in its order. */
  lemma {:induction false} MarksAreTheList(states: seq<System>, steps: seq<Step>, k: nat)
    requires IsRun(states, steps) && k < |states|
    ensures Names(Marks(states, steps, k)) == states[k].dest.missing
  {
    hide NextMarks, Enabled, Apply;
    if k > 0 {
      MarksAreTheList(states, steps, k - 1);
      assert Enabled(states[k - 1], steps[k - 1]);
      Few(states, steps, k - 1);
      NamesStep(Marks(states, steps, k - 1), states[k - 1], steps[k - 1], k - 1);
    }
  }

  lemma Few(states: seq<System>, steps: seq<Step>, k: nat)
    requires IsRun(states, steps) && k < |states|
    ensures |states[k].dest.queue| <= QUEUE
  {
    RunRight(states, steps, k);
  }

  // ---- when an entry stands -------------------------------------------------------

  /** Entries stand in the order in which they were put on the list. */
  predicate Rising(marks: seq<Mark>, k: nat)
  {
    && (forall i, j :: 0 <= i < j < |marks| ==> marks[i].at < marks[j].at)
    && forall i :: 0 <= i < |marks| ==> marks[i].at < k
  }

  /** The entry of the j-th step is on the list. */
  predicate Stands(marks: seq<Mark>, j: nat)
  {
    exists i :: 0 <= i < |marks| && marks[i].at == j
  }

  /** The list is full and another segment is told of: the first entry leaves. */
  predicate Ninth(marks: seq<Mark>, s: System, step: Step, j: nat)
    requires Enabled(s, step)
  {
    Tells(s, step) && |marks| == MISSING && marks[0].at == j
  }

  /** A segment arrives, and this is the first entry of its name. */
  predicate Arrives(marks: seq<Mark>, s: System, step: Step, j: nat)
    requires Enabled(s, step)
  {
    && step.Report? && step.outcome == DONE && !IsPlaylist(Name(s.dest.inflight.value))
    && var i := FirstNamed(marks, Name(s.dest.inflight.value));
       i < |marks| && marks[i].at == j
  }

  /** A playlist is taken that does not list the name. */
  predicate LeavesOut(s: System, step: Step, name: string)
    requires Enabled(s, step)
  {
    && step.Report? && step.outcome == DONE && IsPlaylist(Name(s.dest.inflight.value))
    && step.uris.Some? && name !in step.uris.value
  }

  lemma AddStands(marks: seq<Mark>, mark: Mark, k: nat, j: nat)
    requires Rising(marks, k) && mark.at == k
    ensures Rising(AddMark(marks, mark), k + 1)
    ensures j < k ==> (Stands(AddMark(marks, mark), j) <==> Stands(marks, j) && !(|marks| == MISSING && marks[0].at == j))
    ensures Stands(AddMark(marks, mark), k)
  {
    var r := AddMark(marks, mark);
    assert r[|r| - 1] == mark;
    var d := if |marks| == MISSING then 1 else 0;
    assert forall i :: 0 <= i < |r| - 1 ==> r[i] == marks[i + d];
    if i :| 0 <= i < |marks| && marks[i].at == j && i >= d {
      assert r[i - d] == marks[i];
    }
  }

  lemma RisingTail(marks: seq<Mark>, k: nat)
    requires Rising(marks, k) && marks != []
    ensures Rising(marks[1..], k) && forall m :: m in marks[1..] ==> marks[0].at < m.at
  {
    assert forall i :: 0 <= i < |marks[1..]| ==> marks[1..][i] == marks[i + 1];
  }

  lemma RisingCons(mark: Mark, rest: seq<Mark>, k: nat)
    requires Rising(rest, k) && mark.at < k && forall m :: m in rest ==> mark.at < m.at
    ensures Rising([mark] + rest, k)
  {
  }

  lemma {:induction false} RemoveStands(marks: seq<Mark>, name: string, k: nat)
    requires Rising(marks, k)
    ensures Rising(RemoveMark(marks, name), k)
    ensures var i := FirstNamed(marks, name);
            forall m :: m in RemoveMark(marks, name) <==> m in marks && !(i < |marks| && marks[i] == m)
    decreases |marks|
  {
    if marks != [] {
      var rest := RemoveMark(marks[1..], name);
      RisingTail(marks, k);
      assert forall m :: m in marks <==> m == marks[0] || m in marks[1..];
      RemoveStands(marks[1..], name, k);
      hide Rising;
      if marks[0].name != name {
        assert forall m :: m in rest ==> m in marks[1..];
        RisingCons(marks[0], rest, k);
        var i := FirstNamed(marks[1..], name);
        assert FirstNamed(marks, name) == i + 1;
        assert i < |marks[1..]| ==> marks[i + 1] == marks[1..][i] && marks[1..][i] in marks[1..];
      }
    }
  }

  lemma {:induction false} KeepStands(marks: seq<Mark>, listed: seq<string>, k: nat)
    requires Rising(marks, k)
    ensures Rising(KeepMarks(marks, listed), k)
    ensures forall m :: m in KeepMarks(marks, listed) <==> m in marks && m.name in listed
    decreases |marks|
  {
    if marks != [] {
      RisingTail(marks, k);
      KeepStands(marks[1..], listed, k);
      RisingHead(marks, k);
      hide Rising;
      var rest := KeepMarks(marks[1..], listed);
      RisingCons(marks[0], rest, k);
      assert [] + rest == rest;
    }
  }

  lemma RisingHead(marks: seq<Mark>, k: nat)
    requires Rising(marks, k) && marks != []
    ensures marks[0].at < k
  {
  }

  /** The entry of step j shows the name of the segment that step told of. */
  predicate NamedRight(marks: seq<Mark>, j: nat, name: string)
  {
    forall i :: 0 <= i < |marks| && marks[i].at == j ==> marks[i].name == name
  }

  /** The entries after a step, case by case. */
  lemma NextIs(marks: seq<Mark>, s: System, step: Step, k: nat)
    requires Enabled(s, step)
    ensures var next := NextMarks(marks, s, step, k);
            if Tells(s, step) then next == AddMark(marks, Mark(k, Shown(Name(Subject(s, step)))))
            else if step.Report? && step.outcome == DONE && !IsPlaylist(Name(s.dest.inflight.value)) then
              next == RemoveMark(marks, Name(s.dest.inflight.value))
            else if step.Report? && step.outcome == DONE && step.uris.Some? then
              next == KeepMarks(marks, step.uris.value)
            else next == marks
  {
    hide IsPlaylist, Basename, Shown, AddMark, RemoveMark, KeepMarks;
  }

  /** One more step: which entries stay. */
  lemma StandsStep(marks: seq<Mark>, s: System, step: Step, k: nat, j: nat, name: string)
    requires Enabled(s, step) && Rising(marks, k) && j < k && NamedRight(marks, j, name)
    ensures var next := NextMarks(marks, s, step, k);
            && NamedRight(next, j, name)
            && (Stands(next, j) <==>
                  Stands(marks, j) && !Ninth(marks, s, step, j) && !Arrives(marks, s, step, j) && !LeavesOut(s, step, name))
  {
    hide IsPlaylist, Basename, Shown, Stands, NamedRight, NextMarks, AddMark, RemoveMark, KeepMarks;
    var next := NextMarks(marks, s, step, k);
    NextIs(marks, s, step, k);
    if Tells(s, step) {
      AddStands(marks, Mark(k, Shown(Name(Subject(s, step)))), k, j);
      AddNamed(marks, Mark(k, Shown(Name(Subject(s, step)))), j, name);
    } else if step.Report? && step.outcome == DONE {
      var own := Name(s.dest.inflight.value);
      if !IsPlaylist(own) {
        RemoveStands(marks, own, k);
        RemovedStands(marks, next, j, name, FirstNamed(marks, own), k);
      } else if step.uris.Some? {
        KeepStands(marks, step.uris.value, k);
        KeptStands(marks, next, j, name, step.uris.value);
      }
    }
  }

  lemma AddNamed(marks: seq<Mark>, mark: Mark, j: nat, name: string)
    requires NamedRight(marks, j, name) && mark.at != j
    ensures NamedRight(AddMark(marks, mark), j, name)
  {
    var r := AddMark(marks, mark);
    var d := if |marks| == MISSING then 1 else 0;
    assert forall i :: 0 <= i < |r| - 1 ==> r[i] == marks[i + d];
  }

  lemma RemovedStands(marks: seq<Mark>, next: seq<Mark>, j: nat, name: string, i: nat, k: nat)
    requires NamedRight(marks, j, name) && Rising(marks, k) && i <= |marks|
    requires forall m :: m in next <==> m in marks && !(i < |marks| && marks[i] == m)
    ensures NamedRight(next, j, name) && (Stands(next, j) <==> Stands(marks, j) && !(i < |marks| && marks[i].at == j))
  {
    forall n | 0 <= n < |next| && next[n].at == j
      ensures next[n].name == name && Stands(marks, j) && !(i < |marks| && marks[i].at == j)
    {
      assert next[n] in marks;
    }
    if Stands(marks, j) && !(i < |marks| && marks[i].at == j) {
      var n :| 0 <= n < |marks| && marks[n].at == j;
      assert marks[n] in next;
    }
  }

  lemma KeptStands(marks: seq<Mark>, next: seq<Mark>, j: nat, name: string, listed: seq<string>)
    requires NamedRight(marks, j, name) && forall m :: m in next <==> m in marks && m.name in listed
    ensures NamedRight(next, j, name) && (Stands(next, j) <==> Stands(marks, j) && name in listed)
  {
    forall i | 0 <= i < |next| && next[i].at == j ensures next[i].name == name && name in listed && Stands(marks, j) {
      assert next[i] in marks;
    }
    if name in listed && Stands(marks, j) {
      var i :| 0 <= i < |marks| && marks[i].at == j;
      assert marks[i] in next;
    }
  }

  /** One more step: which entry comes. */
  lemma RisingStep(marks: seq<Mark>, s: System, step: Step, k: nat)
    requires Enabled(s, step) && Rising(marks, k)
    ensures var next := NextMarks(marks, s, step, k);
            && Rising(next, k + 1)
            && (Stands(next, k) <==> Tells(s, step))
            && (Tells(s, step) ==> NamedRight(next, k, Shown(Name(Subject(s, step)))))
  {
    hide IsPlaylist, Basename, Shown, NextMarks, AddMark, RemoveMark, KeepMarks;
    NextIs(marks, s, step, k);
    if Tells(s, step) {
      var mark := Mark(k, Shown(Name(Subject(s, step))));
      AddStands(marks, mark, k, k);
      AddedLast(marks, mark, k);
    } else if step.Report? && step.outcome == DONE {
      var own := Name(s.dest.inflight.value);
      if !IsPlaylist(own) {
        RemoveStands(marks, own, k);
      } else if step.uris.Some? {
        KeepStands(marks, step.uris.value, k);
      }
    }
  }

  lemma AddedLast(marks: seq<Mark>, mark: Mark, k: nat)
    requires Rising(marks, k) && mark.at == k
    ensures NamedRight(AddMark(marks, mark), k, mark.name)
  {
    var r := AddMark(marks, mark);
    var d := if |marks| == MISSING then 1 else 0;
    assert forall i :: 0 <= i < |r| - 1 ==> r[i] == marks[i + d];
  }

  lemma {:induction false} RunRising(states: seq<System>, steps: seq<Step>, k: nat)
    requires IsRun(states, steps) && k < |states|
    ensures Rising(Marks(states, steps, k), k)
  {
    hide NextMarks, Enabled, Apply;
    if k > 0 {
      RunRising(states, steps, k - 1);
      assert Enabled(states[k - 1], steps[k - 1]);
      RisingStep(Marks(states, steps, k - 1), states[k - 1], steps[k - 1], k - 1);
    }
  }

  /** Nothing took the entry of step j off the list between that step and the k-th. */
  predicate Untouched(states: seq<System>, steps: seq<Step>, j: nat, k: nat, name: string)
    requires IsRun(states, steps) && k < |states|
  {
    forall m :: j < m < k ==>
      && !Ninth(Marks(states, steps, m), states[m], steps[m], j)
      && !Arrives(Marks(states, steps, m), states[m], steps[m], j)
      && !LeavesOut(states[m], steps[m], name)
  }

  lemma MarksStep(states: seq<System>, steps: seq<Step>, k: nat)
    requires IsRun(states, steps) && 0 < k < |states|
    ensures Enabled(states[k - 1], steps[k - 1])
    ensures Marks(states, steps, k) == NextMarks(Marks(states, steps, k - 1), states[k - 1], steps[k - 1], k - 1)
  {
    hide NextMarks;
  }

  lemma UntouchedStep(states: seq<System>, steps: seq<Step>, j: nat, k: nat, name: string)
    requires IsRun(states, steps) && j < k < |states| && k > j + 1 && Enabled(states[k - 1], steps[k - 1])
    ensures Untouched(states, steps, j, k, name) <==>
            && Untouched(states, steps, j, k - 1, name)
            && !Ninth(Marks(states, steps, k - 1), states[k - 1], steps[k - 1], j)
            && !Arrives(Marks(states, steps, k - 1), states[k - 1], steps[k - 1], j)
            && !LeavesOut(states[k - 1], steps[k - 1], name)
  {
    hide Ninth, Arrives, LeavesOut, Marks;
  }

  /**
   * Over every run: what a step told of stands on the list k steps into the
   * run if and only if no later telling found it first of eight, no segment
   * of its name arrived while it was the first such entry, and no playlist
   * was taken that does not list it.
   */
  lemma {:induction false} StandsIff(states: seq<System>, steps: seq<Step>, j: nat, k: nat)
    requires IsRun(states, steps) && j < k < |states|
    requires Enabled(states[j], steps[j]) && Tells(states[j], steps[j])
    ensures var name := Shown(Name(Subject(states[j], steps[j])));
            && NamedRight(Marks(states, steps, k), j, name)
            && (Stands(Marks(states, steps, k), j) <==> Untouched(states, steps, j, k, name))
    decreases k
  {
    hide NextMarks, Marks, Enabled, Apply, Tells, Ninth, Arrives, LeavesOut, Stands, NamedRight, Shown, Name, Subject, Rising;
    var name := Shown(Name(Subject(states[j], steps[j])));
    MarksStep(states, steps, k);
    var marks := Marks(states, steps, k - 1);
    RunRising(states, steps, k - 1);
    if k == j + 1 {
      RisingStep(marks, states[j], steps[j], j);
    } else {
      StandsIff(states, steps, j, k - 1);
      UntouchedStep(states, steps, j, k, name);
      hide Untouched;
      StandsStep(marks, states[k - 1], steps[k - 1], k - 1, j, name);
    }
  }

  /** A name is on the destination's list if and only if some entry shows it. */
  lemma NameOnList(states: seq<System>, steps: seq<Step>, k: nat, name: string)
    requires IsRun(states, steps) && k < |states|
    ensures name in states[k].dest.missing <==> exists j :: Named(Marks(states, steps, k), j, name)
  {
    var marks := Marks(states, steps, k);
    MarksAreTheList(states, steps, k);
    hide Marks;
    if name in states[k].dest.missing {
      var i :| 0 <= i < |marks| && Names(marks)[i] == name;
      assert marks[i] == Mark(marks[i].at, name);
      assert Named(marks, marks[i].at, name);
    }
    if j :| Named(marks, j, name) {
      var i :| 0 <= i < |marks| && marks[i] == Mark(j, name);
      assert Names(marks)[i] == name;
    }
  }

  // ---- what the destination lacks ---------------------------------------------------

  /** A retry of a segment that meets a full or stopping queue. */
  predicate LosesRetry(s: System, step: Step)
  {
    step.Finish? && step.outcome == RETRY && !Requeues(s.dest, RETRY) && !IsPlaylist(Name(step.item))
  }

  /** A sealed segment that cannot be opened. */
  predicate LosesUnopened(step: Step)
  {
    step.SealFailed? && !IsPlaylist(Basename(step.file.path))
  }

  /** From this step on the destination lacks a segment. */
  predicate Loses(s: System, step: Step)
    requires Enabled(s, step)
  {
    Tells(s, step) || LosesRetry(s, step) || LosesUnopened(step)
  }

  function LostName(s: System, step: Step): string
    requires Enabled(s, step) && Loses(s, step)
  {
    if Tells(s, step) then Name(Subject(s, step))
    else if step.Finish? then Name(step.item)
    else Basename(step.file.path)
  }

  /** Objects with this ticket or a later one were accepted after the lost segment was sealed. */
  function After(s: System, step: Step): nat
    requires Enabled(s, step) && Loses(s, step)
  {
    if Tells(s, step) then Subject(s, step).ticket + 1
    else if step.Finish? then step.item.ticket + 1
    else s.accepted
  }

  /** A segment of the name arrives, or a newer playlist is taken that no longer lists it. */
  predicate Settles(s: System, step: Step, name: string, after: nat)
    requires Enabled(s, step)
  {
    && step.Report? && step.outcome == DONE
    && var item := s.dest.inflight.value;
       if !IsPlaylist(Name(item)) then Name(item) == name
       else step.uris.Some? && name !in step.uris.value && item.ticket >= after
  }

  /** A playlist accepted before the lost segment is taken; it cannot list it. */
  predicate Older(s: System, step: Step, name: string, after: nat)
    requires Enabled(s, step)
  {
    LeavesOut(s, step, name) && s.dest.inflight.value.ticket < after
  }

  /** What was lost at step j is still missing at the destination, and of concern, after k steps. */
  predicate Lacked(states: seq<System>, steps: seq<Step>, j: nat, k: nat)
    requires IsRun(states, steps) && j < k < |states|
  {
    assert Enabled(states[j], steps[j]);
    && Loses(states[j], steps[j])
    && forall m :: j < m < k ==>
         !Settles(states[m], steps[m], LostName(states[j], steps[j]), After(states[j], steps[j]))
  }

  /** The list names what was lost at step j. */
  predicate Named(marks: seq<Mark>, j: nat, name: string)
  {
    exists i :: 0 <= i < |marks| && marks[i] == Mark(j, name)
  }

  /** Why a lacked segment is not named. */
  predicate Forgotten(states: seq<System>, steps: seq<Step>, j: nat, k: nat)
    requires IsRun(states, steps) && j < k < |states| && Lacked(states, steps, j, k)
  {
    assert Enabled(states[j], steps[j]);
    var name, after := LostName(states[j], steps[j]), After(states[j], steps[j]);
    || LosesRetry(states[j], steps[j]) || LosesUnopened(steps[j]) || |name| >= NAME_MAX
    || exists m :: j < m < k &&
         (Ninth(Marks(states, steps, m), states[m], steps[m], j) || Older(states[m], steps[m], name, after))
  }

  lemma ShownWhole(name: string)
    ensures Shown(name) == name <==> |name| < NAME_MAX
  {
  }

  /** The entry, if it stands, shows the lost name, unless that was cut. */
  lemma NamedIffStands(marks: seq<Mark>, j: nat, name: string)
    requires NamedRight(marks, j, Shown(name))
    ensures Named(marks, j, name) <==> Stands(marks, j) && |name| < NAME_MAX
  {
    ShownWhole(name);
    if Stands(marks, j) {
      var i :| 0 <= i < |marks| && marks[i].at == j;
      assert marks[i] == Mark(j, Shown(name));
    }
  }

  /** For a lacked segment: an arrival does not take its entry off, and a playlist only an older one. */
  lemma OnlyForgotten(marks: seq<Mark>, s: System, step: Step, j: nat, name: string, after: nat)
    requires Enabled(s, step) && NamedRight(marks, j, name) && !Settles(s, step, name, after)
    ensures !Arrives(marks, s, step, j) && (LeavesOut(s, step, name) <==> Older(s, step, name, after))
  {
    hide IsPlaylist, Basename, Enabled;
  }

  /** A step that told of nothing has no entry. */
  lemma {:induction false} UntoldAbsent(states: seq<System>, steps: seq<Step>, j: nat, k: nat)
    requires IsRun(states, steps) && j < k < |states|
    requires Enabled(states[j], steps[j]) && !Tells(states[j], steps[j])
    ensures !Stands(Marks(states, steps, k), j)
    decreases k
  {
    hide NextMarks, Enabled, Apply, Tells, Ninth, Arrives, LeavesOut;
    assert Enabled(states[k - 1], steps[k - 1]);
    var marks := Marks(states, steps, k - 1);
    RunRising(states, steps, k - 1);
    if k == j + 1 {
      RisingStep(marks, states[j], steps[j], j);
    } else {
      UntoldAbsent(states, steps, j, k - 1);
      StandsStep(marks, states[k - 1], steps[k - 1], k - 1, j, "");
    }
  }

  /**
   * The exact condition, over every run: a segment the destination lacks is
   * named by its list unless it was lost with a retry or could not be opened,
   * its name is cut, eight later losses pushed its entry out, or a playlist
   * accepted before it was taken and erased it - and in each of these cases
   * it is not.
   */
  lemma LackedNamedIff(states: seq<System>, steps: seq<Step>, j: nat, k: nat)
    requires IsRun(states, steps) && j < k < |states| && Lacked(states, steps, j, k)
    ensures Enabled(states[j], steps[j])
    ensures Named(Marks(states, steps, k), j, LostName(states[j], steps[j])) <==> !Forgotten(states, steps, j, k)
  {
    hide Apply, Tells, Ninth, Arrives, LeavesOut, Stands, Named, NamedRight, Older, Settles, Shown, NextMarks, Marks,
      LosesRetry, LosesUnopened, Enabled;
    assert Enabled(states[j], steps[j]);
    var name, after := LostName(states[j], steps[j]), After(states[j], steps[j]);
    var marks := Marks(states, steps, k);
    ToldApart(states[j], steps[j]);
    if Tells(states[j], steps[j]) {
      StandsIff(states, steps, j, k);
      NamedIffStands(marks, j, name);
      ShownWhole(name);
      if |name| < NAME_MAX {
        forall m | j < m < k
          ensures !Arrives(Marks(states, steps, m), states[m], steps[m], j)
          ensures LeavesOut(states[m], steps[m], name) <==> Older(states[m], steps[m], name, after)
        {
          StandsIff(states, steps, j, m);
          OnlyForgotten(Marks(states, steps, m), states[m], steps[m], j, name, after);
        }
      }
    } else {
      UntoldAbsent(states, steps, j, k);
      NamedStands(marks, j, name);
    }
  }

  lemma NamedStands(marks: seq<Mark>, j: nat, name: string)
    ensures Named(marks, j, name) ==> Stands(marks, j)
  {
  }

  lemma ToldApart(s: System, step: Step)
    requires Enabled(s, step)
    ensures Tells(s, step) ==> !LosesRetry(s, step) && !LosesUnopened(step)
    ensures Loses(s, step) && !Tells(s, step) ==> LosesRetry(s, step) || LosesUnopened(step)
  {
  }

  // ---- every loss is one of these ---------------------------------------------------

  /** A verdict that waits for its completion was reported for the object in flight. */
  lemma {:induction false} VerdictFrom(states: seq<System>, steps: seq<Step>, k: nat) returns (j: nat)
    requires IsRun(states, steps) && k < |states| && states[k].verdict.Some?
    ensures j < k && steps[j].Report? && Some(steps[j].outcome) == states[k].verdict
    ensures states[j].dest.inflight == states[k].dest.inflight
  {
    var s, step := states[k - 1], steps[k - 1];
    assert Enabled(s, step);
    if step.Report? {
      j := k - 1;
    } else {
      VerdictStays(s, step);
      j := VerdictFrom(states, steps, k - 1);
    }
  }

  lemma VerdictStays(s: System, step: Step)
    requires Enabled(s, step) && !step.Report? && Apply(s, step).verdict.Some?
    ensures s.verdict == Apply(s, step).verdict
    ensures !step.Take? ==> s.dest.inflight == Apply(s, step).dest.inflight
  {
    hide IsPlaylist, Basename;
  }

  lemma VerdictEnds(s: System, step: Step)
    requires Enabled(s, step) && !step.Seal? && !step.Finish? && !step.Drain? && !step.Shutdown?
    ensures Apply(s, step).finished == s.finished
  {
    hide IsPlaylist, Basename;
  }

  /** What a step adds to those that left. */
  lemma LeavesStep(s: System, step: Step)
    requires Enabled(s, step) && |s.dest.queue| <= QUEUE
    ensures var f, f' := s.finished, Apply(s, step).finished;
            && |f| <= |f'| && f'[..|f|] == f
            && forall i :: |f| <= i < |f'| && Wanting(f'[i].how) && !IsPlaylist(f'[i].name) ==>
                 || (step.Seal? && Loses(s, step) && After(s, step) == f'[i].ticket + 1 && LostName(s, step) == f'[i].name)
                 || (step.Finish? && f'[i] == Gone(step.item.ticket, Name(step.item), HowOf(step.outcome))
                     && !Requeues(s.dest, step.outcome))
  {
    hide IsPlaylist, Basename, Shown;
    if !step.Seal? && !step.Finish? && !step.Drain? && !step.Shutdown? {
      VerdictEnds(s, step);
    }
  }

  /** Every segment that left unsent and is wanted was lost at a step of the run: the theorem covers them all. */
  lemma {:induction false} EveryLossHasItsStep(states: seq<System>, steps: seq<Step>, k: nat, i: nat) returns (j: nat)
    requires IsRun(states, steps) && k < |states| && i < |states[k].finished|
    requires Wanting(states[k].finished[i].how) && !IsPlaylist(states[k].finished[i].name)
    ensures j < k && Enabled(states[j], steps[j]) && Loses(states[j], steps[j])
    ensures After(states[j], steps[j]) == states[k].finished[i].ticket + 1
    ensures LostName(states[j], steps[j]) == states[k].finished[i].name
  {
    hide IsPlaylist, Basename, Shown, Apply, Enabled;
    assert k > 0;
    var s, step := states[k - 1], steps[k - 1];
    assert Enabled(s, step) && states[k] == Apply(s, step);
    Few(states, steps, k - 1);
    LeavesStep(s, step);
    if i < |s.finished| {
      assert states[k].finished[i] == s.finished[i];
      j := EveryLossHasItsStep(states, steps, k - 1, i);
    } else if step.Seal? {
      j := k - 1;
    } else {
      FinishSays(s, step);
      if step.outcome == RETRY {
        j := k - 1;
      } else {
        j := VerdictFrom(states, steps, k - 1);
        assert Enabled(states[j], steps[j]);
      }
    }
  }

  lemma FinishSays(s: System, step: Step)
    requires Enabled(s, step) && step.Finish?
    ensures s.verdict == Some(step.outcome) && s.dest.inflight.Some?
    ensures s.dest.inflight.value.ticket == step.item.ticket && Name(s.dest.inflight.value) == Name(step.item)
  {
    hide Basename;
  }

  /** And every file that could not be opened. */
  lemma {:induction false} EveryUnopenedHasItsStep(states: seq<System>, steps: seq<Step>, k: nat, i: nat) returns (j: nat)
    requires IsRun(states, steps) && k < |states| && i < |states[k].unopened| && !IsPlaylist(states[k].unopened[i])
    ensures j < k && Enabled(states[j], steps[j]) && LosesUnopened(steps[j])
    ensures LostName(states[j], steps[j]) == states[k].unopened[i]
  {
    hide IsPlaylist, Basename;
    assert k > 0;
    assert Enabled(states[k - 1], steps[k - 1]);
    if i < |states[k - 1].unopened| {
      j := EveryUnopenedHasItsStep(states, steps, k - 1, i);
    } else {
      j := k - 1;
    }
  }

  // ---- runs that show it --------------------------------------------------------------

  const PLAYLIST := File(DIR + "a.m3u8", 1)
  const OTHER := File(DIR + "b.ts", 1)

  lemma PlaylistName()
    ensures Basename(PLAYLIST.path) == "a.m3u8" && IsPlaylist("a.m3u8")
  {
    assert DIR[4] == '/';
    BasenameOf(DIR, "a.m3u8");
    assert "a.m3u8"[1..] == ".m3u8";
  }

  lemma OtherName()
    ensures Basename(OTHER.path) == "b.ts" && !IsPlaylist("b.ts") && "b.ts" != "a.ts"
  {
    assert DIR[4] == '/';
    BasenameOf(DIR, "b.ts");
    assert "b.ts"[0] == 'b' && "a.ts"[0] == 'a';
  }

  /**
   * A playlist is being uploaded while the queue behind it overflows; once it
   * is taken, the list has forgotten the segment that was pushed out.
   */
  lemma OlderPlaylistErases() returns (states: seq<System>, steps: seq<Step>)
    ensures IsRun(states, steps) && |steps| == QUEUE + 4
    ensures var s := states[QUEUE + 4];
            && s.finished == [Gone(1, "a.ts", Overflowed)] && 1 in s.listed && s.dest.missing == []
            && Lacked(states, steps, QUEUE + 2, QUEUE + 4)
  {
    ClipName();
    PlaylistName();
    hide Basename, IsPlaylist;
    states, steps := QueueUp([PLAYLIST] + Clips(QUEUE));
    states, steps := Longer(states, steps, Seal(CLIP, 0));
    assert states[QUEUE + 3].dest.missing == ["a.ts"];
    states, steps := Longer(states, steps, Report(DONE, Some([])));
  }

  function Same(n: nat): (names: seq<string>)
    ensures |names| == n && forall i :: 0 <= i < n ==> names[i] == "a.ts"
  {
    seq(n, _ => "a.ts")
  }

  /** What the list shows after m segments were pushed out, the first of them another one. */
  function PushedOut(m: nat): seq<string>
  {
    if m == 0 then [] else if m <= MISSING then ["b.ts"] + Same(m - 1) else Same(MISSING)
  }

  lemma PushedOutNext(m: nat)
    requires m <= MISSING
    ensures MissingAdd(PushedOut(m), if m == 0 then "b.ts" else "a.ts") == PushedOut(m + 1)
  {
    assert Shown("a.ts") == "a.ts" && Shown("b.ts") == "b.ts";
  }

  /** A full queue behind an upload, and m more files sealed. */
  lemma {:induction false} Overflow(m: nat) returns (states: seq<System>, steps: seq<Step>)
    requires m <= MISSING + 1
    ensures |steps| == QUEUE + 2 + m && IsRun(states, steps)
    ensures Waiting(states[QUEUE + 2], [CLIP, OTHER] + Clips(QUEUE - 1))
    ensures forall j :: QUEUE + 2 <= j < |steps| ==> steps[j] == Seal(CLIP, 0)
    ensures var s := states[|steps|];
            && s.removal == Listed && !s.dest.stopping && |s.dest.queue| == QUEUE && s.dest.missing == PushedOut(m)
            && forall i :: 0 <= i < QUEUE ==> s.dest.queue[i].file == (if m == 0 && i == 0 then OTHER else CLIP)
  {
    ClipName();
    OtherName();
    hide Basename, IsPlaylist, PushedOut, Shown;
    if m == 0 {
      states, steps := QueueUp([CLIP, OTHER] + Clips(QUEUE - 1));
      NothingPushedOut();
    } else {
      states, steps := Overflow(m - 1);
      PushedOutNext(m - 1);
      var s := states[|steps|];
      states, steps := Longer(states, steps, Seal(CLIP, 0));
      assert states[|steps|].dest.queue == s.dest.queue[1..] + [Item(CLIP, 0, 0, 0, 0, s.accepted)];
    }
  }

  lemma NothingPushedOut()
    ensures PushedOut(0) == []
  {
  }

  /** Nine segments pushed out: the list no longer names the first. */
  lemma NinthPushesOut() returns (states: seq<System>, steps: seq<Step>)
    ensures IsRun(states, steps) && |steps| == QUEUE + MISSING + 3
    ensures Enabled(states[QUEUE + 2], steps[QUEUE + 2]) && Lacked(states, steps, QUEUE + 2, |steps|)
    ensures LostName(states[QUEUE + 2], steps[QUEUE + 2]) == "b.ts" && "b.ts" !in states[|steps|].dest.missing
  {
    states, steps := Overflow(MISSING + 1);
    OtherName();
    hide Basename, IsPlaylist;
    assert steps[QUEUE + 2] == Seal(CLIP, 0);
    assert states[QUEUE + 2].dest.queue[0].file == OTHER;
    assert Enabled(states[QUEUE + 2], steps[QUEUE + 2]);
  }

  /** A sealed segment that cannot be opened. */
  lemma UnopenedIsNotListed() returns (states: seq<System>, steps: seq<Step>)
    ensures IsRun(states, steps) && |steps| == 1
    ensures Lacked(states, steps, 0, 1) && states[1].unopened == ["a.ts"] && states[1].dest.missing == []
  {
    ClipName();
    hide Basename, IsPlaylist;
    states, steps := Longer([START], [], SealFailed(CLIP, true));
  }

  /** A retry that meets a full queue: a segment the destination lacks, and a list that names nothing. */
  lemma LostRetryIsNotListed() returns (states: seq<System>, steps: seq<Step>)
    ensures IsRun(states, steps) && |states| == QUEUE + 5
    ensures var s := states[QUEUE + 4];
            && s.finished == [Gone(0, "a.ts", RetryLost)] && !IsPlaylist("a.ts")
            && 0 !in s.listed && s.dest.missing == [] && Lacked(states, steps, QUEUE + 3, QUEUE + 4)
  {
    states, steps := QueueUp(Clips(QUEUE + 1));
    states, steps := Longer(states, steps, Report(RETRY, None));
    var item := Item(CLIP, 0, 0, 0, 0, 0);
    states, steps := Longer(states, steps, Finish(RETRY, item));
    ClipName();
    hide Basename, IsPlaylist;
    ListTellsAllButLostRetries(states, steps, QUEUE + 4, 0);
  }

  /** A name of 64 characters. */
  const LONG := seq(NAME_MAX, _ => 'n')

  lemma LongName()
    ensures Basename(DIR + LONG) == LONG && !IsPlaylist(LONG) && |Shown(LONG)| == NAME_MAX - 1
  {
    assert DIR[4] == '/';
    BasenameOf(DIR, LONG);
    var end := LONG[NAME_MAX - 5..];
    assert end[0] == 'n' && ".m3u8"[0] == '.';
  }

  /** A name that long is cut, so the list shows another one. */
  lemma LongNameIsCut() returns (states: seq<System>, steps: seq<Step>)
    ensures IsRun(states, steps) && |steps| == 3
    ensures states[3].dest.inflight == Some(Item(File(DIR + LONG, 1), 0, 0, 0, 0, 0)) && Lacked(states, steps, 2, 3)
    ensures LONG !in states[3].dest.missing && |states[3].dest.missing| == 1
  {
    LongName();
    hide Basename, IsPlaylist, Shown;
    states, steps := QueueUp([File(DIR + LONG, 1)]);
    states, steps := Longer(states, steps, Report(FAILED, None));
    assert states[3].dest.missing == [Shown(LONG)];
  }
}
