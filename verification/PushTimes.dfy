/**
 * When a push destination tries an object again, and what its counters count:
 * the decision at the end of an upload, the wait in the queue, and the
 * counters as tallies of the steps of a run.
 */
module PushTimes {
  import opened Common
  import opened PushQueue
  import opened PushRuns

  // ---- the decision at the end of an upload --------------------------------------

  /** The status of an upload that got no answer, and of one it declined to send. */
  const NO_ANSWER := -1
  const REFUSED := -5

  const BACKOFF_MS := 100
  const BACKOFF_MAX_MS := 1000
  const NS_PER_MS := 1000000

  /** The wait before the next attempt doubles from one attempt to the next, up to a second. */
  function Backoff(attempts: nat): nat
  {
    var shift := if attempts >= 1 && attempts - 1 < 4 then attempts - 1 else 4;
    Min(BACKOFF_MS * [1, 2, 4, 8, 16][shift], BACKOFF_MAX_MS)
  }

  predicate Retryable(status: int)
  {
    status == NO_ANSWER || status == 408 || status == 429 || status >= 500
  }

  /** One upload of an object: the clock before and after it, and what came back. */
  datatype Try = Try(item: Item, taken: nat, started: nat, ended: nat, status: int)

  /** The item as the upload leaves it, and what the upload came to. */
  function Decide(t: Try, budgetMs: nat): (r: (Item, Outcome))
  {
    var item := t.item.(firstNs := if t.item.firstNs == 0 then t.started else t.item.firstNs,
                        attempts := t.item.attempts + 1);
    if 200 <= t.status < 300 then (item, DONE)
    else
      var backoff := Backoff(item.attempts) * NS_PER_MS;
      if Retryable(t.status) && t.status != REFUSED && t.ended + backoff - item.firstNs <= budgetMs * NS_PER_MS then
        (item.(notBeforeNs := t.ended + backoff), RETRY)
      else (item, FAILED)
  }

  /**
   * The uploads of one object as it is taken again and again, over a clock
   * that runs forward from a time that is not 0: each is a retry of the one
   * before, taken when its time had come.
   */
  ghost predicate Tries(tries: seq<Try>, budgetMs: nat)
  {
    && (forall i :: 0 <= i < |tries| ==> 0 < tries[i].taken <= tries[i].started <= tries[i].ended)
    && (|tries| > 0 ==> tries[0].item.firstNs == 0 && tries[0].item.attempts == 0)
    && (forall i :: 0 < i < |tries| ==> Follows(tries, i, budgetMs))
  }

  predicate Follows(tries: seq<Try>, i: int, budgetMs: nat)
    requires 0 < i < |tries|
  {
    Again(tries[i - 1], tries[i], budgetMs)
  }

  predicate Again(t: Try, next: Try, budgetMs: nat)
  {
    Decide(t, budgetMs) == (next.item, RETRY) && next.item.notBeforeNs <= next.taken
  }

  /** The wait after attempt number i, counted from 0. */
  function WaitMs(i: nat): nat
  {
    if i == 0 then 100 else if i == 1 then 200 else if i == 2 then 400 else if i == 3 then 800 else 1000
  }

  lemma {:induction false} TriedSoFar(tries: seq<Try>, budgetMs: nat, i: nat)
    requires Tries(tries, budgetMs) && i < |tries|
    ensures tries[i].item.attempts == i
    ensures i > 0 ==> tries[i].item.firstNs == tries[0].started
    ensures i > 0 ==> tries[i - 1].ended + WaitMs(i - 1) * 1000000 == tries[i].item.notBeforeNs <= tries[i].taken
    ensures i > 0 ==> tries[i].item.notBeforeNs <= tries[0].started + budgetMs * 1000000
    ensures i > 0 ==> tries[i].item.notBeforeNs >= tries[0].started + 100000000 * i
  {
    if i > 0 {
      TriedSoFar(tries, budgetMs, i - 1);
      assert Follows(tries, i, budgetMs);
      BackoffIsWait(i);
      hide Backoff, WaitMs;
      TryStep(tries[i - 1], tries[i], budgetMs);
    }
  }

  lemma BackoffIsWait(i: nat)
    requires i > 0
    ensures Backoff(i) == WaitMs(i - 1) >= 100
  {
  }

  lemma TryStep(t: Try, next: Try, budgetMs: nat)
    requires Again(t, next, budgetMs)
    ensures next.item.attempts == t.item.attempts + 1
    ensures next.item.firstNs == if t.item.firstNs == 0 then t.started else t.item.firstNs
    ensures t.ended + Backoff(next.item.attempts) * 1000000 == next.item.notBeforeNs <= next.taken
    ensures next.item.notBeforeNs <= next.item.firstNs + budgetMs * 1000000
  {
  }

  /**
   * An attempt follows the failed one before it no sooner than after 100,
   * 200, 400, 800 and then 1000 milliseconds, is due within the budget counted
   * from the start of the first attempt, and there is at most one attempt
   * more than the budget has tenths of a second.
   */
  lemma RetriesBackOff(tries: seq<Try>, budgetMs: nat, i: nat)
    requires Tries(tries, budgetMs) && 0 < i < |tries|
    ensures tries[i].taken >= tries[i - 1].ended + WaitMs(i - 1) * 1000000
    ensures tries[i].item.notBeforeNs <= tries[0].started + budgetMs * 1000000
    ensures 100 * i <= budgetMs
  {
    hide Tries, WaitMs;
    TriedSoFar(tries, budgetMs, i);
  }

  /**
   * What an upload comes to: done on any 2xx answer; tried again after no
   * answer, a 408, a 429 or a 5xx answer as long as the next attempt is due within
   * the budget; given up on any other answer and when the budget is spent.
   */
  lemma OutcomeMeans(t: Try, budgetMs: nat)
    requires t.item.firstNs <= t.started <= t.ended && t.item.firstNs > 0
    ensures var (item, outcome) := Decide(t, budgetMs);
            var due := t.ended + WaitMs(t.item.attempts) * 1000000;
            && (outcome == DONE <==> 200 <= t.status <= 299)
            && (outcome == RETRY <==>
                  && (t.status == -1 || t.status == 408 || t.status == 429 || t.status >= 500)
                  && due <= t.item.firstNs + budgetMs * 1000000)
            && (outcome == RETRY ==> item.notBeforeNs == due)
            && (outcome != RETRY ==> item.notBeforeNs == t.item.notBeforeNs)
            && outcome != SKIPPED
            && item.ticket == t.item.ticket && item.file == t.item.file && item.attempts == t.item.attempts + 1
  {
    assert Backoff(t.item.attempts + 1) == WaitMs(t.item.attempts);
  }

  // ---- the wait in the queue -------------------------------------------------------

  /** Whatever the queue still holds of the object is the object as it was put back. */
  predicate Unchanged(s: System, item: Item)
  {
    && s.dest.inflight.None? && item.ticket < s.accepted
    && forall i :: 0 <= i < |s.dest.queue| && s.dest.queue[i].ticket == item.ticket ==> s.dest.queue[i] == item
  }

  lemma UnchangedStep(s: System, step: Step, item: Item)
    requires Unchanged(s, item) && Enabled(s, step) && !step.Take?
    ensures Unchanged(Apply(s, step), item)
  {
    hide IsPlaylist, Basename, MissingAdd;
  }

  lemma PutBack(s: System, item: Item)
    requires OrderRight(s) && Enabled(s, Finish(RETRY, item))
    ensures Unchanged(Apply(s, Finish(RETRY, item)), item)
  {
    hide IsPlaylist, Basename, Complete;
    var s', queued := Apply(s, Finish(RETRY, item)), s.dest.queue;
    QueueAfterRetry(s.dest, item);
    var q, flying := Tickets(queued), Flying(s.dest);
    assert flying == [item.ticket] && flying[0] < s.accepted;
    forall i | 0 <= i < |queued| ensures queued[i].ticket != item.ticket {
      assert q[i] > flying[0];
    }
    hide OrderRight;
    var back := if Requeues(s.dest, RETRY) then [item] else [];
    forall i | 0 <= i < |back + queued|
      ensures (back + queued)[i].ticket == item.ticket ==> (back + queued)[i] == item
    {
      assert (back + queued)[i] == if i < |back| then item else queued[i - |back|];
    }
  }

  lemma QueueAfterRetry(d: Dest, item: Item)
    ensures Complete(d, item, RETRY).queue == (if Requeues(d, RETRY) then [item] else []) + d.queue
    ensures Complete(d, item, RETRY).inflight == None
  {
  }

  lemma {:induction false} StaysUnchanged(states: seq<System>, steps: seq<Step>, j: nat, k: nat, item: Item)
    requires IsRun(states, steps) && j < k < |states| && steps[j] == Finish(RETRY, item)
    requires forall i :: j < i < k ==> !steps[i].Take?
    ensures Unchanged(states[k], item)
    decreases k
  {
    hide Unchanged, Enabled, Apply;
    if k == j + 1 {
      assert Enabled(states[j], steps[j]);
      OrderAt(states, steps, j);
      PutBack(states[j], item);
    } else {
      StaysUnchanged(states, steps, j, k - 1, item);
      assert Enabled(states[k - 1], steps[k - 1]);
      UnchangedStep(states[k - 1], steps[k - 1], item);
    }
  }

  lemma OrderAt(states: seq<System>, steps: seq<Step>, k: nat)
    requires IsRun(states, steps) && k < |states|
    ensures OrderRight(states[k])
  {
    hide IsRun, RefsRight, Merged, Told, Conserved, InLine, Overtaken, OrderRight;
    RunRight(states, steps, k);
  }

  /**
   * Over every run, an object that went back for a retry is taken again with
   * the fields it was given, and not before the time set for it.
   */
  lemma RetryWaits(states: seq<System>, steps: seq<Step>, j: nat, k: nat, item: Item, now: nat)
    requires IsRun(states, steps) && j < k < |steps| && steps[j] == Finish(RETRY, item) && steps[k] == Take(now)
    requires forall i :: j < i < k ==> !steps[i].Take?
    requires states[k].dest.queue != [] && states[k].dest.queue[0].ticket == item.ticket
    ensures states[k].dest.queue[0] == item && item.notBeforeNs <= now
    ensures states[k + 1].dest.inflight == Some(item)
  {
    StaysUnchanged(states, steps, j, k, item);
    assert Enabled(states[k], steps[k]);
  }

  /** An object is taken exactly when one is queued, none is being uploaded, and the time set for the oldest has come. */
  lemma TakenWhenDue(s: System, now: nat)
    ensures Enabled(s, Take(now))
       <==> && s.removal == Listed && s.dest.queue != [] && !s.dest.stopping && s.dest.inflight.None?
            && s.dest.queue[0].notBeforeNs <= now
    ensures Enabled(s, Take(now)) ==>
              var s' := Apply(s, Take(now));
              s'.dest.inflight == Some(s.dest.queue[0]) && s'.dest.queue == s.dest.queue[1..]
  {
  }

  // ---- the counters ------------------------------------------------------------------

  /** A retry goes back to a queue that has room and is not stopped. */
  predicate GoesBack(s: System)
  {
    !s.dest.stopping && |s.dest.queue| < 64
  }

  function UploadedAt(steps: seq<Step>, i: nat): nat
    requires i < |steps|
  {
    if steps[i].Finish? && steps[i].outcome == DONE then 1 else 0
  }

  function BytesAt(steps: seq<Step>, i: nat): nat
    requires i < |steps|
  {
    if steps[i].Finish? && steps[i].outcome == DONE then steps[i].item.file.size else 0
  }

  function RetriedAt(states: seq<System>, steps: seq<Step>, i: nat): nat
    requires i < |steps| < |states|
  {
    if steps[i].Finish? && steps[i].outcome == RETRY && GoesBack(states[i]) then 1 else 0
  }

  /** Given up, a retry that could not go back, or a sealed file that could not be opened though it is there. */
  function FailedAt(states: seq<System>, steps: seq<Step>, i: nat): nat
    requires i < |steps| < |states|
  {
    match steps[i]
    case Finish(outcome, _) => if outcome == FAILED || (outcome == RETRY && !GoesBack(states[i])) then 1 else 0
    case SealFailed(_, missing) => if missing then 0 else 1
    case _ => 0
  }

  /** Pushed out of a full queue, emptied out of a stopped one, or gone before it could be opened. */
  function DroppedAt(states: seq<System>, steps: seq<Step>, i: nat): nat
    requires i < |steps| < |states|
  {
    match steps[i]
    case Seal(_, _) => if !states[i].dest.stopping && |states[i].dest.queue| == 64 then 1 else 0
    case SealFailed(_, missing) => if missing then 1 else 0
    case Drain => |states[i].dest.queue|
    case Shutdown => |states[i].dest.queue|
    case _ => 0
  }

  function Uploads(steps: seq<Step>, k: nat): nat
    requires k <= |steps|
  {
    if k == 0 then 0 else Uploads(steps, k - 1) + UploadedAt(steps, k - 1)
  }

  function UploadBytes(steps: seq<Step>, k: nat): nat
    requires k <= |steps|
  {
    if k == 0 then 0 else UploadBytes(steps, k - 1) + BytesAt(steps, k - 1)
  }

  function Retries(states: seq<System>, steps: seq<Step>, k: nat): nat
    requires k <= |steps| < |states|
  {
    if k == 0 then 0 else Retries(states, steps, k - 1) + RetriedAt(states, steps, k - 1)
  }

  function Failures(states: seq<System>, steps: seq<Step>, k: nat): nat
    requires k <= |steps| < |states|
  {
    if k == 0 then 0 else Failures(states, steps, k - 1) + FailedAt(states, steps, k - 1)
  }

  function Drops(states: seq<System>, steps: seq<Step>, k: nat): nat
    requires k <= |steps| < |states|
  {
    if k == 0 then 0 else Drops(states, steps, k - 1) + DroppedAt(states, steps, k - 1)
  }

  lemma CountersStep(states: seq<System>, steps: seq<Step>, k: nat)
    requires IsRun(states, steps) && k < |steps|
    ensures var c, c' := states[k].dest.counters, states[k + 1].dest.counters;
            && c'.uploaded == c.uploaded + UploadedAt(steps, k)
            && c'.uploadedBytes == c.uploadedBytes + BytesAt(steps, k)
            && c'.retried == c.retried + RetriedAt(states, steps, k)
            && c'.failed == c.failed + FailedAt(states, steps, k)
            && c'.dropped == c.dropped + DroppedAt(states, steps, k)
  {
    hide IsPlaylist, Basename, MissingAdd, Uploaded, UploadedAt, BytesAt, RetriedAt, FailedAt, DroppedAt, Apply, Enabled;
    assert Enabled(states[k], steps[k]) && states[k + 1] == Apply(states[k], steps[k]);
    StepCounts(states, steps, k);
  }

  /** The counters after one step. */
  ghost predicate Counted(states: seq<System>, steps: seq<Step>, k: nat)
    requires k < |steps| < |states| && Enabled(states[k], steps[k])
  {
    var c, c' := states[k].dest.counters, Apply(states[k], steps[k]).dest.counters;
    && c'.uploaded == c.uploaded + UploadedAt(steps, k)
    && c'.uploadedBytes == c.uploadedBytes + BytesAt(steps, k)
    && c'.retried == c.retried + RetriedAt(states, steps, k)
    && c'.failed == c.failed + FailedAt(states, steps, k)
    && c'.dropped == c.dropped + DroppedAt(states, steps, k)
  }

  lemma FinishCounts(states: seq<System>, steps: seq<Step>, k: nat)
    requires k < |steps| < |states| && Enabled(states[k], steps[k]) && steps[k].Finish?
    ensures Counted(states, steps, k)
  {
  }

  lemma SealCounts(states: seq<System>, steps: seq<Step>, k: nat)
    requires k < |steps| < |states| && Enabled(states[k], steps[k]) && (steps[k].Seal? || steps[k].SealFailed?)
    ensures Counted(states, steps, k)
  {
    hide IsPlaylist, Basename, MissingAdd;
  }

  lemma OtherCounts(states: seq<System>, steps: seq<Step>, k: nat)
    requires k < |steps| < |states| && Enabled(states[k], steps[k])
    requires !steps[k].Finish? && !steps[k].Seal? && !steps[k].SealFailed?
    ensures Counted(states, steps, k)
  {
    hide IsPlaylist, Basename, Uploaded, Emptied, Tickets;
  }

  lemma StepCounts(states: seq<System>, steps: seq<Step>, k: nat)
    requires k < |steps| < |states| && Enabled(states[k], steps[k])
    ensures Counted(states, steps, k)
  {
    hide Counted, Enabled;
    if steps[k].Finish? {
      FinishCounts(states, steps, k);
    } else if steps[k].Seal? || steps[k].SealFailed? {
      SealCounts(states, steps, k);
    } else {
      OtherCounts(states, steps, k);
    }
  }

  /** Over every run, each of the five counters counts its own steps and nothing else. */
  lemma {:induction false} CountersMean(states: seq<System>, steps: seq<Step>, k: nat)
    requires IsRun(states, steps) && k < |states|
    ensures var c := states[k].dest.counters;
            && c.uploaded == Uploads(steps, k)
            && c.uploadedBytes == UploadBytes(steps, k)
            && c.retried == Retries(states, steps, k)
            && c.failed == Failures(states, steps, k)
            && c.dropped == Drops(states, steps, k)
  {
    hide UploadedAt, BytesAt, RetriedAt, FailedAt, DroppedAt, Apply, Enabled;
    if k > 0 {
      CountersMean(states, steps, k - 1);
      CountersStep(states, steps, k - 1);
    }
  }

  // ---- names -------------------------------------------------------------------------

  /** A playlist is what has anything before an ending .m3u8, in either case. */
  lemma PlaylistNames(name: string)
    ensures IsPlaylist(name)
       <==> exists stem, end :: name == stem + end && stem != "" && IsEnding(end)
  {
    if IsPlaylist(name) {
      var stem, end := name[..|name| - 5], name[|name| - 5..];
      EndingOf(end);
      assert name == stem + end && IsEnding(end);
    }
    forall stem, end | name == stem + end && stem != "" && IsEnding(end) ensures IsPlaylist(name) {
      EndingOf(end);
      assert name[|name| - 5..] == end;
    }
  }

  predicate IsEnding(end: string)
  {
    |end| == 5 && end[0] == '.' && end[1] in "mM" && end[2] == '3' && end[3] in "uU" && end[4] == '8'
  }

  lemma EndingOf(end: string)
    requires |end| == 5
    ensures [Lower(end[0]), Lower(end[1]), Lower(end[2]), Lower(end[3]), Lower(end[4])] == ".m3u8" <==> IsEnding(end)
  {
    var low := [Lower(end[0]), Lower(end[1]), Lower(end[2]), Lower(end[3]), Lower(end[4])];
    if low == ".m3u8" {
      assert low[0] == '.' && low[1] == 'm' && low[2] == '3' && low[3] == 'u' && low[4] == '8';
    }
    if IsEnding(end) {
      assert low == ['.', 'm', '3', 'u', '8'];
    }
  }

  /** The name of a path is what follows its last slash. */
  lemma {:induction false} NameOfPath(dir: string, name: string)
    requires '/' !in name && (dir == "" || dir[|dir| - 1] == '/')
    ensures Basename(dir + name) == name
    decreases |name|
  {
    if name == "" {
      assert dir + name == dir;
    } else {
      var n := |name| - 1;
      assert (dir + name)[..|dir + name| - 1] == dir + name[..n];
      NameOfPath(dir, name[..n]);
      assert name == name[..n] + [name[n]];
    }
  }

  /** The list of missing segments holds the latest eight names, each cut to its first 63 characters. */
  lemma ListKeepsEight(missing: seq<string>, name: string)
    requires |missing| <= 8
    ensures MissingAdd(missing, name)
         == (if |missing| < 8 then missing else missing[1..]) + [if |name| <= 63 then name else name[..63]]
  {
  }

  /** A segment that arrived is taken off once, where it is listed first; the others keep their order. */
  lemma {:induction false} ListLosesFirst(missing: seq<string>, name: string, i: nat)
    requires i < |missing| && missing[i] == name && forall k :: 0 <= k < i ==> missing[k] != name
    ensures MissingRemove(missing, name) == missing[..i] + missing[i + 1..]
  {
    if i > 0 {
      ListLosesFirst(missing[1..], name, i - 1);
      assert missing[..i] == [missing[0]] + missing[1..][..i - 1];
      assert missing[i + 1..] == missing[1..][i..];
    }
  }
}
