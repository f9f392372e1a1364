/**
 * The shared owner directory as a table: open addressing with deleted marks
 * and lazy reuse of records whose owner stopped its heartbeat.
 */
module OwnerTable {
  import opened Common

  /** An owner silent for longer than this many milliseconds may be replaced. */
  const STALE_MS := 10000

  datatype State = FREE | OWNED | DELETED

  datatype Record = Record(hash: nat, slot: nat, pid: int, generation: nat,
                           state: State, sources: nat, heartbeat: Msec, frames: nat)

  const ZEROED := Record(0, 0, 0, 0, FREE, 0, 0, 0)

  type Table = seq<Record>

  predicate Stale(r: Record, now: Msec)
  {
    Sub64(now, r.heartbeat) > STALE_MS
  }

  /** ngx_media_owner_dir_reclaimable. */
  predicate Reclaimable(r: Record, now: Msec)
  {
    r.state != OWNED || Stale(r, now)
  }

  /** The worker slot that owns a stream. */
  function OwnerSlot(hash: nat, workers: nat): nat
  {
    if workers == 0 then 0 else hash % workers
  }

  /** The i-th slot of a hash's probe sequence in a table of n slots. */
  function Probe(hash: nat, i: nat, n: nat): (index: nat)
    requires n > 0
    ensures index < n
  {
    (hash % n + i) % n
  }

  /** A probe sequence visits every slot. */
  lemma ProbeVisits(hash: nat, n: nat, j: nat) returns (i: nat)
    requires j < n
    ensures i < n && Probe(hash, i, n) == j
  {
    var home := hash % n;
    i := if j >= home then j - home else j + n - home;
    if j < home {
      assert (home + i) % n == (j + n) % n == j;
    }
  }

  /** The probing loop from its i-th step on, avail being the first reusable record met. */
  function FindFrom(table: Table, hash: nat, now: Msec, i: nat, avail: Option<nat>): Option<nat>
    requires i <= |table|
    decreases |table| - i
  {
    if i == |table| then avail else
    var index := Probe(hash, i, |table|);
    var record := table[index];
    match record.state
    case OWNED =>
      if record.hash == hash then Some(index)
      else FindFrom(table, hash, now, i + 1,
                    if avail.None? && Reclaimable(record, now) then Some(index) else avail)
    case DELETED => FindFrom(table, hash, now, i + 1, if avail.None? then Some(index) else avail)
    case FREE => if avail.Some? then avail else Some(index)
  }

  function Find(table: Table, hash: nat, now: Msec): Option<nat>
  {
    FindFrom(table, hash, now, 0, None)
  }

  // ---- the invariant ------------------------------------------------------------

  predicate Owns(table: Table, j: nat, hash: nat)
  {
    j < |table| && table[j].state == OWNED && table[j].hash == hash
  }

  predicate NotFree(table: Table, hash: nat, i: nat)
    requires |table| > 0
  {
    table[Probe(hash, i, |table|)].state != FREE
  }

  /** Slot j is the d-th of the hash's probes and no FREE slot precedes it. */
  ghost predicate Reach(table: Table, hash: nat, j: nat, d: nat)
    requires |table| > 0
  {
    d < |table| && Probe(hash, d, |table|) == j && forall i :: 0 <= i < d ==> NotFree(table, hash, i)
  }

  /** The probe sequence of j's record reaches it. */
  ghost predicate Placed(table: Table, j: nat)
    requires j < |table|
  {
    table[j].state == OWNED ==> exists d :: Reach(table, table[j].hash, j, d)
  }

  ghost predicate WellFormed(table: Table)
  {
    && |table| > 0
    && (forall j :: 0 <= j < |table| ==> Placed(table, j))
    && (forall j, k, hash :: Owns(table, j, hash) && Owns(table, k, hash) ==> j == k)
  }

  // ---- what find finds ------------------------------------------------------------

  predicate Live(table: Table, j: nat, now: Msec)
    requires j < |table|
  {
    !Reclaimable(table[j], now)
  }

  /** A record that is reached is found, whatever was noted on the way. */
  lemma {:induction false} FindOwned(table: Table, hash: nat, now: Msec, i: nat, avail: Option<nat>, j: nat, d: nat)
    requires WellFormed(table) && Owns(table, j, hash) && Reach(table, hash, j, d) && i <= d
    ensures FindFrom(table, hash, now, i, avail) == Some(j)
    decreases d - i
  {
    var index := Probe(hash, i, |table|);
    if i < d {
      assert NotFree(table, hash, i);
      if Owns(table, index, hash) {
        assert index == j;
      } else {
        var next := if avail.None? && Reclaimable(table[index], now) then Some(index) else avail;
        FindOwned(table, hash, now, i + 1, next, j, d);
      }
    }
  }

  predicate LiveProbe(table: Table, hash: nat, now: Msec, i: nat)
    requires |table| > 0
  {
    Live(table, Probe(hash, i, |table|), now)
  }

  /** Without a record of its own, a hash is given the first reusable slot of its probes. */
  lemma {:induction false} FindAvailable(table: Table, hash: nat, now: Msec, i: nat, avail: Option<nat>)
      returns (d: nat)
    requires |table| > 0 && i <= |table|
    requires forall k :: 0 <= k < |table| ==> !Owns(table, Probe(hash, k, |table|), hash)
    ensures var r := FindFrom(table, hash, now, i, avail);
            && (avail.Some? ==> r == avail)
            && (avail.None? && r.None? ==> forall k :: i <= k < |table| ==> LiveProbe(table, hash, now, k))
            && (avail.None? && r.Some? ==>
                  && i <= d < |table| && r.value == Probe(hash, d, |table|)
                  && Reclaimable(table[r.value], now)
                  && forall k :: i <= k < d ==> LiveProbe(table, hash, now, k))
    decreases |table| - i
  {
    d := i;
    if i < |table| {
      var index := Probe(hash, i, |table|);
      assert !Owns(table, index, hash);
      if table[index].state != FREE {
        var next := if avail.None? && Reclaimable(table[index], now) then Some(index) else avail;
        var d' := FindAvailable(table, hash, now, i + 1, next);
        if avail.None? && next.None? {
          assert LiveProbe(table, hash, now, i);
          d := d';
        }
      }
    }
  }

  ghost predicate HasOwner(table: Table, hash: nat)
  {
    exists j :: Owns(table, j, hash)
  }

  /** find returns the one owned record of a hash when there is one. */
  lemma FindReturnsOwner(table: Table, hash: nat, now: Msec, j: nat)
    requires WellFormed(table) && Owns(table, j, hash)
    ensures Find(table, hash, now) == Some(j)
  {
    assert Placed(table, j);
    var d :| Reach(table, hash, j, d);
    FindOwned(table, hash, now, 0, None, j, d);
  }

  /** Otherwise it fails exactly when every slot holds a live record of another hash. */
  lemma FindFailsWhenFull(table: Table, hash: nat, now: Msec)
    requires WellFormed(table)
    ensures Find(table, hash, now).None?
       <==> forall j :: 0 <= j < |table| ==> Live(table, j, now) && table[j].hash != hash
  {
    if HasOwner(table, hash) {
      var j :| Owns(table, j, hash);
      FindReturnsOwner(table, hash, now, j);
    } else {
      var d := FindAvailable(table, hash, now, 0, None);
      if Find(table, hash, now).None? {
        forall j | 0 <= j < |table| ensures Live(table, j, now) && table[j].hash != hash {
          var i := ProbeVisits(hash, |table|, j);
          assert LiveProbe(table, hash, now, i);
          assert !Owns(table, j, hash);
        }
      }
    }
  }

  // ---- the operations -----------------------------------------------------------

  function FreshRecord(hash: nat, slot: nat, pid: int, now: Msec): Record
  {
    ZEROED.(hash := hash, state := OWNED, slot := slot, pid := pid, heartbeat := now)
  }

  /** claim's write to the record that find returned. */
  function ClaimedRecord(r: Record, hash: nat, slot: nat, pid: int, now: Msec): Record
  {
    if r.hash != hash || r.slot != slot || r.pid != pid || Reclaimable(r, now) then
      FreshRecord(hash, slot, pid, now)
    else r
  }

  function Claim(table: Table, at: nat, hash: nat, slot: nat, pid: int, now: Msec): Table
    requires at < |table|
  {
    table[at := ClaimedRecord(table[at], hash, slot, pid, now)]
  }

  predicate Mine(r: Record, hash: nat, slot: nat, pid: int)
  {
    r.hash == hash && r.slot == slot && r.pid == pid && r.state == OWNED
  }

  function Release(table: Table, at: nat, hash: nat, slot: nat, pid: int): Table
    requires at < |table|
  {
    if Mine(table[at], hash, slot, pid) then table[at := ZEROED.(state := DELETED)] else table
  }

  function Heartbeat(table: Table, at: nat, hash: nat, slot: nat, pid: int,
                     generation: nat, frames: nat, sources: nat, now: Msec): Table
    requires at < |table|
  {
    if Mine(table[at], hash, slot, pid) then
      table[at := table[at].(generation := generation, frames := frames, sources := sources, heartbeat := now)]
    else table
  }

  /** A slot that is not FREE before the write is not FREE after it. */
  lemma ReachKept(table: Table, table': Table, hash: nat, j: nat, d: nat)
    requires 0 < |table| == |table'| && Reach(table, hash, j, d)
    requires forall k :: 0 <= k < |table| && table[k].state != FREE ==> table'[k].state != FREE
    ensures Reach(table', hash, j, d)
  {
    forall i | 0 <= i < d ensures NotFree(table', hash, i) {
      assert NotFree(table, hash, i);
    }
  }

  /** Rewriting one slot without freeing it keeps every other record where its probes reach it. */
  lemma RewriteKeeps(table: Table, at: nat, r: Record)
    requires WellFormed(table) && at < |table| && r.state != FREE
    requires r.state == OWNED ==> exists d :: Reach(table, r.hash, at, d)
    requires r.state == OWNED ==> forall j :: 0 <= j < |table| && j != at ==> !Owns(table, j, r.hash)
    ensures WellFormed(table[at := r])
  {
    var table' := table[at := r];
    forall j | 0 <= j < |table'| ensures Placed(table', j) {
      if table'[j].state == OWNED {
        if j != at {
          assert Placed(table, j);
        }
        var d :| Reach(table, table'[j].hash, j, d);
        ReachKept(table, table', table'[j].hash, j, d);
      }
    }
    forall j, k, hash | Owns(table', j, hash) && Owns(table', k, hash) ensures j == k {
      assert j != at ==> Owns(table, j, hash);
      assert k != at ==> Owns(table, k, hash);
    }
  }

  /** The slot find gives a hash is one its probes reach, and no other slot is its owner. */
  lemma FindIsReached(table: Table, hash: nat, now: Msec)
    requires WellFormed(table) && Find(table, hash, now).Some?
    ensures var at := Find(table, hash, now).value;
            && at < |table|
            && (exists d :: Reach(table, hash, at, d))
            && (forall j :: 0 <= j < |table| && j != at ==> !Owns(table, j, hash))
            && (Owns(table, at, hash) || Reclaimable(table[at], now))
  {
    if HasOwner(table, hash) {
      var j :| Owns(table, j, hash);
      FindReturnsOwner(table, hash, now, j);
      assert Placed(table, j);
    } else {
      var d := FindAvailable(table, hash, now, 0, None);
      forall i | 0 <= i < d ensures NotFree(table, hash, i) {
        assert LiveProbe(table, hash, now, i);
      }
      assert Reach(table, hash, Probe(hash, d, |table|), d);
      forall j | 0 <= j < |table| ensures !Owns(table, j, hash) {
        assert !HasOwner(table, hash);
      }
    }
  }

  /** A claim leaves a well-formed table in which the hash's one owner is the claimant. */
  lemma ClaimKeeps(table: Table, hash: nat, slot: nat, pid: int, now: Msec)
    requires WellFormed(table) && Find(table, hash, now).Some?
    ensures var at := Find(table, hash, now).value;
            && at < |table|
            && WellFormed(Claim(table, at, hash, slot, pid, now))
            && Mine(Claim(table, at, hash, slot, pid, now)[at], hash, slot, pid)
            && Find(Claim(table, at, hash, slot, pid, now), hash, now) == Some(at)
  {
    FindIsReached(table, hash, now);
    var at := Find(table, hash, now).value;
    RewriteKeeps(table, at, ClaimedRecord(table[at], hash, slot, pid, now));
    FindReturnsOwner(Claim(table, at, hash, slot, pid, now), hash, now, at);
  }

  lemma ReleaseKeeps(table: Table, at: nat, hash: nat, slot: nat, pid: int)
    requires WellFormed(table) && at < |table|
    ensures WellFormed(Release(table, at, hash, slot, pid))
    ensures Mine(table[at], hash, slot, pid) ==> !HasOwner(Release(table, at, hash, slot, pid), hash)
  {
    RewriteKeeps(table, at, ZEROED.(state := DELETED));
    var table' := Release(table, at, hash, slot, pid);
    if Mine(table[at], hash, slot, pid) && HasOwner(table', hash) {
      var j :| Owns(table', j, hash);
      assert Owns(table, j, hash) && Owns(table, at, hash);
      assert false;
    }
  }

  lemma HeartbeatKeeps(table: Table, at: nat, hash: nat, slot: nat, pid: int,
                       generation: nat, frames: nat, sources: nat, now: Msec)
    requires WellFormed(table) && at < |table|
    ensures WellFormed(Heartbeat(table, at, hash, slot, pid, generation, frames, sources, now))
  {
    if Mine(table[at], hash, slot, pid) {
      assert Placed(table, at) && Owns(table, at, hash);
      RewriteKeeps(table, at,
        table[at].(generation := generation, frames := frames, sources := sources, heartbeat := now));
    }
  }

  // ---- what a reader is given ---------------------------------------------------

  /** What ngx_media_owner_dir_observe hands to a reader that gets the lock. */
  function Observed(table: Table, hash: nat, now: Msec): Option<Record>
  {
    var at := Find(table, hash, now);
    if at.None? || at.value >= |table| || table[at.value].hash != hash || table[at.value].state != OWNED
       || Reclaimable(table[at.value], now)
    then None
    else Some(table[at.value])
  }

  /** Nothing but slot `at` differs. */
  predicate OnlyAt(table: Table, table': Table, at: nat)
  {
    |table'| == |table| && forall j :: 0 <= j < |table| && j != at ==> table'[j] == table[j]
  }

  /** The record of an owner is readable for ten seconds from its heartbeat on, to the millisecond. */
  lemma ReadableTenSeconds(table: Table, at: nat, hash: nat, now: Msec)
    requires WellFormed(table) && Owns(table, at, hash)
    ensures Observed(table, hash, now)
         == if (now - table[at].heartbeat) % 0x1_0000_0000_0000_0000 <= 10000 then Some(table[at]) else None
  {
    FindReturnsOwner(table, hash, now, at);
  }

  lemma UnownedUnreadable(table: Table, hash: nat, now: Msec)
    requires WellFormed(table) && !HasOwner(table, hash)
    ensures Observed(table, hash, now) == None
  {
    var at := Find(table, hash, now);
    if at.Some? {
      assert !Owns(table, at.value, hash);
    }
  }

  /**
   * A heartbeat is read back: for the ten seconds that follow it, and no
   * longer, a reader is given its numbers; a process that does not own the
   * record changes nothing.
   */
  lemma HeartbeatRead(table: Table, at: nat, hash: nat, slot: nat, pid: int,
                      generation: nat, frames: nat, sources: nat, now: Msec, later: Msec)
    requires WellFormed(table) && at < |table|
    ensures var table' := Heartbeat(table, at, hash, slot, pid, generation, frames, sources, now);
            var was := table[at];
            if was.hash == hash && was.slot == slot && was.pid == pid && was.state == OWNED then
              && OnlyAt(table, table', at)
              && table'[at] == Record(hash, slot, pid, generation, OWNED, sources, now, frames)
              && Observed(table', hash, later)
              == if (later - now) % 0x1_0000_0000_0000_0000 <= 10000 then Some(table'[at]) else None
            else table' == table
  {
    var table' := Heartbeat(table, at, hash, slot, pid, generation, frames, sources, now);
    if Mine(table[at], hash, slot, pid) {
      HeartbeatKeeps(table, at, hash, slot, pid, generation, frames, sources, now);
      ReadableTenSeconds(table', at, hash, later);
    }
  }

  /**
   * A claim is read back likewise, all its numbers zero; the claimant's own
   * record, heard of within ten seconds, stays as it was.
   */
  lemma ClaimRead(table: Table, hash: nat, slot: nat, pid: int, now: Msec, later: Msec)
    requires WellFormed(table) && Find(table, hash, now).Some?
    ensures var at := Find(table, hash, now).value;
            && at < |table|
            && var table' := Claim(table, at, hash, slot, pid, now);
               var was := table[at];
               if was.hash == hash && was.slot == slot && was.pid == pid && was.state == OWNED
                  && (now - was.heartbeat) % 0x1_0000_0000_0000_0000 <= 10000
               then table' == table
               else
                 && OnlyAt(table, table', at)
                 && table'[at] == Record(hash, slot, pid, 0, OWNED, 0, now, 0)
                 && Observed(table', hash, later)
                 == if (later - now) % 0x1_0000_0000_0000_0000 <= 10000 then Some(table'[at]) else None
  {
    ClaimKeeps(table, hash, slot, pid, now);
    var at := Find(table, hash, now).value;
    var table' := Claim(table, at, hash, slot, pid, now);
    assert Owns(table', at, hash);
    ReadableTenSeconds(table', at, hash, later);
  }

  /** A release by the owner leaves the slot to be passed over and the hash unread; any other leaves all as it was. */
  lemma ReleaseRead(table: Table, at: nat, hash: nat, slot: nat, pid: int, later: Msec)
    requires WellFormed(table) && at < |table|
    ensures var table' := Release(table, at, hash, slot, pid);
            var was := table[at];
            if was.hash == hash && was.slot == slot && was.pid == pid && was.state == OWNED then
              && OnlyAt(table, table', at)
              && table'[at] == Record(0, 0, 0, 0, DELETED, 0, 0, 0)
              && Observed(table', hash, later) == None
            else table' == table
  {
    ReleaseKeeps(table, at, hash, slot, pid);
    if Mine(table[at], hash, slot, pid) {
      UnownedUnreadable(Release(table, at, hash, slot, pid), hash, later);
    }
  }

  /** Find never gives one hash the slot of another whose owner was heard of within ten seconds. */
  lemma LiveOwnerNotFound(table: Table, j: nat, hash: nat, other: nat, now: Msec)
    requires WellFormed(table) && Owns(table, j, hash) && other != hash
    requires (now - table[j].heartbeat) % 0x1_0000_0000_0000_0000 <= 10000
    ensures Find(table, other, now) != Some(j)
  {
    if Find(table, other, now) == Some(j) {
      FindIsReached(table, other, now);
    }
  }
}
