/**
 * The shared owner directory in place: one mapping of records, a lock word,
 * an epoch and a revision counter, with the operations workers perform on it.
 */
module OwnerDir {
  import opened Common
  import opened OwnerTable

  /** What a worker keeps of the directory it attached to. */
  datatype Handle = Handle(workers: nat, epoch: nat, pid: int)

  class Directory {
    const records: array<Record>
    var locked: bool
    var workers: nat
    var epoch: nat
    var revision: nat

    ghost predicate Valid()
      reads this, records
    {
      epoch > 0 && WellFormed(records[..])
    }

    /** The master's first mapping: every record FREE, epoch 1. */
    constructor (slots: nat, workers: nat)
      ensures Valid() && fresh(records) && !locked && epoch == 1 && this.workers == workers && revision == 0
      ensures records.Length == (if slots == 0 then 256 else slots)
      ensures forall j :: 0 <= j < records.Length ==> records[j] == ZEROED
    {
      records := new Record[if slots == 0 then 256 else slots](_ => ZEROED);
      locked, this.workers, epoch, revision := false, workers, 1, 0;
    }

    method Lock() returns (ok: bool)
      modifies this`locked
      ensures ok <==> !old(locked)
      ensures locked
    {
      ok := !locked;
      if ok {
        locked := true;
      }
    }

    method Unlock()
      modifies this`locked
      ensures !locked
    {
      if locked {
        locked := false;
      }
    }

    /** A reload: the master raises the epoch under the lock, or fails. */
    method Reload(workers: nat) returns (rc: Rc)
      requires Valid()
      modifies this
      ensures Valid() && locked == old(locked) && revision == old(revision)
      ensures rc == if old(locked) then ERROR else OK
      ensures rc == ERROR ==> this.workers == old(this.workers) && epoch == old(epoch)
      ensures rc == OK ==> this.workers == workers && epoch == old(epoch) + 1
    {
      var ok := Lock();
      if !ok {
        return ERROR;
      }
      this.workers := workers;
      epoch := epoch + 1;
      Unlock();
      return OK;
    }

    /** The next revision: all workers draw from this counter, beginning with 1. */
    method RevisionNext() returns (r: nat)
      modifies this`revision
      ensures r == old(revision) + 1 && revision == r
    {
      revision := revision + 1;
      r := revision;
    }

    /** The probing loop computes Find. */
    method FindSlot(hash: nat, now: Msec) returns (r: Option<nat>)
      requires Valid()
      ensures r == Find(records[..], hash, now)
      ensures forall j: nat :: Owns(records[..], j, hash) ==> r == Some(j)
      ensures r.None? <==> forall j :: 0 <= j < records.Length ==>
                Live(records[..], j, now) && records[j].hash != hash
      ensures r.Some? ==> r.value < records.Length
    {
      FindFailsWhenFull(records[..], hash, now);
      forall j: nat | Owns(records[..], j, hash) ensures Find(records[..], hash, now) == Some(j) {
        FindReturnsOwner(records[..], hash, now, j);
      }
      if Find(records[..], hash, now).Some? {
        FindIsReached(records[..], hash, now);
      }
      var firstAvail: Option<nat> := None;
      var i := 0;
      while i < records.Length
        invariant i <= records.Length
        invariant Find(records[..], hash, now) == FindFrom(records[..], hash, now, i, firstAvail)
      {
        var index := Probe(hash, i, records.Length);
        var record := records[index];
        if record.state == OWNED {
          if record.hash == hash {
            return Some(index);
          }
          if firstAvail.None? && Reclaimable(record, now) {
            firstAvail := Some(index);
          }
        } else if record.state == DELETED {
          if firstAvail.None? {
            firstAvail := Some(index);
          }
        } else {
          return if firstAvail.Some? then firstAvail else Some(index);
        }
        i := i + 1;
      }
      return firstAvail;
    }

    /**
     * A claim writes at most the record find gives it.  It is refused exactly
     * for a foreign slot, a held lock, an older epoch, or a table in which
     * every slot holds a live record of another hash.
     */
    method ClaimSlot(h: Handle, hash: nat, slot: nat, now: Msec) returns (r: Option<nat>)
      requires Valid()
      modifies this`locked, records
      ensures Valid() && locked == old(locked)
      ensures r.None? <==>
                || slot != OwnerSlot(hash, h.workers) || old(locked) || h.epoch != epoch
                || forall j :: 0 <= j < records.Length ==>
                     Live(old(records[..]), j, now) && old(records[..])[j].hash != hash
      ensures r.None? ==> records[..] == old(records[..])
      ensures r.Some? ==>
                && r == Find(old(records[..]), hash, now) && r.value < records.Length
                && records[..] == Claim(old(records[..]), r.value, hash, slot, h.pid, now)
                && Mine(records[r.value], hash, OwnerSlot(hash, h.workers), h.pid)
                && (forall j: nat :: Owns(records[..], j, hash) ==> j == r.value)
    {
      if slot != OwnerSlot(hash, h.workers) {
        return None;
      }
      var ok := Lock();
      if !ok {
        return None;
      }
      if h.epoch != epoch {
        Unlock();
        return None;
      }
      var found := FindSlot(hash, now);
      if found.None? {
        Unlock();
        return None;
      }
      var record := records[found.value];
      ClaimKeeps(records[..], hash, slot, h.pid, now);
      if record.hash != hash || record.slot != slot || record.pid != h.pid || Reclaimable(record, now) {
        records[found.value] := FreshRecord(hash, slot, h.pid, now);
      }
      assert records[..] == Claim(old(records[..]), found.value, hash, slot, h.pid, now);
      assert Owns(records[..], found.value, hash);
      Unlock();
      return found;
    }

    /** Only the current epoch's owner process drops a record, and only its own. */
    method ReleaseSlot(h: Handle, hash: nat, slot: nat, now: Msec)
      requires Valid()
      modifies this`locked, records
      ensures Valid() && locked == old(locked)
      ensures old(locked) || h.epoch != epoch || Find(old(records[..]), hash, now).None? ==>
                records[..] == old(records[..])
      ensures !old(locked) && h.epoch == epoch && Find(old(records[..]), hash, now).Some? ==>
                var at := Find(old(records[..]), hash, now).value;
                && at < records.Length
                && records[..] == Release(old(records[..]), at, hash, slot, h.pid)
                && (Mine(old(records[..])[at], hash, slot, h.pid) ==> !HasOwner(records[..], hash))
    {
      var ok := Lock();
      if !ok {
        return;
      }
      if h.epoch != epoch {
        Unlock();
        return;
      }
      var found := FindSlot(hash, now);
      if found.Some? {
        ReleaseKeeps(records[..], found.value, hash, slot, h.pid);
        var record := records[found.value];
        if record.hash == hash && record.slot == slot && record.pid == h.pid && record.state == OWNED {
          records[found.value] := ZEROED.(state := DELETED);
        }
        assert records[..] == Release(old(records[..]), found.value, hash, slot, h.pid);
      }
      Unlock();
    }

    /** Only the current epoch's owner process refreshes a record, and only its own. */
    method HeartbeatSlot(h: Handle, hash: nat, slot: nat, generation: nat, frames: nat, sources: nat, now: Msec)
      requires Valid()
      modifies this`locked, records
      ensures Valid() && locked == old(locked)
      ensures old(locked) || h.epoch != epoch || Find(old(records[..]), hash, now).None? ==>
                records[..] == old(records[..])
      ensures !old(locked) && h.epoch == epoch && Find(old(records[..]), hash, now).Some? ==>
                var at := Find(old(records[..]), hash, now).value;
                && at < records.Length
                && records[..] == Heartbeat(old(records[..]), at, hash, slot, h.pid, generation, frames, sources, now)
                && var was := old(records[..])[at];
                   if was.hash == hash && was.slot == slot && was.pid == h.pid && was.state == OWNED then
                     && records[at] == Record(hash, slot, h.pid, generation, OWNED, sources, now, frames)
                     && OnlyAt(old(records[..]), records[..], at)
                   else records[..] == old(records[..])
    {
      var ok := Lock();
      if !ok {
        return;
      }
      if h.epoch != epoch {
        Unlock();
        return;
      }
      var found := FindSlot(hash, now);
      if found.Some? {
        HeartbeatRead(records[..], found.value, hash, slot, h.pid, generation, frames, sources, now, now);
        HeartbeatKeeps(records[..], found.value, hash, slot, h.pid, generation, frames, sources, now);
        var record := records[found.value];
        if record.hash == hash && record.slot == slot && record.pid == h.pid && record.state == OWNED {
          records[found.value] :=
            record.(generation := generation, frames := frames, sources := sources, heartbeat := now);
        }
        assert records[..] ==
          Heartbeat(old(records[..]), found.value, hash, slot, h.pid, generation, frames, sources, now);
      }
      Unlock();
    }

    /** A reader is given a hash's one record exactly when its owner still reports. */
    method Observe(hash: nat, now: Msec) returns (r: Option<Record>)
      requires Valid()
      modifies this`locked
      ensures locked == old(locked)
      ensures old(locked) ==> r.None?
      ensures !old(locked) ==> r == Observed(records[..], hash, now)
      ensures !old(locked) ==>
                (r.Some? <==> exists j: nat :: Owns(records[..], j, hash) && !Stale(records[j], now))
      ensures r.Some? ==> exists j: nat :: Owns(records[..], j, hash) && r.value == records[j]
    {
      var ok := Lock();
      if !ok {
        return None;
      }
      var found := FindSlot(hash, now);
      if found.None? || records[found.value].hash != hash || records[found.value].state != OWNED
         || Reclaimable(records[found.value], now)
      {
        Unlock();
        return None;
      }
      assert Owns(records[..], found.value, hash);
      r := Some(records[found.value]);
      Unlock();
    }
  }
}
