/** The deletions a replica remembers: a ring that stands for the last 256 of them. */
module Tombstone {
  import opened Common
  import opened RingMath

  const TOMBSTONES := 256

  datatype Tomb = Tomb(hash: nat, revision: nat)

  /** One of the last 256 deletions covers this revision of the identity. */
  ghost predicate Covered(adds: seq<Tomb>, hash: nat, revision: nat)
  {
    exists i :: 0 <= i < |adds| && Covers(adds, i, hash, revision)
  }

  /** The i-th deletion is among the last 256, names the identity and moved past the revision. */
  predicate Covers(adds: seq<Tomb>, i: nat, hash: nat, revision: nat)
    requires i < |adds|
  {
    |adds| - i <= TOMBSTONES && adds[i].hash == hash && revision <= adds[i].revision
  }

  function Latest(adds: seq<Tomb>): seq<Tomb>
  {
    if |adds| > 256 then adds[|adds| - 256..] else adds
  }

  /** What is covered depends on the latest 256 deletions and on nothing else. */
  lemma CoveredMeans(adds: seq<Tomb>, hash: nat, revision: nat)
    ensures Covered(adds, hash, revision)
       <==> exists i :: 0 <= i < |Latest(adds)| && Latest(adds)[i].hash == hash && revision <= Latest(adds)[i].revision
  {
    var from := if |adds| > 256 then |adds| - 256 else 0;
    assert forall i :: 0 <= i < |Latest(adds)| ==> Latest(adds)[i] == adds[from + i];
    if Covered(adds, hash, revision) {
      var i :| 0 <= i < |adds| && Covers(adds, i, hash, revision);
      assert Latest(adds)[i - from] == adds[i];
    }
    forall i | 0 <= i < |Latest(adds)| && Latest(adds)[i].hash == hash && revision <= Latest(adds)[i].revision
      ensures Covered(adds, hash, revision)
    {
      assert Covers(adds, from + i, hash, revision);
    }
  }

  lemma SlotAdvances(i: nat)
    ensures SlotOf(i + 1, TOMBSTONES) == (SlotOf(i, TOMBSTONES) + 1) % TOMBSTONES
  {
  }

  class Ring {
    const slots: array<Tomb>
    var next: nat
    var count: nat
    /** Every deletion ever remembered. */
    ghost var adds: seq<Tomb>

    ghost predicate Valid()
      reads this, slots
    {
      && slots.Length == TOMBSTONES
      && next == SlotOf(|adds|, TOMBSTONES) && count == Min(|adds|, TOMBSTONES)
      && forall i {:trigger SlotOf(i, TOMBSTONES)} :: 0 <= i < |adds| && |adds| - i <= TOMBSTONES ==> slots[SlotOf(i, TOMBSTONES)] == adds[i]
    }

    constructor ()
      ensures Valid() && fresh(slots) && adds == []
    {
      slots := new Tomb[TOMBSTONES](_ => Tomb(0, 0));
      next, count, adds := 0, 0, [];
    }

    method Add(hash: nat, revision: nat)
      requires Valid()
      modifies this, slots
      ensures Valid() && adds == old(adds) + [Tomb(hash, revision)]
    {
      hide SlotOf;
      SlotAdvances(|adds|);
      forall i | 0 <= i < |adds| && |adds| - i < TOMBSTONES ensures SlotOf(i, TOMBSTONES) != next {
        SlotsDiffer(i, |adds|, TOMBSTONES);
      }
      slots[next] := Tomb(hash, revision);
      next := (next + 1) % TOMBSTONES;
      if count < TOMBSTONES {
        count := count + 1;
      }
      adds := adds + [Tomb(hash, revision)];
    }

    /** The loop over the slots answers whether one of the last 256 deletions covers the revision. */
    method Has(hash: nat, revision: nat) returns (has: bool)
      requires Valid()
      ensures has <==> Covered(adds, hash, revision)
    {
      var i := 0;
      while i < count
        invariant i <= count
        invariant forall k :: 0 <= k < i ==> !(slots[k].hash == hash && revision <= slots[k].revision)
      {
        if slots[i].hash == hash && revision <= slots[i].revision {
          ghost var s := SlotHolder(i);
          assert Covers(adds, s, hash, revision);
          return true;
        }
        i := i + 1;
      }
      forall k | 0 <= k < |adds| ensures !Covers(adds, k, hash, revision) {
        if |adds| - k <= TOMBSTONES {
          assert slots[SlotOf(k, TOMBSTONES)] == adds[k] && SlotOf(k, TOMBSTONES) < count;
        }
      }
      return false;
    }

    /** Every used slot holds one of the last deletions. */
    lemma SlotHolder(i: nat) returns (s: nat)
      requires Valid() && i < count
      ensures s < |adds| && |adds| - s <= TOMBSTONES && SlotOf(s, TOMBSTONES) == i && slots[i] == adds[s]
    {
      var n := |adds|;
      s := Holder(n, i);
      hide SlotOf;
      assert slots[SlotOf(s, TOMBSTONES)] == adds[s];
    }
  }

  /** The newest of the first n numbers that falls on a slot. */
  lemma Holder(n: nat, i: nat) returns (s: nat)
    requires i < Min(n, TOMBSTONES)
    ensures s < n && n - s <= TOMBSTONES && SlotOf(s, TOMBSTONES) == i
  {
    var q, r := (n - 1) / TOMBSTONES, (n - 1) % TOMBSTONES;
    assert n - 1 == q * TOMBSTONES + r;
    if i <= r {
      s := q * TOMBSTONES + i;
    } else {
      s := (q - 1) * TOMBSTONES + i;
    }
  }
}
