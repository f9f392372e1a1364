/** The fanout delay histogram: sixteen doubling buckets and a percentile read from them. */
module Histogram {
  import opened Common
  import opened RingMath

  const BUCKETS := 16
  const CEILING := 60000

  /** The bound of the last bucket. */
  const LAST: nat := 32768

  /** The bucket of a delay: the first whose bound 2^b reaches it, or the last one. */
  function BucketOf(delay: nat): (b: nat)
    ensures b < BUCKETS
    ensures delay <= Pow2(b) || b == BUCKETS - 1
    ensures b > 0 ==> delay > Pow2(b - 1)
  {
    BucketFrom(delay, 0)
  }

  function BucketFrom(delay: nat, b: nat): (r: nat)
    requires b < BUCKETS && (b > 0 ==> delay > Pow2(b - 1))
    ensures b <= r < BUCKETS
    ensures delay <= Pow2(r) || r == BUCKETS - 1
    ensures r > 0 ==> delay > Pow2(r - 1)
    decreases BUCKETS - b, delay
  {
    if Pow2(b) < delay && b < BUCKETS - 1 then BucketFrom(delay, b + 1) else b
  }

  /** How many recorded delays are at most bound. */
  function AtMost(delays: seq<nat>, bound: nat): (n: nat)
    ensures n <= |delays|
  {
    if delays == [] then 0 else
      AtMost(delays[..|delays| - 1], bound) + if delays[|delays| - 1] <= bound then 1 else 0
  }

  /** How many recorded delays fell into one of the first b buckets. */
  function InFirst(delays: seq<nat>, b: nat): (n: nat)
    ensures n <= |delays|
  {
    if delays == [] then 0 else
      InFirst(delays[..|delays| - 1], b) + if BucketOf(delays[|delays| - 1]) < b then 1 else 0
  }

  lemma BucketBound(d: nat, b: nat)
    requires b < BUCKETS - 1
    ensures BucketOf(d) <= b <==> d <= Pow2(b)
  {
    hide Pow2, BucketOf;
    if BucketOf(d) <= b {
      Pow2Monotone(BucketOf(d), b);
    } else {
      Pow2Monotone(b, BucketOf(d) - 1);
    }
  }

  /** A bucket's bound separates the delays of the buckets up to it from the others. */
  lemma {:induction false} InFirstIsAtMost(delays: seq<nat>, b: nat)
    requires b < BUCKETS - 1
    ensures InFirst(delays, b + 1) == AtMost(delays, Pow2(b))
  {
    if delays != [] {
      BucketBound(delays[|delays| - 1], b);
      InFirstIsAtMost(delays[..|delays| - 1], b);
    }
  }

  lemma {:induction false} InAll(delays: seq<nat>)
    ensures InFirst(delays, BUCKETS) == |delays|
    ensures InFirst(delays, 0) == 0
  {
    if delays != [] {
      InAll(delays[..|delays| - 1]);
    }
  }

  lemma {:induction false} AtMostAll(delays: seq<nat>, bound: nat)
    requires forall i :: 0 <= i < |delays| ==> delays[i] <= bound
    ensures AtMost(delays, bound) == |delays|
  {
    if delays != [] {
      AtMostAll(delays[..|delays| - 1], bound);
    }
  }

  function Prefix(buckets: seq<nat>, b: nat): nat
    requires b <= |buckets|
  {
    if b == 0 then 0 else Prefix(buckets, b - 1) + buckets[b - 1]
  }

  lemma {:induction false} PrefixBump(buckets: seq<nat>, k: nat, b: nat)
    requires k < |buckets| && b <= |buckets|
    ensures Prefix(buckets[k := buckets[k] + 1], b) == Prefix(buckets, b) + if k < b then 1 else 0
  {
    if b > 0 {
      PrefixBump(buckets, k, b - 1);
    }
  }

  /** The number of recorded delays a percentile asks for. */
  function Target(count: nat, permille: nat): (t: nat)
    requires 0 < permille <= 1000
    ensures count > 0 ==> 0 < t <= count
  {
    (count * permille + 999) / 1000
  }

  /** A number of delays reaches the target exactly when it is at least that share of them all. */
  lemma TargetMeans(count: nat, permille: nat, n: nat)
    requires 0 < permille <= 1000
    ensures n >= Target(count, permille) <==> 1000 * n >= permille * count
  {
    assert count * permille == permille * count;
  }

  lemma {:induction false} AtMostCounts(delays: seq<nat>, bound: nat)
    ensures AtMost(delays, bound) == |set i | 0 <= i < |delays| && delays[i] <= bound|
  {
    var all := set i | 0 <= i < |delays| && delays[i] <= bound;
    if delays != [] {
      var last := |delays| - 1;
      var most := delays[..last];
      AtMostCounts(most, bound);
      assert all == (set i | 0 <= i < |most| && most[i] <= bound) + if delays[last] <= bound then {last} else {};
    }
  }

  /** The bucket counts say, for every bucket, how many delays fell below it. */
  ghost predicate Counts(buckets: seq<nat>, delays: seq<nat>)
  {
    |buckets| == BUCKETS && forall b :: 0 <= b <= BUCKETS ==> Prefix(buckets, b) == InFirst(delays, b)
  }

  lemma CountsBump(buckets: seq<nat>, delays: seq<nat>, d: nat)
    requires Counts(buckets, delays)
    ensures Counts(buckets[BucketOf(d) := buckets[BucketOf(d)] + 1], delays + [d])
  {
    var k := BucketOf(d);
    assert (delays + [d])[..|delays|] == delays;
    forall b | 0 <= b <= BUCKETS
      ensures Prefix(buckets[k := buckets[k] + 1], b) == InFirst(delays + [d], b)
    {
      PrefixBump(buckets, k, b);
    }
  }

  ghost predicate IsMax(delays: seq<nat>, max: nat)
  {
    && (forall i :: 0 <= i < |delays| ==> delays[i] <= max)
    && (max > 0 ==> exists i :: 0 <= i < |delays| && delays[i] == max)
  }

  lemma MaxBump(delays: seq<nat>, max: nat, d: nat)
    requires IsMax(delays, max)
    ensures IsMax(delays + [d], Max(max, d))
  {
    var all := delays + [d];
    assert all[|delays|] == d;
    if max > 0 {
      var i :| 0 <= i < |delays| && delays[i] == max;
      assert all[i] == max;
    }
  }

  lemma LastBound(i: nat)
    requires i < BUCKETS
    ensures Pow2(i) <= LAST && (Pow2(i) == LAST <==> i == BUCKETS - 1)
  {
    assert Pow2(14) == 16384 && Pow2(15) == 32768 by {
      assert Pow2(8) == 256;
    }
    if i < 15 {
      Pow2Monotone(i, 14);
    }
  }

  /** The first bucket, from the i-th on, that brings the delays counted up to the target. */
  function FirstBucket(delays: seq<nat>, target: nat, i: nat): (b: nat)
    requires i < BUCKETS && InFirst(delays, i) < target <= |delays|
    ensures i <= b < BUCKETS && InFirst(delays, b) < target <= InFirst(delays, b + 1)
    decreases BUCKETS - i
  {
    hide InFirst, BucketOf;
    InAll(delays);
    if InFirst(delays, i + 1) >= target then i else FirstBucket(delays, target, i + 1)
  }

  function Reaching(delays: seq<nat>, target: nat): (b: nat)
    requires 0 < target <= |delays|
    ensures b < BUCKETS && InFirst(delays, b) < target <= InFirst(delays, b + 1)
  {
    InAll(delays);
    FirstBucket(delays, target, 0)
  }

  /** What a percentile of the recorded delays answers. */
  function Answer(delays: seq<nat>, permille: nat): nat
  {
    if delays == [] || permille == 0 then 0 else Pow2(Reaching(delays, Target(|delays|, Min(permille, 1000))))
  }

  lemma FirstBucketStep(delays: seq<nat>, target: nat, i: nat)
    requires i < BUCKETS && InFirst(delays, i) < target <= |delays|
    ensures InFirst(delays, i + 1) >= target ==> FirstBucket(delays, target, i) == i
    ensures InFirst(delays, i + 1) < target ==>
              i + 1 < BUCKETS && FirstBucket(delays, target, i) == FirstBucket(delays, target, i + 1)
  {
    InAll(delays);
  }

  /** What the bound of the first bucket that reaches the target says of the delays. */
  lemma BoundMeans(delays: seq<nat>, i: nat, target: nat)
    requires i < BUCKETS && 0 < target && InFirst(delays, i) < target <= InFirst(delays, i + 1)
    ensures Pow2(i) <= LAST
    ensures Pow2(i) < LAST ==> AtMost(delays, Pow2(i)) >= target
    ensures Pow2(i) > 1 ==> AtMost(delays, Pow2(i) / 2) < target
  {
    LastBound(i);
    if i < BUCKETS - 1 {
      InFirstIsAtMost(delays, i);
    }
    if i > 0 {
      InFirstIsAtMost(delays, i - 1);
      assert Pow2(i) / 2 == Pow2(i - 1);
    }
  }

  /** What the answer says of the delays. */
  lemma AnswerMeans(delays: seq<nat>, permille: nat)
    requires delays != [] && permille > 0
    ensures var r, p := Answer(delays, permille), Min(permille, 1000);
            && 0 < r <= 32768
            && (r < 32768 ==> 1000 * AtMost(delays, r) >= p * |delays|)
            && (r > 1 ==> 1000 * AtMost(delays, r / 2) < p * |delays|)
  {
    hide InFirst, AtMost, Target, Pow2, Reaching;
    var r, p := Answer(delays, permille), Min(permille, 1000);
    var target := Target(|delays|, p);
    BoundMeans(delays, Reaching(delays, target), target);
    TargetMeans(|delays|, p, AtMost(delays, r));
    TargetMeans(|delays|, p, AtMost(delays, r / 2));
  }

  class Hist {
    const buckets: array<nat>
    var count: nat
    var max: nat
    ghost var delays: seq<nat>

    ghost predicate Valid()
      reads this, buckets
    {
      && buckets.Length == BUCKETS && count == |delays|
      && Counts(buckets[..], delays)
      && IsMax(delays, max) && max <= CEILING
    }

    constructor ()
      ensures Valid() && fresh(buckets) && delays == []
    {
      buckets := new nat[BUCKETS](_ => 0);
      count, max, delays := 0, 0, [];
      new;
      ghost var zeros := buckets[..];
      forall b | 0 <= b <= BUCKETS ensures Prefix(buckets[..], b) == 0 {
        ZeroPrefix(zeros, b);
      }
    }

    static lemma {:induction false} ZeroPrefix(zeros: seq<nat>, b: nat)
      requires b <= |zeros| && forall i :: 0 <= i < |zeros| ==> zeros[i] == 0
      ensures Prefix(zeros, b) == 0
    {
      if b > 0 {
        ZeroPrefix(zeros, b - 1);
      }
    }

    static method BucketIndex(d: nat) returns (bucket: nat)
      ensures bucket == BucketOf(d)
    {
      bucket := 0;
      var bound := 1;
      while bound < d && bucket < BUCKETS - 1
        invariant bucket < BUCKETS && bound == Pow2(bucket)
        invariant bucket > 0 ==> d > Pow2(bucket - 1)
        invariant BucketOf(d) == BucketFrom(d, bucket)
        decreases BUCKETS - bucket
      {
        bucket := bucket + 1;
        bound := bound * 2;
      }
    }

    /** Counts one delay, a delay beyond a minute as a minute. */
    method Record(delay: nat)
      requires Valid()
      modifies this, buckets
      ensures Valid()
      ensures delays == old(delays) + [Min(delay, 60000)]
    {
      var d := delay;
      if d > CEILING {
        d := CEILING;
      }
      var bucket := BucketIndex(d);
      CountsBump(buckets[..], delays, d);
      MaxBump(delays, max, d);
      ghost var before := buckets[..];
      buckets[bucket] := buckets[bucket] + 1;
      assert buckets[..] == before[bucket := before[bucket] + 1];
      count := count + 1;
      if d > max {
        max := d;
      }
      delays := delays + [d];
    }

    /**
     * The percentile: a bucket bound R with at least the asked share of the
     * delays at or below it and less than that share at or below R / 2, as
     * long as R is below the last bucket's bound.
     */
    method Percentile(permille: nat) returns (r: nat)
      requires Valid()
      ensures r == Answer(delays, permille)
      ensures count == 0 || permille == 0 ==> r == 0
      ensures count > 0 && permille > 0 ==>
                var p := Min(permille, 1000);
                && 0 < r <= 32768
                && (r < 32768 ==> 1000 * AtMost(delays, r) >= p * |delays|)
                && (r > 1 ==> 1000 * AtMost(delays, r / 2) < p * |delays|)
    {
      hide InFirst, Reaching, AtMost, Counts, IsMax, Pow2, Target;
      if count == 0 || permille == 0 {
        return 0;
      }
      AnswerMeans(delays, permille);
      var p := if permille > 1000 then 1000 else permille;
      var i := BucketReaching(Target(count, p));
      r := 1;
      var b := 0;
      Pow2Step(0);
      while b < i
        invariant b <= i && r == Pow2(b)
      {
        Pow2Step(b);
        r := r * 2;
        b := b + 1;
      }
    }

    method BucketReaching(target: nat) returns (i: nat)
      requires Valid() && 0 < target <= count
      ensures i == Reaching(delays, target)
    {
      hide InFirst, FirstBucket, AtMost, Counts, IsMax, Prefix;
      InAll(delays);
      CountedSoFar(0);
      var seen := 0;
      i := 0;
      while i < BUCKETS
        invariant i < BUCKETS && seen == Prefix(buckets[..], i) == InFirst(delays, i) && seen < target
        invariant Reaching(delays, target) == FirstBucket(delays, target, i)
      {
        CountedSoFar(i + 1);
        FirstBucketStep(delays, target, i);
        seen := seen + buckets[i];
        if seen >= target {
          return i;
        }
        i := i + 1;
      }
      assert false;
    }

    lemma CountedSoFar(b: nat)
      requires Valid() && b <= BUCKETS
      ensures Prefix(buckets[..], b) == InFirst(delays, b) && Prefix(buckets[..], 0) == 0
      ensures b > 0 ==> Prefix(buckets[..], b) == Prefix(buckets[..], b - 1) + buckets[b - 1]
    {
    }
  }

  /** The bucket counts always sum to the number of delays recorded. */
  lemma CountsSum(h: Hist)
    requires h.Valid()
    ensures Prefix(h.buckets[..], BUCKETS) == h.count == |h.delays|
  {
    InAll(h.delays);
  }

  /** At least the asked share of the delays is at most r. */
  predicate Covers(delays: seq<nat>, r: nat, permille: nat)
    requires 0 < permille <= 1000
  {
    1000 * AtMost(delays, r) >= permille * |delays|
  }

  /**
   * A percentile should be a delay that the asked share does not exceed.  The
   * last bucket holds what goes beyond its bound, so every percentile is such
   * a delay exactly when none recorded passed 32768 ms, which the recorded
   * maximum tells.
   */
  lemma LastBucketIsNotABound(delays: seq<nat>, max: nat)
    requires delays != [] && IsMax(delays, max)
    ensures (forall p :: 0 < p <= 1000 ==> Covers(delays, Answer(delays, p), p)) <==> max <= 32768
  {
    if max <= LAST {
      forall p | 0 < p <= 1000 ensures Covers(delays, Answer(delays, p), p) {
        AnswerMeans(delays, p);
        AtMostAll(delays, 32768);
      }
    } else {
      var i :| 0 <= i < |delays| && delays[i] == max;
      AnswerMeans(delays, 1000);
      NotAtMost(delays, Answer(delays, 1000), i);
      assert !Covers(delays, Answer(delays, 1000), 1000);
    }
  }

  /** A delay of 40 seconds: the answer for the maximum is 32768 ms. */
  lemma LateDelayUnderstated()
    ensures Answer([40000], 1000) == 32768 && !Covers([40000], Answer([40000], 1000), 1000)
  {
    LastBound(15);
    hide Pow2, BucketOf;
    assert IsMax([40000], 40000) by {
      assert [40000][0] == 40000;
    }
    AnswerMeans([40000], 1000);
    NotAtMost([40000], Answer([40000], 1000), 0);
  }

  lemma {:induction false} NotAtMost(delays: seq<nat>, bound: nat, i: nat)
    requires i < |delays| && delays[i] > bound
    ensures AtMost(delays, bound) < |delays|
  {
    if i < |delays| - 1 {
      NotAtMost(delays[..|delays| - 1], bound, i);
    }
  }
}
