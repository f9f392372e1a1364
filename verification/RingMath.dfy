/** Arithmetic of power-of-two rings addressed by absolute sequence numbers. */
module RingMath {
  import opened Common

  function Pow2(k: nat): (p: nat)
    ensures p > 0
  {
    if k == 0 then 1 else 2 * Pow2(k - 1)
  }

  lemma {:induction false} Pow2Monotone(a: nat, b: nat)
    requires a <= b
    ensures Pow2(a) <= Pow2(b)
    decreases b
  {
    if a < b {
      Pow2Monotone(a, b - 1);
    }
  }

  lemma Pow2Step(k: nat)
    ensures Pow2(0) == 1 && Pow2(k + 1) == 2 * Pow2(k)
  {
  }

  ghost predicate IsPow2(n: nat)
  {
    exists k: nat :: Pow2(k) == n
  }

  /** The first of the powers 2^k, 2^(k+1), ... that is at least n. */
  function PowerFrom(n: nat, k: nat): (p: nat)
    ensures p >= n && IsPow2(p)
    ensures p == Pow2(k) || p < 2 * n
    decreases n - Pow2(k)
  {
    if Pow2(k) >= n then Pow2(k) else PowerFrom(n, k + 1)
  }

  /** The smallest power of two that is at least n. */
  function PowerFor(n: nat): (p: nat)
    ensures p >= n && IsPow2(p) && (p == 1 || p < 2 * n)
  {
    PowerFrom(n, 0)
  }

  /** The capacity of a ring for n units; 0 when it would not fit 64 bits. */
  method RoundUp(n: nat) returns (p: nat)
    requires n < TWO64
    ensures p == 0 <==> n > Pow2(63)
    ensures p > 0 ==> p == PowerFor(n) <= Pow2(63)
  {
    p := 1;
    ghost var k: nat := 0;
    Pow2Values();
    while p < n
      invariant k < 64 && p == Pow2(k) && PowerFor(n) == PowerFrom(n, k)
      decreases n - p
    {
      if p > (TWO64 - 1) / 2 {
        if k < 63 {
          Pow2Monotone(k, 62);
        }
        return 0;
      }
      if k == 63 {
        assert false;
      }
      p := p * 2;
      k := k + 1;
    }
    Pow2Monotone(k, 63);
  }

  /** Bitwise and. */
  function And(a: nat, b: nat): nat
  {
    if a == 0 || b == 0 then 0 else 2 * And(a / 2, b / 2) + (if a % 2 == 1 && b % 2 == 1 then 1 else 0)
  }

  /** Bit k of a number. */
  predicate Bit(n: nat, k: nat)
  {
    if k == 0 then n % 2 == 1 else Bit(n / 2, k - 1)
  }

  /** Bit by bit, both have to be set. */
  lemma {:induction false} AndIsBitwise(a: nat, b: nat, k: nat)
    ensures Bit(And(a, b), k) <==> Bit(a, k) && Bit(b, k)
    decreases k
  {
    if a == 0 || b == 0 {
      NoBits(k);
    } else if k > 0 {
      assert And(a, b) / 2 == And(a / 2, b / 2);
      AndIsBitwise(a / 2, b / 2, k - 1);
    }
  }

  lemma {:induction false} NoBits(k: nat)
    ensures !Bit(0, k)
  {
    if k > 0 {
      NoBits(k - 1);
    }
  }

  /** The code masks a sequence number with capacity - 1: for a power of two, the remainder. */
  lemma {:induction false} MaskIsRemainder(s: nat, k: nat)
    ensures And(s, Pow2(k) - 1) == s % Pow2(k)
    decreases k
  {
    if k > 0 {
      Pow2Step(k - 1);
      var half := Pow2(k - 1);
      hide And, Pow2;
      MaskIsRemainder(s / 2, k - 1);
      MaskStep(s, half);
    }
  }

  lemma MaskStep(s: nat, half: nat)
    requires half > 0 && And(s / 2, half - 1) == (s / 2) % half
    ensures And(s, 2 * half - 1) == s % (2 * half)
  {
    hide And;
    HalfRemainder(s, half);
    AndOdd(s, half);
  }

  lemma AndOdd(s: nat, half: nat)
    requires half > 0
    ensures And(s, 2 * half - 1) == 2 * And(s / 2, half - 1) + s % 2
  {
    assert (2 * half - 1) / 2 == half - 1 && (2 * half - 1) % 2 == 1;
  }

  lemma HalfRemainder(s: nat, half: nat)
    requires half > 0
    ensures s % (2 * half) == 2 * ((s / 2) % half) + s % 2
  {
    var h := s / 2;
    var q, r := h / half, h % half;
    assert h == half * q + r;
    RemainderIs(s, 2 * half, q, 2 * r + s % 2);
  }

  lemma RemainderIs(s: nat, d: nat, q: nat, r: nat)
    requires r < d && s == d * q + r
    ensures s % d == r
  {
    var e := q - s / d;
    assert d * e == s % d - r;
  }

  lemma Pow2Values()
    ensures Pow2(63) == 0x8000_0000_0000_0000
  {
    assert Pow2(8) == 256;
    assert Pow2(16) == 256 * 256;
    assert Pow2(24) == 256 * 256 * 256;
    assert Pow2(32) == 256 * 256 * 256 * 256;
    assert Pow2(40) == 0x100_0000_0000;
    assert Pow2(48) == 0x1_0000_0000_0000;
    assert Pow2(56) == 0x100_0000_0000_0000;
  }

  /** The slot of a sequence number. */
  function SlotOf(s: nat, capacity: nat): (i: nat)
    requires capacity > 0
    ensures i < capacity
    ensures s < capacity ==> i == s
  {
    s % capacity
  }

  /** Two sequence numbers less than a capacity apart never share a slot. */
  lemma SlotsDiffer(a: nat, b: nat, capacity: nat)
    requires a < b < a + capacity
    ensures a % capacity != b % capacity && SlotOf(a, capacity) != SlotOf(b, capacity)
  {
    var d := b / capacity - a / capacity;
    assert b - a == capacity * d + (b % capacity - a % capacity);
  }

  /** A sequence number and the one a capacity later share their slot. */
  lemma SlotShared(a: nat, capacity: nat)
    requires capacity > 0
    ensures (a + capacity) % capacity == a % capacity
  {
    var b := a + capacity;
    var d := b / capacity - a / capacity - 1;
    assert capacity * d == a % capacity - b % capacity;
  }
}
