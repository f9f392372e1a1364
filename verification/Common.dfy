/** Types that every component of the model shares. */
module Common {

  /** One octet, as the C sources' u_char. */
  type byte = x: int | 0 <= x < 256

  datatype Option<+T> = None | Some(value: T)

  /** The nginx return codes the modelled functions use. */
  datatype Rc = OK | AGAIN | ERROR | DECLINED | BUSY

  /** 2^32 and 2^64: where uint32_t and uint64_t values wrap. */
  const TWO32 := 0x1_0000_0000
  const TWO64 := 0x1_0000_0000_0000_0000

  /** A time in milliseconds, as a 64-bit clock gives it. */
  type Msec = n: nat | n < TWO64

  /** C's unsigned subtraction of two 64-bit values. */
  function Sub64(a: nat, b: nat): (r: nat)
    requires a < TWO64 && b < TWO64
    ensures r < TWO64
    ensures b <= a ==> r == a - b
    ensures a < b ==> r == TWO64 - (b - a)
  {
    (a - b) % TWO64
  }

  function Min(a: int, b: int): int { if a < b then a else b }

  function Max(a: int, b: int): int { if a < b then b else a }

  /** Sum of a sequence of lengths. */
  function Sum(xs: seq<nat>): nat
  {
    if xs == [] then 0 else xs[0] + Sum(xs[1..])
  }

  lemma {:induction false} SumConcat(xs: seq<nat>, ys: seq<nat>)
    ensures Sum(xs + ys) == Sum(xs) + Sum(ys)
  {
    if xs == [] {
      assert xs + ys == ys;
    } else {
      assert (xs + ys)[1..] == xs[1..] + ys;
      SumConcat(xs[1..], ys);
    }
  }

  lemma ConcatAssociative<T>(a: seq<T>, b: seq<T>, c: seq<T>)
    ensures (a + b) + c == a + (b + c)
  {
  }

  /** The text w stands at position p of s. */
  predicate Stands(s: seq<byte>, p: nat, w: seq<byte>)
  {
    p + |w| <= |s| && s[p..p + |w|] == w
  }

  lemma StandsSplit(s: seq<byte>, p: nat, a: seq<byte>, b: seq<byte>)
    requires Stands(s, p, a + b)
    ensures Stands(s, p, a) && Stands(s, p + |a|, b)
  {
    assert s[p..p + |a|] == s[p..p + |a + b|][..|a|];
    assert s[p + |a|..p + |a| + |b|] == s[p..p + |a + b|][|a|..];
  }

  lemma StandsAt(s: seq<byte>, p: nat, w: seq<byte>)
    requires Stands(s, p, w)
    ensures p + |w| <= |s|
    ensures forall k :: 0 <= k < |w| ==> s[p + k] == w[k]
  {
    forall k | 0 <= k < |w| ensures s[p + k] == w[k] {
      assert s[p..p + |w|][k] == s[p + k];
    }
  }

  lemma StandsJoin(s: seq<byte>, p: nat, a: seq<byte>, b: seq<byte>)
    requires Stands(s, p, a) && Stands(s, p + |a|, b)
    ensures Stands(s, p, a + b)
  {
    assert s[p..p + |a + b|] == s[p..p + |a|] + s[p + |a|..p + |a| + |b|];
  }
}
