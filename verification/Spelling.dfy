/** Numbers written out in digits, and that the parsers' digit by digit reading gives them back. */
module Spelling {
  import opened Common
  import opened HttpText
  import Json

  /** The digits of n, the highest first. */
  function Places(n: nat, base: nat): (d: seq<nat>)
    requires base == 10 || base == 16
    ensures d != [] && forall i :: 0 <= i < |d| ==> d[i] < base
  {
    if n < base then [n] else Places(n / base, base) + [n % base]
  }

  const LOWER := "0123456789abcdef"
  const UPPER := "0123456789ABCDEF"

  /** The octet is the character of digit d, in either case. */
  predicate IsDigit(b: byte, d: nat)
  {
    d < 16 && (LOWER[d] as int == b as int || UPPER[d] as int == b as int)
  }

  /** The text writes n in the given base, behind that many zeros. */
  predicate Writes(t: seq<byte>, n: nat, base: nat, zeros: nat)
    requires base == 10 || base == 16
  {
    && |t| == zeros + |Places(n, base)|
    && (forall i :: 0 <= i < zeros ==> IsDigit(t[i], 0))
    && (forall i :: zeros <= i < |t| ==> IsDigit(t[i], Places(n, base)[i - zeros]))
  }

  ghost predicate Spells(t: seq<byte>, n: nat, base: nat)
    requires base == 10 || base == 16
  {
    exists zeros: nat :: Writes(t, n, base, zeros)
  }

  lemma DigitsDiffer(b: byte)
    ensures forall d, e :: IsDigit(b, d) && IsDigit(b, e) ==> d == e
  {
  }

  lemma PlacesMore(v: nat, d: nat, base: nat)
    requires (base == 10 || base == 16) && d < base
    ensures v == 0 ==> Places(v, base) == [0] && Places(base * v + d, base) == [d]
    ensures v > 0 ==> Places(base * v + d, base) == Places(v, base) + [d]
  {
    if base == 10 {
      assert Places(10 * v + d, 10) == if v == 0 then [d] else Places(v, 10) + [d];
    } else {
      assert Places(16 * v + d, 16) == if v == 0 then [d] else Places(v, 16) + [d];
    }
  }

  /** One more digit behind a number. */
  lemma SpellsMore(t: seq<byte>, b: byte, v: nat, d: nat, base: nat)
    requires base == 10 || base == 16
    requires Spells(t, v, base) && IsDigit(b, d) && d < base
    ensures Spells(t + [b], base * v + d, base)
  {
    hide IsDigit, Places;
    var zeros: nat :| Writes(t, v, base, zeros);
    PlacesMore(v, d, base);
    assert Writes(t + [b], base * v + d, base, if v == 0 then zeros + 1 else zeros);
  }

  /** The last digit taken off a number. */
  lemma SpellsLess(t: seq<byte>, b: byte, n: nat, base: nat)
    requires base == 10 || base == 16
    requires Spells(t + [b], n, base)
    ensures t == [] ==> n < base
    ensures t != [] ==> Spells(t, n / base, base)
    ensures IsDigit(b, n % base)
  {
    hide IsDigit;
    var all := t + [b];
    var zeros: nat :| Writes(all, n, base, zeros);
    assert IsDigit(all[|t|], Places(n, base)[|t| - zeros]) && all[|t|] == b;
    if n >= base {
      assert Places(n, base) == Places(n / base, base) + [n % base];
      forall i | zeros <= i < |t| ensures IsDigit(t[i], Places(n / base, base)[i - zeros]) {
        assert all[i] == t[i];
      }
      forall i | 0 <= i < zeros ensures IsDigit(t[i], 0) {
        assert all[i] == t[i];
      }
      assert Writes(t, n / base, base, zeros);
    } else if t != [] {
      forall i | 0 <= i < |t| ensures IsDigit(t[i], 0) {
        assert all[i] == t[i];
      }
      assert Places(0, base) == [0];
      assert Writes(t, 0, base, zeros - 1);
    }
  }

  lemma SpellsOne(b: byte, d: nat, base: nat)
    requires base == 10 || base == 16
    requires IsDigit(b, d) && d < base
    ensures Spells([b], d, base)
  {
    assert Writes([b], d, base, 0);
  }

  /** A hexadecimal digit is read as what it stands for, and nothing else is read as one. */
  lemma HexDigitReads(b: byte, d: nat)
    ensures Json.HexValue(b) == Some(d) <==> IsDigit(b, d)
  {
  }

  lemma HexLast(s: seq<byte>, p: nat, n: nat, v: nat)
    requires 0 < n && p + n <= |s|
    ensures Json.HexNumber(s, p, n) == Some(v)
       <==> Json.HexValue(s[p + n - 1]) == Some(v % 16) && Json.HexNumber(s, p, n - 1) == Some(v / 16)
  {
    hide Json.HexValue;
  }

  /** Hexadecimal digits, of either case and behind any zeros, are read as the number they write. */
  lemma {:induction false} HexReads(s: seq<byte>, p: nat, n: nat, v: nat)
    requires 0 < n && p + n <= |s|
    ensures Json.HexNumber(s, p, n) == Some(v) <==> Spells(s[p..p + n], v, 16)
    decreases n
  {
    hide IsDigit, Spells, Json.HexValue, Json.HexNumber;
    var b, t := s[p + n - 1], s[p..p + n - 1];
    assert s[p..p + n] == t + [b];
    HexDigitReads(b, v % 16);
    HexLast(s, p, n, v);
    if n == 1 {
      HexNone(s, p, v / 16);
      assert t == [] && t + [b] == [b];
      if Spells(t + [b], v, 16) {
        SpellsLess(t, b, v, 16);
      }
      if v < 16 && IsDigit(b, v) {
        SpellsOne(b, v, 16);
      }
    } else {
      HexReads(s, p, n - 1, v / 16);
      if Spells(t + [b], v, 16) {
        SpellsLess(t, b, v, 16);
      }
      if Spells(t, v / 16, 16) && IsDigit(b, v % 16) {
        SpellsMore(t, b, v / 16, v % 16, 16);
      }
    }
  }

  lemma HexNone(s: seq<byte>, p: nat, v: nat)
    requires p <= |s|
    ensures Json.HexNumber(s, p, 0) == Some(v) <==> v == 0
  {
  }

  lemma DecimalDigitReads(b: byte)
    ensures DecimalDigit(b) <==> exists d :: 0 <= d < 10 && IsDigit(b, d)
    ensures DecimalDigit(b) ==> IsDigit(b, b - 48)
  {
    forall d | 0 <= d < 10 && IsDigit(b, d) ensures b == 48 + d {
      HexDigitReads(b, d);
    }
    if DecimalDigit(b) {
      HexDigitReads(b, b - 48);
    }
  }

  ghost predicate AreDigits(t: seq<byte>, p: nat, q: nat)
    requires p <= q <= |t|
  {
    forall k :: p <= k < q ==> DecimalDigit(t[k])
  }

  /** Decimal digits, behind any zeros, are read as the number they write. */
  lemma {:induction false} DecimalReads(t: seq<byte>, p: nat, q: nat, v: nat)
    requires p < q <= |t|
    ensures AreDigits(t, p, q) && DecimalValue(t, p, q) == v <==> Spells(t[p..q], v, 10)
    decreases q
  {
    hide IsDigit, Spells;
    var b := t[q - 1];
    assert t[p..q] == t[p..q - 1] + [b];
    DecimalDigitReads(b);
    DigitsDiffer(b);
    if q - 1 == p {
      assert t[p..q - 1] == [] && [] + [b] == [b];
      if Spells(t[p..q], v, 10) {
        SpellsLess([], b, v, 10);
      }
      if DecimalDigit(b) {
        SpellsOne(b, b - 48, 10);
      }
    } else {
      DecimalReads(t, p, q - 1, v / 10);
      if Spells(t[p..q], v, 10) {
        SpellsLess(t[p..q - 1], b, v, 10);
      }
      if AreDigits(t, p, q) && DecimalValue(t, p, q) == v {
        SpellsMore(t[p..q - 1], b, v / 10, b - 48, 10);
      }
    }
  }
}
