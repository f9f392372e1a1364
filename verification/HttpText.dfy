/** The text of HTTP/1.1 framing: chunk sizes and extensions (RFC 9112 section 7.1), field lines, Content-Length lists. */
module HttpText {
  import opened Common
  import opened Json
  import opened Octets

  /** A line as the parsers see it: no NUL inside, a NUL read past its end. */
  predicate NoNul(t: seq<byte>)
  {
    forall i :: 0 <= i < |t| ==> t[i] != 0
  }

  function At(t: seq<byte>, p: nat): byte
  {
    if p < |t| then t[p] else 0
  }

  predicate Blank(b: byte)
  {
    b == 32 || b == 9
  }

  predicate IsToken(b: byte)
  {
    || 97 <= b <= 122 || 65 <= b <= 90 || 48 <= b <= 57
    || b in [33, 35, 36, 37, 38, 39, 42, 43, 45, 46, 94, 95, 96, 124, 126]
  }

  /** An octet a field value or a quoted string may hold. */
  predicate Printable(b: byte)
  {
    (b >= 0x20 || b == 9) && b != 0x7f
  }

  function SkipBlank(t: seq<byte>, p: nat): (q: nat)
    requires p <= |t|
    ensures p <= q <= |t| && !Blank(At(t, q)) && forall k :: p <= k < q ==> Blank(t[k])
    decreases |t| - p
  {
    if p < |t| && Blank(t[p]) then SkipBlank(t, p + 1) else p
  }

  function SkipToken(t: seq<byte>, p: nat): (q: nat)
    requires p <= |t|
    ensures p <= q <= |t| && !IsToken(At(t, q)) && forall k :: p <= k < q ==> IsToken(t[k])
    decreases |t| - p
  {
    if p < |t| && IsToken(t[p]) then SkipToken(t, p + 1) else p
  }

  /** The end of a quoted string whose opening quote is just before p. */
  function QuotedEnd(t: seq<byte>, p: nat): (q: Option<nat>)
    ensures q.Some? ==> p < q.value <= |t|
    decreases |t| - p
  {
    if At(t, p) == QUOTE then Some(p + 1)
    else
      var k := if At(t, p) == BACKSLASH then p + 1 else p;
      if k >= |t| || !Printable(t[k]) then None else QuotedEnd(t, k + 1)
  }

  /** The value of an extension, quoted or a token, from p on: the position after it. */
  function ExtensionValue(t: seq<byte>, p: nat): (q: Option<nat>)
    requires p <= |t|
    ensures q.Some? ==> p < q.value <= |t|
  {
    if At(t, p) == QUOTE then QuotedEnd(t, p + 1)
    else if SkipToken(t, p) > p then Some(SkipToken(t, p)) else None
  }

  /** One chunk extension from p on: the position after it. */
  function Extension(t: seq<byte>, p: nat): (q: Option<nat>)
    requires p <= |t|
    ensures q.Some? ==> p < q.value <= |t|
  {
    var semi := SkipBlank(t, p);
    if At(t, semi) != 59 then None
    else
      var name := SkipBlank(t, semi + 1);
      var after := SkipToken(t, name);
      if after == name then None
      else
        var eq := SkipBlank(t, after);
        if At(t, eq) != 61 then Some(eq) else ExtensionValue(t, SkipBlank(t, eq + 1))
  }

  /** chunk-ext, as the size parser reads it. */
  predicate Extensions(t: seq<byte>, p: nat)
    requires p <= |t|
    decreases |t| - p
  {
    p == |t| || (Extension(t, p).Some? && Extensions(t, Extension(t, p).value))
  }

  function HexEnd(t: seq<byte>, p: nat): (q: nat)
    requires p <= |t|
    ensures p <= q <= |t| && HexValue(At(t, q)).None? && forall k :: p <= k < q ==> HexValue(t[k]).Some?
    decreases |t| - p
  {
    if p < |t| && HexValue(t[p]).Some? then HexEnd(t, p + 1) else p
  }

  lemma {:induction false} DigitsHaveValue(t: seq<byte>, n: nat)
    requires n <= |t| && forall k :: 0 <= k < n ==> HexValue(t[k]).Some?
    ensures HexNumber(t, 0, n).Some?
  {
    if n > 0 {
      DigitsHaveValue(t, n - 1);
    }
  }

  /** A chunk size: the value its leading hexadecimal digits spell, when there are any, it fits 64 bits and the rest is extensions. */
  function ChunkSize(t: seq<byte>): Option<nat>
  {
    var n := HexEnd(t, 0);
    DigitsHaveValue(t, n);
    var v := HexNumber(t, 0, n).value;
    if n > 0 && v < TWO64 && Extensions(t, n) then Some(v) else None
  }

  lemma {:induction false} HexGrows(t: seq<byte>, m: nat, n: nat)
    requires m <= n <= |t| && HexNumber(t, 0, n).Some?
    ensures HexNumber(t, 0, m).Some? && HexNumber(t, 0, m).value <= HexNumber(t, 0, n).value
    decreases n
  {
    if m < n {
      HexGrows(t, m, n - 1);
    }
  }

  /** The digit loop with its 64-bit overflow guard, then the extension scan. */
  method ParseChunkSize(t: seq<byte>) returns (size: Option<nat>)
    requires NoNul(t)
    ensures size == ChunkSize(t)
  {
    var v, p := 0, 0;
    DigitsHaveValue(t, HexEnd(t, 0));
    while HexValue(At(t, p)).Some?
      invariant p <= |t| && v < TWO64
      invariant HexEnd(t, 0) == HexEnd(t, p) && HexNumber(t, 0, p) == Some(v)
      decreases |t| - p
    {
      var digit := HexValue(At(t, p)).value;
      if v > (TWO64 - 1 - digit) / 16 {
        HexGrows(t, p + 1, HexEnd(t, 0));
        return None;
      }
      v := v * 16 + digit;
      p := p + 1;
    }
    if p == 0 {
      return None;
    }
    var ok := ParseExtensions(t, p);
    return if ok then Some(v) else None;
  }

  method FindNonBlank(t: seq<byte>, p: nat) returns (q: nat)
    requires p <= |t|
    ensures q == SkipBlank(t, p)
  {
    q := p;
    while Blank(At(t, q))
      invariant p <= q <= |t| && SkipBlank(t, q) == SkipBlank(t, p)
      decreases |t| - q
    {
      q := q + 1;
    }
  }

  method FindNonToken(t: seq<byte>, p: nat) returns (q: nat)
    requires p <= |t|
    ensures q == SkipToken(t, p)
  {
    q := p;
    while IsToken(At(t, q))
      invariant p <= q <= |t| && SkipToken(t, q) == SkipToken(t, p)
      decreases |t| - q
    {
      q := q + 1;
    }
  }

  method ParseQuoted(t: seq<byte>, p: nat) returns (q: Option<nat>)
    requires p <= |t|
    ensures q == QuotedEnd(t, p)
  {
    var k := p;
    while At(t, k) != QUOTE
      invariant p <= k <= |t| && QuotedEnd(t, k) == QuotedEnd(t, p)
      decreases |t| - k
    {
      var at := k;
      if At(t, k) == BACKSLASH {
        at := k + 1;
      }
      if at >= |t| || (At(t, at) < 0x20 && At(t, at) != 9) || At(t, at) == 0x7f {
        return None;
      }
      k := at + 1;
    }
    return Some(k + 1);
  }

  method ParseExtension(t: seq<byte>, start: nat) returns (q: Option<nat>)
    requires start <= |t|
    ensures q == Extension(t, start)
  {
    hide IsToken, Blank, SkipBlank, SkipToken, QuotedEnd;
    var p := FindNonBlank(t, start);
    if At(t, p) != 59 {
      return None;
    }
    var name := FindNonBlank(t, p + 1);
    p := FindNonToken(t, name);
    if p == name {
      return None;
    }
    p := FindNonBlank(t, p);
    if At(t, p) != 61 {
      return Some(p);
    }
    var v := FindNonBlank(t, p + 1);
    if At(t, v) == QUOTE {
      q := ParseQuoted(t, v + 1);
    } else {
      p := FindNonToken(t, v);
      q := if p == v then None else Some(p);
    }
  }

  method ParseExtensions(t: seq<byte>, start: nat) returns (ok: bool)
    requires start <= |t| && NoNul(t)
    ensures ok == Extensions(t, start)
  {
    hide Extension;
    var p := start;
    while At(t, p) != 0
      invariant start <= p <= |t| && Extensions(t, p) == Extensions(t, start)
      decreases |t| - p
    {
      var q := ParseExtension(t, p);
      if q.None? {
        return false;
      }
      p := q.value;
    }
    return true;
  }

  /** Any spelling of a size in hexadecimal digits, leading zeros and either case included, is read as that size. */
  lemma PlainSize(t: seq<byte>, n: nat)
    requires t != [] && n < TWO64 && HexNumber(t, 0, |t|) == Some(n)
    ensures ChunkSize(t) == Some(n)
  {
    AllDigits(t, |t|);
    assert HexEnd(t, 0) == |t|;
  }

  lemma {:induction false} AllDigits(t: seq<byte>, n: nat)
    requires n <= |t| && HexNumber(t, 0, n).Some?
    ensures forall k :: 0 <= k < n ==> HexValue(t[k]).Some?
  {
    if n > 0 {
      AllDigits(t, n - 1);
    }
  }

  // ---- Field lines ----

  function Lower(b: byte): byte
  {
    if 65 <= b <= 90 then b + 32 else b
  }

  predicate SameName(a: seq<byte>, b: string)
  {
    |a| == |b| && forall i :: 0 <= i < |a| ==> Lower(a[i]) as int == b[i] as int
  }

  /** The name of a well-formed field line. */
  function FieldName(t: seq<byte>): Option<seq<byte>>
  {
    var p := SkipToken(t, 0);
    if p == 0 || At(t, p) != 58 || !forall i :: p < i < |t| ==> Printable(t[i]) then None else Some(t[..p])
  }

  /** A field a trailer section may carry: none of the framing fields. */
  predicate TrailerField(t: seq<byte>)
  {
    var name := FieldName(t);
    name.Some? && !SameName(name.value, "content-length") && !SameName(name.value, "transfer-encoding")
    && !SameName(name.value, "connection")
  }

  // ---- Content-Length ----

  predicate DecimalDigit(b: byte)
  {
    48 <= b <= 57
  }

  function DigitEnd(t: seq<byte>, p: nat): (q: nat)
    requires p <= |t|
    ensures p <= q <= |t| && !DecimalDigit(At(t, q)) && forall k :: p <= k < q ==> DecimalDigit(t[k])
    decreases |t| - p
  {
    if p < |t| && DecimalDigit(t[p]) then DigitEnd(t, p + 1) else p
  }

  /** The number the decimal digits between p and q spell. */
  function DecimalValue(t: seq<byte>, p: nat, q: nat): nat
    requires p <= q <= |t| && forall k :: p <= k < q ==> DecimalDigit(t[k])
    decreases q - p
  {
    if p == q then 0
    else
      assert DecimalDigit(t[q - 1]);
      DecimalValue(t, p, q - 1) * 10 + (t[q - 1] as int - 48)
  }

  /** A comma-separated list of numbers. */
  function Numbers(t: seq<byte>, p: nat): (r: Option<seq<nat>>)
    requires p <= |t|
    ensures r.Some? ==> r.value != []
    decreases |t| - p
  {
    var q := DigitEnd(t, p);
    if q == p then None
    else
      var e := SkipBlank(t, q);
      if e == |t| then Some([DecimalValue(t, p, q)])
      else if t[e] != 44 then None
      else
        var rest := Numbers(t, SkipBlank(t, e + 1));
        if rest.None? then None else Some([DecimalValue(t, p, q)] + rest.value)
  }

  predicate AllAre(xs: seq<nat>, n: nat)
  {
    forall i :: 0 <= i < |xs| ==> xs[i] == n
  }

  /** One length, however often it is repeated in a list or over several fields, and only when it fits 64 bits. */
  function Length(t: seq<byte>, seen: Option<nat>): Option<nat>
  {
    var xs := Numbers(t, 0);
    if xs.Some? && AllAre(xs.value, xs.value[0]) && xs.value[0] < TWO64 && (seen.Some? ==> seen.value == xs.value[0])
    then Some(xs.value[0]) else None
  }

  lemma {:induction false} DecimalGrows(t: seq<byte>, p: nat, m: nat, q: nat)
    requires p <= m <= q <= |t| && forall k :: p <= k < q ==> DecimalDigit(t[k])
    ensures DecimalValue(t, p, m) <= DecimalValue(t, p, q)
    decreases q
  {
    if m < q {
      DecimalGrows(t, p, m, q - 1);
    }
  }

  /** The digit loop of one number, with its 64-bit overflow guard. */
  method ParseDecimal(t: seq<byte>, start: nat) returns (n: Option<nat>, end: nat)
    requires start < |t| && DecimalDigit(t[start])
    ensures end == DigitEnd(t, start)
    ensures n == if DecimalValue(t, start, end) < TWO64 then Some(DecimalValue(t, start, end)) else None
  {
    var v := 0;
    var p := start;
    end := DigitEnd(t, start);
    while DecimalDigit(At(t, p))
      invariant start <= p <= end && DigitEnd(t, p) == end && v < TWO64 && DecimalValue(t, start, p) == v
      decreases |t| - p
    {
      var digit := t[p] - 48;
      if v > (TWO64 - 1 - digit) / 10 {
        assert DecimalValue(t, start, p + 1) >= TWO64;
        DecimalGrows(t, start, p + 1, end);
        return None, end;
      }
      v := v * 10 + digit;
      p := p + 1;
    }
    return Some(v), p;
  }

  /** What the rest of the list has to be, given the value fixed so far. */
  ghost function LengthFrom(t: seq<byte>, p: nat, seen: Option<nat>): Option<nat>
    requires p <= |t|
  {
    var xs := Numbers(t, p);
    if xs.Some? && AllAre(xs.value, xs.value[0]) && xs.value[0] < TWO64 && (seen.Some? ==> seen.value == xs.value[0])
    then Some(xs.value[0]) else None
  }

  lemma LengthStep(t: seq<byte>, p: nat, seen: Option<nat>)
    requires p <= |t| && DigitEnd(t, p) > p
    ensures var q := DigitEnd(t, p);
            var n := DecimalValue(t, p, q);
            var e := SkipBlank(t, q);
            LengthFrom(t, p, seen) ==
            if n >= TWO64 || (seen.Some? && seen.value != n) then None
            else if e == |t| then Some(n)
            else if t[e] != 44 then None
            else LengthFrom(t, SkipBlank(t, e + 1), Some(n))
  {
    var q := DigitEnd(t, p);
    var n := DecimalValue(t, p, q);
    var e := SkipBlank(t, q);
    if e < |t| && t[e] == 44 {
      var rest := Numbers(t, SkipBlank(t, e + 1));
      if rest.Some? {
        hide Numbers, DecimalValue;
        var xs := [n] + rest.value;
        assert xs[0] == n && xs[1] == rest.value[0] && forall i :: 0 <= i < |rest.value| ==> xs[i + 1] == rest.value[i];
        assert AllAre(xs, n) <==> AllAre(rest.value, n) by {
          if AllAre(rest.value, n) {
            assert forall i :: 0 < i < |xs| ==> xs[i] == rest.value[i - 1];
          }
        }
        assert Numbers(t, p) == Some(xs) by {
        }
      }
    }
  }

  /** The loop over a Content-Length value, which may repeat one number. */
  method ParseLength(t: seq<byte>, seen: Option<nat>) returns (length: Option<nat>)
    requires NoNul(t)
    ensures length == Length(t, seen)
  {
    hide Numbers, DecimalValue, DigitEnd, SkipBlank, LengthFrom, Length;
    var p := 0;
    var have := seen;
    LengthStart(t, seen);
    while true
      invariant p <= |t| && LengthFrom(t, p, have) == Length(t, seen)
      decreases |t| - p
    {
      if !DecimalDigit(At(t, p)) {
        NoDigit(t, p, have);
        return None;
      }
      SomeDigit(t, p);
      LengthStep(t, p, have);
      var n, q := ParseDecimal(t, p);
      if n.None? || (have.Some? && have.value != n.value) {
        return None;
      }
      have := n;
      var e := FindNonBlank(t, q);
      if At(t, e) == 0 {
        return n;
      }
      if At(t, e) != 44 {
        return None;
      }
      p := FindNonBlank(t, e + 1);
    }
  }

  lemma LengthStart(t: seq<byte>, seen: Option<nat>)
    ensures LengthFrom(t, 0, seen) == Length(t, seen)
  {
    hide Numbers;
  }

  lemma NoDigit(t: seq<byte>, p: nat, seen: Option<nat>)
    requires p <= |t| && !DecimalDigit(At(t, p))
    ensures LengthFrom(t, p, seen) == None
  {
  }

  lemma SomeDigit(t: seq<byte>, p: nat)
    requires p <= |t| && DecimalDigit(At(t, p))
    ensures p < |t| && DigitEnd(t, p) > p
  {
  }
}
