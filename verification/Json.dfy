/** JSON strings (RFC 8259 section 7): the printer, and the decoder that may work in place. */
module Json {
  import opened Common
  import opened Octets

  // ---- UTF-8 ----

  /** The code points UTF-8 can carry. */
  predicate IsScalar(code: nat)
  {
    code < 0xD800 || 0xE000 <= code < 0x110000
  }

  /** The octets the decoder writes for a code point. */
  function Utf8(code: nat): (r: seq<byte>)
    requires code < 0x110000
    ensures 1 <= |r| <= 4
  {
    if code <= 0x7F then [code]
    else if code <= 0x7FF then [0xC0 + code / 64, 0x80 + code % 64]
    else if code <= 0xFFFF then [0xE0 + code / 4096, 0x80 + code / 64 % 64, 0x80 + code % 64]
    else [0xF0 + code / 262144, 0x80 + code / 4096 % 64, 0x80 + code / 64 % 64, 0x80 + code % 64]
  }

  predicate Tail(b: byte)
  {
    0x80 <= b < 0xC0
  }

  /** Section 3 of RFC 3629 read the other way: the code point of a well-formed sequence, overlong and surrogate forms refused. */
  function ScalarOf(s: seq<byte>): (r: Option<nat>)
    ensures r.Some? ==> IsScalar(r.value)
  {
    var c: nat :=
      if |s| == 1 && s[0] < 0x80 then s[0] as int
      else if |s| == 2 && 0xC0 <= s[0] < 0xE0 && Tail(s[1]) then (s[0] as int - 0xC0) * 64 + (s[1] as int - 0x80)
      else if |s| == 3 && 0xE0 <= s[0] < 0xF0 && Tail(s[1]) && Tail(s[2]) then
        (s[0] as int - 0xE0) * 4096 + (s[1] as int - 0x80) * 64 + (s[2] as int - 0x80)
      else if |s| == 4 && 0xF0 <= s[0] < 0xF8 && Tail(s[1]) && Tail(s[2]) && Tail(s[3]) then
        (s[0] as int - 0xF0) * 262144 + (s[1] as int - 0x80) * 4096 + (s[2] as int - 0x80) * 64 + (s[3] as int - 0x80)
      else 0x110000;
    var shortest: nat := if |s| == 2 then 0x80 else if |s| == 3 then 0x800 else if |s| == 4 then 0x10000 else 0;
    if shortest <= c && IsScalar(c) then Some(c) else None
  }

  /** What the decoder writes for a code point is its one UTF-8 form. */
  lemma Utf8RoundTrip(code: nat)
    requires IsScalar(code)
    ensures ScalarOf(Utf8(code)) == Some(code)
  {
    var s := Utf8(code);
    if 0x7F < code <= 0x7FF {
      assert code == code / 64 * 64 + code % 64;
    } else if 0x7FF < code <= 0xFFFF {
      assert code / 64 / 64 == code / 4096;
      assert code / 64 == code / 4096 * 64 + code / 64 % 64;
      assert code == code / 64 * 64 + code % 64;
    } else if 0xFFFF < code {
      assert code / 64 / 64 == code / 4096 && code / 4096 / 64 == code / 262144;
      assert code / 4096 == code / 262144 * 64 + code / 4096 % 64;
      assert code / 64 == code / 4096 * 64 + code / 64 % 64;
      assert code == code / 64 * 64 + code % 64;
    }
  }

  // ---- Escapes ----

  /** The value of a hexadecimal digit of either case. */
  function HexValue(b: byte): (v: Option<nat>)
    ensures v.Some? ==> v.value < 16
  {
    if 48 <= b <= 57 then Some(b - 48)
    else if 97 <= b <= 102 then Some(b - 97 + 10)
    else if 65 <= b <= 70 then Some(b - 65 + 10)
    else None
  }

  /** The number n hexadecimal digits spell. */
  function HexNumber(s: seq<byte>, p: nat, n: nat): (v: Option<nat>)
    requires p + n <= |s|
  {
    if n == 0 then Some(0)
    else
      var high := HexNumber(s, p, n - 1);
      var digit := HexValue(s[p + n - 1]);
      if high.Some? && digit.Some? then Some(high.value * 16 + digit.value) else None
  }

  lemma HexBound(s: seq<byte>, p: nat)
    requires p + 4 <= |s| && HexNumber(s, p, 4).Some?
    ensures HexNumber(s, p, 4).value < 0x10000
  {
    HexStep(s, p, 4);
    HexStep(s, p, 3);
    HexStep(s, p, 2);
    HexStep(s, p, 1);
  }

  lemma HexStep(s: seq<byte>, p: nat, n: nat)
    requires 0 < n && p + n <= |s| && HexNumber(s, p, n).Some?
    ensures HexNumber(s, p, n - 1).Some? && HexNumber(s, p, n).value < 16 * (HexNumber(s, p, n - 1).value + 1)
  {
  }

  datatype Decoded = Decoded(code: nat, next: nat)

  /** The character a two-character escape names. */
  function Simple(b: byte): Option<nat>
  {
    if b == QUOTE || b == BACKSLASH || b == 47 then Some(b)
    else if b == 98 then Some(8)
    else if b == 102 then Some(12)
    else if b == 110 then Some(10)
    else if b == 114 then Some(13)
    else if b == 116 then Some(9)
    else None
  }

  /** The escape whose backslash is just before p; a surrogate is accepted only as the first half of a pair. */
  function EscapeAt(s: seq<byte>, p: nat): (r: Option<Decoded>)
    ensures r.Some? ==> p < r.value.next <= |s| && IsScalar(r.value.code)
    ensures r.Some? ==> |Utf8(r.value.code)| < r.value.next - p + 1
  {
    if p >= |s| then None
    else if s[p] == 117 then UnicodeAt(s, p + 1)
    else
      var c := Simple(s[p]);
      if c.Some? then Some(Decoded(c.value, p + 1)) else None
  }

  function UnicodeAt(s: seq<byte>, p: nat): (r: Option<Decoded>)
    requires p <= |s|
    ensures r.Some? ==> p + 4 <= r.value.next <= |s| && IsScalar(r.value.code)
    ensures r.Some? && r.value.code > 0xFFFF ==> r.value.next == p + 10
  {
    if |s| - p < 4 || HexNumber(s, p, 4).None? then None
    else
      HexBound(s, p);
      var code := HexNumber(s, p, 4).value;
      if 0xD800 <= code <= 0xDBFF then
        if |s| - p < 10 || s[p + 4] != BACKSLASH || s[p + 5] != 117 then None
        else
          var low := HexNumber(s, p + 6, 4);
          if low.None? || low.value < 0xDC00 || low.value > 0xDFFF then None
          else Some(Decoded(0x10000 + (code - 0xD800) * 1024 + (low.value - 0xDC00), p + 10))
      else if 0xDC00 <= code <= 0xDFFF then None
      else Some(Decoded(code, p + 4))
  }

  // ---- Decoder ----

  datatype Text = Text(value: seq<byte>, next: nat)

  /** One character or escape of a string, as the octets it stands for and the position after it. */
  function UnitAt(s: seq<byte>, p: nat): (r: Option<Text>)
    requires p < |s|
    ensures r.Some? ==> p < r.value.next <= |s| && 1 <= |r.value.value| <= r.value.next - p
  {
    if s[p] != BACKSLASH then
      if s[p] < 0x20 then None else Some(Text([s[p]], p + 1))
    else
      var e := EscapeAt(s, p + 1);
      if e.None? then None else Some(Text(Utf8(e.value.code), e.value.next))
  }

  /** The string whose opening quote is just before p: what it stands for and where its closing quote ends. */
  function Decode(s: seq<byte>, p: nat): (r: Option<Text>)
    ensures r.Some? ==> p < r.value.next <= |s|
    decreases |s| - p
  {
    if p >= |s| then None
    else if s[p] == QUOTE then Some(Text([], p + 1))
    else
      var u := UnitAt(s, p);
      if u.None? then None
      else
        var rest := Decode(s, u.value.next);
        if rest.None? then None else Some(Text(u.value.value + rest.value.value, rest.value.next))
  }

  /** The decoder never writes more than it has consumed: the text fits where the raw string was. */
  lemma {:induction false} DecodeShrinks(s: seq<byte>, p: nat)
    requires Decode(s, p).Some?
    ensures |Decode(s, p).value.value| <= Decode(s, p).value.next - 1 - p
    decreases |s| - p
  {
    if s[p] != QUOTE {
      DecodeShrinks(s, UnitAt(s, p).value.next);
    }
  }

  method ReadHex(src: array<byte>, p: nat) returns (v: Option<nat>)
    requires p + 4 <= src.Length
    ensures v == HexNumber(src[..], p, 4)
  {
    var code := 0;
    var i := 0;
    while i < 4
      invariant i <= 4 && HexNumber(src[..], p, i) == Some(code)
    {
      var d := HexValue(src[p + i]);
      if d.None? {
        HexStops(src[..], p, i + 1, 4);
        return None;
      }
      code := code * 16 + d.value;
      i := i + 1;
    }
    return Some(code);
  }

  lemma {:induction false} HexStops(s: seq<byte>, p: nat, i: nat, n: nat)
    requires i <= n && p + n <= |s| && HexNumber(s, p, i).None?
    ensures HexNumber(s, p, n).None?
  {
    if i < n {
      HexStops(s, p, i, n - 1);
    }
  }

  lemma {:induction false} HexWithin(s: seq<byte>, end: nat, p: nat, n: nat)
    requires p + n <= end <= |s|
    ensures HexNumber(s[..end], p, n) == HexNumber(s, p, n)
  {
    if n > 0 {
      HexWithin(s, end, p, n - 1);
    }
  }

  method ReadUnicode(src: array<byte>, p: nat, end: nat) returns (r: Option<Decoded>)
    requires p <= end <= src.Length
    ensures r == UnicodeAt(src[..end], p)
  {
    if end - p < 4 {
      return None;
    }
    HexWithin(src[..], end, p, 4);
    assert src[..][..end] == src[..end];
    var code := ReadHex(src, p);
    if code.None? {
      return None;
    }
    if 0xD800 <= code.value <= 0xDBFF {
      if end - p < 10 || src[p + 4] != BACKSLASH || src[p + 5] != 117 {
        return None;
      }
      HexWithin(src[..], end, p + 6, 4);
      var low := ReadHex(src, p + 6);
      if low.None? || low.value < 0xDC00 || low.value > 0xDFFF {
        return None;
      }
      return Some(Decoded(0x10000 + (code.value - 0xD800) * 1024 + (low.value - 0xDC00), p + 10));
    }
    if 0xDC00 <= code.value <= 0xDFFF {
      return None;
    }
    return Some(Decoded(code.value, p + 4));
  }

  method ReadEscape(src: array<byte>, p: nat, end: nat) returns (r: Option<Decoded>)
    requires p <= end <= src.Length
    ensures r == EscapeAt(src[..end], p)
  {
    if p == end {
      return None;
    }
    if src[p] == 117 {
      r := ReadUnicode(src, p + 1, end);
    } else {
      var c := Simple(src[p]);
      r := if c.Some? then Some(Decoded(c.value, p + 1)) else None;
    }
  }

  /** Writes a code point's octets when they fit below the limit, and touches nothing else. */
  method PutUtf8(out: array<byte>, q: nat, limit: nat, code: nat) returns (ok: bool, next: nat)
    requires q <= limit <= out.Length && code < 0x110000
    modifies out
    ensures ok <==> q + |Utf8(code)| <= limit
    ensures ok ==> next == q + |Utf8(code)| && out[q..next] == Utf8(code)
    ensures !ok ==> next == q
    ensures forall k :: 0 <= k < out.Length && !(q <= k < next) ==> out[k] == old(out[k])
  {
    var bytes := Utf8(code);
    next := q;
    if limit - q < |bytes| {
      return false, q;
    }
    out[q] := bytes[0];
    if |bytes| > 1 {
      out[q + 1] := bytes[1];
    }
    if |bytes| > 2 {
      out[q + 2] := bytes[2];
    }
    if |bytes| > 3 {
      out[q + 3] := bytes[3];
    }
    return true, q + |bytes|;
  }

  /** What is left to decode, given what is already written. */
  ghost predicate Remaining(text: seq<byte>, start: nat, p: nat, written: seq<byte>)
    requires start <= p <= |text|
  {
    match Decode(text, p)
    case None => Decode(text, start).None?
    case Some(rest) => Decode(text, start) == Some(Text(written + rest.value, rest.next))
  }

  lemma RemainingStep(text: seq<byte>, start: nat, p: nat, written: seq<byte>)
    requires start <= p < |text| && text[p] != QUOTE && Remaining(text, start, p, written)
    ensures UnitAt(text, p).None? ==> Decode(text, start).None?
    ensures UnitAt(text, p).Some? ==>
              Remaining(text, start, UnitAt(text, p).value.next, written + UnitAt(text, p).value.value)
  {
    var u := UnitAt(text, p);
    if u.Some? {
      var rest := Decode(text, u.value.next);
      if rest.Some? {
        ConcatAssociative(written, u.value.value, rest.value.value);
      }
    }
  }

  /**
   * The decoder.  `out` may be the input array itself as long as the text is
   * written at or before the string it is read from: it succeeds exactly when
   * the string is valid and what it stands for fits, and then has written just
   * that.
   */
  method ParseString(src: array<byte>, start: nat, end: nat, out: array<byte>, o: nat, cap: nat)
      returns (ok: bool, next: nat, len: nat)
    requires start <= end <= src.Length && o + cap <= out.Length
    requires src == out ==> o <= start
    modifies out
    ensures var r := Decode(old(src[..end]), start);
            && (ok <==> r.Some? && |r.value.value| <= cap)
            && (ok ==> next == r.value.next && len == |r.value.value| && len <= cap && out[o..o + len] == r.value.value)
    ensures forall k :: 0 <= k < out.Length && !(o <= k < o + cap) ==> out[k] == old(out[k])
  {
    hide Decode, UnitAt;
    ghost var text := src[..end];
    ghost var written: seq<byte> := [];
    var p, q := start, o;
    next, len := start, 0;
    RemainingStart(text, start);
    while p < end
      invariant start <= p <= end && o <= q <= o + cap && q - o <= p - start
      invariant Remaining(text, start, p, written) && out[o..q] == written
      invariant forall k :: p <= k < end ==> src[k] == text[k]
      invariant forall k :: 0 <= k < out.Length && !(o <= k < o + cap) ==> out[k] == old(out[k])
      decreases end - p
    {
      if src[p] == QUOTE {
        RemainingClosed(text, start, p, written);
        return true, p + 1, q - o;
      }
      RemainingStep(text, start, p, written);
      var after, last;
      ok, after, last := ParseUnit(src, p, end, out, q, o + cap, text);
      if !ok {
        return;
      }
      assert out[o..last] == out[o..q] + out[q..last];
      written := written + UnitAt(text, p).value.value;
      p, q := after, last;
    }
    ok := false;
  }

  lemma RemainingStart(text: seq<byte>, start: nat)
    requires start <= |text|
    ensures Remaining(text, start, start, [])
  {
    if Decode(text, start).Some? {
      assert [] + Decode(text, start).value.value == Decode(text, start).value.value;
    }
  }

  lemma RemainingClosed(text: seq<byte>, start: nat, p: nat, written: seq<byte>)
    requires start <= p < |text| && text[p] == QUOTE && Remaining(text, start, p, written)
    ensures Decode(text, start) == Some(Text(written, p + 1))
  {
    assert written + [] == written;
  }

  /** One character or escape: read from the input, then written. */
  method ParseUnit(src: array<byte>, p: nat, end: nat, out: array<byte>, q: nat, limit: nat, ghost text: seq<byte>)
      returns (ok: bool, next: nat, last: nat)
    requires p < end <= src.Length && q <= limit <= out.Length
    requires src == out ==> q <= p
    requires |text| == end && text[p] != QUOTE && forall k :: p <= k < end ==> src[k] == text[k]
    modifies out
    ensures var u := UnitAt(text, p);
            && (ok <==> u.Some? && q + |u.value.value| <= limit)
            && (ok ==> next == u.value.next && last == q + |u.value.value| && out[q..last] == u.value.value)
            && (!ok ==> last == q)
    ensures q <= last <= limit && (ok ==> p < next <= end && last - q <= next - p)
    ensures ok ==> forall k :: next <= k < end ==> src[k] == text[k]
    ensures out[..q] == old(out[..q])
    ensures forall k :: 0 <= k < out.Length && !(q <= k < last) ==> out[k] == old(out[k])
  {
    next, last := p, q;
    if src[p] != BACKSLASH {
      if src[p] < 0x20 || limit - q < 1 {
        return false, p, q;
      }
      out[q] := src[p];
      return true, p + 1, q + 1;
    }
    SameEscape(src[..end], text, p + 1);
    var e := ReadEscape(src, p + 1, end);
    if e.None? {
      return false, p, q;
    }
    ok, last := PutUtf8(out, q, limit, e.value.code);
    next := e.value.next;
  }

  lemma {:induction false} SameHex(a: seq<byte>, b: seq<byte>, p: nat, n: nat)
    requires |a| == |b| && p + n <= |a| && forall k :: p <= k < |a| ==> a[k] == b[k]
    ensures HexNumber(a, p, n) == HexNumber(b, p, n)
  {
    if n > 0 {
      SameHex(a, b, p, n - 1);
    }
  }

  /** An escape depends only on what lies ahead of it. */
  lemma SameEscape(a: seq<byte>, b: seq<byte>, p: nat)
    requires |a| == |b| && p <= |a| && forall k :: p <= k < |a| ==> a[k] == b[k]
    ensures EscapeAt(a, p) == EscapeAt(b, p)
  {
    if p < |a| && a[p] == 117 {
      if |a| - (p + 1) >= 4 {
        SameHex(a, b, p + 1, 4);
      }
      if |a| - (p + 1) >= 10 {
        SameHex(a, b, p + 7, 4);
      }
    }
  }
}
