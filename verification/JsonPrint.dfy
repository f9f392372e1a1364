/** The JSON string printer, and the round trip through the decoder and the scanner. */
module JsonPrint {
  import opened Common
  import opened Json
  import opened Octets

  function HexDigit(v: nat): (b: byte)
    requires v < 16
    ensures HexValue(b) == Some(v)
  {
    if v < 10 then 48 + v else 97 + (v - 10)
  }

  /** How one octet of a string is printed. */
  function Escape(c: byte): (r: seq<byte>)
    ensures 1 <= |r| <= 6
  {
    if c == QUOTE then [BACKSLASH, QUOTE]
    else if c == BACKSLASH then [BACKSLASH, BACKSLASH]
    else if c == 8 then [BACKSLASH, 98]
    else if c == 12 then [BACKSLASH, 102]
    else if c == 10 then [BACKSLASH, 110]
    else if c == 13 then [BACKSLASH, 114]
    else if c == 9 then [BACKSLASH, 116]
    else if c < 0x20 then [BACKSLASH, 117, 48, 48, HexDigit(c / 16), HexDigit(c % 16)]
    else [c]
  }

  function Escaped(v: seq<byte>): seq<byte>
  {
    if v == [] then [] else Escape(v[0]) + Escaped(v[1..])
  }

  function Printed(v: seq<byte>): seq<byte>
  {
    [QUOTE] + Escaped(v) + [QUOTE]
  }

  lemma {:induction false} EscapedAppend(v: seq<byte>, w: seq<byte>)
    ensures Escaped(v + w) == Escaped(v) + Escaped(w)
  {
    if v == [] {
      assert v + w == w;
    } else {
      assert (v + w)[1..] == v[1..] + w && (v + w)[0] == v[0];
      EscapedAppend(v[1..], w);
      ConcatAssociative(Escape(v[0]), Escaped(v[1..]), Escaped(w));
    }
  }

  /** A bounded output region: everything the API renders goes through it. */
  class Writer {
    const buf: array<byte>
    var last: nat

    ghost predicate Valid()
      reads this
    {
      last <= buf.Length
    }

    ghost function Written(): seq<byte>
      reads this, buf
      requires Valid()
    {
      buf[..last]
    }

    constructor (size: nat)
      ensures Valid() && Written() == [] && buf.Length == size && fresh(buf)
    {
      buf := new byte[size];
      last := 0;
    }

    /** Appends all of the data, or nothing when it does not fit. */
    method Put(data: seq<byte>) returns (ok: bool)
      requires Valid()
      modifies `last, buf
      ensures Valid()
      ensures ok <==> old(last) + |data| <= buf.Length
      ensures Written() == if ok then old(Written()) + data else old(Written())
    {
      if buf.Length - last < |data| {
        return false;
      }
      var i := 0;
      while i < |data|
        invariant i <= |data| && last == old(last)
        invariant buf[..last] == old(buf[..last]) && buf[last..last + i] == data[..i]
      {
        buf[last + i] := data[i];
        i := i + 1;
      }
      assert buf[..last + i] == buf[..last] + buf[last..last + i];
      last := last + |data|;
      return true;
    }

    /** Prints one string: it succeeds exactly when the whole printed form fits. */
    method PutString(value: seq<byte>) returns (ok: bool)
      requires Valid()
      modifies `last, buf
      ensures Valid()
      ensures ok <==> old(last) + |Printed(value)| <= buf.Length
      ensures ok ==> Written() == old(Written()) + Printed(value)
    {
      hide Escape, Escaped;
      ghost var before := Written();
      ghost var sofar: seq<byte> := [QUOTE];
      EscapedNothing();
      ok := Put([QUOTE]);
      if !ok {
        return;
      }
      var i := 0;
      while i < |value|
        invariant i <= |value| && Valid()
        invariant sofar == [QUOTE] + Escaped(value[..i]) && Written() == before + sofar
      {
        EscapedNext(value, i);
        var piece := Escape(value[i]);
        ok := Put(piece);
        if !ok {
          return;
        }
        ConcatAssociative(before, sofar, piece);
        ConcatAssociative([QUOTE], Escaped(value[..i]), piece);
        sofar := sofar + piece;
        i := i + 1;
      }
      assert value[..i] == value;
      ok := Put([QUOTE]);
      ConcatAssociative(before, sofar, [QUOTE]);
    }
  }

  /** One more octet printed; what is printed of a prefix never exceeds what is printed of the whole. */
  lemma EscapedNext(value: seq<byte>, i: nat)
    requires i < |value|
    ensures Escaped(value[..i + 1]) == Escaped(value[..i]) + Escape(value[i])
    ensures |Escaped(value)| >= |Escaped(value[..i])| + |Escape(value[i])|
  {
    assert value[..i + 1] == value[..i] + [value[i]];
    assert value == value[..i + 1] + value[i + 1..];
    EscapedAppend(value[..i], [value[i]]);
    EscapedAppend(value[..i + 1], value[i + 1..]);
    assert [value[i]][1..] == [];
  }

  lemma EscapedNothing()
    ensures Escaped([]) == [] && forall v: seq<byte> {:trigger v[..0]} :: v[..0] == []
  {
  }

  /** The decoder reads one printed octet back. */
  lemma UnitOfEscape(s: seq<byte>, p: nat, c: byte)
    requires Stands(s, p, Escape(c))
    ensures s[p] != QUOTE && UnitAt(s, p) == Some(Text([c], p + |Escape(c)|))
  {
    var w := Escape(c);
    StandsAt(s, p, w);
    assert s[p + 0] == w[0];
    if |w| > 1 {
      assert s[p + 1] == w[1];
    }
    if |w| == 6 {
      assert s[p + 2] == w[2] && s[p + 3] == w[3] && s[p + 4] == w[4] && s[p + 5] == w[5];
      ControlNumber(s, p + 2, c);
    }
  }

  lemma ControlNumber(s: seq<byte>, p: nat, c: byte)
    requires p + 4 <= |s| && c < 0x20
    requires s[p] == 48 && s[p + 1] == 48 && s[p + 2] == HexDigit(c / 16) && s[p + 3] == HexDigit(c % 16)
    ensures HexNumber(s, p, 4) == Some(c as int)
  {
    assert HexNumber(s, p, 1) == Some(0);
    assert HexNumber(s, p, 2) == Some(0);
    assert HexNumber(s, p, 3) == Some(c / 16);
  }

  /** Decoding the printed form of any octets gives them back, and ends at the closing quote. */
  lemma {:induction false} DecodePrinted(s: seq<byte>, p: nat, v: seq<byte>)
    requires Stands(s, p, Escaped(v) + [QUOTE])
    ensures Decode(s, p) == Some(Text(v, p + |Escaped(v)| + 1))
    decreases |v|
  {
    hide Stands, Escape, UnitAt;
    if v == [] {
      assert Escaped(v) + [QUOTE] == [QUOTE];
      StandsAt(s, p, [QUOTE]);
      assert s[p + 0] == [QUOTE][0];
    } else {
      var first, rest := Escape(v[0]), Escaped(v[1..]);
      ConcatAssociative(first, rest, [QUOTE]);
      StandsSplit(s, p, first, rest + [QUOTE]);
      UnitOfEscape(s, p, v[0]);
      DecodePrinted(s, p + |first|, v[1..]);
      assert [v[0]] + v[1..] == v;
    }
  }

  /** The text at p spells this code point in \u escapes: four digits, or the two halves of a surrogate pair. */
  ghost predicate Spells(s: seq<byte>, p: nat, code: nat, next: nat)
  {
    && IsScalar(code) && p + 4 <= |s|
    && if code <= 0xFFFF then HexNumber(s, p, 4) == Some(code) && next == p + 4
       else
         && p + 10 <= |s| && next == p + 10
         && HexNumber(s, p, 4) == Some(0xD800 + (code - 0x10000) / 1024)
         && s[p + 4] == BACKSLASH && s[p + 5] == 117
         && HexNumber(s, p + 6, 4) == Some(0xDC00 + (code - 0x10000) % 1024)
  }

  /** The decoder accepts a \u escape exactly when it spells a code point, and takes it for that code point. */
  lemma UnicodeMeansItsScalar(s: seq<byte>, p: nat, code: nat, next: nat)
    requires p <= |s|
    ensures UnicodeAt(s, p) == Some(Decoded(code, next)) <==> Spells(s, p, code, next)
  {
    if Spells(s, p, code, next) && code > 0xFFFF {
      var c := code - 0x10000;
      assert c == c / 1024 * 1024 + c % 1024;
    }
    if UnicodeAt(s, p) == Some(Decoded(code, next)) {
      HexBound(s, p);
    }
  }

  /** What a \u escape leaves in the text is the UTF-8 of the code point it spells. */
  lemma UnicodeBecomesUtf8(s: seq<byte>, p: nat, code: nat, next: nat)
    requires p + 2 <= |s| && s[p] == BACKSLASH && s[p + 1] == 117 && Spells(s, p + 2, code, next)
    ensures UnitAt(s, p) == Some(Text(Utf8(code), next)) && ScalarOf(UnitAt(s, p).value.value) == Some(code)
  {
    UnicodeMeansItsScalar(s, p + 2, code, next);
    Utf8RoundTrip(code);
  }
}
