/** The strings of RFC 8259 section 7, character by character: exactly these are accepted, and mean this. */
module JsonString {
  import opened Common
  import opened Octets
  import opened Json
  import JsonPrint
  import Spelling

  /**
   * One character of a string: an octet as it is, a two-character escape, the
   * \u escape of a code point, or the two halves of a surrogate pair.
   */
  datatype Unit =
    | Plain(b: byte)
    | Short(letter: byte)
    | Code(hex: seq<byte>, code: nat)
    | Pair(high: seq<byte>, low: seq<byte>, code: nat)

  function UnitText(u: Unit): (t: seq<byte>)
    ensures t != []
  {
    match u
    case Plain(b) => [b]
    case Short(letter) => [BACKSLASH, letter]
    case Code(hex, _) => [BACKSLASH, 'u' as int] + hex
    case Pair(high, low, _) => ([BACKSLASH, 'u' as int] + high) + ([BACKSLASH, 'u' as int] + low)
  }

  /** What the letter behind a backslash stands for. */
  function Meaning(letter: byte): Option<byte>
  {
    if letter == '"' as int then Some('"' as int)
    else if letter == '\\' as int then Some('\\' as int)
    else if letter == '/' as int then Some('/' as int)
    else if letter == 'b' as int then Some(0x08)
    else if letter == 'f' as int then Some(0x0C)
    else if letter == 'n' as int then Some(0x0A)
    else if letter == 'r' as int then Some(0x0D)
    else if letter == 't' as int then Some(0x09)
    else None
  }

  ghost predicate Proper(u: Unit)
  {
    match u
    case Plain(b) => b >= 0x20 && b != '"' as int && b != '\\' as int
    case Short(letter) => Meaning(letter) != None
    case Code(hex, code) => |hex| == 4 && Spelling.Spells(hex, code, 16) && (code < 0xD800 || 0xDFFF < code <= 0xFFFF)
    case Pair(high, low, code) =>
      && |high| == 4 && |low| == 4 && 0x10000 <= code <= 0x10FFFF
      && Spelling.Spells(high, 0xD800 + (code - 0x10000) / 0x400, 16)
      && Spelling.Spells(low, 0xDC00 + (code - 0x10000) % 0x400, 16)
  }

  /** The octets a character stands for: a code point by its one UTF-8 form. */
  ghost predicate Stands1(u: Unit, value: seq<byte>)
  {
    match u
    case Plain(b) => value == [b]
    case Short(letter) => Meaning(letter).Some? && value == [Meaning(letter).value]
    case Code(_, code) => ScalarOf(value) == Some(code)
    case Pair(_, _, code) => ScalarOf(value) == Some(code)
  }

  lemma ShortMeans(letter: byte)
    ensures Simple(letter).Some? <==> Meaning(letter).Some?
    ensures Meaning(letter).Some? ==> Simple(letter).value == Meaning(letter).value as int && letter != 'u' as int
  {
  }

  /** Two octet sequences that are the UTF-8 of one code point are the same. */
  lemma OneForm(a: seq<byte>, code: nat)
    requires ScalarOf(a) == Some(code)
    ensures a == Utf8(code)
  {
    if |a| == 2 {
      assert code / 64 == a[0] as int - 0xC0;
    } else if |a| == 3 {
      assert code / 64 == (a[0] as int - 0xE0) * 64 + (a[1] as int - 0x80);
      assert code / 4096 == a[0] as int - 0xE0;
    } else if |a| == 4 {
      assert code / 64 == (a[0] as int - 0xF0) * 4096 + (a[1] as int - 0x80) * 64 + (a[2] as int - 0x80);
      assert code / 4096 == (a[0] as int - 0xF0) * 64 + (a[1] as int - 0x80);
      assert code / 262144 == a[0] as int - 0xF0;
    }
  }

  /** The places of a \u escape. */
  lemma EscapePlaces(s: seq<byte>, p: nat, hex: seq<byte>)
    requires |hex| == 4 && Stands(s, p, [BACKSLASH, 'u' as int] + hex)
    ensures p + 6 <= |s| && s[p] == BACKSLASH && s[p + 1] == 117 && s[p + 2..p + 2 + 4] == hex
  {
    StandsAt(s, p, [BACKSLASH, 'u' as int] + hex);
  }

  lemma CodeReads(s: seq<byte>, p: nat, hex: seq<byte>, code: nat)
    requires Proper(Code(hex, code)) && Stands(s, p, [BACKSLASH, 'u' as int] + hex)
    ensures UnitAt(s, p) == Some(Text(Utf8(code), p + 6)) && ScalarOf(Utf8(code)) == Some(code)
  {
    hide Spelling.Spells, HexNumber, Utf8, ScalarOf, UnitAt, Stands;
    EscapePlaces(s, p, hex);
    Spelling.HexReads(s, p + 2, 4, code);
    JsonPrint.UnicodeBecomesUtf8(s, p, code, p + 6);
    Utf8RoundTrip(code);
  }

  lemma PairReads(s: seq<byte>, p: nat, high: seq<byte>, low: seq<byte>, code: nat)
    requires Proper(Pair(high, low, code)) && Stands(s, p, UnitText(Pair(high, low, code)))
    ensures UnitAt(s, p) == Some(Text(Utf8(code), p + 12)) && ScalarOf(Utf8(code)) == Some(code)
  {
    hide Spelling.Spells, HexNumber, Utf8, ScalarOf, UnitAt, Stands;
    PairPlaces(s, p, high, low);
    var h, l := 0xD800 + (code - 0x10000) / 0x400, 0xDC00 + (code - 0x10000) % 0x400;
    Spelling.HexReads(s, p + 2, 4, h);
    Spelling.HexReads(s, p + 8, 4, l);
    PairSpells(s, p + 2, code);
    JsonPrint.UnicodeBecomesUtf8(s, p, code, p + 12);
    Utf8RoundTrip(code);
  }

  lemma PairPlaces(s: seq<byte>, p: nat, high: seq<byte>, low: seq<byte>)
    requires |high| == 4 && |low| == 4
    requires Stands(s, p, ([BACKSLASH, 'u' as int] + high) + ([BACKSLASH, 'u' as int] + low))
    ensures p + 12 <= |s| && s[p] == BACKSLASH && s[p + 1] == 117 && s[p + 6] == BACKSLASH && s[p + 7] == 117
    ensures s[p + 2..p + 2 + 4] == high && s[p + 8..p + 8 + 4] == low
  {
    hide Stands;
    StandsSplit(s, p, [BACKSLASH, 'u' as int] + high, [BACKSLASH, 'u' as int] + low);
    EscapePlaces(s, p, high);
    EscapePlaces(s, p + 6, low);
  }

  lemma PairSpells(s: seq<byte>, p: nat, code: nat)
    requires 0x10000 <= code <= 0x10FFFF && p + 10 <= |s| && s[p + 4] == BACKSLASH && s[p + 5] == 117
    requires HexNumber(s, p, 4) == Some(0xD800 + (code - 0x10000) / 0x400)
    requires HexNumber(s, p + 6, 4) == Some(0xDC00 + (code - 0x10000) % 0x400)
    ensures JsonPrint.Spells(s, p, code, p + 10)
  {
    hide HexNumber;
  }

  /** A character that stands at p is read as what it means. */
  lemma UnitReads(s: seq<byte>, p: nat, u: Unit)
    requires Proper(u) && Stands(s, p, UnitText(u))
    ensures p < |s| && s[p] != QUOTE && UnitAt(s, p).Some?
    ensures UnitAt(s, p).value.next == p + |UnitText(u)| && Stands1(u, UnitAt(s, p).value.value)
  {
    hide Spelling.Spells, HexNumber, Utf8, ScalarOf, UnicodeAt;
    StandsAt(s, p, UnitText(u));
    assert s[p] == UnitText(u)[0];
    match u {
      case Plain(b) =>
      case Short(letter) =>
        ShortMeans(letter);
        assert s[p + 1] == letter;
        hide Simple, Meaning;
        AsciiForm(Simple(letter).value);
      case Code(hex, code) => CodeReads(s, p, hex, code);
      case Pair(high, low, code) => PairReads(s, p, high, low, code);
    }
  }

  lemma AsciiForm(code: nat)
    requires code < 128
    ensures Utf8(code) == [code]
  {
  }

  lemma EscapeStands(s: seq<byte>, p: nat)
    requires p + 6 <= |s| && s[p] == BACKSLASH && s[p + 1] == 117
    ensures Stands(s, p, [BACKSLASH, 'u' as int] + s[p + 2..p + 2 + 4])
  {
    assert s[p..p + 6] == [s[p], s[p + 1]] + s[p + 2..p + 2 + 4];
  }

  /** Every accepted character is one of these. */
  lemma UnitOf(s: seq<byte>, p: nat) returns (u: Unit)
    requires p < |s| && s[p] != QUOTE && UnitAt(s, p).Some?
    ensures Proper(u) && Stands(s, p, UnitText(u))
  {
    hide Spelling.Spells, HexNumber, Utf8, ScalarOf;
    if s[p] != BACKSLASH {
      u := Unit.Plain(s[p]);
      assert s[p..p + 1] == [s[p]];
    } else if s[p + 1] != 'u' as int {
      ShortMeans(s[p + 1]);
      u := Short(s[p + 1]);
      assert s[p..p + 2] == [s[p], s[p + 1]];
    } else {
      var code := EscapeAt(s, p + 1).value.code;
      JsonPrint.UnicodeMeansItsScalar(s, p + 2, code, EscapeAt(s, p + 1).value.next);
      hide UnicodeAt;
      var high := s[p + 2..p + 2 + 4];
      if code <= 0xFFFF {
        Spelling.HexReads(s, p + 2, 4, code);
        u := Code(high, code);
        EscapeStands(s, p);
      } else {
        var low := s[p + 8..p + 8 + 4];
        Spelling.HexReads(s, p + 2, 4, 0xD800 + (code - 0x10000) / 0x400);
        Spelling.HexReads(s, p + 8, 4, 0xDC00 + (code - 0x10000) % 0x400);
        u := Pair(high, low, code);
        EscapeStands(s, p);
        EscapeStands(s, p + 6);
        StandsJoin(s, p, [BACKSLASH, 'u' as int] + high, [BACKSLASH, 'u' as int] + low);
      }
    }
  }

  // ---- Strings ----

  function UnitsText(units: seq<Unit>): seq<byte>
  {
    if units == [] then ['"' as int] else UnitText(units[0]) + UnitsText(units[1..])
  }

  ghost predicate AllProper(units: seq<Unit>)
  {
    forall i :: 0 <= i < |units| ==> Proper(units[i])
  }

  /** The octets a string stands for are what its characters stand for, joined. */
  ghost predicate StandFor(units: seq<Unit>, value: seq<byte>)
  {
    if units == [] then value == []
    else exists n :: 0 <= n <= |value| && Stands1(units[0], value[..n]) && StandFor(units[1..], value[n..])
  }

  lemma OneValue(u: Unit, a: seq<byte>, b: seq<byte>)
    requires Stands1(u, a) && Stands1(u, b)
    ensures a == b
  {
    if u.Code? || u.Pair? {
      OneForm(a, u.code);
      OneForm(b, u.code);
    }
  }

  /** What a string stands for is determined. */
  lemma {:induction false} OneMeaning(units: seq<Unit>, v: seq<byte>, w: seq<byte>)
    requires StandFor(units, v) && StandFor(units, w)
    ensures v == w
  {
    if units != [] {
      hide Stands1;
      var m :| 0 <= m <= |v| && Stands1(units[0], v[..m]) && StandFor(units[1..], v[m..]);
      var n :| 0 <= n <= |w| && Stands1(units[0], w[..n]) && StandFor(units[1..], w[n..]);
      OneValue(units[0], v[..m], w[..n]);
      OneMeaning(units[1..], v[m..], w[n..]);
      assert v == v[..m] + v[m..] && w == w[..n] + w[n..];
    }
  }

  lemma StandForMore(u: Unit, rest: seq<Unit>, a: seq<byte>, b: seq<byte>)
    requires Stands1(u, a) && StandFor(rest, b)
    ensures StandFor([u] + rest, a + b)
  {
    hide Stands1;
    assert ([u] + rest)[1..] == rest;
    assert (a + b)[..|a|] == a && (a + b)[|a|..] == b;
  }

  /** A string of these characters is accepted, and taken for what they stand for. */
  lemma {:induction false} StringReads(s: seq<byte>, p: nat, units: seq<Unit>)
    requires AllProper(units) && Stands(s, p, UnitsText(units))
    ensures Decode(s, p).Some? && Decode(s, p).value.next == p + |UnitsText(units)|
    ensures StandFor(units, Decode(s, p).value.value)
    decreases |units|
  {
    hide Proper, Stands1, UnitAt, UnitText;
    if units == [] {
      StandsAt(s, p, UnitsText(units));
      assert s[p] == UnitsText(units)[0];
    } else {
      var u, rest := units[0], units[1..];
      StandsSplit(s, p, UnitText(u), UnitsText(rest));
      UnitReads(s, p, u);
      StringReads(s, p + |UnitText(u)|, rest);
      assert [u] + rest == units;
      StandForMore(u, rest, UnitAt(s, p).value.value, Decode(s, p + |UnitText(u)|).value.value);
    }
  }

  /** Every accepted string is one of these. */
  lemma {:induction false} StringOf(s: seq<byte>, p: nat) returns (units: seq<Unit>)
    requires Decode(s, p).Some?
    ensures AllProper(units) && Stands(s, p, UnitsText(units))
    decreases |s| - p
  {
    hide Proper, Stands1, UnitAt, UnitText;
    if s[p] == QUOTE {
      units := [];
      assert s[p..p + 1] == [s[p]];
    } else {
      var u := UnitOf(s, p);
      UnitReads(s, p, u);
      var rest := StringOf(s, p + |UnitText(u)|);
      units := [u] + rest;
      assert units[1..] == rest;
      assert s[p..p + |UnitText(u) + UnitsText(rest)|] == UnitText(u) + UnitsText(rest);
    }
  }

  ghost predicate IsString(s: seq<byte>, p: nat, units: seq<Unit>, value: seq<byte>, next: nat)
  {
    AllProper(units) && Stands(s, p, UnitsText(units)) && StandFor(units, value) && next == p + |UnitsText(units)|
  }

  /**
   * The decoder accepts exactly the strings of the grammar - octets from the
   * space on as they are, the eight short escapes, \u escapes of code points
   * and surrogate pairs in digits of either case - and gives the octets they
   * stand for and the place behind the closing quote.
   */
  lemma StringExact(s: seq<byte>, p: nat, value: seq<byte>, next: nat)
    ensures Decode(s, p) == Some(Text(value, next)) <==> exists units :: IsString(s, p, units, value, next)
  {
    hide AllProper, StandFor, UnitsText, Stands;
    if Decode(s, p) == Some(Text(value, next)) {
      var units := StringOf(s, p);
      StringReads(s, p, units);
      assert IsString(s, p, units, value, next);
    }
    forall units | IsString(s, p, units, value, next) ensures Decode(s, p) == Some(Text(value, next)) {
      StringReads(s, p, units);
      OneMeaning(units, value, Decode(s, p).value.value);
    }
  }

  // ---- The printed form ----

  /** The digits of a \u escape are in lower case. */
  predicate LowerCase(u: Unit)
  {
    u.Code? ==> forall i :: 0 <= i < |u.hex| ==> !('A' as int <= u.hex[i] <= 'F' as int)
  }

  lemma FourDigits(hex: seq<byte>, code: nat)
    requires |hex| == 4 && Spelling.Spells(hex, code, 16)
    ensures HexValue(hex[0]) == Some(code / 4096) && HexValue(hex[1]) == Some(code / 256 % 16)
    ensures HexValue(hex[2]) == Some(code / 16 % 16) && HexValue(hex[3]) == Some(code % 16)
  {
    hide Spelling.Spells, HexValue;
    assert hex[0..0 + 4] == hex;
    Spelling.HexReads(hex, 0, 4, code);
    Spelling.HexLast(hex, 0, 4, code);
    Spelling.HexLast(hex, 0, 3, code / 16);
    Spelling.HexLast(hex, 0, 2, code / 16 / 16);
    Spelling.HexLast(hex, 0, 1, code / 16 / 16 / 16);
    assert code / 16 / 16 == code / 256 && code / 256 / 16 == code / 4096;
    assert code / 4096 / 16 == 0;
  }

  lemma LowDigit(b: byte, v: nat)
    requires v < 16 && HexValue(b) == Some(v) && !('A' as int <= b <= 'F' as int)
    ensures b == JsonPrint.HexDigit(v)
  {
  }

  lemma CodeIsLong(hex: seq<byte>, c: byte)
    requires Proper(Code(hex, c as int)) && LowerCase(Code(hex, c as int)) && c < 0x20
    ensures hex == [48, 48, JsonPrint.HexDigit(c as int / 16), JsonPrint.HexDigit(c as int % 16)]
  {
    hide Spelling.Spells, HexValue, JsonPrint.HexDigit;
    FourDigits(hex, c as int);
    LowDigit(hex[0], 0);
    LowDigit(hex[1], 0);
    LowDigit(hex[2], c as int / 16);
    LowDigit(hex[3], c as int % 16);
    assert JsonPrint.HexDigit(0) == 48 by {
      ZeroDigit();
    }
  }

  lemma ZeroDigit()
    ensures JsonPrint.HexDigit(0) == 48
  {
  }

  /**
   * The printer writes every octet in its shortest spelling: a character that
   * stands for that octet is at least as long, and one as long is the very
   * same but for the case of hexadecimal digits, which are printed in lower case.
   */
  lemma PrintedShortest(c: byte, u: Unit)
    requires Proper(u) && Stands1(u, [c])
    ensures |UnitText(u)| >= |JsonPrint.Escape(c)|
    ensures |UnitText(u)| == |JsonPrint.Escape(c)| && LowerCase(u) ==> UnitText(u) == JsonPrint.Escape(c)
  {
    hide Spelling.Spells, HexValue, JsonPrint.HexDigit;
    if u.Code? {
      assert u.code == c as int;
      if c < 0x20 && LowerCase(u) {
        CodeIsLong(u.hex, c);
      }
    }
  }
}
