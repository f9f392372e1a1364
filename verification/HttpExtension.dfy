/** Chunk extensions as RFC 9112 section 7.1.1 writes them, all of which the size parser accepts. */
module HttpExtension {
  import opened Common
  import opened HttpText
  import opened Octets
  import Json

  const SEMICOLON: byte := 59
  const EQUALS: byte := 61

  datatype Value = Nothing | Token(gap: seq<byte>, gap2: seq<byte>, text: seq<byte>) | Quoted(gap: seq<byte>, gap2: seq<byte>, letters: seq<Letter>)

  /** One extension: space, a semicolon, space, a name, and perhaps a value behind an equals sign. */
  datatype Ext = Ext(before: seq<byte>, between: seq<byte>, name: seq<byte>, value: Value)

  predicate Blanks(t: seq<byte>)
  {
    forall i :: 0 <= i < |t| ==> Blank(t[i])
  }

  predicate IsName(t: seq<byte>)
  {
    t != [] && forall i :: 0 <= i < |t| ==> IsToken(t[i])
  }

  predicate ProperLetter(x: Letter)
  {
    Printable(x.b) && (x.Plain? ==> x.b != QUOTE && x.b != BACKSLASH)
  }

  predicate ProperValue(v: Value)
  {
    match v
    case Nothing => true
    case Token(gap, gap2, text) => Blanks(gap) && Blanks(gap2) && IsName(text)
    case Quoted(gap, gap2, letters) =>
      Blanks(gap) && Blanks(gap2) && forall i :: 0 <= i < |letters| ==> ProperLetter(letters[i])
  }

  predicate Proper(x: Ext)
  {
    Blanks(x.before) && Blanks(x.between) && IsName(x.name) && ProperValue(x.value)
  }

  /** What stands behind the equals sign and its space. */
  function Core(v: Value): seq<byte>
  {
    match v
    case Nothing => []
    case Token(_, _, text) => text
    case Quoted(_, _, letters) => [QUOTE] + (LettersText(letters) + [QUOTE])
  }

  function ValueText(v: Value): seq<byte>
  {
    if v.Nothing? then [] else v.gap + ([EQUALS] + (v.gap2 + Core(v)))
  }

  function ExtText(x: Ext): seq<byte>
  {
    x.before + ([SEMICOLON] + (x.between + (x.name + ValueText(x.value))))
  }

  function ExtsText(xs: seq<Ext>): seq<byte>
  {
    if xs == [] then [] else ExtText(xs[0]) + ExtsText(xs[1..])
  }

  // ---- Scanning ----

  lemma BlankRun(t: seq<byte>, p: nat, w: seq<byte>)
    requires Stands(t, p, w) && Blanks(w) && !Blank(At(t, p + |w|))
    ensures p + |w| <= |t| && SkipBlank(t, p) == p + |w|
  {
    hide Blank;
    StandsAt(t, p, w);
    var q, r := p + |w|, SkipBlank(t, p);
    forall k | p <= k < q ensures Blank(t[k]) {
      assert t[p + (k - p)] == w[k - p];
    }
    // the octets at the two ends tell them apart
    var here, there := At(t, q), At(t, r);
  }

  lemma TokenRun(t: seq<byte>, p: nat, w: seq<byte>)
    requires Stands(t, p, w) && IsName(w) && !IsToken(At(t, p + |w|))
    ensures p + |w| <= |t| && SkipToken(t, p) == p + |w|
  {
    hide IsToken;
    StandsAt(t, p, w);
    var q, r := p + |w|, SkipToken(t, p);
    forall k | p <= k < q ensures IsToken(t[k]) {
      assert t[p + (k - p)] == w[k - p];
    }
    // the octets at the two ends tell them apart
    var here, there := At(t, q), At(t, r);
  }

  /** One character of a quoted string is passed over. */
  lemma LetterRead(t: seq<byte>, p: nat, x: Letter)
    requires Stands(t, p, LetterText(x)) && ProperLetter(x)
    ensures QuotedEnd(t, p) == QuotedEnd(t, p + |LetterText(x)|)
  {
    hide Stands, Printable;
    if x.Plain? {
      One(t, p, x.b);
    } else {
      assert LetterText(x) == [BACKSLASH] + [x.b];
      StandsSplit(t, p, [BACKSLASH], [x.b]);
      One(t, p, BACKSLASH);
      One(t, p + 1, x.b);
    }
  }

  lemma {:induction false} LettersRead(t: seq<byte>, p: nat, xs: seq<Letter>)
    requires Stands(t, p, LettersText(xs) + [QUOTE]) && forall i :: 0 <= i < |xs| ==> ProperLetter(xs[i])
    ensures QuotedEnd(t, p) == Some(p + |LettersText(xs)| + 1)
    decreases |xs|
  {
    hide Stands, ProperLetter, LetterText;
    if xs == [] {
      assert LettersText(xs) + [QUOTE] == [QUOTE];
      One(t, p, QUOTE);
    } else {
      hide QuotedEnd;
      var first, rest := LetterText(xs[0]), LettersText(xs[1..]);
      ConcatAssociative(first, rest, [QUOTE]);
      StandsSplit(t, p, first, rest + [QUOTE]);
      LetterRead(t, p, xs[0]);
      LettersRead(t, p + |first|, xs[1..]);
    }
  }

  lemma One(t: seq<byte>, p: nat, b: byte)
    requires Stands(t, p, [b])
    ensures p < |t| && t[p] == b && At(t, p) == b
  {
    StandsAt(t, p, [b]);
    assert t[p + 0] == [b][0];
  }

  lemma First(t: seq<byte>, p: nat, w: seq<byte>)
    requires Stands(t, p, w) && w != []
    ensures p + |w| <= |t| && At(t, p) == w[0]
  {
    StandsAt(t, p, w);
    assert t[p + 0] == w[0];
  }

  /** What may follow an extension: the next one, or the end of the line. */
  predicate Stop(t: seq<byte>, p: nat)
  {
    p <= |t| && (SkipBlank(t, p) == |t| || t[SkipBlank(t, p)] == SEMICOLON)
  }

  lemma StopClass(t: seq<byte>, p: nat)
    requires Stop(t, p)
    ensures !IsToken(At(t, p)) && (Blank(At(t, p)) || At(t, p) == SEMICOLON || At(t, p) == 0)
    ensures At(t, SkipBlank(t, p)) != EQUALS
  {
    var q := SkipBlank(t, p);
    if p < q {
      assert Blank(t[p]);
    }
  }

  lemma Classes(b: byte)
    ensures IsToken(b) ==> !Blank(b) && b != EQUALS && b != SEMICOLON && b != QUOTE && b != 0
    ensures !Blank(EQUALS) && !Blank(SEMICOLON) && !Blank(QUOTE) && !IsToken(EQUALS)
    ensures Blank(b) ==> !IsToken(b)
    ensures b == 0 || b == SEMICOLON ==> !IsToken(b) && !Blank(b)
  {
  }

  /** A value is read to its end. */
  lemma CoreRead(t: seq<byte>, p: nat, v: Value)
    requires !v.Nothing? && ProperValue(v) && Stands(t, p, Core(v)) && Stop(t, p + |Core(v)|)
    ensures p + |Core(v)| <= |t| && !Blank(At(t, p)) && ExtensionValue(t, p) == Some(p + |Core(v)|)
  {
    hide Stands, Blanks, IsToken, Blank, SkipToken, SkipBlank, QuotedEnd, Stop;
    StopClass(t, p + |Core(v)|);
    First(t, p, Core(v));
    Classes(At(t, p));
    if v.Token? {
      TokenRun(t, p, v.text);
      assert IsToken(v.text[0]);
    } else {
      var rest := LettersText(v.letters) + [QUOTE];
      StandsSplit(t, p, [QUOTE], rest);
      One(t, p, QUOTE);
      LettersRead(t, p + 1, v.letters);
    }
  }

  /** The part behind the name. */
  lemma ValueRead(t: seq<byte>, p: nat, v: Value)
    requires !v.Nothing? && ProperValue(v) && Stands(t, p, ValueText(v)) && Stop(t, p + |ValueText(v)|)
    ensures !IsToken(At(t, p))
    ensures var eq := p + |v.gap|;
            && eq < |t| && SkipBlank(t, p) == eq && At(t, eq) == EQUALS
            && ExtensionValue(t, SkipBlank(t, eq + 1)) == Some(p + |ValueText(v)|)
  {
    hide Stands, Blanks, IsToken, Blank, At, SkipBlank, ExtensionValue, Core, Stop, ProperValue, ValueText;
    var eq := p + |v.gap|;
    ValueSplits(t, p, v);
    One(t, eq, EQUALS);
    Classes(EQUALS);
    BlanksOf(v);
    BlankRun(t, p, v.gap);
    CoreRead(t, eq + 1 + |v.gap2|, v);
    BlankRun(t, eq + 1, v.gap2);
    if v.gap != [] {
      First(t, p, v.gap);
      Classes(At(t, p));
    }
  }

  lemma ValueSplits(t: seq<byte>, p: nat, v: Value)
    requires !v.Nothing? && Stands(t, p, ValueText(v))
    ensures var eq := p + |v.gap|;
            && Stands(t, p, v.gap) && Stands(t, eq, [EQUALS]) && Stands(t, eq + 1, v.gap2)
            && Stands(t, eq + 1 + |v.gap2|, Core(v)) && p + |ValueText(v)| == eq + 1 + |v.gap2| + |Core(v)|
  {
    hide Stands, Core;
    var eq := p + |v.gap|;
    var core := v.gap2 + Core(v);
    var rest := [EQUALS] + core;
    assert ValueText(v) == v.gap + rest;
    hide ValueText;
    StandsSplit(t, p, v.gap, rest);
    StandsSplit(t, eq, [EQUALS], core);
    StandsSplit(t, eq + 1, v.gap2, Core(v));
  }

  lemma BlanksOf(v: Value)
    requires !v.Nothing? && ProperValue(v)
    ensures Blanks(v.gap) && Blanks(v.gap2)
  {
  }

  /** One extension is read to its end, or past the space behind a bare name. */
  lemma ExtRead(t: seq<byte>, p: nat, x: Ext)
    requires Proper(x) && Stands(t, p, ExtText(x)) && Stop(t, p + |ExtText(x)|)
    ensures p < p + |ExtText(x)| <= |t|
    ensures Extension(t, p) == Some(if x.value.Nothing? then SkipBlank(t, p + |ExtText(x)|) else p + |ExtText(x)|)
  {
    hide Stands, Blanks, IsName, IsToken, Blank, At, SkipToken, SkipBlank, ExtensionValue, Extension, ProperValue, ValueText, ExtText, Stop;
    var semi := p + |x.before|;
    var name := semi + 1 + |x.between|;
    var after := name + |x.name|;
    ExtSplits(t, p, x);
    One(t, semi, SEMICOLON);
    Classes(SEMICOLON);
    BlankRun(t, p, x.before);
    NameStarts(x.name);
    First(t, name, x.name);
    Classes(At(t, name));
    BlankRun(t, semi + 1, x.between);
    StopClass(t, p + |ExtText(x)|);
    if x.value.Nothing? {
      NothingText(x.value);
    } else {
      ValueRead(t, after, x.value);
    }
    TokenRun(t, name, x.name);
    ExtSteps(t, p, semi, name, after);
  }

  lemma ExtSplits(t: seq<byte>, p: nat, x: Ext)
    requires Stands(t, p, ExtText(x))
    ensures var semi := p + |x.before|;
            var name := semi + 1 + |x.between|;
            var after := name + |x.name|;
            && Stands(t, p, x.before) && Stands(t, semi, [SEMICOLON]) && Stands(t, semi + 1, x.between)
            && Stands(t, name, x.name) && Stands(t, after, ValueText(x.value))
            && p + |ExtText(x)| == after + |ValueText(x.value)| <= |t|
  {
    hide Stands, ValueText;
    var semi := p + |x.before|;
    var name := semi + 1 + |x.between|;
    StandsSplit(t, p, x.before, [SEMICOLON] + (x.between + (x.name + ValueText(x.value))));
    StandsSplit(t, semi, [SEMICOLON], x.between + (x.name + ValueText(x.value)));
    StandsSplit(t, semi + 1, x.between, x.name + ValueText(x.value));
    StandsSplit(t, name, x.name, ValueText(x.value));
    StandsAt(t, name + |x.name|, ValueText(x.value));
  }

  /** The steps of the scan of one extension, put together. */
  lemma ExtSteps(t: seq<byte>, p: nat, semi: nat, name: nat, after: nat)
    requires p <= semi < |t| && SkipBlank(t, p) == semi && t[semi] == SEMICOLON
    requires SkipBlank(t, semi + 1) == name && name < after <= |t| && SkipToken(t, name) == after
    ensures Extension(t, p)
            == (var eq := SkipBlank(t, after);
                if At(t, eq) != EQUALS then Some(eq) else ExtensionValue(t, SkipBlank(t, eq + 1)))
  {
    hide SkipBlank, SkipToken, ExtensionValue;
  }

  lemma NothingText(v: Value)
    requires v.Nothing?
    ensures ValueText(v) == []
  {
  }

  lemma NameStarts(w: seq<byte>)
    requires IsName(w)
    ensures w != [] && IsToken(w[0])
  {
  }

  /** What follows an extension, when another one does, begins with that one's space and semicolon. */
  lemma NextStops(t: seq<byte>, p: nat, xs: seq<Ext>)
    requires Stands(t, p, ExtsText(xs)) && (xs == [] ==> p == |t|) && forall i :: 0 <= i < |xs| ==> Proper(xs[i])
    ensures Stop(t, p)
    ensures xs != [] ==> SkipBlank(t, p) < |t|
  {
    if xs == [] {
      assert SkipBlank(t, p) == |t|;
    } else {
      hide Stands, ExtText;
      StandsSplit(t, p, ExtText(xs[0]), ExtsText(xs[1..]));
      assert Proper(xs[0]);
      OneStops(t, p, xs[0]);
    }
  }

  lemma OneStops(t: seq<byte>, p: nat, x: Ext)
    requires Proper(x) && Stands(t, p, ExtText(x))
    ensures p <= |t| && SkipBlank(t, p) < |t| && Stop(t, p)
  {
    hide Stands, Blanks, Blank, SkipBlank, ProperValue, ExtText, IsName;
    var semi := p + |x.before|;
    ExtSplits(t, p, x);
    One(t, semi, SEMICOLON);
    Classes(SEMICOLON);
    BlankRun(t, p, x.before);
  }

  /**
   * From p on the text is these extensions, and perhaps space behind them.
   * The grammar has no such space; the parser takes it behind a bare name.
   */
  predicate Spells(t: seq<byte>, p: nat, xs: seq<Ext>, trail: seq<byte>)
  {
    && (forall i :: 0 <= i < |xs| ==> Proper(xs[i]))
    && Blanks(trail) && (trail != [] ==> xs != [] && xs[|xs| - 1].value.Nothing?)
    && Stands(t, p, ExtsText(xs) + trail) && p + |ExtsText(xs) + trail| == |t|
  }

  lemma SpellsFirst(t: seq<byte>, p: nat, xs: seq<Ext>, trail: seq<byte>)
    requires Spells(t, p, xs, trail) && xs != []
    ensures var q := p + |ExtText(xs[0])|;
            && Stands(t, p, ExtText(xs[0])) && Stands(t, q, ExtsText(xs[1..])) && q <= |t|
            && (|xs| > 1 || trail == [] ==> Spells(t, q, xs[1..], trail))
            && (|xs| == 1 ==> Stands(t, q, trail) && q + |trail| == |t|)
  {
    hide Stands, Proper, ExtText, Blanks;
    var x, rest := ExtText(xs[0]), ExtsText(xs[1..]);
    ConcatAssociative(x, rest, trail);
    StandsSplit(t, p, x, rest + trail);
    StandsSplit(t, p + |x|, rest, trail);
    if |xs| == 1 {
      assert rest == [] && rest + trail == trail;
    }
  }

  /** Every list of well-formed extensions, quoted values and space included, is accepted to the end of the line. */
  lemma {:induction false} ExtensionsAccepted(t: seq<byte>, p: nat, xs: seq<Ext>, trail: seq<byte>)
    requires p <= |t| && Spells(t, p, xs, trail)
    ensures Extensions(t, p)
    decreases |xs|
  {
    hide Stands, Proper, Extension, SkipBlank, ExtText, Blanks;
    if xs != [] {
      var q := p + |ExtText(xs[0])|;
      SpellsFirst(t, p, xs, trail);
      assert Proper(xs[0]);
      if |xs| == 1 && trail != [] {
        BlanksToEnd(t, q, trail);
        ExtRead(t, p, xs[0]);
      } else {
        NextStops(t, q, xs[1..]);
        ExtensionsAccepted(t, q, xs[1..], trail);
        ExtRead(t, p, xs[0]);
        if xs[0].value.Nothing? {
          PastSpace(t, q, xs[1..] == []);
        }
      }
    }
  }

  lemma BlanksToEnd(t: seq<byte>, q: nat, trail: seq<byte>)
    requires Stands(t, q, trail) && Blanks(trail) && q + |trail| == |t|
    ensures q <= |t| && SkipBlank(t, q) == |t| && Stop(t, q)
  {
    BlankRun(t, q, trail);
  }

  lemma PastSpace(t: seq<byte>, q: nat, last: bool)
    requires q <= |t| && Extensions(t, q) && (if last then q == |t| else SkipBlank(t, q) < |t|)
    ensures Extensions(t, SkipBlank(t, q))
  {
    hide SkipBlank, SkipToken, ExtensionValue, Extension, Blank;
    var r := SkipBlank(t, q);
    SameExtension(t, q, r);
  }

  lemma SameExtension(t: seq<byte>, q: nat, r: nat)
    requires q <= |t| && r <= |t| && SkipBlank(t, q) == SkipBlank(t, r)
    ensures Extension(t, q) == Extension(t, r)
  {
    hide SkipBlank, SkipToken, ExtensionValue, Blank, IsToken;
  }

  /** A size with any extensions is read as that size. */
  lemma SizeWithExtensions(digits: seq<byte>, xs: seq<Ext>, n: nat)
    requires digits != [] && n < TWO64 && Json.HexNumber(digits, 0, |digits|) == Some(n)
    requires forall i :: 0 <= i < |xs| ==> Proper(xs[i])
    ensures ChunkSize(digits + ExtsText(xs)) == Some(n)
  {
    hide Extensions, Stands, Proper, Stop, ExtsText, HexEnd, ChunkSize;
    var t := digits + ExtsText(xs);
    var m := |digits|;
    DigitsAhead(digits, ExtsText(xs), m);
    ExtsPlace(digits, xs);
    NextStops(t, m, xs);
    StopIsNoDigit(t, m);
    ExtsSpell(t, m, xs);
    ExtensionsAccepted(t, m, xs, []);
    SizeAndRest(t, m, n);
  }

  lemma SizeAndRest(t: seq<byte>, m: nat, n: nat)
    requires 0 < m <= |t| && n < TWO64 && Json.HexNumber(t, 0, m) == Some(n)
    requires Json.HexValue(At(t, m)).None? && Extensions(t, m)
    ensures ChunkSize(t) == Some(n)
  {
    hide Extensions, Json.HexNumber, Json.HexValue, HexEnd;
    AllDigits(t, m);
    var e := HexEnd(t, 0);
    // the octets at the two ends tell them apart
    var there, here := At(t, e), At(t, m);
  }

  lemma ExtsSpell(t: seq<byte>, p: nat, xs: seq<Ext>)
    requires Stands(t, p, ExtsText(xs)) && p + |ExtsText(xs)| == |t| && forall i :: 0 <= i < |xs| ==> Proper(xs[i])
    ensures Spells(t, p, xs, [])
  {
    hide ExtsText, Proper;
    assert ExtsText(xs) + [] == ExtsText(xs);
  }

  lemma ExtsPlace(digits: seq<byte>, xs: seq<Ext>)
    ensures Stands(digits + ExtsText(xs), |digits|, ExtsText(xs))
    ensures xs == [] ==> |digits + ExtsText(xs)| == |digits|
  {
  }

  lemma StopIsNoDigit(t: seq<byte>, p: nat)
    requires Stop(t, p)
    ensures Json.HexValue(At(t, p)).None?
  {
    StopClass(t, p);
  }

  lemma {:induction false} DigitsAhead(digits: seq<byte>, rest: seq<byte>, n: nat)
    requires n <= |digits|
    ensures Json.HexNumber(digits + rest, 0, n) == Json.HexNumber(digits, 0, n)
  {
    if n > 0 {
      DigitsAhead(digits, rest, n - 1);
    }
  }

  // ---- Nothing else is accepted ----

  lemma StandsSlice(t: seq<byte>, p: nat, q: nat)
    requires p <= q <= |t|
    ensures Stands(t, p, t[p..q])
  {
  }

  lemma StandsOnly(t: seq<byte>, p: nat)
    requires p < |t|
    ensures Stands(t, p, [t[p]])
  {
    assert t[p..p + 1] == [t[p]];
  }

  /** One character of a scanned quoted string. */
  lemma LetterIs(t: seq<byte>, p: nat) returns (x: Letter)
    requires QuotedEnd(t, p).Some? && At(t, p) != QUOTE
    ensures ProperLetter(x) && Stands(t, p, LetterText(x)) && 0 < |LetterText(x)| <= |t| - p
    ensures QuotedEnd(t, p) == QuotedEnd(t, p + |LetterText(x)|)
  {
    hide Printable, Stands;
    if At(t, p) == BACKSLASH {
      x := Slashed(t[p + 1]);
      StandsOnly(t, p);
      StandsOnly(t, p + 1);
      StandsJoin(t, p, [BACKSLASH], [t[p + 1]]);
      assert [BACKSLASH] + [t[p + 1]] == LetterText(x);
    } else {
      x := Plain(t[p]);
      StandsOnly(t, p);
    }
  }

  /** What a scanned quoted string is made of. */
  lemma {:induction false} QuotedIs(t: seq<byte>, p: nat) returns (xs: seq<Letter>)
    requires QuotedEnd(t, p).Some?
    ensures (forall i :: 0 <= i < |xs| ==> ProperLetter(xs[i])) && Stands(t, p, LettersText(xs) + [QUOTE])
    ensures QuotedEnd(t, p) == Some(p + |LettersText(xs) + [QUOTE]|)
    decreases |t| - p
  {
    hide Stands, ProperLetter, LetterText;
    if At(t, p) == QUOTE {
      xs := [];
      StandsOnly(t, p);
      assert LettersText(xs) + [QUOTE] == [QUOTE];
    } else {
      var x := LetterIs(t, p);
      hide QuotedEnd;
      var rest := QuotedIs(t, p + |LetterText(x)|);
      xs := [x] + rest;
      assert xs[1..] == rest;
      StandsJoin(t, p, LetterText(x), LettersText(rest) + [QUOTE]);
      ConcatAssociative(LetterText(x), LettersText(rest), [QUOTE]);
    }
  }

  lemma BlankSlice(t: seq<byte>, p: nat)
    requires p <= |t|
    ensures Blanks(t[p..SkipBlank(t, p)]) && Stands(t, p, t[p..SkipBlank(t, p)])
  {
    hide Blank;
    StandsSlice(t, p, SkipBlank(t, p));
  }

  lemma TokenSlice(t: seq<byte>, p: nat)
    requires p <= |t| && SkipToken(t, p) > p
    ensures IsName(t[p..SkipToken(t, p)]) && Stands(t, p, t[p..SkipToken(t, p)])
  {
    hide IsToken;
    StandsSlice(t, p, SkipToken(t, p));
  }

  lemma ExtensionValueIs(t: seq<byte>, p: nat)
    requires p <= |t| && ExtensionValue(t, p).Some?
    ensures At(t, p) == QUOTE ==> p < |t| && t[p] == QUOTE && ExtensionValue(t, p) == QuotedEnd(t, p + 1)
    ensures At(t, p) != QUOTE ==> SkipToken(t, p) > p && ExtensionValue(t, p) == Some(SkipToken(t, p))
  {
    hide SkipToken, QuotedEnd;
  }

  /** What a scanned value is. */
  lemma ValueIs(t: seq<byte>, gap: seq<byte>, gap2: seq<byte>, p: nat) returns (v: Value)
    requires p <= |t| && ExtensionValue(t, p).Some? && Blanks(gap) && Blanks(gap2)
    ensures !v.Nothing? && ProperValue(v) && v.gap == gap && v.gap2 == gap2
    ensures Stands(t, p, Core(v)) && ExtensionValue(t, p) == Some(p + |Core(v)|)
  {
    hide Blanks, SkipToken, IsName, ProperLetter, LettersText, QuotedEnd, Stands, ExtensionValue, At;
    ExtensionValueIs(t, p);
    if At(t, p) == QUOTE {
      var xs := QuotedCore(t, p);
      v := Quoted(gap, gap2, xs);
    } else {
      TokenSlice(t, p);
      v := Token(gap, gap2, t[p..SkipToken(t, p)]);
    }
  }

  lemma QuotedCore(t: seq<byte>, p: nat) returns (xs: seq<Letter>)
    requires p < |t| && t[p] == QUOTE && QuotedEnd(t, p + 1).Some?
    ensures (forall i :: 0 <= i < |xs| ==> ProperLetter(xs[i])) && Stands(t, p, [QUOTE] + (LettersText(xs) + [QUOTE]))
    ensures QuotedEnd(t, p + 1) == Some(p + |[QUOTE] + (LettersText(xs) + [QUOTE])|)
  {
    hide ProperLetter, LettersText, QuotedEnd, Stands;
    xs := QuotedIs(t, p + 1);
    StandsOnly(t, p);
    StandsJoin(t, p, [QUOTE], LettersText(xs) + [QUOTE]);
  }

  /** Where the scan of one extension found its parts. */
  predicate Parts(t: seq<byte>, p: nat, semi: nat, name: nat, after: nat)
  {
    && p <= semi < name < after <= |t|
    && SkipBlank(t, p) == semi && At(t, semi) == SEMICOLON
    && SkipBlank(t, semi + 1) == name && SkipToken(t, name) == after
  }

  lemma ExtensionParts(t: seq<byte>, p: nat) returns (semi: nat, name: nat, after: nat)
    requires p <= |t| && Extension(t, p).Some?
    ensures Parts(t, p, semi, name, after)
    ensures Extension(t, p)
            == (var eq := SkipBlank(t, after);
                if At(t, eq) != EQUALS then Some(eq) else ExtensionValue(t, SkipBlank(t, eq + 1)))
  {
    hide SkipToken, ExtensionValue, Blank, IsToken;
    semi := SkipBlank(t, p);
    name := SkipBlank(t, semi + 1);
    after := SkipToken(t, name);
  }

  /** The head of an extension: from the end of the one before it to the end of its name. */
  lemma HeadIs(t: seq<byte>, p: nat, semi: nat, name: nat, after: nat)
    requires Parts(t, p, semi, name, after)
    ensures Blanks(t[p..semi]) && Blanks(t[semi + 1..name]) && IsName(t[name..after])
    ensures Stands(t, p, t[p..semi]) && Stands(t, semi, [SEMICOLON])
    ensures Stands(t, semi + 1, t[semi + 1..name]) && Stands(t, name, t[name..after])
  {
    hide Blanks, IsName, SkipBlank, SkipToken;
    BlankSlice(t, p);
    BlankSlice(t, semi + 1);
    TokenSlice(t, name);
    StandsOnly(t, semi);
  }

  lemma ExtJoined(t: seq<byte>, p: nat, x: Ext)
    requires Stands(t, p, x.before) && Stands(t, p + |x.before|, [SEMICOLON])
    requires Stands(t, p + |x.before| + 1, x.between) && Stands(t, p + |x.before| + 1 + |x.between|, x.name)
    requires Stands(t, p + |x.before| + 1 + |x.between| + |x.name|, ValueText(x.value))
    ensures Stands(t, p, ExtText(x))
    ensures |ExtText(x)| == |x.before| + 1 + |x.between| + |x.name| + |ValueText(x.value)|
  {
    hide Stands, ValueText;
    var semi := p + |x.before|;
    var name := semi + 1 + |x.between|;
    StandsJoin(t, name, x.name, ValueText(x.value));
    StandsJoin(t, semi + 1, x.between, x.name + ValueText(x.value));
    StandsJoin(t, semi, [SEMICOLON], x.between + (x.name + ValueText(x.value)));
    StandsJoin(t, p, x.before, [SEMICOLON] + (x.between + (x.name + ValueText(x.value))));
  }

  lemma ValueJoined(t: seq<byte>, p: nat, v: Value)
    requires !v.Nothing? && Stands(t, p, v.gap) && Stands(t, p + |v.gap|, [EQUALS])
    requires Stands(t, p + |v.gap| + 1, v.gap2) && Stands(t, p + |v.gap| + 1 + |v.gap2|, Core(v))
    ensures Stands(t, p, ValueText(v)) && |ValueText(v)| == |v.gap| + 1 + |v.gap2| + |Core(v)|
  {
    hide Stands, Core;
    StandsJoin(t, p + |v.gap| + 1, v.gap2, Core(v));
    StandsJoin(t, p + |v.gap|, [EQUALS], v.gap2 + Core(v));
    StandsJoin(t, p, v.gap, [EQUALS] + (v.gap2 + Core(v)));
  }

  /** What a scanned value, with the equals sign and the space around it, is. */
  lemma ValuePart(t: seq<byte>, after: nat) returns (v: Value)
    requires after <= |t| && SkipBlank(t, after) < |t| && At(t, SkipBlank(t, after)) == EQUALS
    requires ExtensionValue(t, SkipBlank(t, SkipBlank(t, after) + 1)).Some?
    ensures !v.Nothing? && ProperValue(v) && Stands(t, after, ValueText(v))
    ensures ExtensionValue(t, SkipBlank(t, SkipBlank(t, after) + 1)) == Some(after + |ValueText(v)|)
  {
    hide Stands, Blanks, SkipBlank, ExtensionValue, ProperValue, ValueText, Core;
    var eq := SkipBlank(t, after);
    var start := SkipBlank(t, eq + 1);
    BlankSlice(t, after);
    BlankSlice(t, eq + 1);
    v := ValueIs(t, t[after..eq], t[eq + 1..start], start);
    StandsOnly(t, eq);
    ValueJoined(t, after, v);
  }

  /** What a scanned extension is; the space behind a bare name is left to what follows. */
  lemma ExtensionIs(t: seq<byte>, p: nat) returns (x: Ext, q: nat)
    requires p <= |t| && Extension(t, p).Some?
    ensures Proper(x) && Stands(t, p, ExtText(x)) && p < q == p + |ExtText(x)| <= |t|
    ensures Extension(t, p) == Some(if x.value.Nothing? then SkipBlank(t, q) else q)
  {
    hide Stands, Blanks, IsName, SkipBlank, SkipToken, ExtensionValue, Extension, ValueText, ExtText, ProperValue;
    var semi, name, after := ExtensionParts(t, p);
    HeadIs(t, p, semi, name, after);
    var eq := SkipBlank(t, after);
    if At(t, eq) != EQUALS {
      x := Ext(t[p..semi], t[semi + 1..name], t[name..after], Nothing);
      NoValue(t, after);
    } else {
      var v := ValuePart(t, after);
      x := Ext(t[p..semi], t[semi + 1..name], t[name..after], v);
    }
    ExtJoined(t, p, x);
    q := p + |ExtText(x)|;
    StandsAt(t, p, ExtText(x));
  }

  lemma NoValue(t: seq<byte>, p: nat)
    requires p <= |t|
    ensures Stands(t, p, ValueText(Nothing)) && ValueText(Nothing) == [] && ProperValue(Nothing)
  {
  }

  /** What is scanned from q on, with the space in front of it since p, is a list of extensions. */
  lemma {:induction false} ExtensionsAre(t: seq<byte>, p: nat, q: nat) returns (xs: seq<Ext>, trail: seq<byte>)
    requires p <= q <= |t| && Extensions(t, q) && (q == p || q == SkipBlank(t, p))
    ensures (forall i :: 0 <= i < |xs| ==> Proper(xs[i])) && Blanks(trail)
    ensures trail != [] ==> if xs == [] then q > p else xs[|xs| - 1].value.Nothing?
    ensures Stands(t, p, ExtsText(xs) + trail) && p + |ExtsText(xs) + trail| == |t|
    decreases |t| - q
  {
    hide Stands, Blanks, SkipBlank, Extension, Proper, ExtText;
    if q == |t| {
      xs, trail := [], t[p..];
      assert ExtsText(xs) + trail == trail == t[p..q];
      StandsSlice(t, p, q);
      if q == p {
        assert trail == [];
      } else {
        BlankSlice(t, p);
      }
      EmptyBlanks();
    } else {
      SameStart(t, p, q);
      var x, end := ExtensionIs(t, p);
      var rest;
      rest, trail := ExtensionsAre(t, end, Extension(t, p).value);
      xs := [x] + rest;
      StandsJoin(t, p, ExtText(x), ExtsText(rest) + trail);
      ConcatAssociative(ExtText(x), ExtsText(rest), trail);
      assert xs[1..] == rest;
      assert rest != [] ==> xs[|xs| - 1] == rest[|rest| - 1];
    }
  }

  lemma EmptyBlanks()
    ensures Blanks([])
  {
  }

  /** Space in front of an extension belongs to it. */
  lemma SameStart(t: seq<byte>, p: nat, q: nat)
    requires p <= q < |t| && Extensions(t, q) && (q == p || q == SkipBlank(t, p))
    ensures Extension(t, p) == Extension(t, q) && Extension(t, q).Some? && Extensions(t, Extension(t, q).value)
  {
    hide SkipToken, ExtensionValue, Extension;
    if q != p {
      assert SkipBlank(t, q) == q;
      SameExtension(t, p, q);
    }
  }

  /**
   * The parser accepts exactly the extensions RFC 9112 section 7.1.1 allows,
   * and besides them only space at the end of a line behind a bare name.
   */
  lemma ExtensionsExact(t: seq<byte>, p: nat)
    requires p <= |t|
    ensures Extensions(t, p) <==> exists xs, trail :: Spells(t, p, xs, trail)
  {
    hide Stands, Proper, Blanks, Extensions, ExtsText;
    if Extensions(t, p) {
      var xs, trail := ExtensionsAre(t, p, p);
      assert Spells(t, p, xs, trail);
    }
    if xs, trail :| Spells(t, p, xs, trail) {
      ExtensionsAccepted(t, p, xs, trail);
    }
  }
}
