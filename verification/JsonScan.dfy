/** The scanner that skips one JSON value without decoding it. */
module JsonScan {
  import opened Common
  import opened Json
  import opened JsonPrint
  import opened Octets

  predicate Opens(b: byte)
  {
    b == 123 || b == 91
  }

  predicate Closes(b: byte)
  {
    b == 125 || b == 93
  }

  const COMMA: byte := 44

  /** What the first octet of the value says about it. */
  datatype Shape = Container | Quoted | Bare

  function ShapeOf(b: byte): Shape
  {
    if Opens(b) then Container else if b == QUOTE then Quoted else Bare
  }

  /** The scan from p on: where the value ends, or None when it is cut short. */
  function Scan(s: seq<byte>, p: nat, depth: nat, quoted: bool, shape: Shape): (end: Option<nat>)
    requires p <= |s|
    ensures end.Some? ==> p <= end.value <= |s|
    decreases |s| - p
  {
    if p == |s| then (if shape != Container && !quoted then Some(p) else None)
    else if quoted then
      if s[p] == BACKSLASH then (if p + 1 == |s| then None else Scan(s, p + 2, depth, true, shape))
      else if s[p] == QUOTE then
        if shape == Quoted && depth == 0 then Some(p + 1) else Scan(s, p + 1, depth, false, shape)
      else Scan(s, p + 1, depth, true, shape)
    else if s[p] == QUOTE then Scan(s, p + 1, depth, true, shape)
    else if Opens(s[p]) then Scan(s, p + 1, depth + 1, false, shape)
    else if Closes(s[p]) then
      if depth == 0 then Some(p)
      else if depth == 1 && shape == Container then Some(p + 1)
      else Scan(s, p + 1, depth - 1, false, shape)
    else if s[p] == COMMA && depth == 0 then Some(p)
    else Scan(s, p + 1, depth, false, shape)
  }

  function ValueEndOf(s: seq<byte>, p: nat): Option<nat>
    requires p < |s|
  {
    Scan(s, p, 0, false, ShapeOf(s[p]))
  }

  /** The loop over the octets, with its depth and its quoting. */
  method ValueEnd(s: seq<byte>, start: nat) returns (end: Option<nat>)
    requires start < |s|
    ensures end == ValueEndOf(s, start)
  {
    var p, depth, quoted, shape := start, 0, false, ShapeOf(s[start]);
    while p < |s|
      invariant start <= p <= |s|
      invariant Scan(s, p, depth, quoted, shape) == ValueEndOf(s, start)
    {
      if quoted {
        if s[p] == BACKSLASH {
          p := p + 1;
          if p == |s| {
            return None;
          }
        } else if s[p] == QUOTE {
          quoted := false;
          if shape == Quoted && depth == 0 {
            return Some(p + 1);
          }
        }
      } else if s[p] == QUOTE {
        quoted := true;
      } else if Opens(s[p]) {
        depth := depth + 1;
      } else if Closes(s[p]) {
        if depth == 0 {
          return Some(p);
        }
        depth := depth - 1;
        if depth == 0 && shape == Container {
          return Some(p + 1);
        }
      } else if s[p] == COMMA && depth == 0 {
        return Some(p);
      }
      p := p + 1;
    }
    end := if shape != Container && !quoted then Some(p) else None;
  }

  // ---- What JSON text looks like ----

  /** The parts a container is made of: octets between its values, strings, and containers. */
  datatype Piece = Raw(b: byte) | Text(letters: seq<Letter>) | Nested(square: bool, body: seq<Piece>)

  predicate Proper(x: Letter)
  {
    x.Plain? ==> x.b != QUOTE && x.b != BACKSLASH
  }

  predicate WellMade(x: Piece)
  {
    match x
    case Raw(b) => b != QUOTE && !Opens(b) && !Closes(b)
    case Text(letters) => forall i :: 0 <= i < |letters| ==> Proper(letters[i])
    case Nested(_, body) => forall i :: 0 <= i < |body| ==> WellMade(body[i])
  }

  function PieceText(x: Piece): (t: seq<byte>)
    ensures t != []
    decreases x, 0
  {
    match x
    case Raw(b) => [b]
    case Text(letters) => [QUOTE] + (LettersText(letters) + [QUOTE])
    case Nested(square, body) =>
      [if square then 91 else 123] + (PiecesText(body) + [if square then 93 else 125])
  }

  function PiecesText(xs: seq<Piece>): seq<byte>
    decreases xs, 1
  {
    if xs == [] then [] else PieceText(xs[0]) + PiecesText(xs[1..])
  }

  /** Inside a string the scan reaches the closing quote, whatever brackets, commas and escaped quotes lie between. */
  lemma {:induction false} ScanLetters(s: seq<byte>, p: nat, depth: nat, shape: Shape, xs: seq<Letter>)
    requires Stands(s, p, LettersText(xs)) && forall i :: 0 <= i < |xs| ==> Proper(xs[i])
    ensures Scan(s, p, depth, true, shape) == Scan(s, p + |LettersText(xs)|, depth, true, shape)
    decreases |xs|
  {
    if xs != [] {
      var first := LetterText(xs[0]);
      StandsSplit(s, p, first, LettersText(xs[1..]));
      StandsAt(s, p, first);
      assert Proper(xs[0]);
      ScanLetters(s, p + |first|, depth, shape, xs[1..]);
    }
  }

  /** A whole string is passed over, below the top level or in a value that is no string. */
  lemma ScanText(s: seq<byte>, p: nat, depth: nat, shape: Shape, x: Piece)
    requires x.Text? && WellMade(x) && Stands(s, p, PieceText(x)) && (shape != Quoted || depth > 0)
    ensures Scan(s, p, depth, false, shape) == Scan(s, p + |PieceText(x)|, depth, false, shape)
  {
    hide Stands, LettersText;
    var t := LettersText(x.letters);
    StandsSplit(s, p, [QUOTE], t + [QUOTE]);
    StandsSplit(s, p + 1, t, [QUOTE]);
    StandsAt(s, p, [QUOTE]);
    StandsAt(s, p + 1 + |t|, [QUOTE]);
    ScanLetters(s, p + 1, depth, shape, x.letters);
  }

  /** Any piece below the top level is passed over and leaves the depth as it was. */
  lemma {:induction false} ScanPiece(s: seq<byte>, p: nat, depth: nat, shape: Shape, x: Piece)
    requires WellMade(x) && Stands(s, p, PieceText(x)) && depth > 0
    ensures Scan(s, p, depth, false, shape) == Scan(s, p + |PieceText(x)|, depth, false, shape)
    decreases x, 0
  {
    match x
    case Raw(b) =>
      StandsAt(s, p, [b]);
    case Text(_) =>
      ScanText(s, p, depth, shape, x);
    case Nested(square, body) =>
      NestedParts(s, p, x);
      ScanPieces(s, p + 1, depth + 1, shape, body);
  }

  lemma NestedParts(s: seq<byte>, p: nat, x: Piece)
    requires x.Nested? && Stands(s, p, PieceText(x))
    ensures Opens(s[p]) && s[p] != QUOTE && Stands(s, p + 1, PiecesText(x.body))
    ensures var q := p + 1 + |PiecesText(x.body)|;
            q < |s| && Closes(s[q]) && s[q] != QUOTE && !Opens(s[q]) && p + |PieceText(x)| == q + 1
  {
    hide Stands, PiecesText;
    var open := [if x.square then 91 else 123];
    var close := [if x.square then 93 else 125];
    var t := PiecesText(x.body);
    StandsSplit(s, p, open, t + close);
    StandsSplit(s, p + 1, t, close);
    StandsAt(s, p, open);
    StandsAt(s, p + 1 + |t|, close);
  }

  lemma {:induction false} ScanPieces(s: seq<byte>, p: nat, depth: nat, shape: Shape, xs: seq<Piece>)
    requires (forall i :: 0 <= i < |xs| ==> WellMade(xs[i])) && Stands(s, p, PiecesText(xs)) && depth > 0
    ensures Scan(s, p, depth, false, shape) == Scan(s, p + |PiecesText(xs)|, depth, false, shape)
    decreases xs, 1
  {
    if xs != [] {
      StandsSplit(s, p, PieceText(xs[0]), PiecesText(xs[1..]));
      ScanPiece(s, p, depth, shape, xs[0]);
      ScanPieces(s, p + |PieceText(xs[0])|, depth, shape, xs[1..]);
    }
  }

  /** An object or array ends exactly at its own closing bracket, whatever its strings and inner containers hold. */
  lemma ContainerEnds(s: seq<byte>, p: nat, x: Piece)
    requires x.Nested? && WellMade(x) && Stands(s, p, PieceText(x))
    ensures ValueEndOf(s, p) == Some(p + |PieceText(x)|)
  {
    NestedParts(s, p, x);
    ScanPieces(s, p + 1, 1, Container, x.body);
  }

  /** A string ends exactly at its own closing quote, whatever follows. */
  lemma StringEnds(s: seq<byte>, p: nat, x: Piece)
    requires x.Text? && WellMade(x) && Stands(s, p, PieceText(x))
    ensures ValueEndOf(s, p) == Some(p + |PieceText(x)|)
  {
    hide Stands, LettersText;
    var t := LettersText(x.letters);
    StandsSplit(s, p, [QUOTE], t + [QUOTE]);
    StandsSplit(s, p + 1, t, [QUOTE]);
    StandsAt(s, p, [QUOTE]);
    StandsAt(s, p + 1 + |t|, [QUOTE]);
    ScanLetters(s, p + 1, 0, Quoted, x.letters);
  }

  /** A number or a literal ends where the next comma or closing bracket stands, or with the text. */
  lemma {:induction false} BareEnds(s: seq<byte>, p: nat, n: nat)
    requires p + n <= |s| && (p + n == |s| || s[p + n] == COMMA || Closes(s[p + n]))
    requires forall k :: p <= k < p + n ==> s[k] != QUOTE && s[k] != COMMA && !Opens(s[k]) && !Closes(s[k])
    ensures Scan(s, p, 0, false, Bare) == Some(p + n)
    decreases n
  {
    if n > 0 {
      BareEnds(s, p + 1, n - 1);
    }
  }

  // ---- Scanner and decoder agree ----

  /** Where the decoder accepts a string, the scanner stops at the same closing quote. */
  lemma {:induction false} ScanMeetsDecode(s: seq<byte>, p: nat)
    requires p <= |s| && Decode(s, p).Some?
    ensures Scan(s, p, 0, true, Quoted) == Some(Decode(s, p).value.next)
    decreases |s| - p
  {
    if s[p] != QUOTE {
      var u := UnitAt(s, p).value;
      ScanMeetsDecode(s, u.next);
      if s[p] == BACKSLASH {
        EscapeIsPassed(s, p + 1);
        ScanRun(s, p + 2, u.next);
      }
    }
  }

  /** The octets of an escape after its first letter hold no quote, and a backslash only before a letter u. */
  lemma EscapeIsPassed(s: seq<byte>, p: nat)
    requires EscapeAt(s, p).Some?
    ensures forall k :: p < k < EscapeAt(s, p).value.next ==> s[k] != QUOTE
    ensures forall k :: p < k < EscapeAt(s, p).value.next && s[k] == BACKSLASH ==>
                          k + 1 < EscapeAt(s, p).value.next && s[k + 1] != BACKSLASH
  {
    hide HexNumber;
    if s[p] == 117 {
      DigitsOnly(s, p + 1, 4);
      if EscapeAt(s, p).value.next == p + 11 {
        DigitsOnly(s, p + 7, 4);
      }
    }
  }

  lemma {:induction false} DigitsOnly(s: seq<byte>, p: nat, n: nat)
    requires p + n <= |s| && HexNumber(s, p, n).Some?
    ensures forall k :: p <= k < p + n ==> HexValue(s[k]).Some?
  {
    if n > 0 {
      DigitsOnly(s, p, n - 1);
    }
  }

  lemma {:induction false} ScanRun(s: seq<byte>, p: nat, q: nat)
    requires p <= q <= |s| && forall k :: p <= k < q ==> s[k] != QUOTE
    requires forall k :: p <= k < q && s[k] == BACKSLASH ==> k + 1 < q && s[k + 1] != BACKSLASH
    ensures Scan(s, p, 0, true, Quoted) == Scan(s, q, 0, true, Quoted)
    decreases q - p
  {
    if p < q {
      if s[p] == BACKSLASH {
        ScanRun(s, p + 2, q);
      } else {
        ScanRun(s, p + 1, q);
      }
    }
  }

  /**
   * Wherever the decoder accepts a string, the scanner finds the same end, so
   * the room the field lookup allots - the raw text between the quotes - is
   * always enough.
   */
  lemma RawLengthSuffices(s: seq<byte>, p: nat)
    requires p < |s| && s[p] == QUOTE && Decode(s, p + 1).Some?
    ensures ValueEndOf(s, p) == Some(Decode(s, p + 1).value.next)
    ensures |Decode(s, p + 1).value.value| <= ValueEndOf(s, p).value - p - 2
  {
    ScanMeetsDecode(s, p + 1);
    DecodeShrinks(s, p + 1);
  }

  /** Print, then scan and decode: the scanner stops exactly after the closing quote and the text is back. */
  lemma PrintedRoundTrip(s: seq<byte>, p: nat, v: seq<byte>)
    requires Stands(s, p, Printed(v))
    ensures ValueEndOf(s, p) == Some(p + |Printed(v)|)
    ensures Decode(s, p + 1) == Some(Json.Text(v, p + |Printed(v)|))
  {
    hide Stands, Scan, Decode, ValueEndOf, Escaped;
    ConcatAssociative([QUOTE], Escaped(v), [QUOTE]);
    StandsSplit(s, p, [QUOTE], Escaped(v) + [QUOTE]);
    StandsAt(s, p, [QUOTE]);
    DecodePrinted(s, p + 1, v);
    RawLengthSuffices(s, p);
  }
}
