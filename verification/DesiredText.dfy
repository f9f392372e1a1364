/**
 * Desired documents as JSON text (RFC 8259): what the reader makes of any
 * proper array of objects, and that a printed document is read as it is.
 */
module DesiredText {
  import opened Common
  import opened Octets
  import Json
  import opened JsonPrint
  import opened JsonScan
  import opened JsonField
  import opened Desired

  // ---- Text as pieces ------------------------------------------------------------

  predicate AllMade(xs: seq<Piece>)
  {
    forall i :: 0 <= i < |xs| ==> WellMade(xs[i])
  }

  predicate AllProper(xs: seq<Letter>)
  {
    forall i :: 0 <= i < |xs| ==> Proper(xs[i])
  }

  lemma {:induction false} PiecesConcat(xs: seq<Piece>, ys: seq<Piece>)
    ensures PiecesText(xs + ys) == PiecesText(xs) + PiecesText(ys)
    ensures AllMade(xs) && AllMade(ys) ==> AllMade(xs + ys)
    decreases |xs|
  {
    if xs == [] {
      assert xs + ys == ys;
    } else {
      assert (xs + ys)[1..] == xs[1..] + ys;
      PiecesConcat(xs[1..], ys);
      ConcatAssociative(PieceText(xs[0]), PiecesText(xs[1..]), PiecesText(ys));
    }
  }

  lemma OnePiece(x: Piece)
    ensures PiecesText([x]) == PieceText(x) && (WellMade(x) ==> AllMade([x]))
  {
    assert PiecesText([x][1..]) == [];
  }

  function Raws(t: seq<byte>): (xs: seq<Piece>)
    ensures |xs| == |t| && forall i :: 0 <= i < |t| ==> xs[i] == Raw(t[i])
  {
    seq(|t|, i requires 0 <= i < |t| => Raw(t[i]))
  }

  /** Octets that neither quote nor open nor close. */
  predicate Flat(t: seq<byte>)
  {
    forall i :: 0 <= i < |t| ==> t[i] != QUOTE && !Opens(t[i]) && !Closes(t[i])
  }

  lemma {:induction false} RawsText(t: seq<byte>)
    ensures PiecesText(Raws(t)) == t && (Flat(t) ==> AllMade(Raws(t)))
    decreases |t|
  {
    if t != [] {
      RawsText(t[1..]);
      assert Raws(t)[1..] == Raws(t[1..]);
    }
  }

  /** A string's raw text cut into characters. */
  function LettersOf(t: seq<byte>): seq<Letter>
  {
    if t == [] then []
    else if t[0] == BACKSLASH && |t| > 1 then [Slashed(t[1])] + LettersOf(t[2..])
    else [Plain(t[0])] + LettersOf(t[1..])
  }

  lemma {:induction false} LettersOfText(t: seq<byte>)
    ensures LettersText(LettersOf(t)) == t
    decreases |t|
  {
    if t != [] {
      if t[0] == BACKSLASH && |t| > 1 {
        LettersOfText(t[2..]);
        assert LettersOf(t)[1..] == LettersOf(t[2..]);
        assert [t[0], t[1]] + t[2..] == t;
      } else {
        LettersOfText(t[1..]);
        assert LettersOf(t)[1..] == LettersOf(t[1..]);
      }
    }
  }

  /** Octets of an escape, and then proper characters. */
  lemma {:induction false} RunProper(s: seq<byte>, p: nat, q: nat, end: nat)
    requires p <= q <= end <= |s| && AllProper(LettersOf(s[q..end]))
    requires forall k :: p <= k < q ==> s[k] != QUOTE
    requires forall k :: p <= k < q && s[k] == BACKSLASH ==> k + 1 < q && s[k + 1] != BACKSLASH
    ensures AllProper(LettersOf(s[p..end]))
    decreases q - p
  {
    if p < q {
      var t := s[p..end];
      assert t[0] == s[p];
      if s[p] == BACKSLASH {
        assert t[1] == s[p + 1] && t[2..] == s[p + 2..end];
        RunProper(s, p + 2, q, end);
      } else {
        assert t[1..] == s[p + 1..end];
        RunProper(s, p + 1, q, end);
      }
    }
  }

  /** One unit that decodes, and proper characters behind it. */
  lemma UnitProper(s: seq<byte>, p: nat, end: nat)
    requires p < |s| && s[p] != QUOTE && Json.UnitAt(s, p).Some? && Json.UnitAt(s, p).value.next <= end <= |s|
    requires AllProper(LettersOf(s[Json.UnitAt(s, p).value.next..end]))
    ensures AllProper(LettersOf(s[p..end]))
  {
    hide Json.EscapeAt, Json.Utf8;
    var t, next := s[p..end], Json.UnitAt(s, p).value.next;
    if s[p] == BACKSLASH {
      EscapeIsPassed(s, p + 1);
      assert t[0] == s[p] && t[1] == s[p + 1] && t[2..] == s[p + 2..end];
      RunProper(s, p + 2, next, end);
    } else {
      assert t[0] == s[p] && t[1..] == s[p + 1..end];
    }
  }

  /** What decodes is made of proper characters. */
  lemma {:induction false} DecodedProper(s: seq<byte>, p: nat)
    requires Json.Decode(s, p).Some?
    ensures AllProper(LettersOf(s[p..Json.Decode(s, p).value.next - 1]))
    decreases |s| - p
  {
    hide Json.UnitAt, AllProper;
    var end := Json.Decode(s, p).value.next - 1;
    if s[p] == QUOTE {
      NoLetters(s[p..end]);
    } else {
      DecodedProper(s, Json.UnitAt(s, p).value.next);
      UnitProper(s, p, end);
    }
  }

  lemma NoLetters(t: seq<byte>)
    requires t == []
    ensures AllProper(LettersOf(t))
  {
  }

  lemma RawProper(raw: seq<byte>, v: seq<byte>)
    requires MeansText(raw, v)
    ensures WellMade(Text(LettersOf(raw))) && PieceText(Text(LettersOf(raw))) == [QUOTE] + (raw + [QUOTE])
  {
    var s := raw + [QUOTE];
    DecodedProper(s, 0);
    assert s[0..|raw|] == raw;
    LettersOfText(raw);
  }

  // ---- Objects -------------------------------------------------------------------

  function ValuePieces(v: Value): seq<Piece>
  {
    match v
    case Str(raw, _) => [Text(LettersOf(raw))]
    case Box(piece) => [piece]
    case Bare(text) => Raws(text)
  }

  lemma ValueIsPieces(v: Value)
    requires ProperValue(v)
    ensures PiecesText(ValuePieces(v)) == ValueText(v) && AllMade(ValuePieces(v))
  {
    match v {
      case Str(raw, t) =>
        RawProper(raw, t);
        OnePiece(Text(LettersOf(raw)));
      case Box(piece) => OnePiece(piece);
      case Bare(text) => RawsText(text);
    }
  }

  function MemberPieces(m: Member): seq<Piece>
  {
    Raws(m.lead) + ([Text(LettersOf(m.raw))] + (Raws(m.gap + ([58] + m.gap2)) + ValuePieces(m.value)))
  }

  lemma SpacesFlat(m: Member)
    requires Spaces(m.gap) && Spaces(m.gap2)
    ensures Flat(m.gap + ([58] + m.gap2))
  {
  }

  lemma MemberIsPieces(m: Member)
    requires ProperMember(m) && Flat(m.lead)
    ensures PiecesText(MemberPieces(m)) == NameText(m) + ValueText(m.value) && AllMade(MemberPieces(m))
  {
    hide ProperValue, PiecesText, PieceText, AllMade, WellMade, ValueText, ValuePieces, LettersOf;
    var name := Text(LettersOf(m.raw));
    var colon := m.gap + ([58] + m.gap2);
    RawsText(m.lead);
    RawProper(m.raw, m.key);
    OnePiece(name);
    SpacesFlat(m);
    RawsText(colon);
    ValueIsPieces(m.value);
    PiecesConcat(Raws(colon), ValuePieces(m.value));
    PiecesConcat([name], Raws(colon) + ValuePieces(m.value));
    PiecesConcat(Raws(m.lead), [name] + (Raws(colon) + ValuePieces(m.value)));
    NameTextIs(m, ValueText(m.value));
  }

  lemma NameTextIs(m: Member, v: seq<byte>)
    ensures NameText(m) + v
         == m.lead + (([QUOTE] + (m.raw + [QUOTE])) + ((m.gap + ([58] + m.gap2)) + v))
  {
    var colon := m.gap + ([58] + m.gap2);
    ConcatAssociative([QUOTE], m.raw + [QUOTE], colon);
    ConcatAssociative([QUOTE] + (m.raw + [QUOTE]), colon, v);
    ConcatAssociative(m.lead, ([QUOTE] + (m.raw + [QUOTE])) + colon, v);
  }

  /** An object: its members, the first without the opening brace, and the space before the closing one. */
  datatype Obj = Obj(ms: seq<Member>, pad: seq<byte>)

  predicate ProperObj(o: Obj)
  {
    && o.ms != [] && Spaces(o.pad)
    && (forall i :: 0 <= i < |o.ms| ==> ProperMember(o.ms[i]) && Flat(o.ms[i].lead))
    && (forall i :: 0 < i < |o.ms| ==> EndsValue(o.ms[i].lead))
  }

  function ObjText(o: Obj): seq<byte>
  {
    [LEFT_BRACE] + MembersText(o.ms, o.pad + [125])
  }

  function MembersPieces(ms: seq<Member>): seq<Piece>
  {
    if ms == [] then [] else MemberPieces(ms[0]) + MembersPieces(ms[1..])
  }

  function ObjPiece(o: Obj): Piece
  {
    Nested(false, MembersPieces(o.ms) + Raws(o.pad))
  }

  lemma {:induction false} MembersArePieces(ms: seq<Member>, tail: seq<byte>)
    requires forall i :: 0 <= i < |ms| ==> ProperMember(ms[i]) && Flat(ms[i].lead)
    ensures PiecesText(MembersPieces(ms)) + tail == MembersText(ms, tail) && AllMade(MembersPieces(ms))
    decreases |ms|
  {
    hide ProperMember, PieceText, WellMade, MemberPieces, NameText, ValueText, Flat;
    if ms == [] {
      assert PiecesText([]) + tail == tail;
    } else {
      MembersArePieces(ms[1..], tail);
      MemberIsPieces(ms[0]);
      var name, v, rest := NameText(ms[0]), ValueText(ms[0].value), PiecesText(MembersPieces(ms[1..]));
      PiecesConcat(MemberPieces(ms[0]), MembersPieces(ms[1..]));
      hide PiecesText, AllMade;
      ConcatAssociative(name + v, rest, tail);
      ConcatAssociative(name, v, rest + tail);
    }
  }

  lemma PadFlat(pad: seq<byte>)
    requires Spaces(pad)
    ensures Flat(pad)
  {
  }

  /** The text of an object is that of a container. */
  lemma ObjIsPiece(o: Obj)
    requires ProperObj(o)
    ensures ObjPiece(o).Nested? && WellMade(ObjPiece(o)) && PieceText(ObjPiece(o)) == ObjText(o)
  {
    hide ProperMember, Flat, MembersPieces, PiecesText;
    PadFlat(o.pad);
    RawsText(o.pad);
    MembersArePieces(o.ms, o.pad + [125]);
    PiecesConcat(MembersPieces(o.ms), Raws(o.pad));
    ConcatAssociative(PiecesText(MembersPieces(o.ms)), o.pad, [125]);
  }

  /** The members with the opening brace in front of the first, as the lookup takes them. */
  function Opened(ms: seq<Member>): seq<Member>
    requires ms != []
  {
    [ms[0].(lead := [LEFT_BRACE] + ms[0].lead)] + ms[1..]
  }

  lemma OpenedText(ms: seq<Member>, tail: seq<byte>)
    requires ms != []
    ensures MembersText(Opened(ms), tail) == [LEFT_BRACE] + MembersText(ms, tail)
  {
    hide ValueText;
    var m := ms[0];
    var rest := [QUOTE] + ((m.raw + [QUOTE]) + (m.gap + ([58] + m.gap2)));
    var more := ValueText(m.value) + MembersText(ms[1..], tail);
    assert Opened(ms)[1..] == ms[1..];
    ConcatAssociative([LEFT_BRACE], m.lead, rest);
    ConcatAssociative([LEFT_BRACE], NameText(m), more);
  }

  lemma OpenedProper(o: Obj)
    requires ProperObj(o)
    ensures ProperObject(Opened(o.ms), o.pad + [125])
  {
    hide MeansText, ProperValue, Flat, EndsValue;
    var ms := Opened(o.ms);
    forall i | 0 <= i < |ms| ensures ProperMember(ms[i]) && (i > 0 ==> EndsValue(ms[i].lead)) {
      if i > 0 {
        assert ms[i] == o.ms[i];
      } else {
        var m := o.ms[0];
        assert ProperMember(m);
        assert forall k :: 0 <= k < |ms[0].lead| ==> ms[0].lead[k] == (if k == 0 then LEFT_BRACE else m.lead[k - 1]);
      }
    }
    var tail := o.pad + [125];
    assert Closes(tail[|o.pad|]);
  }

  lemma OpenedMatch(ms: seq<Member>, key: seq<byte>, pool: bool)
    requires ms != []
    ensures FirstMatch(Opened(ms), key, pool) == FirstMatch(ms, key, pool)
  {
    assert Opened(ms)[1..] == ms[1..];
  }

  /** A field of an object is its first member of that name. */
  lemma FieldRead(o: Obj, key: seq<byte>, pool: bool)
    requires ProperObj(o) && |key| < KEY_MAX
    ensures Lookup(ObjText(o), key, pool) == FirstMatch(o.ms, key, pool)
  {
    hide Lookup, ProperObj, FirstMatch, MembersText;
    OpenedProper(o);
    NotEmpty(o);
    OpenedText(o.ms, o.pad + [125]);
    LookupFindsFirst(Opened(o.ms), o.pad + [125], key, pool);
    OpenedMatch(o.ms, key, pool);
  }

  lemma NotEmpty(o: Obj)
    requires ProperObj(o)
    ensures o.ms != []
  {
  }

  // ---- Arrays --------------------------------------------------------------------

  /** An object of an array, and what stands between it and the one before. */
  datatype Elem = Elem(gap: seq<byte>, obj: Obj)

  predicate Betweens(t: seq<byte>)
  {
    forall i :: 0 <= i < |t| ==> Between(t[i])
  }

  predicate ProperElems(es: seq<Elem>)
  {
    forall i :: 0 <= i < |es| ==> Betweens(es[i].gap) && ProperObj(es[i].obj)
  }

  function ArrayText(es: seq<Elem>, trail: seq<byte>): seq<byte>
  {
    if es == [] then trail else es[0].gap + (ObjText(es[0].obj) + ArrayText(es[1..], trail))
  }

  function Texts(es: seq<Elem>): (ts: seq<seq<byte>>)
    ensures |ts| == |es| && forall i :: 0 <= i < |es| ==> ts[i] == ObjText(es[i].obj)
  {
    seq(|es|, i requires 0 <= i < |es| => ObjText(es[i].obj))
  }

  lemma BetweenRun(s: seq<byte>, p: nat, w: seq<byte>)
    requires Stands(s, p, w) && Betweens(w) && (p + |w| == |s| || !Between(s[p + |w|]))
    ensures p + |w| <= |s| && SkipBetween(s, p) == p + |w|
  {
    hide Between;
    StandsAt(s, p, w);
    var q, r := p + |w|, SkipBetween(s, p);
    forall k | p <= k < q ensures Between(s[k]) {
      assert s[p + (k - p)] == w[k - p];
    }
  }

  /** One object of an array is passed over exactly. */
  lemma ObjectRead(s: seq<byte>, p: nat, e: Elem)
    requires Betweens(e.gap) && ProperObj(e.obj) && Stands(s, p, e.gap) && Stands(s, p + |e.gap|, ObjText(e.obj))
    ensures p <= |s| && NextObject(s, p) == Object(ObjText(e.obj), p + |e.gap| + |ObjText(e.obj)|)
  {
    hide Stands, ProperObj, Betweens, SkipBetween, ObjPiece, WellMade, ValueEndOf, MembersText;
    var q, o := p + |e.gap|, ObjText(e.obj);
    ObjIsPiece(e.obj);
    StandsAt(s, q, o);
    assert s[q + 0] == o[0] == LEFT_BRACE;
    BetweenRun(s, p, e.gap);
    ContainerEnds(s, q, ObjPiece(e.obj));
    StandsIs(s, q, o);
  }

  lemma StandsIs(s: seq<byte>, p: nat, w: seq<byte>)
    requires Stands(s, p, w)
    ensures p + |w| <= |s| && s[p..p + |w|] == w
  {
  }

  /** Any array of proper objects, with any space and commas between, is walked object by object to its end. */
  lemma {:induction false} ObjectsRead(s: seq<byte>, p: nat, es: seq<Elem>, trail: seq<byte>)
    requires ProperElems(es) && Betweens(trail)
    requires Stands(s, p, ArrayText(es, trail)) && p + |ArrayText(es, trail)| == |s|
    ensures p <= |s| && Objects(s, p) == (Texts(es), true)
    decreases |es|
  {
    hide Stands, ProperObj, Betweens, NextObject, ObjText;
    if es == [] {
      TrailRead(s, p, trail);
      assert Texts(es) == [];
    } else {
      var e, rest := es[0], ArrayText(es[1..], trail);
      var next := p + |e.gap| + |ObjText(e.obj)|;
      StandsSplit(s, p, e.gap, ObjText(e.obj) + rest);
      StandsSplit(s, p + |e.gap|, ObjText(e.obj), rest);
      ObjectRead(s, p, e);
      ObjectsRead(s, next, es[1..], trail);
      assert Texts(es) == [ObjText(e.obj)] + Texts(es[1..]);
    }
  }

  lemma TrailRead(s: seq<byte>, p: nat, trail: seq<byte>)
    requires Betweens(trail) && Stands(s, p, trail) && p + |trail| == |s|
    ensures NextObject(s, p) == Done
  {
    BetweenRun(s, p, trail);
  }

  function ElemsPieces(es: seq<Elem>): seq<Piece>
  {
    if es == [] then [] else Raws(es[0].gap) + ([ObjPiece(es[0].obj)] + ElemsPieces(es[1..]))
  }

  function ArrayPiece(es: seq<Elem>): Piece
  {
    Nested(true, ElemsPieces(es))
  }

  lemma BetweensFlat(t: seq<byte>)
    requires Betweens(t)
    ensures Flat(t)
  {
  }

  lemma {:induction false} ElemsArePieces(es: seq<Elem>)
    requires ProperElems(es)
    ensures PiecesText(ElemsPieces(es)) == ArrayText(es, []) && AllMade(ElemsPieces(es))
    decreases |es|
  {
    hide ProperObj, PieceText, WellMade, ObjText, ObjPiece, Flat, Betweens;
    if es != [] {
      var e, rest := es[0], ElemsPieces(es[1..]);
      BetweensFlat(e.gap);
      RawsText(e.gap);
      ObjIsPiece(e.obj);
      OnePiece(ObjPiece(e.obj));
      ElemsArePieces(es[1..]);
      hide AllMade;
      PiecesConcat([ObjPiece(e.obj)], rest);
      PiecesConcat(Raws(e.gap), [ObjPiece(e.obj)] + rest);
    }
  }

  lemma ArrayIsPiece(es: seq<Elem>)
    requires ProperElems(es)
    ensures WellMade(ArrayPiece(es)) && ProperValue(Box(ArrayPiece(es)))
    ensures PieceText(ArrayPiece(es)) == [LEFT_BRACKET] + (ArrayText(es, []) + [RIGHT_BRACKET])
  {
    hide ProperElems, ElemsPieces, PiecesText;
    ElemsArePieces(es);
  }

  // ---- Printed documents -----------------------------------------------------------

  /** A stream of the desired document: its two names and the identities of its children. */
  datatype Wanted = Wanted(
    application: seq<byte>, name: seq<byte>, sources: seq<seq<byte>>, destinations: seq<seq<byte>>)

  lemma EscapedMeans(v: seq<byte>)
    ensures MeansText(Escaped(v), v)
  {
    var t := Escaped(v) + [QUOTE];
    assert t[0..0 + |t|] == t;
    DecodePrinted(t, 0, v);
  }

  function StringMember(lead: seq<byte>, key: seq<byte>, v: seq<byte>): Member
  {
    Member(lead, Escaped(key), key, [], [], Str(Escaped(v), v))
  }

  function ArrayMember(key: seq<byte>, es: seq<Elem>): Member
  {
    Member([COMMA], Escaped(key), key, [], [], Box(ArrayPiece(es)))
  }

  function ChildObj(id: seq<byte>): Obj
  {
    Obj([StringMember([], ID, id)], [])
  }

  function Comma(i: nat): seq<byte>
  {
    if i == 0 then [] else [COMMA]
  }

  function ChildElems(ids: seq<seq<byte>>): (es: seq<Elem>)
    ensures |es| == |ids| && forall i :: 0 <= i < |ids| ==> es[i] == Elem(Comma(i), ChildObj(ids[i]))
  {
    seq(|ids|, i requires 0 <= i < |ids| => Elem(Comma(i), ChildObj(ids[i])))
  }

  function StreamObj(w: Wanted): Obj
  {
    Obj([StringMember([], APPLICATION, w.application), StringMember([COMMA], NAME, w.name),
         ArrayMember(SOURCES, ChildElems(w.sources)), ArrayMember(DESTINATIONS, ChildElems(w.destinations))], [])
  }

  function StreamElems(ws: seq<Wanted>): (es: seq<Elem>)
    ensures |es| == |ws| && forall i :: 0 <= i < |ws| ==> es[i] == Elem(Comma(i), StreamObj(ws[i]))
  {
    seq(|ws|, i requires 0 <= i < |ws| => Elem(Comma(i), StreamObj(ws[i])))
  }

  /** The streams array of a document, as JSON. */
  function Print(ws: seq<Wanted>): seq<byte>
  {
    [LEFT_BRACKET] + (ArrayText(StreamElems(ws), []) + [RIGHT_BRACKET])
  }

  function Read(w: Wanted): Item
  {
    Item(Some(w.application), Some(w.name), Some(AllIds(w.sources)), Some(AllIds(w.destinations)))
  }

  function AllIds(ids: seq<seq<byte>>): Children
  {
    Children(seq(|ids|, i requires 0 <= i < |ids| => Some(ids[i])), true)
  }

  function ReadAll(ws: seq<Wanted>): Document
  {
    Document(seq(|ws|, i requires 0 <= i < |ws| => Read(ws[i])), true)
  }

  lemma StringMemberProper(lead: seq<byte>, key: seq<byte>, v: seq<byte>)
    requires lead == [] || lead == [COMMA]
    ensures ProperMember(StringMember(lead, key, v)) && Flat(lead)
    ensures lead != [] ==> EndsValue(lead)
  {
    hide MeansText;
    EscapedMeans(key);
    EscapedMeans(v);
    if lead != [] {
      assert lead[0] == COMMA;
    }
  }

  lemma ArrayMemberProper(key: seq<byte>, es: seq<Elem>)
    requires ProperElems(es)
    ensures ProperMember(ArrayMember(key, es)) && Flat([COMMA]) && EndsValue([COMMA])
  {
    hide MeansText, ProperElems, WellMade;
    EscapedMeans(key);
    ArrayIsPiece(es);
    assert [COMMA][0] == COMMA;
  }

  lemma ChildProper(id: seq<byte>)
    ensures ProperObj(ChildObj(id))
  {
    hide ProperMember, Flat, EndsValue;
    StringMemberProper([], ID, id);
  }

  lemma CommaBetween(i: nat)
    ensures Betweens(Comma(i))
  {
  }

  lemma ChildElemsProper(ids: seq<seq<byte>>)
    ensures ProperElems(ChildElems(ids))
  {
    hide ProperObj, ChildObj, Comma, Betweens;
    forall i | 0 <= i < |ids| ensures ProperObj(ChildObj(ids[i])) && Betweens(Comma(i)) {
      ChildProper(ids[i]);
      CommaBetween(i);
    }
  }

  lemma FourProper(o: Obj)
    requires |o.ms| == 4 && o.pad == []
    requires forall i :: 0 <= i < 4 ==> ProperMember(o.ms[i]) && Flat(o.ms[i].lead)
    requires forall i :: 1 <= i < 4 ==> EndsValue(o.ms[i].lead)
    ensures ProperObj(o)
  {
    hide ProperMember, Flat, EndsValue;
  }

  lemma StreamProper(w: Wanted)
    ensures ProperObj(StreamObj(w))
  {
    hide ProperMember, Flat, EndsValue, ProperElems, ProperObj, ChildElems, APPLICATION, NAME, SOURCES, DESTINATIONS;
    StringMemberProper([], APPLICATION, w.application);
    StringMemberProper([COMMA], NAME, w.name);
    ChildElemsProper(w.sources);
    ChildElemsProper(w.destinations);
    ArrayMemberProper(SOURCES, ChildElems(w.sources));
    ArrayMemberProper(DESTINATIONS, ChildElems(w.destinations));
    var ms := StreamObj(w).ms;
    assert ms[0] == StringMember([], APPLICATION, w.application) && ms[1] == StringMember([COMMA], NAME, w.name);
    assert ms[2] == ArrayMember(SOURCES, ChildElems(w.sources));
    assert ms[3] == ArrayMember(DESTINATIONS, ChildElems(w.destinations));
    FourProper(StreamObj(w));
  }

  lemma StreamElemsProper(ws: seq<Wanted>)
    ensures ProperElems(StreamElems(ws))
  {
    hide ProperObj, StreamObj, Comma, Betweens;
    forall i | 0 <= i < |ws| ensures ProperObj(StreamObj(ws[i])) && Betweens(Comma(i)) {
      StreamProper(ws[i]);
      CommaBetween(i);
    }
  }

  /** The field names differ. */
  lemma KeysDiffer()
    ensures APPLICATION != NAME && APPLICATION != SOURCES && APPLICATION != DESTINATIONS
    ensures NAME != SOURCES && NAME != DESTINATIONS && SOURCES != DESTINATIONS
    ensures |APPLICATION| < KEY_MAX && |NAME| < KEY_MAX && |SOURCES| < KEY_MAX && |DESTINATIONS| < KEY_MAX && |ID| < KEY_MAX
  {
  }

  /** The array field of a stream is read back as its inner text. */
  lemma ArrayFieldRead(o: Obj, key: seq<byte>, es: seq<Elem>)
    requires ProperObj(o) && |key| < KEY_MAX && ProperElems(es)
    requires FirstMatch(o.ms, key, false) == Found(PieceText(ArrayPiece(es)))
    ensures ArrayIn(ObjText(o), key) == Some(ArrayText(es, []))
  {
    hide Lookup, ProperObj, ProperElems, ArrayPiece, PieceText, FirstMatch, ObjText;
    FieldRead(o, key, false);
    ArrayIsPiece(es);
    var v := PieceText(ArrayPiece(es));
    assert v[1..|v| - 1] == ArrayText(es, []);
  }

  lemma ChildrenReadBack(ids: seq<seq<byte>>)
    ensures ChildrenOf(ArrayText(ChildElems(ids), [])) == AllIds(ids)
  {
    hide ArrayText, Objects, ProperElems, Lookup, ObjText, FirstMatch;
    var es := ChildElems(ids);
    var s := ArrayText(es, []);
    ChildElemsProper(ids);
    assert s[0..0 + |s|] == s;
    ObjectsRead(s, 0, es, []);
    forall i | 0 <= i < |ids| ensures FieldIn(Texts(es)[i], ID) == Some(ids[i]) {
      ChildProper(ids[i]);
      KeysDiffer();
      FieldRead(ChildObj(ids[i]), ID, true);
      ChildMatches(ids[i]);
    }
  }

  lemma ChildMatches(id: seq<byte>)
    ensures FirstMatch(ChildObj(id).ms, ID, true) == Found(id)
  {
    KeysDiffer();
  }

  lemma StreamMatches(w: Wanted)
    ensures FirstMatch(StreamObj(w).ms, APPLICATION, true) == Found(w.application)
    ensures FirstMatch(StreamObj(w).ms, NAME, true) == Found(w.name)
    ensures FirstMatch(StreamObj(w).ms, SOURCES, false) == Found(PieceText(ArrayPiece(ChildElems(w.sources))))
    ensures FirstMatch(StreamObj(w).ms, DESTINATIONS, false) == Found(PieceText(ArrayPiece(ChildElems(w.destinations))))
  {
    KeysDiffer();
    hide FirstMatch, APPLICATION, NAME, SOURCES, DESTINATIONS, ChildElems, ArrayPiece, PieceText, Escaped;
    var ms := StreamObj(w).ms;
    assert ms[0].key == APPLICATION && ms[1].key == NAME && ms[2].key == SOURCES && ms[3].key == DESTINATIONS;
    FirstMatchIs(ms, APPLICATION, 0, true);
    FirstMatchIs(ms, NAME, 1, true);
    FirstMatchIs(ms, SOURCES, 2, false);
    FirstMatchIs(ms, DESTINATIONS, 3, false);
  }

  lemma StreamRead(w: Wanted)
    ensures ItemOf(ObjText(StreamObj(w))) == Read(w)
  {
    hide Lookup, ProperObj, ProperElems, ArrayPiece, PieceText, FirstMatch, ObjText, StreamObj, ChildrenOf, ArrayText, ArrayIn,
      AllIds, ChildElems;
    var o := StreamObj(w);
    StreamProper(w);
    KeysDiffer();
    StreamMatches(w);
    FieldRead(o, APPLICATION, true);
    FieldRead(o, NAME, true);
    ChildElemsProper(w.sources);
    ChildElemsProper(w.destinations);
    ArrayFieldRead(o, SOURCES, ChildElems(w.sources));
    ArrayFieldRead(o, DESTINATIONS, ChildElems(w.destinations));
    ChildrenReadBack(w.sources);
    ChildrenReadBack(w.destinations);
  }

  /**
   * The round trip: any desired document, with any octets in its names and any
   * number of streams, sources and destinations, printed as JSON, is read as
   * exactly that document.
   */
  lemma PrintedDocumentReads(ws: seq<Wanted>)
    ensures |Print(ws)| >= 2 && DocumentOf(Print(ws)[1..|Print(ws)| - 1]) == ReadAll(ws)
  {
    hide ArrayText, Objects, ProperElems, ItemOf, ObjText, Read, StreamObj;
    var es := StreamElems(ws);
    var s := ArrayText(es, []);
    assert Print(ws)[1..|Print(ws)| - 1] == s;
    StreamElemsProper(ws);
    assert s[0..0 + |s|] == s;
    ObjectsRead(s, 0, es, []);
    forall i | 0 <= i < |ws| ensures ItemOf(Texts(es)[i]) == Read(ws[i]) {
      StreamRead(ws[i]);
    }
  }
}
