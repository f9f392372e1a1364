/** Annex B NAL unit iteration (ITU-T H.264 and H.265, Annex B). */
module Nal {
  import opened Common

  type Bytes = seq<byte>

  /** 00 00 01 at q. */
  predicate Code3(d: Bytes, q: nat)
  {
    q + 3 <= |d| && d[q] == 0 && d[q + 1] == 0 && d[q + 2] == 1
  }

  /** 00 00 00 01 at q. */
  predicate Code4(d: Bytes, q: nat)
  {
    q + 4 <= |d| && d[q] == 0 && d[q + 1] == 0 && d[q + 2] == 0 && d[q + 3] == 1
  }

  datatype Code = NoCode | CodeAt(at: nat, len: nat)

  /** The first start code at or after p. */
  function StartCode(d: Bytes, p: nat): (r: Code)
    ensures r.CodeAt? ==>
              && p <= r.at && r.at + r.len <= |d|
              && ((r.len == 4 && Code4(d, r.at)) || (r.len == 3 && Code3(d, r.at)))
    decreases |d| - p
  {
    if p + 3 > |d| then NoCode
    else if Code4(d, p) then CodeAt(p, 4)
    else if Code3(d, p) then CodeAt(p, 3)
    else StartCode(d, p + 1)
  }

  /** No start code lies before the one found, nor anywhere when none is. */
  lemma {:induction false} CodeIsFirst(d: Bytes, p: nat)
    ensures var r := StartCode(d, p);
            forall q :: p <= q && (r.CodeAt? ==> q < r.at) ==> !Code3(d, q) && !Code4(d, q)
    decreases |d| - p
  {
    if p + 3 <= |d| && !Code4(d, p) && !Code3(d, p) {
      CodeIsFirst(d, p + 1);
    }
  }

  method FindStartCode(d: Bytes, p: nat) returns (r: Code)
    ensures r == StartCode(d, p)
  {
    var q := p;
    while q + 3 <= |d|
      invariant p <= q && StartCode(d, p) == StartCode(d, q)
      decreases |d| - q
    {
      if d[q] == 0 && d[q + 1] == 0 && d[q + 2] == 0 && q + 4 <= |d| && d[q + 3] == 1 {
        return CodeAt(q, 4);
      }
      if d[q] == 0 && d[q + 1] == 0 && d[q + 2] == 1 {
        return CodeAt(q, 3);
      }
      q := q + 1;
    }
    return NoCode;
  }

  /** The end of d[from..to] without its trailing zeros. */
  function Trim(d: Bytes, from: nat, end: nat): (e: nat)
    requires from <= end <= |d|
    ensures from <= e <= end && (e > from ==> d[e - 1] != 0)
    ensures forall i :: e <= i < end ==> d[i] == 0
    decreases end
  {
    if end > from && d[end - 1] == 0 then Trim(d, from, end - 1) else end
  }

  /** The stretch between a start code and the next one, zeros at its end trimmed. */
  datatype Stretch = NoStretch | Between(start: nat, end: nat, next: nat)

  function FirstStretch(d: Bytes, pos: nat): (r: Stretch)
    ensures r.Between? ==> pos < r.start <= r.end <= r.next <= |d|
  {
    match StartCode(d, pos)
    case NoCode => NoStretch
    case CodeAt(at, len) =>
      var start := at + len;
      var code := StartCode(d, start);
      var next := if code.NoCode? then |d| else code.at;
      Between(start, Trim(d, start, next), next)
  }

  /** A unit and where the search goes on: the first stretch that is not empty. */
  datatype Found = Done | Unit(start: nat, end: nat, next: nat)

  function Next(d: Bytes, pos: nat): (r: Found)
    ensures r.Unit? ==> pos < r.start < r.end <= r.next <= |d|
    decreases |d| - pos
  {
    if pos >= |d| then Done else
    match FirstStretch(d, pos)
    case NoStretch => Done
    case Between(start, end, next) => if end > start then Unit(start, end, next) else Next(d, next)
  }

  /** The iterator: a view of the buffer and a position in it. */
  class Iterator {
    const data: Bytes
    var pos: nat

    constructor (data: Bytes)
      ensures this.data == data && pos == 0
    {
      this.data, pos := data, 0;
    }

    method TrimEnd(start: nat, whole: nat) returns (end: nat)
      requires start <= whole <= |data|
      ensures end == Trim(data, start, whole)
    {
      end := whole;
      while end > start && data[end - 1] == 0
        invariant start <= end <= whole
        invariant Trim(data, start, end) == Trim(data, start, whole)
      {
        end := end - 1;
      }
    }

    /** The stretch at the position, which moves to its end. */
    method NextStretch() returns (r: Stretch)
      requires pos < |data|
      modifies this
      ensures r == FirstStretch(data, old(pos))
      ensures pos == if r.NoStretch? then |data| else r.next
    {
      var code := FindStartCode(data, pos);
      if code.NoCode? {
        pos := |data|;
        return NoStretch;
      }
      var start := code.at + code.len;
      var following := FindStartCode(data, start);
      var next := if following.NoCode? then |data| else following.at;
      pos := next;
      var end := TrimEnd(start, next);
      return Between(start, end, next);
    }

    method NextUnit() returns (nal: Option<Bytes>)
      modifies this
      ensures match Next(data, old(pos))
              case Unit(start, end, next) => nal == Some(data[start..end]) && pos == next
              case Done => nal == None && (old(pos) < |data| ==> pos == |data|)
    {
      while true
        invariant Next(data, pos) == Next(data, old(pos))
        invariant old(pos) >= |data| ==> pos == old(pos)
        invariant old(pos) < |data| ==> pos <= |data|
        decreases |data| - pos
      {
        if pos >= |data| {
          return None;
        }
        var stretch := NextStretch();
        if stretch.NoStretch? {
          return None;
        }
        if stretch.end > stretch.start {
          return Some(data[stretch.start..stretch.end]);
        }
      }
    }
  }

  function Slice(d: Bytes, from: nat, end: nat): Bytes
    requires from <= end <= |d|
  {
    d[from..end]
  }

  /** All units from pos on. */
  function Units(d: Bytes, pos: nat): seq<Bytes>
    decreases |d| - pos
  {
    match Next(d, pos)
    case Done => []
    case Unit(start, end, next) => [Slice(d, start, end)] + Units(d, next)
  }

  // ---- any input -------------------------------------------------------------------

  /** A byte of padding or of a start code. */
  predicate Filler(d: Bytes, i: nat)
  {
    i < |d| && (d[i] == 0 || (d[i] == 1 && i >= 2 && d[i - 1] == 0 && d[i - 2] == 0))
  }

  predicate AtCode(d: Bytes, pos: nat)
  {
    Code3(d, pos) || Code4(d, pos)
  }

  /** What any stretch is, empty or not. */
  predicate CleanStretch(d: Bytes, pos: nat, start: nat, end: nat, next: nat)
  {
    && pos + 3 <= start <= end <= next <= |d|
    && Code3(d, start - 3)
    && (end > start ==> d[end - 1] != 0)
    && (forall q :: start <= q && q + 3 <= next ==> !Code3(d, q))
    && (forall i :: end <= i < next ==> d[i] == 0)
    && (next == |d| || AtCode(d, next))
  }

  lemma StretchIsClean(d: Bytes, pos: nat)
    requires FirstStretch(d, pos).Between?
    ensures var r := FirstStretch(d, pos); CleanStretch(d, pos, r.start, r.end, r.next)
  {
    var code := StartCode(d, pos);
    assert code.len == 4 ==> Code3(d, code.at + 1);
    CodeIsFirst(d, code.at + code.len);
  }

  /**
   * On any input a unit is non-empty, holds no start code, follows one, ends
   * at the next one or at the end of the buffer but for zeros, and the search
   * continues behind it: units are in order and disjoint.
   */
  lemma {:induction false} UnitIsClean(d: Bytes, pos: nat)
    requires Next(d, pos).Unit?
    ensures var u := Next(d, pos); u.start < u.end && CleanStretch(d, pos, u.start, u.end, u.next)
    decreases |d| - pos
  {
    StretchIsClean(d, pos);
    var r := FirstStretch(d, pos);
    if r.end == r.start {
      UnitIsClean(d, r.next);
    }
  }

  predicate AllFiller(d: Bytes, from: nat, end: nat)
  {
    forall i :: from <= i < end ==> Filler(d, i)
  }

  lemma StretchSkipsNothing(d: Bytes, pos: nat)
    requires AtCode(d, pos)
    ensures var r := FirstStretch(d, pos);
            && r.Between? && AllFiller(d, pos, r.start) && AllFiller(d, r.end, r.next)
            && (r.next == |d| || AtCode(d, r.next))
  {
    var code := StartCode(d, pos);
    assert code.at == pos;
    StretchIsClean(d, pos);
  }

  /** From a start code on, nothing but zeros and start codes lies outside the units. */
  lemma {:induction false} NothingSkipped(d: Bytes, pos: nat)
    requires AtCode(d, pos)
    ensures match Next(d, pos)
            case Done => AllFiller(d, pos, |d|)
            case Unit(start, end, next) => AllFiller(d, pos, start) && AllFiller(d, end, next)
    decreases |d| - pos
  {
    StretchSkipsNothing(d, pos);
    var r := FirstStretch(d, pos);
    if r.end == r.start && r.next < |d| {
      NothingSkipped(d, r.next);
    }
  }

  // ---- the byte stream format ---------------------------------------------------------

  /** A unit and the zero bytes beyond two that precede its 01. */
  datatype Piece = Piece(extra: nat, nal: Bytes)

  function Zeros(n: nat): (z: Bytes)
    ensures |z| == n && forall i :: 0 <= i < n ==> z[i] == 0
  {
    seq(n, _ => 0)
  }

  /** The byte stream of the pieces, with trailing zero bytes. */
  function Encode(pieces: seq<Piece>, trail: nat): Bytes
  {
    if pieces == [] then Zeros(trail) else
      Zeros(pieces[0].extra + 2) + [1] + (pieces[0].nal + Encode(pieces[1..], trail))
  }

  /** What a NAL unit of the format is: not empty, no start code inside, no zero at its end. */
  predicate IsNal(nal: Bytes)
  {
    && nal != [] && nal[|nal| - 1] != 0
    && forall q :: 0 <= q && q + 3 <= |nal| ==> !Code3(nal, q)
  }

  predicate Wellformed(pieces: seq<Piece>)
  {
    forall i :: 0 <= i < |pieces| ==> IsNal(pieces[i].nal)
  }

  function Nals(pieces: seq<Piece>): seq<Bytes>
  {
    if pieces == [] then [] else [pieces[0].nal] + Nals(pieces[1..])
  }

  /** d from pos on is s. */
  predicate From(d: Bytes, pos: nat, s: Bytes)
  {
    pos <= |d| && d[pos..] == s
  }

  lemma Skip(d: Bytes, pos: nat, a: Bytes, b: Bytes)
    requires From(d, pos, a + b)
    ensures From(d, pos + |a|, b) && d[pos..pos + |a|] == a
  {
    assert d[pos..pos + |a|] == d[pos..][..|a|] == a;
    assert d[pos + |a|..] == d[pos..][|a|..] == b;
  }

  lemma At(d: Bytes, pos: nat, s: Bytes, i: nat)
    requires From(d, pos, s) && i < |s|
    ensures pos + i < |d| && d[pos + i] == s[i]
  {
    assert d[pos..][i] == d[pos + i];
  }

  /** Within z zeros and a 01, the start code is found as late as it can be. */
  lemma {:induction false} CodeInZeros(d: Bytes, pos: nat, z: nat, rest: Bytes)
    requires z >= 2 && From(d, pos, Zeros(z) + [1] + rest)
    ensures StartCode(d, pos) == if z == 2 then CodeAt(pos, 3) else CodeAt(pos + z - 3, 4)
    decreases z
  {
    var s := Zeros(z) + [1] + rest;
    assert forall i :: 0 <= i < |s| ==> d[pos + i] == s[i];
    if z > 3 {
      assert Zeros(z)[1..] == Zeros(z - 1);
      assert d[pos + 1..] == s[1..] == Zeros(z - 1) + [1] + rest;
      CodeInZeros(d, pos + 1, z - 1, rest);
    }
  }

  /** Only zeros: no start code. */
  lemma NoCodeInZeros(d: Bytes, pos: nat, z: nat)
    requires From(d, pos, Zeros(z))
    ensures StartCode(d, pos).NoCode?
  {
    assert forall i :: pos <= i < |d| ==> d[i] == d[pos..][i - pos] == 0;
    assert forall q :: pos <= q ==> !Code3(d, q) && !Code4(d, q);
  }

  /** A unit holds no start code, nor does one begin inside it. */
  lemma {:induction false} NoCodeInNal(d: Bytes, pos: nat, k: nat, nal: Bytes, rest: Bytes)
    requires IsNal(nal) && k <= |nal| && From(d, pos, nal + rest)
    ensures StartCode(d, pos + k) == StartCode(d, pos + |nal|)
    decreases |nal| - k
  {
    var s := nal + rest;
    assert forall i :: 0 <= i < |s| ==> d[pos + i] == s[i];
    if k < |nal| {
      assert s[|nal| - 1] != 0;
      assert k + 3 > |nal| || !Code3(nal, k);
      assert !Code3(d, pos + k);
      assert k + 4 > |nal| || !Code3(nal, k + 1);
      assert !Code4(d, pos + k);
      if pos + k + 3 > |d| {
        assert StartCode(d, pos + |nal|) == NoCode;
      } else {
        NoCodeInNal(d, pos, k + 1, nal, rest);
      }
    }
  }

  /** Zeros after a unit are trimmed, the unit is not. */
  lemma {:induction false} TrimZeros(d: Bytes, from: nat, e: nat, end: nat)
    requires from < e <= end <= |d| && d[e - 1] != 0
    requires forall i :: e <= i < end ==> d[i] == 0
    ensures Trim(d, from, end) == e
    decreases end
  {
    if end > e {
      TrimZeros(d, from, e, end - 1);
    }
  }

  /** A piece of which lead extra zeros are already passed, and the stream after it. */
  function Ahead(lead: nat, p: Piece, after: Bytes): Bytes
    requires lead <= p.extra
  {
    Zeros(p.extra + 2 - lead) + [1] + (p.nal + after)
  }

  lemma AheadDrop(lead: nat, p: Piece, after: Bytes)
    requires lead <= p.extra
    ensures Ahead(0, p, after) == Zeros(lead) + Ahead(lead, p, after)
  {
    var z, rest := p.extra + 2, p.nal + after;
    assert Zeros(z) == Zeros(lead) + Zeros(z - lead);
    assert (Zeros(lead) + Zeros(z - lead)) + [1] + rest == Zeros(lead) + (Zeros(z - lead) + [1] + rest);
  }

  /** How many extra zeros a search that takes the latest start code passes. */
  function Lead(p: Piece): nat
  {
    Max(0, p.extra - 1)
  }

  /** The stream after a unit: its last zeros, or a next piece. */
  datatype After = Trail(zeros: nat) | More(p: Piece, after: Bytes)

  function Stream(a: After): Bytes
  {
    match a
    case Trail(zeros) => Zeros(zeros)
    case More(p, after) => Ahead(0, p, after)
  }

  function AfterOf(pieces: seq<Piece>, trail: nat): (a: After)
    ensures Stream(a) == Encode(pieces, trail)
  {
    if pieces == [] then Trail(trail) else More(pieces[0], Encode(pieces[1..], trail))
  }

  /** Where the stretch that holds a unit ends, e being the unit's end. */
  function NextAt(d: Bytes, e: nat, a: After): nat
  {
    match a
    case Trail(_) => |d|
    case More(p, _) => e + Lead(p)
  }

  /** The search from a unit on finds what the search from its end on finds. */
  lemma CodeSkipsNal(d: Bytes, pos: nat, nal: Bytes, after: Bytes)
    requires IsNal(nal) && From(d, pos, nal + after)
    ensures StartCode(d, pos) == StartCode(d, pos + |nal|) && From(d, pos + |nal|, after)
  {
    hide StartCode, From;
    NoCodeInNal(d, pos, 0, nal, after);
    Skip(d, pos, nal, after);
  }

  /** Where the code before a piece is found. */
  lemma CodeBeforePiece(d: Bytes, pos: nat, p: Piece, after: Bytes)
    requires From(d, pos, Ahead(0, p, after))
    ensures StartCode(d, pos).CodeAt? && StartCode(d, pos).at == pos + Lead(p)
  {
    hide StartCode, From;
    CodeInZeros(d, pos, p.extra + 2, p.nal + after);
  }

  /** Where the code after a unit is found. */
  lemma CodeAfterNal(d: Bytes, pos: nat, nal: Bytes, a: After)
    requires IsNal(nal) && From(d, pos, nal + Stream(a))
    ensures var code := StartCode(d, pos);
            if a.Trail? then code.NoCode? else code.CodeAt? && code.at == pos + |nal| + Lead(a.p)
  {
    hide StartCode, From, Lead, Ahead;
    CodeSkipsNal(d, pos, nal, Stream(a));
    match a {
      case Trail(zeros) => NoCodeInZeros(d, pos + |nal|, zeros);
      case More(p, after) => CodeBeforePiece(d, pos + |nal|, p, after);
    }
  }

  /** What follows a unit: zeros, then the next start code or the end of the buffer. */
  lemma ZerosAfterUnit(d: Bytes, e: nat, a: After)
    requires From(d, e, Stream(a))
    ensures e <= NextAt(d, e, a) <= |d|
    ensures forall i :: e <= i < NextAt(d, e, a) ==> d[i] == 0
    ensures a.More? ==> From(d, NextAt(d, e, a), Ahead(Lead(a.p), a.p, a.after))
  {
    var zeros := if a.Trail? then a.zeros else Lead(a.p);
    var rest := if a.Trail? then [] else Ahead(Lead(a.p), a.p, a.after);
    if a.More? {
      AheadDrop(zeros, a.p, a.after);
    } else {
      assert Zeros(zeros) + [] == Zeros(zeros);
    }
    Skip(d, e, Zeros(zeros), rest);
    forall i | e <= i < e + zeros ensures d[i] == 0 {
      assert d[e..e + zeros][i - e] == d[i];
    }
  }

  /** The stretch that begins at start holds the unit there and ends before the next piece. */
  lemma UnitAt(d: Bytes, start: nat, nal: Bytes, a: After)
    requires IsNal(nal) && From(d, start, nal + Stream(a))
    ensures var code := StartCode(d, start);
            var next := if code.NoCode? then |d| else code.at;
            && next == NextAt(d, start + |nal|, a) && start + |nal| <= next <= |d|
            && Trim(d, start, next) == start + |nal|
            && (a.More? ==> From(d, next, Ahead(Lead(a.p), a.p, a.after)))
  {
    var e := start + |nal|;
    Skip(d, start, nal, Stream(a));
    CodeAfterNal(d, start, nal, a);
    ZerosAfterUnit(d, e, a);
    At(d, start, nal + Stream(a), |nal| - 1);
    TrimZeros(d, start, e, NextAt(d, e, a));
  }

  lemma NextOfCode(d: Bytes, pos: nat, start: nat)
    requires pos < |d| && StartCode(d, pos).CodeAt? && StartCode(d, pos).at + StartCode(d, pos).len == start
    ensures var code := StartCode(d, start);
            var next := if code.NoCode? then |d| else code.at;
            Trim(d, start, next) > start ==> Next(d, pos) == Unit(start, Trim(d, start, next), next)
  {
    hide StartCode, Trim;
  }

  /** The iterator standing at a piece finds its unit and stands at the next. */
  lemma NextPiece(d: Bytes, pos: nat, lead: nat, p: Piece, a: After) returns (start: nat)
    requires IsNal(p.nal) && lead <= p.extra && From(d, pos, Ahead(lead, p, Stream(a)))
    ensures Next(d, pos) == Unit(start, start + |p.nal|, NextAt(d, start + |p.nal|, a))
    ensures From(d, start, p.nal + Stream(a))
    ensures a.More? ==> From(d, NextAt(d, start + |p.nal|, a), Ahead(Lead(a.p), a.p, a.after))
  {
    hide Next, Trim, Stream, NextAt, StartCode, IsNal, Zeros, Ahead, From;
    start := CodeOfPiece(d, pos, lead, p, Stream(a));
    UnitAt(d, start, p.nal, a);
    NotEmpty(p.nal);
    NextOfCode(d, pos, start);
  }

  lemma NotEmpty(nal: Bytes)
    requires IsNal(nal)
    ensures nal != []
  {
  }

  /** The start code the iterator standing at a piece finds is the piece's own. */
  lemma CodeOfPiece(d: Bytes, pos: nat, lead: nat, p: Piece, rest: Bytes) returns (start: nat)
    requires lead <= p.extra && From(d, pos, Ahead(lead, p, rest))
    ensures pos < |d| && StartCode(d, pos).CodeAt? && StartCode(d, pos).at + StartCode(d, pos).len == start
    ensures From(d, start, p.nal + rest)
  {
    hide StartCode, Zeros;
    var z := p.extra + 2 - lead;
    start := pos + z + 1;
    CodeInZeros(d, pos, z, p.nal + rest);
    Skip(d, pos, Zeros(z) + [1], p.nal + rest);
  }

  lemma {:induction false} UnitsOfPieces(d: Bytes, pos: nat, lead: nat, pieces: seq<Piece>, trail: nat)
    requires pieces != [] && Wellformed(pieces) && lead <= pieces[0].extra
    requires From(d, pos, Ahead(lead, pieces[0], Encode(pieces[1..], trail)))
    ensures Units(d, pos) == Nals(pieces)
    decreases |pieces|
  {
    hide Next, Ahead, Encode, Stream;
    var p, more := pieces[0], pieces[1..];
    var a := AfterOf(more, trail);
    var start := NextPiece(d, pos, lead, p, a);
    Skip(d, start, p.nal, Stream(a));
    assert Slice(d, start, start + |p.nal|) == p.nal;
    var next := NextAt(d, start + |p.nal|, a);
    if more != [] {
      UnitsOfPieces(d, next, Lead(more[0]), more, trail);
    } else {
      assert Units(d, next) == [];
    }
    assert Units(d, pos) == [p.nal] + Units(d, next);
  }

  /**
   * Round trip: units joined by any mix of three- and four-byte start codes,
   * with any extra zero bytes before and after, are returned exactly.
   */
  lemma IteratorInvertsEncoding(pieces: seq<Piece>, trail: nat)
    requires Wellformed(pieces)
    ensures Units(Encode(pieces, trail), 0) == Nals(pieces)
  {
    var d := Encode(pieces, trail);
    assert d[0..] == d;
    if pieces == [] {
      NoCodeInZeros(d, 0, trail);
    } else {
      UnitsOfPieces(d, 0, 0, pieces, trail);
    }
  }
}
