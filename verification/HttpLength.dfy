/** The numbers of HTTP framing as they are spelled: Content-Length lists (RFC 9110 section 8.6) and chunk sizes. */
module HttpLength {
  import opened Common
  import opened HttpText
  import opened Spelling
  import Json

  /** One member of a list: its digits, the space before the comma and the space behind it. */
  datatype Member = Member(digits: seq<byte>, before: seq<byte>, after: seq<byte>)

  function ListText(members: seq<Member>): seq<byte>
  {
    if members == [] then []
    else members[0].digits + (members[0].before + Rest(members))
  }

  /** A comma, its space, and the other members. */
  function Rest(members: seq<Member>): seq<byte>
    requires members != []
    decreases members, 0
  {
    if |members| == 1 then [] else [44] + (members[0].after + ListText(members[1..]))
  }

  predicate SpacesOrTabs(t: seq<byte>)
  {
    forall i :: 0 <= i < |t| ==> t[i] == 32 || t[i] == 9
  }

  ghost predicate IsMember(x: Member, n: nat)
  {
    Spells(x.digits, n, 10) && SpacesOrTabs(x.before) && SpacesOrTabs(x.after)
  }

  ghost predicate IsList(members: seq<Member>, n: nat)
  {
    members != [] && forall i :: 0 <= i < |members| ==> IsMember(members[i], n)
  }

  lemma SpelledIsSome(t: seq<byte>, n: nat)
    requires Spells(t, n, 10)
    ensures t != [] && DecimalDigit(t[0])
  {
    DecimalReads(t, 0, |t|, n);
    assert t[0..|t|] == t;
  }

  lemma ListStarts(members: seq<Member>, n: nat)
    requires IsList(members, n)
    ensures ListText(members) != [] && DecimalDigit(ListText(members)[0])
  {
    assert IsMember(members[0], n);
    SpelledIsSome(members[0].digits, n);
  }

  lemma BlankEnds(t: seq<byte>, p: nat, q: nat)
    requires p <= q <= |t| && SpacesOrTabs(t[p..q]) && !Blank(At(t, q))
    ensures SkipBlank(t, p) == q
  {
    var e := SkipBlank(t, p);
    assert forall k :: p <= k < q ==> t[p..q][k - p] == t[k];
  }

  lemma DigitsEnd(t: seq<byte>, p: nat, q: nat, n: nat)
    requires p < q <= |t| && Spells(t[p..q], n, 10) && !DecimalDigit(At(t, q))
    ensures DigitEnd(t, p) == q && DecimalValue(t, p, q) == n
  {
    hide Spells;
    DecimalReads(t, p, q, n);
    var e := DigitEnd(t, p);
  }

  /** The text from p on taken apart. */
  lemma Peel(t: seq<byte>, p: nat, a: seq<byte>, b: seq<byte>)
    requires p <= |t| && t[p..] == a + b
    ensures p + |a| <= |t| && t[p..p + |a|] == a && t[p + |a|..] == b
  {
    assert |t| - p == |a + b|;
    assert t[p..p + |a|] == t[p..][..|a|];
    assert t[p + |a|..] == t[p..][|a|..];
  }

  /** The places of a list that stands at p. */
  lemma ListPlaces(t: seq<byte>, p: nat, members: seq<Member>)
    requires members != [] && p <= |t| && t[p..] == ListText(members)
    ensures var q := p + |members[0].digits|;
            var e := q + |members[0].before|;
            && q <= e <= |t|
            && t[p..q] == members[0].digits && t[q..e] == members[0].before
            && t[e..] == Rest(members)
  {
    hide Rest;
    var x := members[0];
    Peel(t, p, x.digits, x.before + Rest(members));
    Peel(t, p + |x.digits|, x.before, Rest(members));
  }

  lemma RestPlaces(t: seq<byte>, e: nat, members: seq<Member>)
    requires |members| > 1 && e <= |t| && t[e..] == Rest(members)
    ensures var f := e + 1 + |members[0].after|;
            && e < |t| && t[e] == 44 && f <= |t|
            && t[e + 1..f] == members[0].after && t[f..] == ListText(members[1..])
  {
    hide ListText;
    var x := members[0];
    Peel(t, e, [44], x.after + ListText(members[1..]));
    assert t[e] == t[e..e + 1][0];
    Peel(t, e + 1, x.after, ListText(members[1..]));
  }

  /** The first member of a list, as the parser walks over it. */
  lemma MemberReads(t: seq<byte>, p: nat, q: nat, e: nat, n: nat)
    requires p <= q <= e <= |t| && Spells(t[p..q], n, 10) && SpacesOrTabs(t[q..e]) && (e == |t| || t[e] == 44)
    ensures p < q && DigitEnd(t, p) == q && SkipBlank(t, q) == e && DecimalValue(t, p, q) == n
  {
    hide Spells, DecimalValue;
    SpelledIsSome(t[p..q], n);
    SpaceOrEnd(t, q, e);
    DigitsEnd(t, p, q, n);
    BlankEnds(t, q, e);
  }

  lemma NumbersLast(t: seq<byte>, p: nat, n: nat)
    requires p <= |t| && DigitEnd(t, p) > p && DecimalValue(t, p, DigitEnd(t, p)) == n
    requires SkipBlank(t, DigitEnd(t, p)) == |t|
    ensures Numbers(t, p) == Some([n])
  {
    hide DecimalValue, DigitEnd, SkipBlank;
  }

  lemma AllAreMore(rest: seq<nat>, n: nat)
    requires AllAre(rest, n)
    ensures AllAre([n] + rest, n)
  {
  }

  lemma NumbersNext(t: seq<byte>, p: nat, e: nat, f: nat, n: nat)
    requires p <= |t| && DigitEnd(t, p) > p && DecimalValue(t, p, DigitEnd(t, p)) == n
    requires SkipBlank(t, DigitEnd(t, p)) == e < |t| && t[e] == 44 && SkipBlank(t, e + 1) == f
    requires Numbers(t, f).Some? && AllAre(Numbers(t, f).value, n)
    ensures Numbers(t, p).Some? && AllAre(Numbers(t, p).value, n)
  {
    hide DecimalValue, DigitEnd, SkipBlank, AllAre;
    var rest := Numbers(t, f).value;
    assert Numbers(t, p) == Some([n] + rest);
    AllAreMore(rest, n);
  }

  /** A list in which every member spells n is read as n, again and again. */
  lemma {:induction false} ListReads(t: seq<byte>, p: nat, members: seq<Member>, n: nat)
    requires IsList(members, n) && p <= |t| && t[p..] == ListText(members)
    ensures Numbers(t, p).Some? && AllAre(Numbers(t, p).value, n)
    decreases |members|
  {
    hide ListText, Rest, Spells, DecimalValue, Numbers, DigitEnd, SkipBlank, SpacesOrTabs;
    var x := members[0];
    var q := p + |x.digits|;
    var e := q + |x.before|;
    assert IsMember(x, n);
    ListPlaces(t, p, members);
    if |members| == 1 {
      EndsThere(t, e, members);
      MemberReads(t, p, q, e, n);
      NumbersLast(t, p, n);
    } else {
      var f := e + 1 + |x.after|;
      RestPlaces(t, e, members);
      MemberReads(t, p, q, e, n);
      assert IsList(members[1..], n);
      ListStarts(members[1..], n);
      assert t[f] == t[f..][0];
      BlankEnds(t, e + 1, f);
      ListReads(t, f, members[1..], n);
      NumbersNext(t, p, e, f, n);
    }
  }

  lemma EndsThere(t: seq<byte>, e: nat, members: seq<Member>)
    requires |members| == 1 && e <= |t| && t[e..] == Rest(members)
    ensures e == |t|
  {
  }

  lemma SpaceOrEnd(t: seq<byte>, q: nat, e: nat)
    requires q <= e <= |t| && SpacesOrTabs(t[q..e]) && (e == |t| || t[e] == 44)
    ensures !DecimalDigit(At(t, q))
  {
    if q < e {
      assert t[q] == t[q..e][0];
    }
  }

  lemma ListCons(x: Member, rest: seq<Member>, n: nat)
    requires IsMember(x, n) && (rest == [] || IsList(rest, n))
    ensures IsList([x] + rest, n)
  {
    hide IsMember;
  }

  lemma BlanksBetween(t: seq<byte>, p: nat)
    requires p <= |t|
    ensures SpacesOrTabs(t[p..SkipBlank(t, p)])
  {
  }

  /** What is read as a list of one number is such a list. */
  lemma {:induction false} ListOf(t: seq<byte>, p: nat, n: nat) returns (members: seq<Member>)
    requires p <= |t| && Numbers(t, p).Some? && AllAre(Numbers(t, p).value, n)
    ensures IsList(members, n) && t[p..] == ListText(members)
    decreases |t| - p
  {
    hide Spells, DecimalValue, AllAre, Numbers, ListText, IsList, SpacesOrTabs, AreDigits;
    FirstIs(t, p, n);
    var q := DigitEnd(t, p);
    var e := SkipBlank(t, q);
    DecimalReads(t, p, q, n);
    BlanksBetween(t, q);
    if e == |t| {
      var x := Member(t[p..q], t[q..], []);
      assert t[q..e] == t[q..];
      NoBlanks();
      members := [x];
      ListCons(x, [], n);
      assert [x] + [] == members;
      OneText(t, p, q, members);
    } else {
      var f := SkipBlank(t, e + 1);
      BlanksBetween(t, e + 1);
      var rest := ListOf(t, f, n);
      ListSome(rest, n);
      var x := Member(t[p..q], t[q..e], t[e + 1..f]);
      members := [x] + rest;
      ListCons(x, rest, n);
      MoreText(t, p, q, e, f, members, rest);
    }
  }

  lemma NoBlanks()
    ensures SpacesOrTabs([])
  {
  }

  lemma ListSome(members: seq<Member>, n: nat)
    requires IsList(members, n)
    ensures members != []
  {
  }

  lemma OneText(t: seq<byte>, p: nat, q: nat, members: seq<Member>)
    requires p <= q <= |t| && members == [Member(t[p..q], t[q..], [])]
    ensures t[p..] == ListText(members)
  {
    assert t[p..] == t[p..q] + (t[q..] + []);
  }

  lemma MoreText(t: seq<byte>, p: nat, q: nat, e: nat, f: nat, members: seq<Member>, rest: seq<Member>)
    requires p <= q <= e < f <= |t| && t[e] == 44 && t[f..] == ListText(rest) && rest != []
    requires members == [Member(t[p..q], t[q..e], t[e + 1..f])] + rest
    ensures t[p..] == ListText(members)
  {
    hide ListText;
    assert members[1..] == rest;
    assert ListText(members) == t[p..q] + (t[q..e] + Rest(members)) by {
      ListTextOf(members);
    }
    assert t[e..] == [44] + (t[e + 1..f] + t[f..]);
    assert t[p..] == t[p..q] + (t[q..e] + t[e..]);
  }

  lemma ListTextOf(members: seq<Member>)
    requires members != []
    ensures ListText(members) == members[0].digits + (members[0].before + Rest(members))
  {
  }

  lemma FirstIs(t: seq<byte>, p: nat, n: nat)
    requires p <= |t| && Numbers(t, p).Some? && AllAre(Numbers(t, p).value, n)
    ensures var q := DigitEnd(t, p);
            var e := SkipBlank(t, q);
            && p < q && DecimalValue(t, p, q) == n && AreDigits(t, p, q)
            && (e < |t| ==>
                  && t[e] == 44 && Numbers(t, SkipBlank(t, e + 1)).Some?
                  && AllAre(Numbers(t, SkipBlank(t, e + 1)).value, n))
  {
    hide DecimalValue;
    var q := DigitEnd(t, p);
    var e := SkipBlank(t, q);
    var xs := Numbers(t, p).value;
    assert xs[0] == DecimalValue(t, p, q);
    if e < |t| {
      var rest := Numbers(t, SkipBlank(t, e + 1)).value;
      assert xs == [DecimalValue(t, p, q)] + rest;
      forall i | 0 <= i < |rest| ensures rest[i] == n {
        assert xs[i + 1] == rest[i];
      }
    }
  }

  ghost predicate Lists(t: seq<byte>, n: nat)
  {
    exists members :: IsList(members, n) && t == ListText(members)
  }

  /**
   * A Content-Length field is read as n exactly when it is a list whose every
   * member spells n in decimal digits, zeros in front included, n fits 64 bits
   * and no field before said otherwise.
   */
  lemma LengthExact(t: seq<byte>, seen: Option<nat>, n: nat)
    ensures Length(t, seen) == Some(n)
       <==> n < 0x1_0000_0000_0000_0000 && (seen == None || seen == Some(n)) && Lists(t, n)
  {
    hide Numbers, IsList, ListText;
    assert t[0..] == t;
    if Length(t, seen) == Some(n) {
      var members := ListOf(t, 0, n);
    }
    if n < TWO64 && (seen == None || seen == Some(n)) && Lists(t, n) {
      var members :| IsList(members, n) && t == ListText(members);
      ListReads(t, 0, members, n);
      assert Numbers(t, 0).value[0] == n;
    }
  }

  /** A chunk size line of hexadecimal digits alone is read as n exactly when they spell n and it fits 64 bits. */
  lemma SizeExact(t: seq<byte>, n: nat)
    requires forall i :: 0 <= i < |t| ==> Json.HexValue(t[i]) != None
    ensures ChunkSize(t) == Some(n) <==> t != [] && n < 0x1_0000_0000_0000_0000 && Spells(t, n, 16)
  {
    assert HexEnd(t, 0) == |t|;
    if t != [] {
      hide Spells, Json.HexValue, Json.HexNumber;
      HexReads(t, 0, |t|, n);
      DigitsHaveValue(t, |t|);
      assert t[0..0 + |t|] == t;
    }
  }
}
