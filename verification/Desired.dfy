/**
 * The desired document as the control API reads it: arrays walked one object
 * at a time, and fields looked up in each object's own text.
 */
module Desired {
  import opened Common
  import opened JsonScan
  import opened JsonField

  // ---- What the text says --------------------------------------------------------

  /** One array of children: the identity of each object (None when it has none), and whether the array scans to its end. */
  datatype Children = Children(ids: seq<Option<seq<byte>>>, whole: bool)

  datatype Item = Item(
    application: Option<seq<byte>>, name: Option<seq<byte>>,
    sources: Option<Children>, destinations: Option<Children>)

  datatype Document = Document(items: seq<Item>, whole: bool)

  const LEFT_BRACE: byte := 123
  const LEFT_BRACKET: byte := 91
  const RIGHT_BRACKET: byte := 93

  /** The octets of a name. */
  function Ascii(name: string): (t: seq<byte>)
    requires forall i :: 0 <= i < |name| ==> name[i] < 128 as char
    ensures |t| == |name|
  {
    seq(|name|, i requires 0 <= i < |name| => name[i] as int)
  }

  const APPLICATION := Ascii("application")
  const NAME := Ascii("name")
  const SOURCES := Ascii("sources")
  const DESTINATIONS := Ascii("destinations")
  const ID := Ascii("id")

  /** What may stand between the objects of an array. */
  predicate Between(b: byte)
  {
    Space(b) || b == COMMA
  }

  function SkipBetween(s: seq<byte>, p: nat): (q: nat)
    requires p <= |s|
    ensures p <= q <= |s| && (q < |s| ==> !Between(s[q])) && forall k :: p <= k < q ==> Between(s[k])
    decreases |s| - p
  {
    if p < |s| && Between(s[p]) then SkipBetween(s, p + 1) else p
  }

  datatype Next = Done | Bad | Object(text: seq<byte>, next: nat)

  /** The next object of an array's inner text. */
  function NextObject(s: seq<byte>, p: nat): (n: Next)
    requires p <= |s|
    ensures n.Object? ==> p < n.next <= |s|
  {
    var q := SkipBetween(s, p);
    if q == |s| then Done
    else if s[q] != LEFT_BRACE || ValueEndOf(s, q).None? then Bad
    else
      ContainerAdvances(s, q);
      Object(s[q..ValueEndOf(s, q).value], ValueEndOf(s, q).value)
  }

  lemma ContainerAdvances(s: seq<byte>, q: nat)
    requires q < |s| && s[q] == LEFT_BRACE && ValueEndOf(s, q).Some?
    ensures q < ValueEndOf(s, q).value <= |s|
  {
    assert Scan(s, q, 0, false, Container) == Scan(s, q + 1, 1, false, Container);
  }

  /** The texts of the objects from p on, and whether nothing else stands there. */
  function Objects(s: seq<byte>, p: nat): (seq<seq<byte>>, bool)
    requires p <= |s|
    decreases |s| - p
  {
    match NextObject(s, p)
    case Done => ([], true)
    case Bad => ([], false)
    case Object(text, next) =>
      var rest := Objects(s, next);
      ([text] + rest.0, rest.1)
  }

  function FieldIn(item: seq<byte>, key: seq<byte>): Option<seq<byte>>
  {
    match Lookup(item, key, true)
    case Found(value) => Some(value)
    case _ => None
  }

  /** The inner text of an array field; anything that is no array counts as missing. */
  function ArrayIn(item: seq<byte>, key: seq<byte>): Option<seq<byte>>
  {
    match Lookup(item, key, false)
    case Found(v) =>
      if |v| >= 2 && v[0] == LEFT_BRACKET && v[|v| - 1] == RIGHT_BRACKET then Some(v[1..|v| - 1]) else None
    case _ => None
  }

  function IdsOf(texts: seq<seq<byte>>): (ids: seq<Option<seq<byte>>>)
    ensures |ids| == |texts| && forall i :: 0 <= i < |texts| ==> ids[i] == FieldIn(texts[i], ID)
  {
    seq(|texts|, i requires 0 <= i < |texts| => FieldIn(texts[i], ID))
  }

  function ChildrenOf(inner: seq<byte>): Children
  {
    var r := Objects(inner, 0);
    Children(IdsOf(r.0), r.1)
  }

  function ChildrenIn(item: seq<byte>, key: seq<byte>): Option<Children>
  {
    match ArrayIn(item, key)
    case Some(inner) => Some(ChildrenOf(inner))
    case None => None
  }

  function ItemOf(text: seq<byte>): Item
  {
    Item(FieldIn(text, APPLICATION), FieldIn(text, NAME), ChildrenIn(text, SOURCES), ChildrenIn(text, DESTINATIONS))
  }

  function ItemsOf(texts: seq<seq<byte>>): (items: seq<Item>)
    ensures |items| == |texts| && forall i :: 0 <= i < |texts| ==> items[i] == ItemOf(texts[i])
  {
    seq(|texts|, i requires 0 <= i < |texts| => ItemOf(texts[i]))
  }

  /** The document whose streams array has this inner text. */
  function DocumentOf(inner: seq<byte>): Document
  {
    var r := Objects(inner, 0);
    Document(ItemsOf(r.0), r.1)
  }

  // ---- The loops -------------------------------------------------------------------

  method AfterBetween(s: seq<byte>, p: nat) returns (q: nat)
    requires p <= |s|
    ensures q == SkipBetween(s, p)
  {
    q := p;
    while q < |s| && Between(s[q])
      invariant p <= q <= |s| && SkipBetween(s, q) == SkipBetween(s, p)
    {
      q := q + 1;
    }
  }

  method ReadNext(s: seq<byte>, p: nat) returns (n: Next)
    requires p <= |s|
    ensures n == NextObject(s, p)
  {
    hide SkipBetween, Between, ValueEndOf;
    var q := AfterBetween(s, p);
    if q == |s| {
      return Done;
    }
    if s[q] != LEFT_BRACE {
      return Bad;
    }
    var end := ValueEnd(s, q);
    if end.None? {
      return Bad;
    }
    ContainerAdvances(s, q);
    return Object(s[q..end.value], end.value);
  }

  /** The lookup over a part of the document. */
  method LookInto(item: seq<byte>, key: seq<byte>, pool: bool) returns (a: Answer)
    ensures a == Lookup(item, key, pool)
  {
    var src := new byte[|item|](i requires 0 <= i < |item| => item[i]);
    assert src[..] == item;
    a := Find(src, key, pool);
  }

  method ReadField(item: seq<byte>, key: seq<byte>) returns (v: Option<seq<byte>>)
    ensures v == FieldIn(item, key)
  {
    var a := LookInto(item, key, true);
    return if a.Found? then Some(a.value) else None;
  }

  method ReadArray(item: seq<byte>, key: seq<byte>) returns (inner: Option<seq<byte>>)
    ensures inner == ArrayIn(item, key)
  {
    var a := LookInto(item, key, false);
    if !a.Found? {
      return None;
    }
    var v := a.value;
    if |v| >= 2 && v[0] == LEFT_BRACKET && v[|v| - 1] == RIGHT_BRACKET {
      return Some(v[1..|v| - 1]);
    }
    return None;
  }

  /** A walk that has passed some objects: what is left completes them. */
  predicate Walked(s: seq<byte>, seen: seq<seq<byte>>, p: nat)
    requires p <= |s|
  {
    Objects(s, 0) == (seen + Objects(s, p).0, Objects(s, p).1)
  }

  lemma WalkStarts(s: seq<byte>)
    ensures Walked(s, [], 0)
  {
    assert [] + Objects(s, 0).0 == Objects(s, 0).0;
  }

  lemma WalkOn(s: seq<byte>, seen: seq<seq<byte>>, p: nat)
    requires p <= |s| && Walked(s, seen, p) && NextObject(s, p).Object?
    ensures Walked(s, seen + [NextObject(s, p).text], NextObject(s, p).next)
    ensures |seen| < |Objects(s, 0).0| && Objects(s, 0).0[|seen|] == NextObject(s, p).text
  {
    hide NextObject;
    var n := NextObject(s, p);
    ConcatAssociative(seen, [n.text], Objects(s, n.next).0);
  }

  lemma WalkEnds(s: seq<byte>, seen: seq<seq<byte>>, p: nat)
    requires p <= |s| && Walked(s, seen, p) && !NextObject(s, p).Object?
    ensures Objects(s, 0) == (seen, NextObject(s, p).Done?)
  {
    hide NextObject;
    assert seen + [] == seen;
  }
}
