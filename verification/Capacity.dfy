/** Whether a desired document fits: collect what it would create, sort, count each distinct identity once. */
module Capacity {
  import opened Common
  import opened Desired

  const STREAM := 0
  const SOURCE := 1
  const DESTINATION := 2
  const KINDS := 3

  datatype Delta = Delta(kind: nat, application: seq<byte>, name: seq<byte>, id: seq<byte>)

  // ---- The order ----

  /** Octets compared left to right, a proper prefix first. */
  function Octets(a: seq<byte>, b: seq<byte>): (r: int)
    ensures -1 <= r <= 1
  {
    if a == [] && b == [] then 0
    else if a == [] then -1
    else if b == [] then 1
    else if a[0] < b[0] then -1
    else if b[0] < a[0] then 1
    else Octets(a[1..], b[1..])
  }

  function Compare(a: Delta, b: Delta): (r: int)
    ensures -1 <= r <= 1
  {
    if a.kind != b.kind then (if a.kind < b.kind then -1 else 1)
    else
      var rc := Octets(a.application, b.application);
      if rc != 0 then rc
      else
        var rc := Octets(a.name, b.name);
        if rc != 0 then rc else Octets(a.id, b.id)
  }

  lemma {:induction false} OctetsOrder(a: seq<byte>, b: seq<byte>)
    ensures Octets(a, b) == 0 <==> a == b
    ensures Octets(a, b) == 0 - Octets(b, a)
    decreases |a|
  {
    if a != [] && b != [] && a[0] == b[0] {
      OctetsOrder(a[1..], b[1..]);
      assert a == [a[0]] + a[1..] && b == [b[0]] + b[1..];
    }
  }

  lemma {:induction false} OctetsTransitive(a: seq<byte>, b: seq<byte>, c: seq<byte>)
    requires Octets(a, b) <= 0 && Octets(b, c) <= 0
    ensures Octets(a, c) <= 0
    ensures Octets(a, c) == 0 ==> Octets(a, b) == 0 && Octets(b, c) == 0
    decreases |a|
  {
    if a != [] && b != [] && c != [] && a[0] == b[0] == c[0] {
      OctetsTransitive(a[1..], b[1..], c[1..]);
    }
  }

  /** The comparison is zero on equal identities only, and turns its sign with its arguments. */
  lemma CompareOrder(a: Delta, b: Delta)
    ensures Compare(a, b) == 0 <==> a == b
    ensures Compare(a, b) == 0 - Compare(b, a)
  {
    OctetsOrder(a.application, b.application);
    OctetsOrder(a.name, b.name);
    OctetsOrder(a.id, b.id);
  }

  /** A total order: together with the lemma above, sorting by it puts equal identities side by side. */
  lemma CompareTransitive(a: Delta, b: Delta, c: Delta)
    requires Compare(a, b) <= 0 && Compare(b, c) <= 0
    ensures Compare(a, c) <= 0
    ensures Compare(a, c) == 0 ==> Compare(a, b) == 0
  {
    if a.kind == b.kind == c.kind {
      if Octets(a.application, b.application) <= 0 && Octets(b.application, c.application) <= 0 {
        OctetsTransitive(a.application, b.application, c.application);
        if a.application == b.application == c.application {
          OctetsOrder(a.application, a.application);
        }
      }
      OctetsOrder(a.application, b.application);
      OctetsOrder(b.application, c.application);
      OctetsOrder(a.application, c.application);
      OctetsOrder(a.name, b.name);
      OctetsOrder(b.name, c.name);
      OctetsOrder(a.name, c.name);
      if a.application == b.application == c.application {
        OctetsTransitive(a.name, b.name, c.name);
        if a.name == b.name == c.name {
          OctetsTransitive(a.id, b.id, c.id);
        }
      }
    }
  }

  ghost predicate Sorted(s: seq<Delta>)
  {
    forall i, j :: 0 <= i <= j < |s| ==> Compare(s[i], s[j]) <= 0
  }

  /** The library sort: some ordered rearrangement of its input, and nothing else is used of it. */
  method Qsort(s: seq<Delta>) returns (r: seq<Delta>)
    ensures Sorted(r) && multiset(r) == multiset(s)
  {
    r := [];
    var i := 0;
    while i < |s|
      invariant i <= |s| && Sorted(r) && multiset(r) == multiset(s[..i])
    {
      assert s[..i + 1] == s[..i] + [s[i]];
      r := Insert(r, s[i]);
      i := i + 1;
    }
    assert s[..i] == s;
  }

  method Insert(s: seq<Delta>, d: Delta) returns (r: seq<Delta>)
    requires Sorted(s)
    ensures Sorted(r) && multiset(r) == multiset(s + [d])
  {
    var k := 0;
    while k < |s| && Compare(s[k], d) <= 0
      invariant k <= |s| && forall i :: 0 <= i < k ==> Compare(s[i], d) <= 0
    {
      k := k + 1;
    }
    forall j | k <= j < |s| ensures Compare(d, s[j]) <= 0 {
      CompareOrder(d, s[k]);
      CompareTransitive(d, s[k], s[j]);
    }
    CompareOrder(d, d);
    hide Compare, Sorted;
    r := s[..k] + [d] + s[k..];
    InsertSorted(s, k, d);
    assert s == s[..k] + s[k..];
  }

  lemma InsertSorted(s: seq<Delta>, k: nat, d: Delta)
    requires Sorted(s) && k <= |s| && Compare(d, d) <= 0
    requires (forall i :: 0 <= i < k ==> Compare(s[i], d) <= 0) && forall j :: k <= j < |s| ==> Compare(d, s[j]) <= 0
    ensures Sorted(s[..k] + [d] + s[k..])
  {
    hide Compare;
    var r := s[..k] + [d] + s[k..];
    forall i, j | 0 <= i <= j < |r| ensures Compare(r[i], r[j]) <= 0 {
      assert r[i] == if i < k then s[i] else if i == k then d else s[i - 1];
      assert r[j] == if j < k then s[j] else if j == k then d else s[j - 1];
    }
  }

  // ---- Counting neighbours ----

  /** The entries below n that differ from their left neighbour, of one kind. */
  function Fresh(s: seq<Delta>, kind: nat, n: nat): nat
    requires n <= |s|
  {
    if n == 0 then 0
    else Fresh(s, kind, n - 1) +
         (if s[n - 1].kind == kind && (n == 1 || Compare(s[n - 2], s[n - 1]) != 0) then 1 else 0)
  }

  ghost function OfKind(s: seq<Delta>, kind: nat): set<Delta>
  {
    set d | d in s && d.kind == kind
  }

  /** In sorted order, an entry was seen before exactly when its left neighbour equals it. */
  lemma SeenIffNeighbour(s: seq<Delta>, n: nat)
    requires Sorted(s) && n < |s|
    ensures s[n] in s[..n] <==> n > 0 && Compare(s[n - 1], s[n]) == 0
  {
    if n > 0 {
      CompareOrder(s[n - 1], s[n]);
      if s[n - 1] == s[n] {
        assert s[..n][n - 1] == s[n];
      }
    }
    if s[n] in s[..n] {
      var i :| 0 <= i < n && s[..n][i] == s[n];
      assert Compare(s[i], s[n - 1]) <= 0 && Compare(s[n - 1], s[n]) <= 0;
      CompareOrder(s[n - 1], s[i]);
    }
  }

  /** Counting the entries that differ from their left neighbour counts the distinct identities. */
  lemma {:induction false} FreshCountsSet(s: seq<Delta>, kind: nat, n: nat)
    requires Sorted(s) && n <= |s|
    ensures Fresh(s, kind, n) == |OfKind(s[..n], kind)|
  {
    if n == 0 {
      assert OfKind(s[..n], kind) == {};
    } else {
      FreshCountsSet(s, kind, n - 1);
      SeenIffNeighbour(s, n - 1);
      hide Compare, Sorted, OfKind;
      assert s[..n] == s[..n - 1] + [s[n - 1]];
      OfKindAppend(s[..n - 1], s[n - 1], kind);
    }
  }

  lemma OfKindAppend(s: seq<Delta>, d: Delta, kind: nat)
    ensures |OfKind(s + [d], kind)| == |OfKind(s, kind)| + if d.kind == kind && d !in s then 1 else 0
  {
    if d.kind == kind {
      assert OfKind(s + [d], kind) == OfKind(s, kind) + {d};
    } else {
      assert OfKind(s + [d], kind) == OfKind(s, kind);
    }
  }

  lemma {:induction false} FreshGrows(s: seq<Delta>, kind: nat, m: nat, n: nat)
    requires m <= n <= |s|
    ensures Fresh(s, kind, m) <= Fresh(s, kind, n)
    decreases n
  {
    if m < n {
      FreshGrows(s, kind, m, n - 1);
    }
  }

  ghost predicate Fits(deltas: seq<Delta>, room: seq<nat>)
    requires |room| == KINDS
  {
    forall k :: 0 <= k < KINDS ==> |OfKind(deltas, k)| <= room[k]
  }

  /** The count over the sorted entries: busy as soon as one kind has no room left, and only then. */
  method Count(entries: seq<Delta>, room: seq<nat>) returns (rc: Rc)
    requires Sorted(entries) && |room| == KINDS && forall i :: 0 <= i < |entries| ==> entries[i].kind < KINDS
    ensures rc == OK || rc == BUSY
    ensures rc == OK <==> Fits(entries, room)
  {
    hide Compare;
    var needed := [0, 0, 0];
    var i := 0;
    while i < |entries|
      invariant i <= |entries| && |needed| == KINDS
      invariant forall k :: 0 <= k < KINDS ==> needed[k] == Fresh(entries, k, i) && needed[k] <= room[k]
    {
      if i != 0 && Compare(entries[i - 1], entries[i]) == 0 {
        i := i + 1;
        continue;
      }
      var kind := entries[i].kind;
      if needed[kind] == room[kind] {
        FreshGrows(entries, kind, i + 1, |entries|);
        Whole(entries, kind);
        return BUSY;
      }
      needed := needed[kind := needed[kind] + 1];
      i := i + 1;
    }
    forall k | 0 <= k < KINDS ensures |OfKind(entries, k)| <= room[k] {
      Whole(entries, k);
    }
    return OK;
  }

  lemma Whole(s: seq<Delta>, kind: nat)
    requires Sorted(s)
    ensures Fresh(s, kind, |s|) == |OfKind(s, kind)|
  {
    FreshCountsSet(s, kind, |s|);
    assert s[..|s|] == s;
  }

  // ---- Collecting ----

  datatype Existing = Existing(sources: set<seq<byte>>, destinations: set<seq<byte>>)

  /** What this worker already holds, and which streams it owns. */
  datatype Model = Model(streams: map<(seq<byte>, seq<byte>), Existing>, owned: set<(seq<byte>, seq<byte>)>)

  predicate ChildrenRead(c: Option<Children>)
  {
    c.Some? ==> c.value.whole && forall i :: 0 <= i < |c.value.ids| ==> c.value.ids[i].Some? && c.value.ids[i].value != []
  }

  predicate ItemReads(m: Model, item: Item)
  {
    && item.application.Some? && item.name.Some?
    && ChildrenRead(item.sources)
    && ((item.application.value, item.name.value) in m.owned ==> ChildrenRead(item.destinations))
  }

  predicate Reads(m: Model, doc: Document)
  {
    doc.whole && forall i :: 0 <= i < |doc.items| ==> ItemReads(m, doc.items[i])
  }

  /** The ids of one kind an existing stream already has. */
  function Held(m: Model, at: (seq<byte>, seq<byte>), kind: nat): set<seq<byte>>
  {
    if at !in m.streams then {}
    else if kind == SOURCE then m.streams[at].sources else m.streams[at].destinations
  }

  /** The children of one kind the document names and the stream does not have yet. */
  ghost predicate NewChild(m: Model, item: Item, c: Option<Children>, kind: nat, d: Delta)
    requires item.application.Some? && item.name.Some?
  {
    && c.Some? && d.kind == kind && d.application == item.application.value && d.name == item.name.value
    && Some(d.id) in c.value.ids && d.id !in Held(m, (d.application, d.name), kind)
  }

  /** The identities one item of the document would create. */
  ghost predicate NewOfItem(m: Model, item: Item, d: Delta)
    requires item.application.Some? && item.name.Some?
  {
    var at := (item.application.value, item.name.value);
    || (d == Delta(STREAM, at.0, at.1, []) && at !in m.streams)
    || NewChild(m, item, item.sources, SOURCE, d)
    || (at in m.owned && NewChild(m, item, item.destinations, DESTINATION, d))
  }

  /** The identities the document would newly create. */
  ghost predicate New(m: Model, doc: Document, d: Delta)
    requires Reads(m, doc)
  {
    exists i :: 0 <= i < |doc.items| && ItemReads(m, doc.items[i]) && NewOfItem(m, doc.items[i], d)
  }

  ghost predicate Partly(m: Model, at: (seq<byte>, seq<byte>), ids: seq<Option<seq<byte>>>, kind: nat, d: Delta)
  {
    d.kind == kind && d.application == at.0 && d.name == at.1 && Some(d.id) in ids && d.id !in Held(m, at, kind)
  }

  lemma PartlyMore(m: Model, at: (seq<byte>, seq<byte>), ids: seq<Option<seq<byte>>>, id: seq<byte>, kind: nat, d: Delta)
    ensures Partly(m, at, ids + [Some(id)], kind, d)
            <==> Partly(m, at, ids, kind, d) || (d == Delta(kind, at.0, at.1, id) && id !in Held(m, at, kind))
  {
    hide Held;
  }

  lemma IdsMore(seen: seq<seq<byte>>, text: seq<byte>)
    ensures IdsOf(seen + [text]) == IdsOf(seen) + [FieldIn(text, ID)]
  {
  }

  lemma MissingId(inner: seq<byte>, i: nat)
    requires i < |Objects(inner, 0).0|
    requires var id := FieldIn(Objects(inner, 0).0[i], ID); id.None? || id.value == []
    ensures !ChildrenRead(Some(ChildrenOf(inner)))
  {
    hide FieldIn, Objects;
    assert ChildrenOf(inner).ids[i] == FieldIn(Objects(inner, 0).0[i], ID);
  }

  /** One array of children, walked object by object. */
  method CollectChildren(m: Model, at: (seq<byte>, seq<byte>), inner: seq<byte>, kind: nat, before: seq<Delta>)
      returns (ok: bool, deltas: seq<Delta>)
    ensures ok <==> ChildrenRead(Some(ChildrenOf(inner)))
    ensures ok ==> forall d :: d in deltas <==> d in before || Partly(m, at, ChildrenOf(inner).ids, kind, d)
  {
    hide NextObject, Objects, FieldIn, Held, IdsOf, Walked, Partly;
    deltas := before;
    var p := 0;
    ghost var seen := [];
    WalkStarts(inner);
    NoneSeen(m, at, kind);
    while true
      invariant p <= |inner| && Walked(inner, seen, p)
      invariant forall k :: 0 <= k < |seen| ==> IdsOf(seen)[k].Some? && IdsOf(seen)[k].value != []
      invariant forall d :: d in deltas <==> d in before || Partly(m, at, IdsOf(seen), kind, d)
      decreases |inner| - p
    {
      var next := ReadNext(inner, p);
      if !next.Object? {
        WalkEnds(inner, seen, p);
        return next.Done?, deltas;
      }
      WalkOn(inner, seen, p);
      var id := ReadField(next.text, ID);
      if id.None? || id.value == [] {
        MissingId(inner, |seen|);
        return false, deltas;
      }
      IdsMore(seen, next.text);
      forall d ensures Partly(m, at, IdsOf(seen + [next.text]), kind, d)
        <==> Partly(m, at, IdsOf(seen), kind, d) || (d == Delta(kind, at.0, at.1, id.value) && id.value !in Held(m, at, kind))
      {
        PartlyMore(m, at, IdsOf(seen), id.value, kind, d);
      }
      if id.value !in Held(m, at, kind) {
        deltas := deltas + [Delta(kind, at.0, at.1, id.value)];
      }
      p, seen := next.next, seen + [next.text];
    }
  }

  lemma NoneSeen(m: Model, at: (seq<byte>, seq<byte>), kind: nat)
    ensures IdsOf([]) == [] && forall d :: !Partly(m, at, [], kind, d)
  {
  }

  /** The two arrays of one stream; the second is looked at only where this worker owns the stream. */
  method CollectArray(m: Model, item: seq<byte>, at: (seq<byte>, seq<byte>), key: seq<byte>, kind: nat, before: seq<Delta>)
      returns (ok: bool, deltas: seq<Delta>)
    requires ItemOf(item).application == Some(at.0) && ItemOf(item).name == Some(at.1)
    ensures ok <==> ChildrenRead(ChildrenIn(item, key))
    ensures ok ==> forall d :: d in deltas <==> d in before || NewChild(m, ItemOf(item), ChildrenIn(item, key), kind, d)
  {
    hide ArrayIn, ChildrenOf, ItemOf, Held;
    var inner := ReadArray(item, key);
    if inner.None? {
      return true, before;
    }
    ok, deltas := CollectChildren(m, at, inner.value, kind, before);
  }

  method CollectItem(m: Model, item: seq<byte>, before: seq<Delta>) returns (ok: bool, deltas: seq<Delta>)
    ensures ok <==> ItemReads(m, ItemOf(item))
    ensures ok ==> forall d :: d in deltas <==> d in before || NewOfItem(m, ItemOf(item), d)
  {
    hide NewChild, ChildrenRead, FieldIn, ChildrenIn;
    deltas := before;
    var application := ReadField(item, APPLICATION);
    if application.None? {
      return false, deltas;
    }
    var name := ReadField(item, NAME);
    if name.None? {
      return false, deltas;
    }
    var at := (application.value, name.value);
    if at !in m.streams {
      deltas := deltas + [Delta(STREAM, at.0, at.1, [])];
    }
    ok, deltas := CollectArray(m, item, at, SOURCES, SOURCE, deltas);
    if ok && at in m.owned {
      ok, deltas := CollectArray(m, item, at, DESTINATIONS, DESTINATION, deltas);
    }
  }

  lemma UnreadItem(m: Model, inner: seq<byte>, i: nat)
    requires i < |Objects(inner, 0).0| && !ItemReads(m, ItemOf(Objects(inner, 0).0[i]))
    ensures !Reads(m, DocumentOf(inner))
  {
    hide ItemReads, Objects, ItemOf;
    assert DocumentOf(inner).items[i] == ItemOf(Objects(inner, 0).0[i]);
  }

  lemma ItemsMore(seen: seq<seq<byte>>, text: seq<byte>)
    ensures ItemsOf(seen + [text]) == ItemsOf(seen) + [ItemOf(text)] && ItemsOf([]) == []
  {
    hide ItemOf;
  }

  /** Everything the document would create, or a refusal of a malformed one: the streams array, walked object by object. */
  method Collect(m: Model, inner: seq<byte>) returns (ok: bool, deltas: seq<Delta>)
    ensures ok <==> Reads(m, DocumentOf(inner))
    ensures ok ==> forall d :: d in deltas <==> New(m, DocumentOf(inner), d)
  {
    hide NewOfItem, ItemReads, NextObject, Objects, ItemOf, ItemsOf, Walked;
    deltas := [];
    var p := 0;
    ghost var seen := [];
    WalkStarts(inner);
    ItemsMore([], []);
    while true
      invariant p <= |inner| && Walked(inner, seen, p)
      invariant forall k :: 0 <= k < |seen| ==> ItemReads(m, ItemsOf(seen)[k])
      invariant forall d :: d in deltas <==> NewBefore(m, ItemsOf(seen), |seen|, d)
      decreases |inner| - p
    {
      var next := ReadNext(inner, p);
      if !next.Object? {
        WalkEnds(inner, seen, p);
        return next.Done?, deltas;
      }
      WalkOn(inner, seen, p);
      ok, deltas := CollectItem(m, next.text, deltas);
      if !ok {
        UnreadItem(m, inner, |seen|);
        return;
      }
      ItemsMore(seen, next.text);
      forall d ensures NewBefore(m, ItemsOf(seen + [next.text]), |seen| + 1, d)
        <==> NewBefore(m, ItemsOf(seen), |seen|, d) || NewAt(m, ItemOf(next.text), d)
      {
        NewNext(m, ItemsOf(seen), ItemOf(next.text), d);
      }
      p, seen := next.next, seen + [next.text];
    }
  }

  ghost predicate NewBefore(m: Model, items: seq<Item>, n: nat, d: Delta)
    requires n <= |items|
  {
    exists i :: 0 <= i < n && NewAt(m, items[i], d)
  }

  ghost predicate NewAt(m: Model, item: Item, d: Delta)
  {
    ItemReads(m, item) && NewOfItem(m, item, d)
  }

  lemma NewNext(m: Model, items: seq<Item>, item: Item, d: Delta)
    ensures NewBefore(m, items + [item], |items| + 1, d) <==> NewBefore(m, items, |items|, d) || NewAt(m, item, d)
  {
    hide NewAt;
    var all := items + [item];
    assert all[|items|] == item;
    assert forall i :: 0 <= i < |items| ==> all[i] == items[i];
  }

  // ---- The admission ----

  /** The identities of one kind the document would newly create, each once. */
  ghost predicate IsNewSet(m: Model, doc: Document, kind: nat, s: set<Delta>)
    requires Reads(m, doc)
  {
    forall d :: d in s <==> New(m, doc, d) && d.kind == kind
  }

  lemma KindsInRange(m: Model, doc: Document, d: Delta)
    requires Reads(m, doc) && New(m, doc, d)
    ensures d.kind < KINDS
  {
  }

  lemma SameMembers(a: seq<Delta>, b: seq<Delta>)
    requires multiset(a) == multiset(b)
    ensures forall d :: d in a <==> d in b
  {
    forall d ensures d in a <==> d in b {
      assert d in a <==> d in multiset(a);
      assert d in b <==> d in multiset(b);
    }
  }

  /** Item i of the document is about the stream (application, name). */
  predicate About(doc: Document, i: int, application: seq<byte>, name: seq<byte>)
  {
    0 <= i < |doc.items| && doc.items[i].application == Some(application) && doc.items[i].name == Some(name)
  }

  predicate Names(c: Option<Children>, id: seq<byte>)
  {
    c.Some? && Some(id) in c.value.ids
  }

  /**
   * What a document creates: every stream it names that is not there, every
   * source it names that its stream does not have among its sources, and of
   * the streams this worker owns every destination that is not among their
   * destinations; nothing else.
   */
  lemma CreatedMeans(m: Model, doc: Document, d: Delta)
    requires Reads(m, doc)
    ensures var at := (d.application, d.name);
            && (d.kind == STREAM ==>
                  (New(m, doc, d) <==>
                   d.id == [] && at !in m.streams && exists i :: About(doc, i, at.0, at.1)))
            && (d.kind == SOURCE ==>
                  (New(m, doc, d) <==>
                   && (at in m.streams ==> d.id !in m.streams[at].sources)
                   && exists i :: About(doc, i, at.0, at.1) && Names(doc.items[i].sources, d.id)))
            && (d.kind == DESTINATION ==>
                  (New(m, doc, d) <==>
                   && at in m.owned && (at in m.streams ==> d.id !in m.streams[at].destinations)
                   && exists i :: About(doc, i, at.0, at.1) && Names(doc.items[i].destinations, d.id)))
            && (d.kind > 2 ==> !New(m, doc, d))
  {
    var at := (d.application, d.name);
    if New(m, doc, d) {
      var i :| 0 <= i < |doc.items| && ItemReads(m, doc.items[i]) && NewOfItem(m, doc.items[i], d);
      assert About(doc, i, at.0, at.1);
    }
    forall i | About(doc, i, at.0, at.1) && NewOfItem(m, doc.items[i], d) ensures New(m, doc, d) {
      assert ItemReads(m, doc.items[i]);
    }
  }

  /** No identity is missing or empty, and nothing but objects stands in the array. */
  predicate Proper(c: Option<Children>)
  {
    c.Some? ==> c.value.whole && None !in c.value.ids && Some([]) !in c.value.ids
  }

  /** Which documents are declined: what stands among the destinations of another worker's stream never matters. */
  lemma DeclinedMeans(m: Model, doc: Document)
    ensures Reads(m, doc)
            <==> doc.whole && forall i :: 0 <= i < |doc.items| ==>
                   && doc.items[i].application != None && doc.items[i].name != None && Proper(doc.items[i].sources)
                   && (Proper(doc.items[i].destinations)
                       || (doc.items[i].application.value, doc.items[i].name.value) !in m.owned)
  {
    forall c: Option<Children> ensures ChildrenRead(c) <==> Proper(c) {
      if c.Some? && Proper(c) {
        forall i | 0 <= i < |c.value.ids| ensures c.value.ids[i].Some? && c.value.ids[i].value != [] {
          assert c.value.ids[i] in c.value.ids;
        }
      }
    }
  }

  /** Everything the document names is there already, as far as this worker looks. */
  ghost predicate NamesOnlyWhatIsThere(m: Model, doc: Document)
  {
    forall i, application, name :: About(doc, i, application, name) ==>
      && (application, name) in m.streams
      && (forall id :: Names(doc.items[i].sources, id) ==> id in m.streams[(application, name)].sources)
      && ((application, name) in m.owned ==>
            forall id :: Names(doc.items[i].destinations, id) ==> id in m.streams[(application, name)].destinations)
  }

  lemma NothingCreated(m: Model, doc: Document, d: Delta)
    requires Reads(m, doc) && NamesOnlyWhatIsThere(m, doc)
    ensures !New(m, doc, d)
  {
    hide New, Reads, About, Names;
    CreatedMeans(m, doc, d);
  }

  /**
   * The whole check, on the text of the streams array.  A malformed document
   * is declined; any other is admitted exactly when, for each kind, the
   * identities it would newly create - each counted once however often the
   * document names it - fit the remaining room.
   */
  method Admit(m: Model, streams: seq<byte>, room: seq<nat>) returns (rc: Rc)
    requires |room| == KINDS && |streams| >= 2
    ensures rc == OK || rc == BUSY || rc == DECLINED
    ensures var doc := DocumentOf(streams[1..|streams| - 1]);
            && (rc == DECLINED <==> !Reads(m, doc))
            && (Reads(m, doc) ==> (rc == OK <==> forall k :: 0 <= k < KINDS ==> FitsRoom(m, doc, k, room[k])))
            && (Reads(m, doc) && NamesOnlyWhatIsThere(m, doc) ==> rc == OK)
  {
    hide New, Sorted, Reads, DocumentOf, NamesOnlyWhatIsThere, FitsRoom;
    ghost var doc := DocumentOf(streams[1..|streams| - 1]);
    var ok, deltas := Collect(m, streams[1..|streams| - 1]);
    if !ok {
      return DECLINED;
    }
    var entries := Qsort(deltas);
    SameMembers(entries, deltas);
    forall i | 0 <= i < |entries| ensures entries[i].kind < KINDS {
      KindsInRange(m, doc, entries[i]);
    }
    rc := Count(entries, room);
    forall k | 0 <= k < KINDS ensures FitsRoom(m, doc, k, room[k]) <==> |OfKind(entries, k)| <= room[k] {
      FitsIff(m, doc, k, OfKind(entries, k), room[k]);
    }
    if NamesOnlyWhatIsThere(m, doc) {
      forall d ensures d !in entries {
        NothingCreated(m, doc, d);
      }
      forall k ensures OfKind(entries, k) == {} {
      }
    }
  }

  /** There are at most so many identities of one kind that the document would newly create. */
  ghost predicate FitsRoom(m: Model, doc: Document, kind: nat, room: nat)
    requires Reads(m, doc)
  {
    exists s :: IsNewSet(m, doc, kind, s) && |s| <= room
  }

  lemma FitsIff(m: Model, doc: Document, kind: nat, s: set<Delta>, room: nat)
    requires Reads(m, doc) && IsNewSet(m, doc, kind, s)
    ensures FitsRoom(m, doc, kind, room) <==> |s| <= room
  {
    hide New, Reads;
    forall t | IsNewSet(m, doc, kind, t) ensures t == s {
    }
  }
}
