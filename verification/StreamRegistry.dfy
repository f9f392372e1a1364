/** A worker's registry of streams, and the operations of other workers applied to it in place. */
module StreamRegistry {
  import opened Common
  import opened Replica
  import Tombstone

  datatype Entry = Entry(name: Name, stream: Stream)

  predicate Distinct(entries: seq<Entry>)
  {
    forall i, j :: 0 <= i < j < |entries| ==> entries[i].name != entries[j].name
  }

  /** The streams a list of entries holds, the later entry of a name winning. */
  function MapOf(entries: seq<Entry>): map<Name, Stream>
  {
    if entries == [] then map[]
    else MapOf(entries[..|entries| - 1])[entries[|entries| - 1].name := entries[|entries| - 1].stream]
  }

  lemma {:induction false} MapOfHas(entries: seq<Entry>, i: nat)
    requires Distinct(entries) && i < |entries|
    ensures entries[i].name in MapOf(entries) && MapOf(entries)[entries[i].name] == entries[i].stream
  {
    if i < |entries| - 1 {
      MapOfHas(entries[..|entries| - 1], i);
    }
  }

  lemma {:induction false} MapOfOnly(entries: seq<Entry>, n: Name) returns (i: nat)
    requires n in MapOf(entries)
    ensures i < |entries| && entries[i].name == n
  {
    var m := |entries| - 1;
    if entries[m].name == n {
      i := m;
    } else {
      i := MapOfOnly(entries[..m], n);
    }
  }

  function Without(entries: seq<Entry>, i: nat): (rest: seq<Entry>)
    requires i < |entries|
    ensures |rest| == |entries| - 1
  {
    entries[..i] + entries[i + 1..]
  }

  lemma DistinctWithout(entries: seq<Entry>, i: nat)
    requires Distinct(entries) && i < |entries|
    ensures Distinct(Without(entries, i))
    ensures forall k :: 0 <= k < |entries| - 1 ==> Without(entries, i)[k].name != entries[i].name
  {
  }

  lemma {:induction false} MapOfWithout(entries: seq<Entry>, i: nat)
    requires Distinct(entries) && i < |entries|
    ensures MapOf(Without(entries, i)) == MapOf(entries) - {entries[i].name}
  {
    hide Distinct;
    var m := |entries| - 1;
    var before := entries[..m];
    DistinctWithout(entries, m);
    assert Without(entries, m) == before;
    if i == m {
      if entries[i].name in MapOf(before) {
        var k := MapOfOnly(before, entries[i].name);
      }
    } else {
      MapOfWithout(before, i);
      assert before[i] == entries[i];
      WithoutLast(entries, i);
    }
  }

  lemma WithoutLast(entries: seq<Entry>, i: nat)
    requires i < |entries| - 1
    ensures var m := |entries| - 1;
            Without(entries, i)[..m - 1] == Without(entries[..m], i) && Without(entries, i)[m - 1] == entries[m]
  {
  }

  lemma {:induction false} MapOfPut(entries: seq<Entry>, i: nat, stream: Stream)
    requires Distinct(entries) && i < |entries|
    ensures MapOf(entries[i := Entry(entries[i].name, stream)]) == MapOf(entries)[entries[i].name := stream]
  {
    var m := |entries| - 1;
    var changed := entries[i := Entry(entries[i].name, stream)];
    if i == m {
      assert changed[..m] == entries[..m];
    } else {
      MapOfPut(entries[..m], i, stream);
      assert changed[..m] == entries[..m][i := Entry(entries[i].name, stream)];
    }
  }

  lemma MapOfAppend(entries: seq<Entry>, e: Entry)
    ensures MapOf(entries + [e]) == MapOf(entries)[e.name := e.stream]
  {
    assert (entries + [e])[..|entries|] == entries;
  }

  lemma WithoutAppended(entries: seq<Entry>, e: Entry, i: nat)
    requires i < |entries|
    ensures Without(entries + [e], i) == Without(entries, i) + [e]
  {
  }

  lemma DistinctAppend(entries: seq<Entry>, e: Entry)
    requires Distinct(entries) && forall k :: 0 <= k < |entries| ==> entries[k].name != e.name
    ensures Distinct(entries + [e])
  {
  }

  /** The name's stream replaced by a staged one: the staged entry is appended first, then the old one unlinked. */
  lemma MapOfReplace(entries: seq<Entry>, i: nat, stream: Stream)
    requires Distinct(entries) && i < |entries|
    ensures var staged := entries + [Entry(entries[i].name, stream)];
            Distinct(Without(staged, i))
            && MapOf(Without(staged, i)) == (MapOf(entries) - {entries[i].name})[entries[i].name := stream]
  {
    hide MapOf, Distinct, Without;
    var e := Entry(entries[i].name, stream);
    var rest := Without(entries, i);
    MapOfWithout(entries, i);
    DistinctWithout(entries, i);
    WithoutAppended(entries, e, i);
    MapOfAppend(rest, e);
    DistinctAppend(rest, e);
  }

  /** The streams the entries are, incarnation by incarnation. */
  function Objects(entries: seq<Entry>): set<(Name, nat)>
  {
    set e <- entries :: (e.name, e.stream.incarnation)
  }

  lemma ObjectsWithout(entries: seq<Entry>, i: nat)
    requires i < |entries|
    ensures Objects(entries) <= Objects(Without(entries, i)) + Objects([entries[i]])
  {
    var rest := Without(entries, i);
    forall k | 0 <= k < |entries| ensures entries[k] in rest || entries[k] in [entries[i]] {
      if k < i {
        assert rest[k] == entries[k];
      } else if k > i {
        assert rest[k - 1] == entries[k];
      } else {
        assert [entries[i]][0] == entries[i];
      }
    }
  }

  lemma ObjectsConcat(a: seq<Entry>, b: seq<Entry>)
    ensures Objects(a + b) == Objects(a) + Objects(b)
  {
    assert forall e :: e in a + b <==> e in a || e in b;
  }

  lemma ObjectsPut(entries: seq<Entry>, i: nat, stream: Stream)
    requires i < |entries| && stream.incarnation == entries[i].stream.incarnation
    ensures Objects(entries[i := Entry(entries[i].name, stream)]) == Objects(entries)
  {
    var changed := entries[i := Entry(entries[i].name, stream)];
    forall x ensures x in Objects(changed) <==> x in Objects(entries) {
      if x in Objects(entries) {
        var e :| e in entries && x == (e.name, e.stream.incarnation);
        var k :| 0 <= k < |entries| && entries[k] == e;
        assert changed[k] in changed;
      }
      if x in Objects(changed) {
        var e :| e in changed && x == (e.name, e.stream.incarnation);
        var k :| 0 <= k < |changed| && changed[k] == e;
        assert entries[k] in entries;
      }
    }
  }

  /** The entries whose streams a reader still holds. */
  function StillHeld(entries: seq<Entry>, readers: set<(Name, nat)>): seq<Entry>
  {
    if entries == [] then []
    else
      var e := entries[0];
      (if (e.name, e.stream.incarnation) in readers then [e] else []) + StillHeld(entries[1..], readers)
  }

  lemma {:induction false} StillHeldKeeps(entries: seq<Entry>, readers: set<(Name, nat)>)
    ensures Objects(StillHeld(entries, readers)) == Objects(entries) * readers
  {
    if entries != [] {
      StillHeldKeeps(entries[1..], readers);
      assert entries == [entries[0]] + entries[1..];
      ObjectsConcat([entries[0]], entries[1..]);
      ObjectsConcat([entries[0]], StillHeld(entries[1..], readers));
      assert [] + StillHeld(entries[1..], readers) == StillHeld(entries[1..], readers);
      assert forall x :: x in Objects([entries[0]]) <==> x == (entries[0].name, entries[0].stream.incarnation);
    }
  }

  lemma HeldHead(entries: seq<Entry>, i: nat, readers: set<(Name, nat)>, kept: seq<Entry>)
    requires i < |entries|
    ensures var held := (entries[i].name, entries[i].stream.incarnation) in readers;
            kept + StillHeld(entries[i..], readers)
            == (if held then kept + [entries[i]] else kept) + StillHeld(entries[i + 1..], readers)
  {
    assert entries[i..][1..] == entries[i + 1..];
    var rest := StillHeld(entries[i + 1..], readers);
    ConcatAssociative(kept, [entries[i]], rest);
    assert [] + rest == rest;
  }

  class Registry {
    const hash: Name -> nat
    const tombstones: Tombstone.Ring
    var entries: seq<Entry>
    /** Removed, and not released yet: a reader held them. */
    var draining: seq<Entry>
    /** What readers and sessions of this worker hold; they come and go by themselves. */
    var readers: set<(Name, nat)>

    ghost predicate Valid()
      reads `entries, tombstones, tombstones.slots
    {
      tombstones.Valid() && Distinct(entries)
    }

    ghost function View(): State
      reads `entries, tombstones
    {
      State(MapOf(entries), tombstones.adds)
    }

    /** Streams whose memory is not released. */
    ghost function Alive(): set<(Name, nat)>
      reads `entries, `draining
    {
      Objects(entries) + Objects(draining)
    }

    constructor (hash: Name -> nat)
      ensures Valid() && View() == EMPTY && Alive() == {} && this.hash == hash && fresh(tombstones) && fresh(tombstones.slots)
    {
      this.hash := hash;
      tombstones := new Tombstone.Ring();
      entries, draining, readers := [], [], {};
    }

    /** The walk over the entries: the index of the name's stream, or their number. */
    method Find(n: Name) returns (i: nat)
      requires Valid()
      ensures i <= |entries|
      ensures i < |entries| ==> entries[i].name == n && Lookup(View(), n) == Some(entries[i].stream)
      ensures i == |entries| <==> Lookup(View(), n) == None
    {
      i := 0;
      while i < |entries|
        invariant i <= |entries|
        invariant forall k :: 0 <= k < i ==> entries[k].name != n
      {
        if entries[i].name == n {
          MapOfHas(entries, i);
          return;
        }
        i := i + 1;
      }
      if n in MapOf(entries) {
        ghost var k := MapOfOnly(entries, n);
      }
    }

    /** A stream linked at the tail. */
    method Link(n: Name, stream: Stream)
      requires Valid() && n !in View().streams
      modifies `entries
      ensures Valid() && View() == Put(old(View()), n, stream)
      ensures old(Alive()) <= Alive()
    {
      ObjectsConcat(entries, [Entry(n, stream)]);
      MapOfAppend(entries, Entry(n, stream));
      forall k | 0 <= k < |entries| ensures entries[k].name != n {
        MapOfHas(entries, k);
      }
      entries := entries + [Entry(n, stream)];
    }

    method Update(i: nat, stream: Stream)
      requires Valid() && i < |entries| && stream.incarnation == entries[i].stream.incarnation
      modifies `entries
      ensures Valid() && View() == Put(old(View()), old(entries[i].name), stream)
      ensures Alive() == old(Alive())
      ensures |entries| == old(|entries|) && entries[i].stream == stream && entries[i].name == old(entries[i].name)
    {
      MapOfPut(entries, i, stream);
      ObjectsPut(entries, i, stream);
      entries := entries[i := Entry(entries[i].name, stream)];
    }

    /**
     * Unlinks a stream; a destroyed one leaves its revision behind, a
     * discarded one does not.  While a reader holds it, it is not released.
     */
    method Remove(i: nat, remember: bool)
      requires Valid() && i < |entries|
      modifies `entries, `draining, tombstones, tombstones.slots
      ensures Valid()
      ensures View().streams == old(View()).streams - {old(entries[i].name)}
      ensures View().adds == old(View()).adds
                             + if remember then [Tombstone.Tomb(hash(old(entries[i].name)), old(entries[i].stream.revision))] else []
      ensures draining == old(draining)
                          + if (old(entries[i].name), old(entries[i].stream.incarnation)) in readers then [old(entries[i])] else []
      ensures old(Alive()) * readers <= Alive()
    {
      ObjectsWithout(entries, i);
      ObjectsConcat(draining, [entries[i]]);
      MapOfWithout(entries, i);
      DistinctWithout(entries, i);
      var e := entries[i];
      entries := Without(entries, i);
      if remember {
        tombstones.Add(hash(e.name), e.stream.revision);
      }
      if (e.name, e.stream.incarnation) in readers {
        draining := draining + [e];
      } else {
        assert draining + [] == draining;
      }
    }

    /** The tick: what no reader holds any more is released, and nothing else. */
    method ReleaseDrained()
      modifies `draining
      ensures draining == StillHeld(old(draining), readers)
      ensures old(Alive()) * readers <= Alive()
    {
      var kept := [];
      var i := 0;
      assert draining[0..] == draining && [] + StillHeld(draining, readers) == StillHeld(draining, readers);
      while i < |draining|
        invariant draining == old(draining) && i <= |draining|
        invariant kept + StillHeld(draining[i..], readers) == StillHeld(draining, readers)
      {
        HeldHead(draining, i, readers, kept);
        var e := draining[i];
        if (e.name, e.stream.incarnation) in readers {
          kept := kept + [e];
        }
        i := i + 1;
      }
      assert StillHeld(draining[i..], readers) == [] && kept + [] == kept;
      StillHeldKeeps(draining, readers);
      draining := kept;
    }

    /** The staged replacement enters before the old stream is destroyed. */
    method Replace(i: nat, stream: Stream)
      requires Valid() && i < |entries|
      modifies `entries, `draining, tombstones, tombstones.slots
      ensures Valid()
      ensures View() == Put(Destroy(hash, old(View()), old(entries[i].name), old(entries[i].stream.revision)),
                            old(entries[i].name), stream)
      ensures old(Alive()) * readers <= Alive()
    {
      MapOfReplace(entries, i, stream);
      var gone := entries[i];
      ObjectsConcat(entries, [Entry(gone.name, stream)]);
      ObjectsWithout(entries + [Entry(gone.name, stream)], i);
      ObjectsConcat(draining, [gone]);
      entries := entries + [Entry(gone.name, stream)];
      entries := Without(entries, i);
      tombstones.Add(hash(gone.name), gone.stream.revision);
      if (gone.name, gone.stream.incarnation) in readers {
        draining := draining + [gone];
      }
    }

    method SetStream(op: Op, env: Env) returns (rc: Rc)
      requires Valid() && op.StreamSet?
      modifies `entries, `draining, tombstones, tombstones.slots
      ensures Valid() && Answer(View(), rc) == ApplyStreamSet(hash, old(View()), op, env)
      ensures old(Alive()) * readers <= Alive()
    {
      var i := Find(op.name);
      if i < |entries| && entries[i].stream.incarnation != op.incarnation {
        if op.revision <= entries[i].stream.revision {
          return OK;
        }
        if !env.room || !env.admitted {
          return ERROR;
        }
        Replace(i, Stream(op.incarnation, op.revision, op.settings, map[]));
        return OK;
      }
      if i == |entries| {
        rc := CreateSet(op, env);
      } else {
        var was := entries[i].stream;
        Update(i, was.(revision := op.revision, settings := op.settings));
        if !env.admitted {
          Update(i, was);
          return ERROR;
        }
        return OK;
      }
    }

    /** A stream created for the operation is discarded again, without a trace, when the runtime refuses it. */
    method CreateSet(op: Op, env: Env) returns (rc: Rc)
      requires Valid() && op.StreamSet? && op.name !in View().streams
      modifies `entries, `draining, tombstones, tombstones.slots
      ensures Valid() && Answer(View(), rc) == ApplyStreamSet(hash, old(View()), op, env)
      ensures old(Alive()) * readers <= Alive()
    {
      if !env.room {
        return ERROR;
      }
      ghost var before := View();
      Link(op.name, Stream(op.incarnation, op.revision, op.settings, map[]));
      if !env.admitted {
        var i := Find(op.name);
        Remove(i, false);
        assert View().streams == before.streams;
        return ERROR;
      }
      return OK;
    }

    method DeleteStream(op: Op) returns (rc: Rc)
      requires Valid() && op.StreamDelete?
      modifies `entries, `draining, tombstones, tombstones.slots
      ensures Valid() && Answer(View(), rc) == ApplyStreamDelete(hash, old(View()), op)
      ensures old(Alive()) * readers <= Alive()
    {
      var i := Find(op.name);
      if i < |entries| && op.incarnation != 0 && entries[i].stream.incarnation != op.incarnation {
        return OK;
      }
      if i == |entries| {
        tombstones.Add(hash(op.name), op.revision);
        return OK;
      }
      ghost var before := View();
      if op.revision > entries[i].stream.revision {
        Update(i, entries[i].stream.(revision := op.revision));
      }
      assert View().streams - {op.name} == before.streams - {op.name};
      Remove(i, true);
      return OK;
    }

    method SetSource(op: Op, env: Env) returns (rc: Rc)
      requires Valid() && op.SourceSet?
      modifies `entries, `draining, tombstones, tombstones.slots
      ensures Valid() && Answer(View(), rc) == ApplySourceSet(old(View()), op, env)
      ensures old(Alive()) * readers <= Alive()
    {
      var i := Find(op.name);
      if i < |entries| && entries[i].stream.incarnation != op.incarnation {
        return OK;
      }
      if op.id == "" {
        return ERROR;
      }
      if i == |entries| {
        rc := CreateForSource(op, env);
        return;
      }
      var stream := entries[i].stream;
      if op.id !in stream.sources {
        if !env.opens || !env.paths {
          return ERROR;
        }
        Update(i, stream.(revision := op.revision, sources := stream.sources[op.id := Updated(None, op.wanted)]));
        return OK;
      }
      var source := stream.sources[op.id];
      if source.kind != op.wanted.kind || !env.paths {
        return ERROR;
      }
      Update(i, stream.(revision := op.revision, sources := stream.sources[op.id := Updated(Some(source), op.wanted)]));
      return OK;
    }

    /** The source overtook its stream: the stream is created for it, and discarded when the source cannot be. */
    method CreateForSource(op: Op, env: Env) returns (rc: Rc)
      requires Valid() && op.SourceSet? && op.id != "" && op.name !in View().streams
      modifies `entries, `draining, tombstones, tombstones.slots
      ensures Valid() && Answer(View(), rc) == ApplySourceSet(old(View()), op, env)
      ensures old(Alive()) * readers <= Alive()
    {
      if !env.room {
        return ERROR;
      }
      ghost var before := View();
      var stream := Stream(op.incarnation, 0, DEFAULTS, map[]);
      Link(op.name, stream);
      var i := Find(op.name);
      if !env.opens || !env.paths {
        Remove(i, false);
        assert View().streams == before.streams;
        return ERROR;
      }
      Update(i, stream.(revision := op.revision, sources := stream.sources[op.id := Updated(None, op.wanted)]));
      return OK;
    }

    method DeleteSource(op: Op) returns (rc: Rc)
      requires Valid() && op.SourceDelete?
      modifies `entries, `draining, tombstones, tombstones.slots
      ensures Valid() && Answer(View(), rc) == ApplySourceDelete(old(View()), op)
      ensures old(Alive()) * readers <= Alive()
    {
      var i := Find(op.name);
      if i == |entries| {
        return OK;
      }
      var stream := entries[i].stream;
      if (op.incarnation != 0 && stream.incarnation != op.incarnation) || op.id == "" {
        return OK;
      }
      Update(i, stream.(revision := op.revision, sources := stream.sources - {op.id}));
      return OK;
    }

    /** One operation of another worker, applied in place: exactly what the specification says. */
    method ApplyOp(op: Op, env: Env) returns (rc: Rc)
      requires Valid()
      modifies `entries, `draining, tombstones, tombstones.slots
      ensures Valid() && Answer(View(), rc) == Apply(hash, old(View()), op, env)
      ensures old(Alive()) * readers <= Alive()
    {
      if !Decodes(op) {
        return ERROR;
      }
      var covered := tombstones.Has(hash(op.name), op.revision);
      if covered {
        return OK;
      }
      var i := Find(op.name);
      if i < |entries| && entries[i].stream.revision > op.revision {
        return OK;
      }
      match op {
        case StreamSet(_, _, _, _) => rc := SetStream(op, env);
        case StreamDelete(_, _, _) => rc := DeleteStream(op);
        case SourceSet(_, _, _, _, _) => rc := SetSource(op, env);
        case SourceDelete(_, _, _, _) => rc := DeleteSource(op);
      }
    }
  }
}
