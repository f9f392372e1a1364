/** The replicated graph: what applying another worker's operation does to a worker's replica. */
module Replica {
  import opened Common
  import opened Tombstone

  datatype Name = Name(application: string, name: string)

  datatype Settings = Settings(failureTimeout: nat, recoveryTimeout: nat, mediaMode: nat)

  datatype Source = Source(
    kind: nat, priority: nat, path: string, caFile: string, enabled: bool, revision: nat,
    key: Option<string>, nonce: Option<string>)

  datatype Stream = Stream(incarnation: nat, revision: nat, settings: Settings, sources: map<string, Source>)

  datatype Op =
    | StreamSet(name: Name, incarnation: nat, revision: nat, settings: Settings)
    | StreamDelete(name: Name, incarnation: nat, revision: nat)
    | SourceSet(name: Name, incarnation: nat, revision: nat, id: string, wanted: Source)
    | SourceDelete(name: Name, incarnation: nat, revision: nat, id: string)

  /** What this worker's surroundings answer: room for a stream, admission by the runtime, the source's reader and its paths. */
  datatype Env = Env(room: bool, admitted: bool, opens: bool, paths: bool)

  datatype State = State(streams: map<Name, Stream>, adds: seq<Tomb>)

  datatype Answer = Answer(state: State, rc: Rc)

  const DEFAULTS := Settings(0, 0, 0)

  /** The decoder refuses an operation without a name, and a zero incarnation on anything but a stream deletion. */
  predicate Decodes(op: Op)
  {
    op.name.application != "" && op.name.name != "" && (op.incarnation != 0 || op.StreamDelete?)
  }

  function Lookup(s: State, n: Name): Option<Stream>
  {
    if n in s.streams then Some(s.streams[n]) else None
  }

  function Put(s: State, n: Name, stream: Stream): State
  {
    s.(streams := s.streams[n := stream])
  }

  function Destroy(hash: Name -> nat, s: State, n: Name, revision: nat): State
  {
    State(s.streams - {n}, s.adds + [Tomb(hash(n), revision)])
  }

  function ApplyStreamSet(hash: Name -> nat, s: State, op: Op, env: Env): Answer
    requires op.StreamSet?
  {
    match Lookup(s, op.name)
    case None =>
      if !env.room || !env.admitted then Answer(s, ERROR)
      else Answer(Put(s, op.name, Stream(op.incarnation, op.revision, op.settings, map[])), OK)
    case Some(stream) =>
      if stream.incarnation != op.incarnation then
        if op.revision <= stream.revision then Answer(s, OK)
        else if !env.room || !env.admitted then Answer(s, ERROR)
        else
          Answer(Put(Destroy(hash, s, op.name, stream.revision), op.name,
                     Stream(op.incarnation, op.revision, op.settings, map[])), OK)
      else if !env.admitted then Answer(s, ERROR)
      else Answer(Put(s, op.name, stream.(revision := op.revision, settings := op.settings)), OK)
  }

  function ApplyStreamDelete(hash: Name -> nat, s: State, op: Op): Answer
    requires op.StreamDelete?
  {
    match Lookup(s, op.name)
    case None => Answer(s.(adds := s.adds + [Tomb(hash(op.name), op.revision)]), OK)
    case Some(stream) =>
      if op.incarnation != 0 && stream.incarnation != op.incarnation then Answer(s, OK)
      else Answer(Destroy(hash, s, op.name, Max(op.revision, stream.revision)), OK)
  }

  /** The source an operation leaves: a key or a nonce it does not carry stays as it was. */
  function Updated(previous: Option<Source>, wanted: Source): Source
  {
    match previous
    case None => wanted
    case Some(was) =>
      wanted.(key := if wanted.key.Some? then wanted.key else was.key,
      nonce := if wanted.nonce.Some? then wanted.nonce else was.nonce)
  }

  function ApplySourceSet(s: State, op: Op, env: Env): Answer
    requires op.SourceSet?
  {
    var present := Lookup(s, op.name);
    if present.Some? && present.value.incarnation != op.incarnation then Answer(s, OK)
    else if op.id == "" then Answer(s, ERROR)
    else if present.None? && !env.room then Answer(s, ERROR)
    else
      var stream := if present.Some? then present.value else Stream(op.incarnation, 0, DEFAULTS, map[]);
      var source := if op.id in stream.sources then Some(stream.sources[op.id]) else None;
      if source.Some? && source.value.kind != op.wanted.kind then Answer(s, ERROR)
      else if source.None? && !env.opens then Answer(s, ERROR)
      else if !env.paths then Answer(s, ERROR)
      else
        Answer(Put(s, op.name, stream.(revision := op.revision,
                   sources := stream.sources[op.id := Updated(source, op.wanted)])), OK)
  }

  function ApplySourceDelete(s: State, op: Op): Answer
    requires op.SourceDelete?
  {
    match Lookup(s, op.name)
    case None => Answer(s, OK)
    case Some(stream) =>
      if op.incarnation != 0 && stream.incarnation != op.incarnation then Answer(s, OK)
      else if op.id == "" then Answer(s, OK)
      else Answer(Put(s, op.name, stream.(revision := op.revision, sources := stream.sources - {op.id})), OK)
  }

  /** What applying one operation does: nothing when a deletion or the stream has moved past it. */
  ghost function Apply(hash: Name -> nat, s: State, op: Op, env: Env): Answer
  {
    if !Decodes(op) then Answer(s, ERROR)
    else if Covered(s.adds, hash(op.name), op.revision) then Answer(s, OK)
    else if op.name in s.streams && s.streams[op.name].revision > op.revision then Answer(s, OK)
    else match op
      case StreamSet(_, _, _, _) => ApplyStreamSet(hash, s, op, env)
      case StreamDelete(_, _, _) => ApplyStreamDelete(hash, s, op)
      case SourceSet(_, _, _, _, _) => ApplySourceSet(s, op, env)
      case SourceDelete(_, _, _, _) => ApplySourceDelete(s, op)
  }

  // ---- Runs ----

  datatype Event = Event(op: Op, env: Env)

  const EMPTY := State(map[], [])

  ghost function Step(hash: Name -> nat, s: State, e: Event): State
  {
    Apply(hash, s, e.op, e.env).state
  }

  ghost function Run(hash: Name -> nat, events: seq<Event>): State
  {
    if events == [] then EMPTY
    else Step(hash, Run(hash, events[..|events| - 1]), events[|events| - 1])
  }

  /** If the identity was ever deleted, one of its deletions is among the last 256. */
  ghost predicate Kept(adds: seq<Tomb>, h: nat)
  {
    (exists i :: 0 <= i < |adds| && adds[i].hash == h)
    ==> exists j :: 0 <= j < |adds| && |adds| - j <= TOMBSTONES && adds[j].hash == h
  }

  /** Whenever an operation on the name arrives, fewer than 256 other deletions followed the name's newest one. */
  ghost predicate Remembers(hash: Name -> nat, events: seq<Event>, n: Name)
  {
    events != [] ==>
      && Remembers(hash, events[..|events| - 1], n)
      && (events[|events| - 1].op.name == n ==> Kept(Run(hash, events[..|events| - 1]).adds, hash(n)))
  }

  /** No operation of the run names another stream with this name's hash. */
  predicate HashIsOwn(hash: Name -> nat, events: seq<Event>, n: Name)
  {
    forall i :: 0 <= i < |events| ==> hash(events[i].op.name) == hash(n) ==> events[i].op.name == n
  }

  /** The name's deletions move forward, and a stream that is present is newer than all of them. */
  ghost predicate Ordered(hash: Name -> nat, s: State, n: Name)
  {
    && (forall i, j :: 0 <= i < j < |s.adds| && s.adds[i].hash == hash(n) && s.adds[j].hash == hash(n)
                       ==> s.adds[i].revision < s.adds[j].revision)
    && (n in s.streams ==>
          forall i :: 0 <= i < |s.adds| && s.adds[i].hash == hash(n) ==> s.adds[i].revision < s.streams[n].revision)
  }

  /** While the name's newest deletion is remembered, it alone decides what is covered. */
  lemma CoveredIffSome(hash: Name -> nat, s: State, n: Name, revision: nat)
    requires Ordered(hash, s, n) && Kept(s.adds, hash(n))
    ensures Covered(s.adds, hash(n), revision)
            <==> exists i :: 0 <= i < |s.adds| && s.adds[i].hash == hash(n) && revision <= s.adds[i].revision
  {
    if i :| 0 <= i < |s.adds| && s.adds[i].hash == hash(n) && revision <= s.adds[i].revision {
      var j :| 0 <= j < |s.adds| && |s.adds| - j <= TOMBSTONES && s.adds[j].hash == hash(n);
      if j < i {
        assert Covers(s.adds, i, hash(n), revision);
      } else {
        assert Covers(s.adds, j, hash(n), revision);
      }
    }
    if Covered(s.adds, hash(n), revision) {
      var i :| 0 <= i < |s.adds| && Covers(s.adds, i, hash(n), revision);
      assert s.adds[i].hash == hash(n);
    }
  }

  /** An operation touches its own stream and at most one new deletion, of its own identity. */
  lemma StepFrame(hash: Name -> nat, s: State, e: Event, n: Name)
    requires e.op.name != n
    ensures Lookup(Step(hash, s, e), n) == Lookup(s, n)
    ensures Step(hash, s, e).adds == s.adds
            || exists r :: Step(hash, s, e).adds == s.adds + [Tomb(hash(e.op.name), r)]
  {
    hide Covered;
    var a := Step(hash, s, e).adds;
    if e.op.name in s.streams && a != s.adds {
      var gone := s.streams[e.op.name];
      assert a == s.adds + [Tomb(hash(e.op.name), gone.revision)]
          || a == s.adds + [Tomb(hash(e.op.name), Max(e.op.revision, gone.revision))];
    } else if a != s.adds {
      assert a == s.adds + [Tomb(hash(e.op.name), e.op.revision)];
    }
  }

  /** What one step can do to its own stream and to the deletions. */
  ghost predicate Moves(h: nat, s: State, t: State, n: Name, revision: nat)
  {
    && (n in s.streams ==> s.streams[n].revision <= revision)
    && (|| (t.adds == s.adds && n in t.streams && t.streams[n].revision == revision)
        || (n in s.streams && n in t.streams && t.streams[n].revision == revision
            && s.streams[n].revision < revision && t.adds == s.adds + [Tomb(h, s.streams[n].revision)])
        || (n !in t.streams && t.adds == s.adds + [Tomb(h, revision)]))
  }

  lemma StepMoves(hash: Name -> nat, s: State, e: Event)
    ensures Step(hash, s, e) == s
            || (!Covered(s.adds, hash(e.op.name), e.op.revision)
                && Moves(hash(e.op.name), s, Step(hash, s, e), e.op.name, e.op.revision))
  {
    hide Covered;
  }

  lemma MovesKeepOrder(hash: Name -> nat, s: State, t: State, n: Name, revision: nat)
    requires Ordered(hash, s, n) && Kept(s.adds, hash(n)) && Moves(hash(n), s, t, n, revision)
    requires !Covered(s.adds, hash(n), revision)
    ensures Ordered(hash, t, n)
  {
    CoveredIffSome(hash, s, n, revision);
    hide Covered;
    assert forall i :: 0 <= i < |s.adds| && s.adds[i].hash == hash(n) ==> s.adds[i].revision < revision;
  }

  lemma StepKeepsOrder(hash: Name -> nat, s: State, e: Event, n: Name)
    requires Ordered(hash, s, n)
    requires e.op.name == n ==> Kept(s.adds, hash(n))
    requires hash(e.op.name) == hash(n) ==> e.op.name == n
    ensures Ordered(hash, Step(hash, s, e), n)
  {
    hide Apply, Covered;
    var t := Step(hash, s, e);
    if e.op.name == n {
      StepMoves(hash, s, e);
      if t != s {
        MovesKeepOrder(hash, s, t, n, e.op.revision);
      }
    } else {
      StepFrame(hash, s, e, n);
      if t.adds != s.adds {
        var r :| t.adds == s.adds + [Tomb(hash(e.op.name), r)];
      }
    }
  }

  lemma {:induction false} RunOrdered(hash: Name -> nat, events: seq<Event>, n: Name)
    requires Remembers(hash, events, n) && HashIsOwn(hash, events, n)
    ensures Ordered(hash, Run(hash, events), n)
  {
    if events != [] {
      var before := events[..|events| - 1];
      RunOrdered(hash, before, n);
      assert hash(events[|events| - 1].op.name) == hash(n) ==> events[|events| - 1].op.name == n;
      StepKeepsOrder(hash, Run(hash, before), events[|events| - 1], n);
    }
  }

  /** Whatever arrives and however it fares, a stream that stays present never goes back to an older revision. */
  lemma RevisionNeverFalls(hash: Name -> nat, s: State, e: Event, n: Name)
    requires n in s.streams && n in Step(hash, s, e).streams
    ensures s.streams[n].revision <= Step(hash, s, e).streams[n].revision
  {
    hide Apply, Covered;
    if e.op.name == n {
      StepMoves(hash, s, e);
    } else {
      StepFrame(hash, s, e, n);
    }
  }

  lemma {:induction false} DeletionsStay(hash: Name -> nat, events: seq<Event>, k: nat)
    requires k <= |events|
    ensures Run(hash, events[..k]).adds <= Run(hash, events).adds
    decreases |events|
  {
    hide Apply, Covered;
    if k == |events| {
      assert events[..k] == events;
    } else {
      var before, e := events[..|events| - 1], events[|events| - 1];
      DeletionsStay(hash, before, k);
      assert before[..k] == events[..k];
      StepMoves(hash, Run(hash, before), e);
    }
  }

  /** After a deletion moved past a revision, no later state of the run holds the stream at or below it. */
  lemma NoResurrection(hash: Name -> nat, events: seq<Event>, n: Name, k: nat, i: nat)
    requires Remembers(hash, events, n) && HashIsOwn(hash, events, n)
    requires k <= |events| && i < |Run(hash, events[..k]).adds| && Run(hash, events[..k]).adds[i].hash == hash(n)
    ensures n in Run(hash, events).streams
            ==> Run(hash, events[..k]).adds[i].revision < Run(hash, events).streams[n].revision
  {
    RunOrdered(hash, events, n);
    DeletionsStay(hash, events, k);
    assert Run(hash, events).adds[i] == Run(hash, events[..k]).adds[i];
  }

  /** An operation at or below a deletion of its stream that is remembered changes nothing at all. */
  lemma OvertakenDoesNothing(hash: Name -> nat, events: seq<Event>, e: Event, i: nat)
    requires Remembers(hash, events + [e], e.op.name) && HashIsOwn(hash, events, e.op.name)
    requires i < |Run(hash, events).adds| && Run(hash, events).adds[i].hash == hash(e.op.name)
    requires e.op.revision <= Run(hash, events).adds[i].revision
    ensures Run(hash, events + [e]) == Run(hash, events)
  {
    assert (events + [e])[..|events|] == events;
    RunOrdered(hash, events, e.op.name);
    CoveredIffSome(hash, Run(hash, events), e.op.name, e.op.revision);
  }

  /** A refused operation is rolled back whole: it leaves the replica as it was, tombstones included. */
  lemma RefusedChangesNothing(hash: Name -> nat, s: State, op: Op, env: Env)
    requires Apply(hash, s, op, env).rc != OK
    ensures Apply(hash, s, op, env).state == s
  {
    hide Covered;
  }

  /** Applying an operation twice is applying it once, whatever it does and however it fares. */
  lemma RepeatDoesNothing(hash: Name -> nat, s: State, e: Event)
    ensures Step(hash, Step(hash, s, e), e) == Step(hash, s, e)
  {
    var t := Step(hash, s, e);
    if e.op.StreamDelete? && t.adds != s.adds {
      var i := |s.adds|;
      assert t.adds[i].hash == hash(e.op.name) && e.op.revision <= t.adds[i].revision;
      assert Covers(t.adds, i, hash(e.op.name), e.op.revision);
    } else {
      hide Covered;
      RepeatSet(hash, s, e);
    }
  }

  lemma RepeatSet(hash: Name -> nat, s: State, e: Event)
    requires e.op.StreamDelete? ==> Step(hash, s, e).adds == s.adds
    ensures Step(hash, Step(hash, s, e), e) == Step(hash, s, e)
  {
    hide Covered;
    var op, t := e.op, Step(hash, s, e);
    if t != s {
      assert op.name in t.streams;
      var stream := t.streams[op.name];
      if op.SourceSet? {
        RepeatSource(s, op, e.env);
      } else if op.SourceDelete? {
        assert stream.sources - {op.id} == stream.sources;
        assert Put(t, op.name, stream) == t;
      } else {
        assert stream.incarnation == op.incarnation && stream.revision == op.revision && stream.settings == op.settings;
        assert Put(t, op.name, stream) == t;
      }
    }
  }

  /** The same source set again finds the source as it left it. */
  lemma RepeatSource(s: State, op: Op, env: Env)
    requires op.SourceSet? && ApplySourceSet(s, op, env).state != s
    ensures ApplySourceSet(ApplySourceSet(s, op, env).state, op, env).state == ApplySourceSet(s, op, env).state
  {
    var t := ApplySourceSet(s, op, env).state;
    var stream := t.streams[op.name];
    var source := stream.sources[op.id];
    assert Updated(Some(source), op.wanted) == source;
    assert stream.sources[op.id := source] == stream.sources;
    assert Put(t, op.name, stream) == t;
  }

  /** A source operation touches its own source of its own stream, and none of the deletions. */
  lemma SourceFrame(hash: Name -> nat, s: State, e: Event, id: string)
    requires (e.op.SourceSet? || e.op.SourceDelete?) && e.op.id != id && e.op.name in s.streams
    ensures var t := Step(hash, s, e);
            && t.adds == s.adds && e.op.name in t.streams
            && t.streams[e.op.name].settings == s.streams[e.op.name].settings
            && (id in t.streams[e.op.name].sources <==> id in s.streams[e.op.name].sources)
            && (id in s.streams[e.op.name].sources ==>
                  t.streams[e.op.name].sources[id] == s.streams[e.op.name].sources[id])
  {
    hide Covered;
  }

  // ---- What each operation does to its stream ----

  /** The operation has its say: it decodes, and neither a deletion nor the stream has moved past it. */
  ghost predicate Arrives(hash: Name -> nat, s: State, op: Op)
  {
    && Decodes(op) && !Covered(s.adds, hash(op.name), op.revision)
    && (op.name in s.streams ==> s.streams[op.name].revision <= op.revision)
  }

  /**
   * An operation that has no say changes nothing: one that does not decode is
   * an error, one that a deletion or the stream has moved past is answered
   * like one that was applied.
   */
  lemma LateMeans(hash: Name -> nat, s: State, op: Op, env: Env)
    requires !Arrives(hash, s, op)
    ensures Apply(hash, s, op, env).state == s
    ensures Apply(hash, s, op, env).rc == ERROR
       <==> op.name.application == "" || op.name.name == "" || (op.incarnation == 0 && !op.StreamDelete?)
    ensures Apply(hash, s, op, env).rc in {OK, ERROR}
  {
    hide Covered;
  }

  /** Everything but the operation's own stream is as it was. */
  ghost predicate OthersStay(s: State, t: State, n: Name)
  {
    forall m :: m != n ==> (m in t.streams <==> m in s.streams) && (m in s.streams ==> t.streams[m] == s.streams[m])
  }

  /**
   * A source deletion that is for the stream's incarnation takes the source
   * away and nothing else of the stream; any other changes nothing.
   */
  lemma SourceDeleteMeans(hash: Name -> nat, s: State, op: Op, env: Env)
    requires op.SourceDelete? && Arrives(hash, s, op)
    ensures var t, n := Apply(hash, s, op, env).state, op.name;
            && Apply(hash, s, op, env).rc == OK && t.adds == s.adds && OthersStay(s, t, n)
            && if n in s.streams && op.incarnation in {0, s.streams[n].incarnation} && op.id != "" then
                 && n in t.streams && op.id !in t.streams[n].sources
                 && (forall x :: x != op.id ==> (x in t.streams[n].sources <==> x in s.streams[n].sources))
                 && (forall x :: x != op.id && x in s.streams[n].sources ==>
                      t.streams[n].sources[x] == s.streams[n].sources[x])
                 && t.streams[n].settings == s.streams[n].settings
                 && t.streams[n].incarnation == s.streams[n].incarnation && t.streams[n].revision == op.revision
               else t == s
  {
    hide Covered;
  }

  /** What a source set needs to succeed, given what its stream has of the source. */
  predicate SourceFits(s: State, op: Op, env: Env)
    requires op.SourceSet?
  {
    var had := op.name in s.streams && op.id in s.streams[op.name].sources;
    && op.id != "" && (op.name in s.streams || env.room) && env.paths
    && (if had then s.streams[op.name].sources[op.id].kind == op.wanted.kind else env.opens)
  }

  /**
   * A source set for the stream's incarnation succeeds exactly when the
   * source fits; then the source has every wanted field - the key and the
   * nonce as carried, or else as they were - and nothing else changes but the
   * stream's revision.  A stream it overtook is created with default settings.
   */
  lemma SourceSetMeans(hash: Name -> nat, s: State, op: Op, env: Env)
    requires op.SourceSet? && Arrives(hash, s, op)
    ensures var r, t, n := Apply(hash, s, op, env), Apply(hash, s, op, env).state, op.name;
            && t.adds == s.adds && OthersStay(s, t, n)
            && if n in s.streams && s.streams[n].incarnation != op.incarnation then r == Answer(s, OK)
               else if !SourceFits(s, op, env) then r == Answer(s, ERROR)
               else
                 && r.rc == OK && n in t.streams && op.id in t.streams[n].sources
                 && SourceAsWanted(s, op, t.streams[n].sources[op.id])
                 && t.streams[n].incarnation == op.incarnation && t.streams[n].revision == op.revision
                 && t.streams[n].settings == (if n in s.streams then s.streams[n].settings else Settings(0, 0, 0))
                 && (forall x :: x != op.id ==>
                      (x in t.streams[n].sources <==> n in s.streams && x in s.streams[n].sources))
                 && (forall x :: x != op.id && n in s.streams && x in s.streams[n].sources ==>
                      t.streams[n].sources[x] == s.streams[n].sources[x])
  {
    hide Covered;
  }

  /** The source now has the wanted fields; what the operation does not carry is what it was, or nothing. */
  predicate SourceAsWanted(s: State, op: Op, now: Source)
    requires op.SourceSet?
  {
    var had := op.name in s.streams && op.id in s.streams[op.name].sources;
    var w := op.wanted;
    && now.kind == w.kind && now.priority == w.priority && now.path == w.path && now.caFile == w.caFile
    && now.enabled == w.enabled && now.revision == w.revision
    && (w.key.Some? || !had ==> now.key == w.key) && (w.nonce.Some? || !had ==> now.nonce == w.nonce)
    && (w.key.None? && had ==> now.key == s.streams[op.name].sources[op.id].key)
    && (w.nonce.None? && had ==> now.nonce == s.streams[op.name].sources[op.id].nonce)
  }

  /**
   * A stream set keeps every source of its incarnation and takes over revision
   * and settings; a newer incarnation replaces the stream, sources and all,
   * and leaves the old revision behind; it fails exactly for want of room or
   * admission.
   */
  lemma StreamSetMeans(hash: Name -> nat, s: State, op: Op, env: Env)
    requires op.StreamSet? && Arrives(hash, s, op)
    ensures var r, t, n := Apply(hash, s, op, env), Apply(hash, s, op, env).state, op.name;
            && OthersStay(s, t, n)
            && if n in s.streams && s.streams[n].incarnation == op.incarnation then
                 if !env.admitted then r == Answer(s, ERROR)
                 else
                   && r.rc == OK && t.adds == s.adds && n in t.streams
                   && t.streams[n].sources == s.streams[n].sources && t.streams[n].incarnation == op.incarnation
                   && t.streams[n].revision == op.revision && t.streams[n].settings == op.settings
               else if n in s.streams && s.streams[n].revision == op.revision then r == Answer(s, OK)
               else if !env.room || !env.admitted then r == Answer(s, ERROR)
               else
                 && r.rc == OK && n in t.streams && t.streams[n].sources == map[]
                 && t.streams[n].incarnation == op.incarnation
                 && t.streams[n].revision == op.revision && t.streams[n].settings == op.settings
                 && t.adds == s.adds + if n in s.streams then [Tomb(hash(n), s.streams[n].revision)] else []
  {
    hide Covered;
    assert s.adds + [] == s.adds;
  }

  /**
   * A stream deletion that is for the stream's incarnation, or for any,
   * removes it and is remembered with its own revision, also where there was
   * no stream; one for another incarnation does nothing.
   */
  lemma StreamDeleteMeans(hash: Name -> nat, s: State, op: Op, env: Env)
    requires op.StreamDelete? && Arrives(hash, s, op)
    ensures var t, n := Apply(hash, s, op, env).state, op.name;
            && Apply(hash, s, op, env).rc == OK && OthersStay(s, t, n)
            && if n in s.streams && op.incarnation !in {0, s.streams[n].incarnation} then t == s
               else n !in t.streams && t.adds == s.adds + [Tomb(hash(n), op.revision)]
  {
    hide Covered;
  }
}
