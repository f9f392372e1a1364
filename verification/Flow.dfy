/**
 * The send side of a routed publisher: which frames are held back after a
 * send that failed, and what the owner can decode of the rest.
 */
module Flow {
  import opened Common
  import opened Ipc
  import opened Transport

  const TYPE_VIDEO := 1

  predicate Video(f: Frame) { f.header.id.mediaType == TYPE_VIDEO }

  /** A frame that nothing before it is needed to decode. */
  predicate Key(f: Frame) { Video(f) && f.header.id.keyframe && !f.header.id.config }

  /** A video frame that is worthless without what precedes it. */
  predicate Inter(f: Frame) { Video(f) && !f.header.id.keyframe && !f.header.id.config }

  datatype FlowState = FlowState(sequence: nat, dropped: nat, resyncs: nat, resync: bool)

  const FRESH_FLOW := FlowState(0, 0, 0, false)

  /** Held: not offered to the transport; Lost: its send failed; Passed: its send answered OK. */
  datatype Fate = Held | Lost | Passed

  function AfterFate(s: FlowState, f: Frame, fate: Fate): FlowState
  {
    match fate
    case Held => s.(sequence := s.sequence + 1, dropped := s.dropped + 1)
    case Lost => s.(sequence := s.sequence + 1, resyncs := s.resyncs + (if s.resync then 0 else 1), resync := true)
    case Passed => s.(sequence := s.sequence + 1, resync := s.resync && !Key(f))
  }

  class FlowRecord {
    var sequence: nat
    var dropped: nat
    var resyncs: nat
    var resync: bool

    ghost function View(): FlowState
      reads this
    {
      FlowState(sequence, dropped, resyncs, resync)
    }

    constructor ()
      ensures View() == FRESH_FLOW
    {
      sequence, dropped, resyncs, resync := 0, 0, 0, false;
    }

    method Admit(f: Frame) returns (send: bool)
      modifies this
      ensures send <==> !(old(resync) && Inter(f))
      ensures View() == if send then old(View()) else AfterFate(old(View()), f, Held)
    {
      if resync && Inter(f) {
        dropped := dropped + 1;
        sequence := sequence + 1;
        return false;
      }
      return true;
    }

    method SentWith(f: Frame, rc: Rc)
      modifies this
      ensures View() == AfterFate(old(View()), f, if rc == OK then Passed else Lost)
    {
      sequence := sequence + 1;
      if rc != OK {
        if !resync {
          resyncs := resyncs + 1;
        }
        resync := true;
        return;
      }
      if Key(f) {
        resync := false;
      }
    }
  }

  // ---- runs -------------------------------------------------------------------

  /** The flow before the i-th offered frame. */
  function FlowAt(s: FlowState, frames: seq<Frame>, fates: seq<Fate>, i: nat): FlowState
    requires i <= |frames| == |fates|
  {
    if i == 0 then s else AfterFate(FlowAt(s, frames, fates, i - 1), frames[i - 1], fates[i - 1])
  }

  predicate HeldRightly(s: FlowState, frames: seq<Frame>, fates: seq<Fate>, i: nat)
    requires i < |frames| == |fates|
  {
    fates[i] == Held <==> FlowAt(s, frames, fates, i).resync && Inter(frames[i])
  }

  /** The fates some outcome of the sends gives: a frame is held exactly when it is not admitted. */
  predicate Run(s: FlowState, frames: seq<Frame>, fates: seq<Fate>)
  {
    |fates| == |frames| && forall i :: 0 <= i < |frames| ==> HeldRightly(s, frames, fates, i)
  }

  /** The latest key frame sent before frame i, or the start of the flow. */
  function SyncPoint(frames: seq<Frame>, fates: seq<Fate>, i: nat): (k: nat)
    requires i <= |frames| == |fates|
    ensures k <= i
    ensures k < i ==> k == 0 || (Key(frames[k]) && fates[k] == Passed)
    ensures forall j :: k < j < i ==> !(Key(frames[j]) && fates[j] == Passed)
  {
    if i == 0 then 0
    else if Key(frames[i - 1]) && fates[i - 1] == Passed then i - 1
    else SyncPoint(frames, fates, i - 1)
  }

  predicate AllPassed(fates: seq<Fate>, from: nat, to: nat)
    requires from <= to <= |fates|
  {
    forall j :: from <= j < to ==> fates[j] == Passed
  }

  /** One offered frame keeps the meaning of the resync flag. */
  lemma ResyncStep(st: FlowState, frames: seq<Frame>, fates: seq<Fate>, i: nat)
    requires 0 < i <= |frames| == |fates|
    requires st.resync <==> !AllPassed(fates, SyncPoint(frames, fates, i - 1), i - 1)
    requires fates[i - 1] == Held ==> st.resync
    ensures AfterFate(st, frames[i - 1], fates[i - 1]).resync
            <==> !AllPassed(fates, SyncPoint(frames, fates, i), i)
  {
    var k := SyncPoint(frames, fates, i - 1);
    if fates[i - 1] == Passed {
      if Key(frames[i - 1]) {
        assert SyncPoint(frames, fates, i) == i - 1;
      } else {
        assert SyncPoint(frames, fates, i) == k;
        assert AllPassed(fates, k, i) <==> AllPassed(fates, k, i - 1);
      }
    } else {
      assert SyncPoint(frames, fates, i) == k && !AllPassed(fates, k, i);
    }
  }

  /** The flag means: something since the sync point did not get through. */
  lemma {:induction false} ResyncMeaning(s: FlowState, frames: seq<Frame>, fates: seq<Fate>, i: nat)
    requires Run(s, frames, fates) && !s.resync && i <= |frames|
    ensures FlowAt(s, frames, fates, i).resync <==> !AllPassed(fates, SyncPoint(frames, fates, i), i)
    ensures FlowAt(s, frames, fates, i).sequence == s.sequence + i
  {
    if i > 0 {
      ResyncMeaning(s, frames, fates, i - 1);
      assert HeldRightly(s, frames, fates, i - 1);
      ResyncStep(FlowAt(s, frames, fates, i - 1), frames, fates, i);
    }
  }

  /**
   * Over every run, a video frame that needs its predecessors is held back
   * exactly when something since the latest key frame sent (or since the
   * start) did not get through; one that is sent has them all sent, and the
   * number a frame carries is its place among the frames offered.
   */
  lemma OnlyDecodableSent(s: FlowState, frames: seq<Frame>, fates: seq<Fate>, i: nat)
    requires Run(s, frames, fates) && !s.resync && i < |frames|
    ensures FlowAt(s, frames, fates, i).sequence == s.sequence + i
    ensures Inter(frames[i]) ==>
              (fates[i] == Held <==> !AllPassed(fates, SyncPoint(frames, fates, i), i))
    ensures Inter(frames[i]) && fates[i] == Passed ==>
              AllPassed(fates, SyncPoint(frames, fates, i), i + 1)
    ensures !Inter(frames[i]) ==> fates[i] != Held
  {
    ResyncMeaning(s, frames, fates, i);
    assert HeldRightly(s, frames, fates, i);
  }

  /** A video frame that opens a group: marked as key frame and no configuration record. */
  predicate OpensGroup(f: Frame)
  {
    f.header.id.mediaType == 1 && f.header.id.keyframe && !f.header.id.config
  }

  /** A frame before i did not get through, and no key frame got through since. */
  ghost predicate OutOfStep(frames: seq<Frame>, fates: seq<Fate>, i: nat)
    requires i <= |frames| == |fates|
  {
    exists j :: 0 <= j < i && fates[j] != Passed && forall k :: j < k < i ==> !(OpensGroup(frames[k]) && fates[k] == Passed)
  }

  /**
   * Over every run, frame i is held back if and only if it is video, neither
   * key frame nor configuration record, and a frame before it did not get
   * through with no key frame sent since; in particular a configuration
   * record that is sent ends no outage, key frame or not.
   */
  lemma HeldExactly(s: FlowState, frames: seq<Frame>, fates: seq<Fate>, i: nat)
    requires Run(s, frames, fates) && !s.resync && i < |frames|
    ensures fates[i] == Held
       <==> var id := frames[i].header.id;
            id.mediaType == 1 && !id.keyframe && !id.config && OutOfStep(frames, fates, i)
  {
    OnlyDecodableSent(s, frames, fates, i);
    var k := SyncPoint(frames, fates, i);
    if !AllPassed(fates, k, i) {
      var j :| k <= j < i && fates[j] != Passed;
      assert OutOfStep(frames, fates, i);
    }
    if OutOfStep(frames, fates, i) {
      var j :| 0 <= j < i && fates[j] != Passed && forall k :: j < k < i ==> !(OpensGroup(frames[k]) && fates[k] == Passed);
      assert !AllPassed(fates, k, i);
    }
  }

  /** How often x occurs among the elements from..end of s. */
  function Tally<T(==)>(s: seq<T>, from: nat, end: nat, x: T): nat
    requires from <= end <= |s|
  {
    if from == end then 0 else Tally(s, from, end - 1, x) + if s[end - 1] == x then 1 else 0
  }

  /** A failure starts an outage when nothing was missing before it. */
  function Outages(frames: seq<Frame>, fates: seq<Fate>, i: nat): nat
    requires i <= |frames| == |fates|
  {
    if i == 0 then 0 else
      Outages(frames, fates, i - 1)
      + if fates[i - 1] == Lost && AllPassed(fates, SyncPoint(frames, fates, i - 1), i - 1) then 1 else 0
  }

  lemma CounterStep(st: FlowState, f: Frame, fate: Fate)
    ensures var st' := AfterFate(st, f, fate);
            && st'.dropped == st.dropped + (if fate == Held then 1 else 0)
            && st'.resyncs == st.resyncs + (if fate == Lost && !st.resync then 1 else 0)
  {
  }

  /** The counters: frames held back, and outages. */
  lemma {:induction false} FlowCounters(s: FlowState, frames: seq<Frame>, fates: seq<Fate>, i: nat)
    requires Run(s, frames, fates) && !s.resync && i <= |frames|
    ensures FlowAt(s, frames, fates, i).dropped == s.dropped + Tally(fates, 0, i, Held)
    ensures FlowAt(s, frames, fates, i).resyncs == s.resyncs + Outages(frames, fates, i)
  {
    if i > 0 {
      FlowCounters(s, frames, fates, i - 1);
      ResyncMeaning(s, frames, fates, i - 1);
      assert HeldRightly(s, frames, fates, i - 1);
      CounterStep(FlowAt(s, frames, fates, i - 1), frames[i - 1], fates[i - 1]);
    }
  }

  // ---- the publisher and the wire together ----------------------------------------

  function Numbered(f: Frame, sequence: nat): Frame
  {
    f.(header := f.header.(id := f.header.id.(sequence := sequence)))
  }

  function FateOf(s: FlowState, f: Frame, kernel: Kernel, w: nat): Fate
  {
    if s.resync && Inter(f) then Held
    else if SentWhole(Numbered(f, s.sequence), kernel, w) then Passed else Lost
  }

  function WriteAfter(s: FlowState, f: Frame, kernel: Kernel, w: nat): nat
  {
    if s.resync && Inter(f) then w else NextWrite(Numbered(f, s.sequence), kernel, w)
  }

  /** A routed publisher connection. */
  class Publisher {
    const flow: FlowRecord
    const endpoint: Endpoint

    constructor (flow: FlowRecord, endpoint: Endpoint)
      ensures this.flow == flow && this.endpoint == endpoint
    {
      this.flow, this.endpoint := flow, endpoint;
    }

    /** The publishing callback of a routed session: admit, send with the flow's number, record. */
    method Publish(f: Frame)
      requires endpoint.Valid()
      modifies flow, endpoint
      ensures endpoint.Valid() && endpoint.fd == old(endpoint.fd)
      ensures endpoint.fd < 0 ==>
                && flow.View() == AfterFate(old(flow.View()), f, if old(flow.resync) && Inter(f) then Held else Lost)
                && endpoint.writes == old(endpoint.writes) && endpoint.wire == old(endpoint.wire)
      ensures endpoint.fd >= 0 ==>
              var s, w, kernel := old(flow.View()), old(endpoint.writes), endpoint.kernel;
              var g := Numbered(f, s.sequence);
              && flow.View() == AfterFate(s, f, FateOf(s, f, kernel, w))
              && endpoint.writes == WriteAfter(s, f, kernel, w)
              && |old(endpoint.wire)| <= |endpoint.wire|
              && endpoint.wire[..|old(endpoint.wire)|] == old(endpoint.wire)
              && endpoint.wire[|old(endpoint.wire)|..] ==
                   if FateOf(s, f, kernel, w) == Held then [] else Chunks(g)[..Taken(kernel, w, |Chunks(g)|)]
    {
      var send := flow.Admit(f);
      if send {
        var g := Numbered(f, flow.sequence);
        assert f.data[0..0 + |f.data|] == f.data;
        var rc := endpoint.Send(g.header, Some(f.data), 0, |f.data|);
        flow.SentWith(f, rc);
      }
    }
  }

  /** The fates of a run whose sends meet this kernel, and the frames it offers to the wire. */
  function Route(s: FlowState, frames: seq<Frame>, kernel: Kernel, w: nat): (r: (seq<Fate>, seq<Frame>))
    ensures |r.0| == |frames|
    decreases |frames|
  {
    if frames == [] then ([], []) else
      var fate := FateOf(s, frames[0], kernel, w);
      var rest := Route(AfterFate(s, frames[0], fate), frames[1..], kernel, WriteAfter(s, frames[0], kernel, w));
      ([fate] + rest.0,
       (if fate == Held then [] else [Numbered(frames[0], s.sequence)]) + rest.1)
  }

  lemma {:induction false} FlowAtShift(s: FlowState, frames: seq<Frame>, fates: seq<Fate>, i: nat)
    requires 0 < i <= |frames| == |fates|
    ensures FlowAt(s, frames, fates, i)
         == FlowAt(AfterFate(s, frames[0], fates[0]), frames[1..], fates[1..], i - 1)
  {
    if i > 1 {
      FlowAtShift(s, frames, fates, i - 1);
    }
  }

  lemma {:induction false} RouteIsRun(s: FlowState, frames: seq<Frame>, kernel: Kernel, w: nat)
    ensures Run(s, frames, Route(s, frames, kernel, w).0)
    decreases |frames|
  {
    if frames != [] {
      var fates := Route(s, frames, kernel, w).0;
      var s' := AfterFate(s, frames[0], fates[0]);
      var w' := WriteAfter(s, frames[0], kernel, w);
      RouteIsRun(s', frames[1..], kernel, w');
      assert fates[1..] == Route(s', frames[1..], kernel, w').0;
      forall i | 0 <= i < |frames|
        ensures HeldRightly(s, frames, fates, i)
      {
        if i > 0 {
          FlowAtShift(s, frames, fates, i);
          assert HeldRightly(s', frames[1..], fates[1..], i - 1);
        }
      }
    }
  }

  /** The frames that passed, as the owner hands them on. */
  function PassedUnits(frames: seq<Frame>, fates: seq<Fate>, sequence: nat): seq<Unit>
    requires |frames| == |fates|
  {
    if frames == [] then [] else
      PassedUnit(frames[0], fates[0], sequence) + PassedUnits(frames[1..], fates[1..], sequence + 1)
  }

  function PassedUnit(f: Frame, fate: Fate, sequence: nat): seq<Unit>
  {
    if fate == Passed then [UnitOf(Numbered(f, sequence))] else []
  }

  /** Offering one frame and then the rest: what the wire carries. */
  lemma CarriesStep(s: FlowState, f: Frame, rest: seq<Frame>, kernel: Kernel, w: nat)
    requires Fits(f)
    ensures var fate := FateOf(s, f, kernel, w);
            var offered := (if fate == Held then [] else [Numbered(f, s.sequence)]) + rest;
            Carried(offered, kernel, w)
            == PassedUnit(f, fate, s.sequence) + Carried(rest, kernel, WriteAfter(s, f, kernel, w))
  {
    var g := Numbered(f, s.sequence);
    if FateOf(s, f, kernel, w) == Held {
      assert [] + rest == rest;
      assert [] + Carried(rest, kernel, w) == Carried(rest, kernel, w);
    } else {
      assert ([g] + rest)[1..] == rest;
    }
  }

  lemma {:induction false} RouteFits(s: FlowState, frames: seq<Frame>, kernel: Kernel, w: nat)
    requires AllFit(frames)
    ensures AllFit(Route(s, frames, kernel, w).1)
    decreases |frames|
  {
    if frames != [] {
      var f := frames[0];
      RouteFits(AfterFate(s, f, FateOf(s, f, kernel, w)), frames[1..], kernel, WriteAfter(s, f, kernel, w));
    }
  }

  lemma {:induction false} RouteCarries(s: FlowState, frames: seq<Frame>, kernel: Kernel, w: nat)
    requires AllFit(frames)
    ensures Carried(Route(s, frames, kernel, w).1, kernel, w)
         == PassedUnits(frames, Route(s, frames, kernel, w).0, s.sequence)
    decreases |frames|
  {
    if frames != [] {
      var f := frames[0];
      var fate := FateOf(s, f, kernel, w);
      var s', w' := AfterFate(s, f, fate), WriteAfter(s, f, kernel, w);
      var rest := Route(s', frames[1..], kernel, w');
      assert s'.sequence == s.sequence + 1;
      hide FateOf, WriteAfter, AfterFate, Numbered, PassedUnit, Carried;
      RouteCarries(s', frames[1..], kernel, w');
      CarriesStep(s, f, rest.1, kernel, w);
      assert ([fate] + rest.0)[1..] == rest.0;
    }
  }

  lemma {:induction false} PassedUnitIn(frames: seq<Frame>, fates: seq<Fate>, sequence: nat, i: nat, n: nat)
    requires |frames| == |fates| && i < |frames| && fates[i] == Passed && n == sequence + i
    ensures UnitOf(Numbered(frames[i], n)) in PassedUnits(frames, fates, sequence)
  {
    if i == 0 {
      assert PassedUnits(frames, fates, sequence)[0] == UnitOf(Numbered(frames[0], n));
    } else {
      PassedUnitIn(frames[1..], fates[1..], sequence + 1, i - 1, n);
    }
  }

  /** What becomes of each offered frame on a fresh connection. */
  function FatesOf(frames: seq<Frame>, kernel: Kernel): (fates: seq<Fate>)
    ensures |fates| == |frames|
  {
    Route(FRESH_FLOW, frames, kernel, 0).0
  }

  /** The owner's slot of a fresh connection after everything its publisher put on the wire. */
  function Received(frames: seq<Frame>, kernel: Kernel): Slot
  {
    DeliverAll(FRESH_SLOT, Wire(Route(FRESH_FLOW, frames, kernel, 0).1, kernel, 0))
  }

  /** What the owner hands on of a fresh connection. */
  function HandedOver(frames: seq<Frame>, kernel: Kernel): seq<Unit>
  {
    Received(frames, kernel).emitted
  }

  /**
   * End to end: whatever the kernel refuses, the owner hands on exactly the
   * frames that passed, in order and numbered by their place in the stream.
   */
  lemma OwnerReceives(frames: seq<Frame>, kernel: Kernel)
    requires AllFit(frames)
    ensures HandedOver(frames, kernel) == PassedUnits(frames, FatesOf(frames, kernel), 0)
  {
    RouteFits(FRESH_FLOW, frames, kernel, 0);
    RouteCarries(FRESH_FLOW, frames, kernel, 0);
    ExactDelivery(Route(FRESH_FLOW, frames, kernel, 0).1, kernel, 0, FRESH_SLOT);
    var units := PassedUnits(frames, FatesOf(frames, kernel), 0);
    assert [] + units == units;
  }

  lemma PassedBack(frames: seq<Frame>, kernel: Kernel, i: nat, j: nat)
    requires i < |frames| && Inter(frames[i]) && FatesOf(frames, kernel)[i] == Passed
    requires SyncPoint(frames, FatesOf(frames, kernel), i) <= j <= i
    ensures FatesOf(frames, kernel)[j] == Passed
  {
    RouteIsRun(FRESH_FLOW, frames, kernel, 0);
    OnlyDecodableSent(FRESH_FLOW, frames, FatesOf(frames, kernel), i);
  }

  /**
   * And a frame that needs its predecessors is sent only if all of them, back
   * to a key frame (or the first frame of the stream), are handed on too.
   */
  lemma OwnerCanDecode(frames: seq<Frame>, kernel: Kernel, i: nat, j: nat)
    requires AllFit(frames)
    requires i < |frames| && Inter(frames[i]) && FatesOf(frames, kernel)[i] == Passed
    requires SyncPoint(frames, FatesOf(frames, kernel), i) <= j <= i
    ensures UnitOf(Numbered(frames[j], j)) in HandedOver(frames, kernel)
  {
    PassedBack(frames, kernel, i, j);
    OwnerReceives(frames, kernel);
    PassedUnitIn(frames, FatesOf(frames, kernel), 0, j, j);
  }
}
