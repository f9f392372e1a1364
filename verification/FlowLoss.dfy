/**
 * What the owner's counters say of a routed flow: its gaps, its abandoned
 * reassemblies and the one still open are exactly the frames that were held
 * back or failed, and no lost datagram makes it hand on a frame nobody sent.
 */
module FlowLoss {
  import opened Common
  import opened Ipc
  import opened Transport
  import opened Flow

  // ---- the numbers a flow puts on its frames ----------------------------------

  /** The places in the stream of the frames that are offered to the wire. */
  function Places(s: FlowState, frames: seq<Frame>, kernel: Kernel, w: nat): seq<nat>
    decreases |frames|
  {
    if frames == [] then [] else
      var fate := FateOf(s, frames[0], kernel, w);
      (if fate == Held then [] else [s.sequence])
      + Places(AfterFate(s, frames[0], fate), frames[1..], kernel, WriteAfter(s, frames[0], kernel, w))
  }

  /** The j-th of the frames g is the one at place at[j] of a stream counted from base, and numbered so. */
  predicate Placed(base: nat, frames: seq<Frame>, g: seq<Frame>, at: seq<nat>)
  {
    && |g| == |at| && Climbing(at)
    && (forall j :: 0 <= j < |at| ==> base <= at[j] < base + |frames|)
    && (forall j :: 0 <= j < |at| ==> g[j] == Numbered(frames[at[j] - base], at[j]))
  }

  lemma PlacedStep(base: nat, frames: seq<Frame>, g: seq<Frame>, at: seq<nat>)
    requires frames != [] && Placed(base + 1, frames[1..], g, at)
    ensures Placed(base, frames, g, at)
    ensures Placed(base, frames, [Numbered(frames[0], base)] + g, [base] + at)
  {
    hide Numbered;
    forall j | 0 <= j < |at| ensures g[j] == Numbered(frames[at[j] - base], at[j]) {
      assert frames[1..][at[j] - base - 1] == frames[at[j] - base];
    }
  }

  /** Each offered frame is numbered by its place in the stream, and the places climb. */
  lemma {:induction false} RoutePlaces(s: FlowState, frames: seq<Frame>, kernel: Kernel, w: nat)
    ensures Placed(s.sequence, frames, Route(s, frames, kernel, w).1, Places(s, frames, kernel, w))
    decreases |frames|
  {
    hide Placed, FateOf, WriteAfter, Numbered;
    if frames == [] {
      PlacedNone(s.sequence);
    } else {
      var fate := FateOf(s, frames[0], kernel, w);
      var s', w' := AfterFate(s, frames[0], fate), WriteAfter(s, frames[0], kernel, w);
      var g, at := Route(s', frames[1..], kernel, w').1, Places(s', frames[1..], kernel, w');
      RoutePlaces(s', frames[1..], kernel, w');
      PlacedStep(s.sequence, frames, g, at);
      assert [] + g == g && [] + at == at;
    }
  }

  lemma PlacedNone(base: nat)
    ensures Placed(base, [], [], [])
  {
  }

  /** So the frames of a flow are numbered upwards, and no two share an identity. */
  lemma RouteNumbered(s: FlowState, frames: seq<Frame>, kernel: Kernel, w: nat)
    ensures Increasing(Route(s, frames, kernel, w).1) && Distinct(Route(s, frames, kernel, w).1)
    ensures AllNameable(frames) ==> AllNameable(Route(s, frames, kernel, w).1)
  {
    RoutePlaces(s, frames, kernel, w);
    hide Route, Places;
    var g, at := Route(s, frames, kernel, w).1, Places(s, frames, kernel, w);
    forall j | 0 <= j < |g| ensures g[j].header.id.sequence == at[j] {
      assert g[j] == Numbered(frames[at[j] - s.sequence], at[j]);
    }
  }

  // ---- what the owner sees of each frame ----------------------------------------

  /** The part of a frame whose datagrams reach the owner; one it cannot take counts as unseen. */
  datatype Seen = Nothing | Part | Whole

  function SeenOf(s: FlowState, f: Frame, kernel: Kernel, w: nat): Seen
  {
    var g := Numbered(f, s.sequence);
    if FateOf(s, f, kernel, w) == Held || !Fits(f) || Taken(kernel, w, |Chunks(g)|) == 0 then Nothing
    else if Taken(kernel, w, |Chunks(g)|) < |Chunks(g)| then Part
    else Whole
  }

  function Trail(s: FlowState, frames: seq<Frame>, kernel: Kernel, w: nat): (t: seq<Seen>)
    ensures |t| == |frames|
    decreases |frames|
  {
    if frames == [] then [] else
      [SeenOf(s, frames[0], kernel, w)]
      + Trail(AfterFate(s, frames[0], FateOf(s, frames[0], kernel, w)), frames[1..], kernel,
              WriteAfter(s, frames[0], kernel, w))
  }

  /** A frame is seen whole exactly when it passed and the owner takes its size. */
  lemma {:induction false} WholeMeans(s: FlowState, frames: seq<Frame>, kernel: Kernel, w: nat, i: nat)
    requires i < |frames|
    ensures Trail(s, frames, kernel, w)[i] == Whole
            <==> Route(s, frames, kernel, w).0[i] == Passed && Fits(frames[i])
    ensures Route(s, frames, kernel, w).0[i] == Held ==> Trail(s, frames, kernel, w)[i] == Nothing
    decreases |frames|
  {
    var f := frames[0];
    if i == 0 {
      if Fits(f) {
        assert Chunks(Numbered(f, s.sequence)) != [];
      }
    } else {
      WholeMeans(AfterFate(s, f, FateOf(s, f, kernel, w)), frames[1..], kernel, WriteAfter(s, f, kernel, w), i - 1);
    }
  }

  // ---- the account -----------------------------------------------------------------

  function OpenCount(r: Slot): nat
  {
    if r.partial.Open? then 1 else 0
  }

  /** The slot after a frame numbered n of which it saw x. */
  predicate AfterOffer(r: Slot, n: nat, x: Seen, r': Slot)
  {
    if x == Nothing then
      && r'.sequenced == r.sequenced && r'.next == r.next && r'.gaps == r.gaps
      && |r'.emitted| == |r.emitted| && r'.restarts + OpenCount(r') == r.restarts + OpenCount(r)
    else
      && r'.sequenced && r'.next == n + 1 && r'.gaps == Sequenced(r, n).gaps
      && |r'.emitted| == |r.emitted| + (if x == Whole then 1 else 0)
      && r'.restarts == r.restarts + OpenCount(r) && OpenCount(r') == (if x == Part then 1 else 0)
  }

  /** Offering one frame, then the rest of the flow. */
  lemma OfferThenRest(s: FlowState, frames: seq<Frame>, kernel: Kernel, w: nat, r: Slot) returns (r': Slot)
    requires frames != [] && Nameable(frames[0])
    ensures AfterOffer(r, s.sequence, SeenOf(s, frames[0], kernel, w), r')
    ensures var s' := AfterFate(s, frames[0], FateOf(s, frames[0], kernel, w));
            var w' := WriteAfter(s, frames[0], kernel, w);
            DeliverAll(r, Wire(Route(s, frames, kernel, w).1, kernel, w))
            == DeliverAll(r', Wire(Route(s', frames[1..], kernel, w').1, kernel, w'))
  {
    var f := frames[0];
    var s', w' := AfterFate(s, f, FateOf(s, f, kernel, w)), WriteAfter(s, f, kernel, w);
    var rest := Route(s', frames[1..], kernel, w').1;
    if FateOf(s, f, kernel, w) == Held {
      assert Route(s, frames, kernel, w).1 == rest;
      r' := r;
    } else {
      var g := Numbered(f, s.sequence);
      assert Route(s, frames, kernel, w).1 == [g] + rest;
      assert ([g] + rest)[1..] == rest;
      r' := FrameThenRest(r, [g] + rest, kernel, w);
    }
  }

  /** The counters of a slot that has seen the first i frames of a trail, none before the first-th. */
  predicate Books(r: Slot, trail: seq<Seen>, i: nat, first: nat)
    requires i <= |trail|
  {
    if r.sequenced then
      && first < r.next <= i && trail[first] != Nothing && trail[r.next - 1] != Nothing
      && (forall k :: 0 <= k < i && (k < first || r.next <= k) ==> trail[k] == Nothing)
      && r.gaps == Tally(trail, first, r.next, Nothing)
      && r.restarts + OpenCount(r) == Tally(trail, first, r.next, Part)
      && |r.emitted| == Tally(trail, first, r.next, Whole)
    else
      && (forall k :: 0 <= k < i ==> trail[k] == Nothing)
      && r.gaps == 0 && r.restarts == 0 && r.partial.Idle? && r.emitted == []
  }

  /** Unseen frames in a row. */
  lemma {:induction false} TallyUnseen(trail: seq<Seen>, from: nat, mid: nat, end: nat, x: Seen)
    requires from <= mid <= end <= |trail| && forall k :: mid <= k < end ==> trail[k] == Nothing
    ensures Tally(trail, from, end, x) == Tally(trail, from, mid, x) + if x == Nothing then end - mid else 0
    decreases end
  {
    if mid < end {
      TallyUnseen(trail, from, mid, end - 1, x);
    }
  }

  lemma BooksStep(r: Slot, r': Slot, trail: seq<Seen>, i: nat, first: nat)
    requires i < |trail| && Books(r, trail, i, first) && AfterOffer(r, i, trail[i], r')
    ensures Books(r', trail, i + 1, if r.sequenced then first else i)
  {
    if trail[i] != Nothing {
      if r.sequenced {
        forall x: Seen ensures Tally(trail, first, i + 1, x)
          == Tally(trail, first, r.next, x) + (if x == Nothing then i - r.next else 0) + (if trail[i] == x then 1 else 0)
        {
          TallyUnseen(trail, first, r.next, i, x);
        }
      } else {
        assert Tally(trail, i, i, Nothing) == Tally(trail, i, i, Part) == Tally(trail, i, i, Whole) == 0;
      }
    }
  }

  /** The books stay right while the rest of a flow arrives. */
  lemma {:induction false} BooksRun(trail: seq<Seen>, s: FlowState, frames: seq<Frame>, kernel: Kernel, w: nat,
                                    r: Slot, first: nat) returns (first': nat)
    requires AllNameable(frames) && |trail| == s.sequence + |frames|
    requires trail[s.sequence..] == Trail(s, frames, kernel, w)
    requires Books(r, trail, s.sequence, first)
    ensures Books(DeliverAll(r, Wire(Route(s, frames, kernel, w).1, kernel, w)), trail, |trail|, first')
    ensures r.sequenced ==> first' == first
    decreases |frames|
  {
    hide Books;
    if frames == [] {
      assert Wire(Route(s, frames, kernel, w).1, kernel, w) == [];
      return first;
    }
    var i, f := s.sequence, frames[0];
    var s', w' := AfterFate(s, f, FateOf(s, f, kernel, w)), WriteAfter(s, f, kernel, w);
    var r' := OfferThenRest(s, frames, kernel, w, r);
    assert trail[i..][0] == trail[i] && trail[i..][1..] == trail[i + 1..];
    BooksStep(r, r', trail, i, first);
    first' := BooksRun(trail, s', frames[1..], kernel, w', r', if r.sequenced then first else i);
  }

  /** What the owner saw of each frame of a fresh connection. */
  function TrailOf(frames: seq<Frame>, kernel: Kernel): (t: seq<Seen>)
    ensures |t| == |frames|
  {
    Trail(FRESH_FLOW, frames, kernel, 0)
  }

  /**
   * Each counter by itself, whatever the frames: between the first frame the
   * owner saw anything of and the last, the gaps are the frames it saw
   * nothing of, restarts and the open reassembly those it saw a part of, and
   * it handed on those it saw whole; outside, it saw nothing.
   */
  lemma CountersMean(frames: seq<Frame>, kernel: Kernel) returns (first: nat)
    requires AllNameable(frames)
    ensures Books(Received(frames, kernel), TrailOf(frames, kernel), |frames|, first)
  {
    var trail := TrailOf(frames, kernel);
    assert trail[0..] == trail;
    first := BooksRun(trail, FRESH_FLOW, frames, kernel, 0, FRESH_SLOT, 0);
  }

  /** Seen whole or not: the tallies of the trail and of the fates. */
  lemma {:induction false} TalliesAgree(frames: seq<Frame>, kernel: Kernel, from: nat, end: nat)
    requires AllFit(frames) && from <= end <= |frames|
    ensures var trail, fates := TrailOf(frames, kernel), FatesOf(frames, kernel);
            && Tally(trail, from, end, Nothing) + Tally(trail, from, end, Part)
               == Tally(fates, from, end, Held) + Tally(fates, from, end, Lost)
            && Tally(trail, from, end, Whole) == Tally(fates, from, end, Passed)
    decreases end
  {
    if from < end {
      TalliesAgree(frames, kernel, from, end - 1);
      WholeMeans(FRESH_FLOW, frames, kernel, 0, end - 1);
    }
  }

  /**
   * The loss account of a flow: on a fresh connection, the gaps, the
   * abandoned reassemblies and the open one add up to exactly the frames held
   * back or failed among those numbered from the first the owner saw up to
   * the next it expects; the frames handed on are those that passed, and none
   * passed outside that range.
   */
  lemma FlowLossAccount(frames: seq<Frame>, kernel: Kernel) returns (first: nat)
    requires AllFit(frames)
    ensures var r, fates := Received(frames, kernel), FatesOf(frames, kernel);
            if r.sequenced then
              && first < r.next <= |frames|
              && TrailOf(frames, kernel)[first] != Nothing && TrailOf(frames, kernel)[r.next - 1] != Nothing
              && r.gaps + r.restarts + OpenCount(r)
                 == Tally(fates, first, r.next, Held) + Tally(fates, first, r.next, Lost)
              && |r.emitted| == Tally(fates, first, r.next, Passed)
              && forall k :: 0 <= k < |frames| && (k < first || r.next <= k) ==> fates[k] != Passed
            else
              forall k :: 0 <= k < |frames| ==> fates[k] != Passed
  {
    first := CountersMean(frames, kernel);
    var r := Received(frames, kernel);
    if r.sequenced {
      TalliesAgree(frames, kernel, first, r.next);
    }
    forall k | 0 <= k < |frames| && TrailOf(frames, kernel)[k] == Nothing
      ensures FatesOf(frames, kernel)[k] != Passed
    {
      WholeMeans(FRESH_FLOW, frames, kernel, 0, k);
    }
  }

  // ---- the flow over a channel that loses datagrams ---------------------------------

  lemma {:induction false} UnitsAt(frames: seq<Frame>, idx: seq<nat>, k: nat)
    requires (forall j :: 0 <= j < |idx| ==> idx[j] < |frames|) && k < |idx|
    ensures |Units(frames, idx)| == |idx| && Units(frames, idx)[k] == UnitOf(frames[idx[k]])
  {
    if |idx| > 1 {
      UnitsAt(frames, idx[1..], if k == 0 then 0 else k - 1);
    }
  }

  /** The frame the owner hands on is the offered frame of that number, whole. */
  predicate IsSent(frames: seq<Frame>, u: Unit)
  {
    u.id.sequence < |frames| && u == UnitOf(Numbered(frames[u.id.sequence], u.id.sequence))
  }

  /** Frames of a stream, picked by index, are frames of the stream under their own numbers. */
  lemma PickedAreSent(frames: seq<Frame>, g: seq<Frame>, at: seq<nat>, idx: seq<nat>)
    requires Placed(0, frames, g, at) && forall k :: 0 <= k < |idx| ==> idx[k] < |g|
    ensures |Units(g, idx)| == |idx|
    ensures forall k :: 0 <= k < |idx| ==>
              IsSent(frames, Units(g, idx)[k]) && Units(g, idx)[k].id.sequence == at[idx[k]]
  {
    if idx != [] {
      UnitsAt(g, idx, 0);
    }
    forall k | 0 <= k < |idx|
      ensures IsSent(frames, Units(g, idx)[k]) && Units(g, idx)[k].id.sequence == at[idx[k]]
    {
      UnitsAt(g, idx, k);
      assert g[idx[k]] == Numbered(frames[at[idx[k]]], at[idx[k]]);
    }
  }

  predicate Rising(got: seq<Unit>)
  {
    forall j, k :: 0 <= j < k < |got| ==> got[j].id.sequence < got[k].id.sequence
  }

  /**
   * Whatever datagrams of a flow are lost, doubled or reordered and whatever
   * allocation fails, the owner hands on nothing but whole frames of the
   * stream under their own numbers, and as long as the channel keeps order
   * those numbers only go up.
   */
  lemma RoutedFramesWhole(frames: seq<Frame>, kernel: Kernel, picks: seq<Pick>, memory: seq<bool>)
    requires AllNameable(frames) && |memory| == |picks|
    requires forall p :: p in picks ==> IsPick(Route(FRESH_FLOW, frames, kernel, 0).1, p)
    ensures var got := Receive(Route(FRESH_FLOW, frames, kernel, 0).1, FRESH_SLOT, picks, memory).emitted;
            && (forall k :: 0 <= k < |got| ==> IsSent(frames, got[k]))
            && (Ordered(picks) ==> Rising(got))
  {
    hide Route, Places, IsPick, Receive, HandedOn, Units, IsSent, Distinct, Increasing, Ordered, Placed;
    var g, at := Route(FRESH_FLOW, frames, kernel, 0).1, Places(FRESH_FLOW, frames, kernel, 0);
    RoutePlaces(FRESH_FLOW, frames, kernel, 0);
    RouteNumbered(FRESH_FLOW, frames, kernel, 0);
    NoSplice(g, FRESH_SLOT, picks, memory);
    var idx := HandedOn(g, FRESH_SLOT, picks, memory);
    assert [] + Units(g, idx) == Units(g, idx);
    PickedAreSent(frames, g, at, idx);
    if Ordered(picks) {
      InOrder(g, FRESH_SLOT, picks, memory);
      ClimbThrough(frames, g, at, idx);
    }
  }

  lemma ClimbThrough(frames: seq<Frame>, g: seq<Frame>, at: seq<nat>, idx: seq<nat>)
    requires Placed(0, frames, g, at) && Climbing(idx) && forall k :: 0 <= k < |idx| ==> idx[k] < |g|
    ensures Rising(Units(g, idx))
  {
    PickedAreSent(frames, g, at, idx);
    hide Units, IsSent;
    forall j, k | 0 <= j < k < |idx| ensures at[idx[j]] < at[idx[k]] {
      assert idx[j] < idx[k];
    }
  }
}
