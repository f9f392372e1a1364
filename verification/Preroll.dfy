/** The standby source's cache of one complete group of pictures. */
module Preroll {
  import opened Common
  import opened Media
  import opened RingMath

  function Bytes(frames: seq<Frame>): nat
  {
    if frames == [] then 0 else Bytes(frames[..|frames| - 1]) + Size(frames[|frames| - 1])
  }

  /** What is counted are the octets of the payloads. */
  lemma {:induction false} BytesAreOctets(frames: seq<Frame>)
    ensures Bytes(frames) == |Octets(frames)|
  {
    if frames != [] {
      BytesAreOctets(frames[..|frames| - 1]);
    }
  }

  datatype Limits = Limits(maxUnits: nat, maxBytes: nat)

  predicate Fits(limits: Limits, frames: seq<Frame>)
  {
    |frames| <= limits.maxUnits && Bytes(frames) <= limits.maxBytes
  }

  /** The cached frames, and whether a boundary opened them. */
  datatype Cache = Cache(frames: seq<Frame>, boundary: bool)

  const EMPTY := Cache([], false)

  predicate VideoKey(f: Frame) { f.video && f.keyframe }

  /** A frame is kept when a boundary precedes it or it is one itself. */
  predicate Kept(c: Cache, hasVideo: bool, f: Frame)
  {
    VideoKey(f) || c.boundary || (!f.video && !hasVideo)
  }

  function Push(limits: Limits, hasVideo: bool, c: Cache, f: Frame): (r: (Cache, Rc))
  {
    if !Kept(c, hasVideo, f) then (c, OK) else
    // a new key frame replaces the cached group wholesale
    var frames := (if VideoKey(f) then [] else c.frames) + [f];
    if Fits(limits, frames) then (Cache(frames, true), OK) else (EMPTY, AGAIN)
  }

  class Source {
    const units: array<Frame>
    const capacity: nat
    const limits: Limits
    var hasVideo: bool
    var head: nat
    var tail: nat
    var bytes: nat
    var boundary: bool
    var overflows: nat
    var unitOverflows: nat
    var byteOverflows: nat
    var highWaterUnits: nat
    var highWaterBytes: nat

    ghost predicate Valid()
      reads `head, `tail, `bytes, units
    {
      && capacity == units.Length > limits.maxUnits && IsPow2(capacity)
      && tail == 0 && head <= capacity
      && bytes == Bytes(units[..head])
      && forall i :: head <= i < capacity ==> units[i] == NO_FRAME
    }

    ghost function View(): Cache
      requires Valid()
      reads `head, `tail, `bytes, `boundary, units
    {
      Cache(units[..head], boundary)
    }

    /** A cache within its ceilings, as it is between two pushes. */
    ghost predicate Settled()
      reads `head, `tail, `bytes, `boundary, units
    {
      Valid() && Fits(limits, units[..head]) && (head > 0 ==> boundary)
    }

    constructor (limits: Limits, hasVideo: bool, capacity: nat)
      requires capacity > limits.maxUnits > 0 && limits.maxBytes > 0 && IsPow2(capacity)
      ensures Settled() && fresh(units) && View() == EMPTY
      ensures this.limits == limits && this.hasVideo == hasVideo && this.capacity == capacity
    {
      units := new Frame[capacity](_ => NO_FRAME);
      this.capacity, this.limits, this.hasVideo := capacity, limits, hasVideo;
      head, tail, bytes, boundary, overflows, unitOverflows, byteOverflows := 0, 0, 0, false, 0, 0, 0;
      highWaterUnits, highWaterBytes := 0, 0;
    }

    /**
     * The init: frameSize is the size of one slot, memory whether their
     * allocation succeeds.  A configured number is below 2^63, so its
     * successor does not wrap.
     */
    static method Create(limits: Limits, hasVideo: bool, frameSize: nat, memory: bool) returns (source: Source?)
      requires limits.maxUnits < TWO64 - 1 && 0 < frameSize < TWO64
      ensures source == null <==>
                limits.maxUnits == 0 || limits.maxBytes == 0 || limits.maxUnits + 1 > Pow2(63)
                || PowerFor(limits.maxUnits + 1) > (TWO64 - 1) / frameSize || !memory
      ensures source != null ==>
                && source.Settled() && fresh(source) && fresh(source.units) && source.View() == EMPTY
                && source.limits == limits && source.hasVideo == hasVideo
                && source.capacity == PowerFor(limits.maxUnits + 1)
    {
      if limits.maxUnits == 0 || limits.maxBytes == 0 {
        return null;
      }
      var capacity := RoundUp(limits.maxUnits + 1);
      if capacity == 0 || capacity > (TWO64 - 1) / frameSize {
        return null;
      }
      if !memory {
        return null;
      }
      source := new Source(limits, hasVideo, capacity);
    }

    /** A video track shows up: from now on only a key frame opens the cache. */
    method SeeVideo()
      requires Settled()
      modifies this`hasVideo
      ensures hasVideo && Settled() && View() == old(View())
    {
      hasVideo := true;
    }

    method Reset()
      requires Valid()
      modifies this`head, this`tail, this`bytes, this`boundary, units
      ensures Valid() && View() == EMPTY
      ensures forall i :: 0 <= i < capacity ==> units[i] == NO_FRAME
    {
      while tail < head
        invariant tail <= head <= capacity == units.Length
        invariant forall i :: 0 <= i < tail || head <= i < capacity ==> units[i] == NO_FRAME
        decreases head - tail
      {
        units[SlotOf(tail, capacity)] := NO_FRAME;
        tail := tail + 1;
      }
      head, tail, bytes, boundary := 0, 0, 0, false;
      assert units[..0] == [];
    }

    /** The boundary rule: what the cache holds when the frame is added to it, if it is. */
    method Gate(f: Frame) returns (keep: bool)
      requires Settled()
      modifies this`head, this`tail, this`bytes, this`boundary, units
      ensures Settled() || (Valid() && head == 0)
      ensures keep == Kept(old(View()), hasVideo, f)
      ensures Valid() && View() == if keep then Cache(if VideoKey(f) then [] else old(View()).frames, true)
                                   else old(View())
      ensures Fits(limits, View().frames)
    {
      FitsNone(limits);
      if f.video {
        if f.keyframe {
          Reset();
          boundary := true;
        } else if !boundary {
          return false;
        }
      } else if !boundary {
        if hasVideo {
          return false;
        }
        boundary := true;
      }
      return true;
    }

    /** ngx_media_source_preroll_push refines Push. */
    method PushFrame(f: Frame) returns (rc: Rc)
      requires Settled()
      modifies this, units
      ensures Settled() && (View(), rc) == Push(limits, old(hasVideo), old(View()), f)
      ensures hasVideo == old(hasVideo)
      ensures overflows == old(overflows) + if rc == AGAIN then 1 else 0
    {
      hide Bytes, Fits;
      var keep := Gate(f);
      if !keep {
        return OK;
      }
      rc := Append(f);
    }

    /** Adds a frame and clears the cache when a ceiling is passed; the ring always has room. */
    method Append(f: Frame) returns (rc: Rc)
      requires Valid() && boundary && Fits(limits, units[..head])
      modifies this`head, this`tail, this`bytes, this`boundary, this`overflows, this`unitOverflows, this`byteOverflows
      modifies this`highWaterUnits, this`highWaterBytes, units
      ensures Settled()
      ensures var frames := old(units[..head]) + [f];
              && (View(), rc) == (if Fits(limits, frames) then (Cache(frames, true), OK) else (EMPTY, AGAIN))
              && overflows == old(overflows) + (if rc == AGAIN then 1 else 0)
              && unitOverflows == old(unitOverflows) + (if |frames| > limits.maxUnits then 1 else 0)
              && byteOverflows == old(byteOverflows) + (if Bytes(frames) > limits.maxBytes then 1 else 0)
              && highWaterUnits == Max(old(highWaterUnits), |frames|)
              && highWaterBytes == Max(old(highWaterBytes), Bytes(frames))
    {
      hide Bytes, IsPow2;
      FitsNone(limits);
      if head - tail >= capacity {
        // the defensive branch: no run reaches it
        assert false;
      }
      Store(f);
      MarkHighWater();
      if head - tail > limits.maxUnits || bytes > limits.maxBytes {
        CountOverflow();
        Reset();
        return AGAIN;
      }
      return OK;
    }

    method Store(f: Frame)
      requires Valid() && head < capacity
      modifies this`head, this`bytes, units
      ensures Valid() && units[..head] == old(units[..head]) + [f]
    {
      ghost var before := units[..head];
      units[SlotOf(head, capacity)] := f;
      head := head + 1;
      bytes := bytes + Size(f);
      assert units[..head] == before + [f];
    }

    method MarkHighWater()
      requires tail <= head
      modifies this`highWaterUnits, this`highWaterBytes
      ensures highWaterUnits == Max(old(highWaterUnits), head - tail)
      ensures highWaterBytes == Max(old(highWaterBytes), bytes)
    {
      if head - tail > highWaterUnits {
        highWaterUnits := head - tail;
      }
      if bytes > highWaterBytes {
        highWaterBytes := bytes;
      }
    }

    method CountOverflow()
      requires tail <= head
      modifies this`overflows, this`unitOverflows, this`byteOverflows
      ensures overflows == old(overflows) + 1
      ensures unitOverflows == old(unitOverflows) + if head - tail > limits.maxUnits then 1 else 0
      ensures byteOverflows == old(byteOverflows) + if bytes > limits.maxBytes then 1 else 0
    {
      overflows := overflows + 1;
      if head - tail > limits.maxUnits {
        unitOverflows := unitOverflows + 1;
      }
      if bytes > limits.maxBytes {
        byteOverflows := byteOverflows + 1;
      }
    }

    /** Replays the cached frames, oldest first. */
    method Replay() returns (out: seq<Frame>)
      requires Valid()
      ensures out == View().frames
    {
      out := [];
      var s := tail;
      while s < head
        invariant tail <= s <= head && out == units[..s]
      {
        out := out + [units[SlotOf(s, capacity)]];
        s := s + 1;
      }
    }
  }

  // ---- runs ---------------------------------------------------------------------

  /** The cache after the pushes, known[i] saying whether a video track was known at the i-th. */
  function After(limits: Limits, pushed: seq<Frame>, known: seq<bool>): Cache
    requires |known| == |pushed|
  {
    if pushed == [] then EMPTY else
      var n := |pushed| - 1;
      Push(limits, known[n], After(limits, pushed[..n], known[..n]), pushed[n]).0
  }

  /** The place of the latest video key frame; |pushed| when there is none. */
  function LastKey(pushed: seq<Frame>): (k: nat)
    ensures k <= |pushed|
    ensures k < |pushed| ==> VideoKey(pushed[k])
    ensures forall i :: 0 <= i < |pushed| && VideoKey(pushed[i]) ==> i <= k < |pushed|
  {
    if pushed == [] then 0
    else if VideoKey(pushed[|pushed| - 1]) then |pushed| - 1
    else
      var k := LastKey(pushed[..|pushed| - 1]);
      if k == |pushed| - 1 then |pushed| else k
  }

  /** The group the cache should hold: everything since the latest video key frame. */
  function Group(pushed: seq<Frame>): seq<Frame>
  {
    pushed[LastKey(pushed)..]
  }

  lemma GroupPush(before: seq<Frame>, f: Frame)
    ensures Group(before + [f]) == if VideoKey(f) then [f]
                                   else if Group(before) == [] then [] else Group(before) + [f]
  {
    var pushed := before + [f];
    assert pushed[..|before|] == before;
  }

  /**
   * From a key frame on, or from the start, with a video track known ever
   * since: the cache is everything pushed since the latest video key frame,
   * key frame included, when all of it is within both ceilings; otherwise,
   * and before any key frame, it is empty.
   */
  lemma {:induction false} CacheIsTheGroup(limits: Limits, pushed: seq<Frame>, known: seq<bool>, from: nat)
    requires |known| == |pushed| && from <= |pushed|
    requires from == 0 || VideoKey(pushed[from - 1])
    requires forall i :: from <= i < |known| ==> known[i]
    ensures After(limits, pushed, known) ==
              if Group(pushed) != [] && Fits(limits, Group(pushed)) then Cache(Group(pushed), true) else EMPTY
  {
    if pushed != [] {
      var n := |pushed| - 1;
      assert pushed == pushed[..n] + [pushed[n]];
      GroupPush(pushed[..n], pushed[n]);
      assert [] + [pushed[n]] == [pushed[n]];
      if from <= n {
        CacheIsTheGroup(limits, pushed[..n], known[..n], from);
      }
    }
  }

  /** The cache is within its ceilings, and the last of what was pushed. */
  predicate Tail(limits: Limits, c: Cache, pushed: seq<Frame>)
  {
    && |c.frames| <= |pushed| && c.frames == pushed[|pushed| - |c.frames|..]
    && Fits(limits, c.frames) && (c.frames != [] ==> c.boundary)
  }

  lemma PushTail(limits: Limits, known: bool, c: Cache, pushed: seq<Frame>, f: Frame)
    requires Tail(limits, c, pushed)
    ensures Tail(limits, Push(limits, known, c, f).0, pushed + [f])
  {
    hide Fits;
    assert Fits(limits, []) by {
      FitsNone(limits);
    }
    var all := pushed + [f];
    assert all[|pushed|..] == [] + [f] && all[|all|..] == [];
    assert all[|pushed| - |c.frames|..] == pushed[|pushed| - |c.frames|..] + [f];
  }

  lemma FitsNone(limits: Limits)
    ensures Fits(limits, [])
  {
  }

  /** Whenever a video track shows up, the cache is a suffix of what was pushed, within its ceilings. */
  lemma {:induction false} CacheIsSuffix(limits: Limits, pushed: seq<Frame>, known: seq<bool>)
    requires |known| == |pushed|
    ensures Tail(limits, After(limits, pushed, known), pushed)
  {
    hide Push, Fits;
    FitsNone(limits);
    if pushed != [] {
      hide Tail;
      var n := |pushed| - 1;
      CacheIsSuffix(limits, pushed[..n], known[..n]);
      PushTail(limits, known[n], After(limits, pushed[..n], known[..n]), pushed[..n], pushed[n]);
      assert pushed == pushed[..n] + [pushed[n]];
    }
  }

  lemma {:induction false} FitsPrefix(limits: Limits, frames: seq<Frame>, n: nat)
    requires n <= |frames| && Fits(limits, frames)
    ensures Fits(limits, frames[..n])
    decreases |frames|
  {
    if n < |frames| {
      var most := frames[..|frames| - 1];
      assert most[..n] == frames[..n];
      FitsPrefix(limits, most, n);
    } else {
      assert frames[..n] == frames;
    }
  }

  /** Every start of what was pushed since s keeps within the ceilings. */
  predicate FitSince(limits: Limits, pushed: seq<Frame>, s: nat)
  {
    s <= |pushed| && forall m :: s < m <= |pushed| ==> Fits(limits, pushed[s..m])
  }

  /**
   * Frame s opens the cache: a key frame always does, a frame that is no
   * video does when nothing is cached and no video track is known.
   */
  predicate Opens(limits: Limits, pushed: seq<Frame>, known: seq<bool>, s: nat)
    requires s < |pushed| == |known|
  {
    || (pushed[s].video && pushed[s].keyframe)
    || (!pushed[s].video && !known[s] && After(limits, pushed[..s], known[..s]).frames == [])
  }

  lemma PushOnto(limits: Limits, known: bool, c: Cache, f: Frame)
    requires c.frames == [] ==> !c.boundary
    ensures var c' := Push(limits, known, c, f).0;
            && (c'.frames == [] ==> c' == EMPTY)
            && (VideoKey(f) || (c.frames == [] && !f.video && !known) ==>
                  c' == if Fits(limits, [f]) then Cache([f], true) else EMPTY)
            && (c.frames == [] && !VideoKey(f) && (f.video || known) ==> c' == EMPTY)
            && (c.frames != [] && c.boundary && !VideoKey(f) ==>
                  c' == if Fits(limits, c.frames + [f]) then Cache(c.frames + [f], true) else EMPTY)
  {
    hide Fits;
    assert [] + [f] == [f];
  }

  lemma EmptyIsEmpty(limits: Limits, pushed: seq<Frame>, known: seq<bool>)
    requires |known| == |pushed|
    ensures After(limits, pushed, known).frames == [] ==> After(limits, pushed, known) == EMPTY
  {
    hide Fits;
    if pushed != [] {
      var n := |pushed| - 1;
      EmptyIsEmpty(limits, pushed[..n], known[..n]);
      PushOnto(limits, known[n], After(limits, pushed[..n], known[..n]), pushed[n]);
    }
  }

  /**
   * Over every run, whenever a video track becomes known and with any frames:
   * the cache holds exactly what was pushed from frame s on if and only if s
   * opens it, no key frame follows s, and nothing from s on passed a ceiling.
   */
  lemma {:induction false} CacheExact(limits: Limits, pushed: seq<Frame>, known: seq<bool>, s: nat)
    requires s < |pushed| == |known|
    ensures After(limits, pushed, known) == Cache(pushed[s..], true)
       <==> && Opens(limits, pushed, known, s)
            && (forall i :: s < i < |pushed| ==> !(pushed[i].video && pushed[i].keyframe))
            && FitSince(limits, pushed, s)
    decreases |pushed|
  {
    hide Fits, Push, After, FitSince, Tail;
    var n := |pushed| - 1;
    var before, c := pushed[..n], After(limits, pushed[..n], known[..n]);
    EmptyIsEmpty(limits, before, known[..n]);
    AfterOne(limits, pushed, known);
    PushOnto(limits, known[n], c, pushed[n]);
    if s == n {
      OnlyLast(limits, pushed, c);
    } else {
      CacheExact(limits, before, known[..n], s);
      assert before[..s] == pushed[..s] && known[..n][..s] == known[..s];
      OneMoreFits(limits, pushed, s);
      SuffixMore(limits, pushed, known, s);
    }
  }

  lemma AfterOne(limits: Limits, pushed: seq<Frame>, known: seq<bool>)
    requires |known| == |pushed| > 0
    ensures var n := |pushed| - 1;
            && After(limits, pushed, known) == Push(limits, known[n], After(limits, pushed[..n], known[..n]), pushed[n]).0
            && (After(limits, pushed[..n], known[..n]).frames != [] ==> After(limits, pushed[..n], known[..n]).boundary)
  {
    hide Fits, Push;
    CacheIsSuffix(limits, pushed[..|pushed| - 1], known[..|pushed| - 1]);
  }

  /** What is cached from s on, one frame later. */
  lemma SuffixMore(limits: Limits, pushed: seq<Frame>, known: seq<bool>, s: nat)
    requires |known| == |pushed| && s < |pushed| - 1
    ensures var n := |pushed| - 1;
            var c := After(limits, pushed[..n], known[..n]);
            && pushed[s..] == pushed[..n][s..] + [pushed[n]] && |pushed[s..]| > 1
            && (c.frames + [pushed[n]] == pushed[s..] <==> c.frames == pushed[..n][s..])
  {
    hide After;
    var n := |pushed| - 1;
    SameSuffix(pushed, n, After(limits, pushed[..n], known[..n]).frames, s);
  }

  /** Pushing one frame on a suffix gives the suffix from the same place. */
  lemma SameSuffix(pushed: seq<Frame>, n: nat, frames: seq<Frame>, s: nat)
    requires s < n == |pushed| - 1
    ensures frames + [pushed[n]] == pushed[s..] <==> frames == pushed[..n][s..]
  {
    var tail := pushed[s..];
    assert tail == pushed[..n][s..] + [pushed[n]];
    if frames + [pushed[n]] == tail {
      assert frames == (frames + [pushed[n]])[..|frames|] == tail[..|frames|];
    }
  }

  lemma OnlyLast(limits: Limits, pushed: seq<Frame>, c: Cache)
    requires pushed != []
    ensures var n := |pushed| - 1;
            && pushed[n..] == [pushed[n]] && (c.frames != [] ==> |c.frames + [pushed[n]]| > 1)
            && (FitSince(limits, pushed, n) <==> Fits(limits, [pushed[n]]))
  {
    hide Fits;
    var n := |pushed| - 1;
    assert pushed[n..n + 1] == [pushed[n]];
  }

  lemma OneMoreFits(limits: Limits, pushed: seq<Frame>, s: nat)
    requires s < |pushed| - 1
    ensures FitSince(limits, pushed, s) <==> FitSince(limits, pushed[..|pushed| - 1], s) && Fits(limits, pushed[s..])
  {
    hide Fits;
    var n := |pushed| - 1;
    var before := pushed[..n];
    assert forall m :: s < m <= n ==> before[s..m] == pushed[s..m];
    assert pushed[s..|pushed|] == pushed[s..];
    if FitSince(limits, before, s) && Fits(limits, pushed[s..]) {
      forall m | s < m <= |pushed| ensures Fits(limits, pushed[s..m]) {
        if m <= n {
          assert before[s..m] == pushed[s..m];
        }
      }
    }
    if FitSince(limits, pushed, s) {
      forall m | s < m <= n ensures Fits(limits, before[s..m]) {
        assert before[s..m] == pushed[s..m];
      }
    }
  }

  /** A source without a video track: as long as all of it is within the ceilings, everything pushed is kept. */
  lemma AudioKeepsAll(limits: Limits, pushed: seq<Frame>, known: seq<bool>)
    requires |known| == |pushed| > 0 && Fits(limits, pushed)
    requires forall i :: 0 <= i < |pushed| ==> !pushed[i].video && !known[i]
    ensures After(limits, pushed, known) == Cache(pushed, true)
  {
    hide Fits;
    forall m | 0 < m <= |pushed| ensures Fits(limits, pushed[0..m]) {
      FitsPrefix(limits, pushed, m);
      assert pushed[0..m] == pushed[..m];
    }
    CacheExact(limits, pushed, known, 0);
    assert pushed[0..] == pushed;
  }
}
