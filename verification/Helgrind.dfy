/**
  Helgrind's state machine for one address: exclusive while accesses are ordered, then shared. It joins
  no clocks at locks, so clocks come from runs without lock events; locks are part of each access.
 */
module Helgrind {
  import opened Clocks
  import opened History
  import opened Machine
  import opened MachineProofs
  import opened Scenarios
  import Verdicts

  datatype State = New | ExclusiveRead | ExclusiveWrite | SharedRead | SharedModified | Race

  /** The clock, thread and kind of an earlier access. */
  datatype Segment = Segment(vc: Clock, t: Tid, write: bool)

  datatype HgMeta = HgMeta(state: State, segment: Segment, threads: set<Tid>, locks: set<Addr>,
                           lastOp: map<Tid, bool>, racy: bool)

  const NO_SEGMENT := Segment(map[], 0, false)
  const NEW_META := HgMeta(New, NO_SEGMENT, {}, {}, map[], false)

  /** An access with the locks that its thread holds in some mode and in write mode. */
  datatype Touch = Touch(a: Access, held: set<Addr>, writeHeld: set<Addr>) {
    function Seg(): Segment {
      Segment(a.vc, a.t, a.write)
    }

    /** The locks that protect an access of this kind. */
    function Locks(): set<Addr> {
      if a.write then writeHeld else held
    }
  }

  datatype HgEvent = Touched(touch: Touch) | Joined(child: Tid)

  predicate After(m: HgMeta, k: Touch) {
    HappensBefore(m.segment.vc, k.a.vc)
  }

  function FromExclusiveRead(m: HgMeta, k: Touch): HgMeta {
    if !k.a.write then
      if After(m, k) then m.(segment := k.Seg())
      else if m.segment.t == k.a.t then m
      else m.(threads := {m.segment.t, k.a.t}, state := SharedRead, locks := m.locks + k.held)
    else
      if After(m, k) then
        if m.segment.t == k.a.t then m else m.(segment := k.Seg(), state := ExclusiveWrite)
      else if k.writeHeld != {} then
        m.(segment := k.Seg(), state := SharedModified, locks := k.writeHeld, threads := {k.a.t})
      else m.(state := Race)
  }

  function FromExclusiveWrite(m: HgMeta, k: Touch): HgMeta {
    if After(m, k) then
      if m.segment.t == k.a.t then m
      else m.(segment := k.Seg(), state := if k.a.write then ExclusiveWrite else ExclusiveRead)
    else if k.Locks() != {} then
      m.(segment := k.Seg(), state := SharedModified, threads := {k.a.t},
         locks := if k.a.write then k.writeHeld else m.locks + k.held)
    else m.(state := Race)
  }

  function FromSharedRead(m: HgMeta, k: Touch): HgMeta {
    var locks := m.locks * k.Locks();
    var m1 := m.(locks := locks);
    if !k.a.write then m1.(threads := m.threads + {k.a.t})
    else if locks != {} || After(m, k) then m1.(state := SharedModified)
    else if m.segment.t == k.a.t then m1
    else m1.(state := Race)
  }

  function FromSharedModified(m: HgMeta, k: Touch): HgMeta {
    var locks := m.locks * k.Locks();
    if locks != {} then m.(locks := locks)
    else if After(m, k) then
      m.(state := if k.a.write then ExclusiveWrite else ExclusiveRead, segment := k.Seg(), locks := {}, threads := {})
    else m.(locks := {}, state := Race)
  }

  function UpdateMemoryState(m: HgMeta, k: Touch): HgMeta {
    var m1 := m.(lastOp := m.lastOp[k.a.t := k.a.write]);
    match m.state
    case New => m1.(state := if k.a.write then ExclusiveWrite else ExclusiveRead, segment := k.Seg())
    case ExclusiveRead => FromExclusiveRead(m1, k)
    case ExclusiveWrite => FromExclusiveWrite(m1, k)
    case SharedRead => FromSharedRead(m1, k)
    case SharedModified => FromSharedModified(m1, k)
    case Race => m1
  }

  /** A read raises the alarm only against a writing segment; a write against any segment of another thread. */
  function Process(m: HgMeta, k: Touch): HgMeta {
    if m.state == Race then m
    else
      var m1 := UpdateMemoryState(m, k);
      m1.(racy := m.racy || (m1.state == Race && (k.a.write || m1.segment.write) && m1.segment.t != k.a.t))
  }

  /** A joined thread is forgotten; an address left with one sharing thread becomes exclusive again. */
  function AfterJoin(m: HgMeta, child: Tid): HgMeta {
    var threads, lastOp := m.threads - {child}, m.lastOp - {child};
    var m1 := m.(threads := threads, lastOp := lastOp);
    if |threads| != 1 then m1
    else
      var t := Minimum(threads);
      if t !in lastOp then m1
      else m1.(state := if lastOp[t] then ExclusiveWrite else ExclusiveRead, locks := {}, threads := {},
               segment := Segment(m.segment.vc, t, lastOp[t]))
  }

  function EventStep(m: HgMeta, e: HgEvent, x: Addr): HgMeta {
    match e
    case Touched(k) => if k.a.x == x then Process(m, k) else m
    case Joined(child) => AfterJoin(m, child)
  }

  function MetaOf(h: seq<HgEvent>, x: Addr): HgMeta {
    if h == [] then NEW_META else EventStep(MetaOf(h[..|h| - 1], x), h[|h| - 1], x)
  }

  function Accesses(h: seq<HgEvent>): seq<Access> {
    if h == [] then []
    else
      var e, as0 := h[|h| - 1], Accesses(h[..|h| - 1]);
      if e.Touched? then as0 + [e.touch.a] else as0
  }

  /** Any two accesses to `x` by different threads are ordered. */
  ghost predicate PairwiseOrdered(h: seq<Access>, x: Addr) {
    forall i, j :: 0 <= i < j < |h| && h[i].x == x && h[j].x == x ==> h[i].t == h[j].t || Ordered(h[i], h[j])
  }

  /** The address is exclusive and its segment is the clock of some access made to it, not always the last. */
  ghost predicate Exclusive(m: HgMeta, h: seq<Access>, x: Addr) {
    && !m.racy
    && m.threads == {}
    && (m.state == New ==> forall i :: 0 <= i < |h| ==> h[i].x != x)
    && (m.state != New ==>
          && (m.state == ExclusiveRead || m.state == ExclusiveWrite)
          && exists i :: 0 <= i < |h| && h[i].x == x && h[i].t == m.segment.t && h[i].vc == m.segment.vc)
  }

  lemma OrderedAccessStaysExclusive(m: HgMeta, h: seq<Access>, k: Touch)
    requires Consistent(h + [k.a]) && PairwiseOrdered(h + [k.a], k.a.x) && Exclusive(m, h, k.a.x)
    ensures Exclusive(Process(m, k), h + [k.a], k.a.x)
  {
    var g := h + [k.a];
    ConsistentPrefix(h, k.a);
    assert g[|h|] == k.a;
    if m.state != New {
      var i :| 0 <= i < |h| && h[i].x == k.a.x && h[i].t == m.segment.t && h[i].vc == m.segment.vc;
      assert g[i] == h[i];
      assert Sequenced(h[i], k.a) && WellTimed(h[i]);
      HappensBeforeIsLeq(h[i].vc, k.a.vc);
      assert After(m, k);
    }
  }

  lemma PairwiseOrderedPrefix(h: seq<Access>, a: Access, x: Addr)
    requires PairwiseOrdered(h + [a], x)
    ensures PairwiseOrdered(h, x)
  {
    var g := h + [a];
    forall i, j | 0 <= i < j < |h| && h[i].x == x && h[j].x == x ensures h[i].t == h[j].t || Ordered(h[i], h[j]) {
      assert g[i] == h[i] && g[j] == h[j];
    }
  }

  lemma ExclusiveElsewhere(m: HgMeta, h: seq<Access>, a: Access, x: Addr)
    requires Exclusive(m, h, x) && a.x != x
    ensures Exclusive(m, h + [a], x)
  {
    if m.state != New {
      var i :| 0 <= i < |h| && h[i].x == x && h[i].t == m.segment.t && h[i].vc == m.segment.vc;
      assert (h + [a])[i] == h[i];
    }
  }

  /**
    No alarm on ordered data: if all accesses to an address are pairwise ordered, its state stays
    new or exclusive over the whole run, whatever locks are held and whenever threads are joined,
    although accesses of the segment's own thread do not always refresh the segment.
   */
  lemma {:induction false} OrderedDataStaysExclusive(h: seq<HgEvent>, x: Addr)
    requires Consistent(Accesses(h)) && PairwiseOrdered(Accesses(h), x)
    ensures Exclusive(MetaOf(h, x), Accesses(h), x)
  {
    if h != [] {
      var g, e := h[..|h| - 1], h[|h| - 1];
      if e.Touched? {
        ConsistentPrefix(Accesses(g), e.touch.a);
        PairwiseOrderedPrefix(Accesses(g), e.touch.a, x);
        OrderedDataStaysExclusive(g, x);
        if e.touch.a.x == x {
          OrderedAccessStaysExclusive(MetaOf(g, x), Accesses(g), e.touch);
        } else {
          ExclusiveElsewhere(MetaOf(g, x), Accesses(g), e.touch.a, x);
        }
      } else {
        OrderedDataStaysExclusive(g, x);
      }
    }
  }

  /** Any two accesses to `x` by different threads happen one before the other. */
  ghost predicate OrderedByRun(s: Sys, x: Addr) {
    forall i, j :: 0 <= i < j < |s.hist| && s.hist[i].x == x && s.hist[j].x == x ==>
      s.hist[i].t == s.hist[j].t || HB(s, i, j)
  }

  lemma OrderedByRunIsOrdered(s: Sys, x: Addr)
    requires RecordedOrder(s) && OrderedByRun(s, x)
    ensures PairwiseOrdered(s.hist, x)
  {
  }

  /** On any run of the clock machine, data ordered by happens-before raises no alarm. */
  lemma OrderedRunRaisesNoAlarm(es: seq<Event>, h: seq<HgEvent>, x: Addr)
    requires WellFormed(es) && Accesses(h) == Run(es).hist && OrderedByRun(Run(es), x)
    ensures !MetaOf(h, x).racy
    ensures MetaOf(h, x).state in {New, ExclusiveRead, ExclusiveWrite}
  {
    RunKeepsInv(es);
    OrderedByRunIsOrdered(Run(es), x);
    OrderedDataStaysExclusive(h, x);
  }

  // ----- The alarm does go off

  predicate Touches(e: HgEvent, x: Addr) {
    e.Touched? && e.touch.a.x == x
  }

  predicate Untouched(h: seq<HgEvent>, x: Addr) {
    forall i :: 0 <= i < |h| ==> !Touches(h[i], x)
  }

  /** The address is exclusive to the access `k`, or new if there is none; joins may have forgotten threads. */
  predicate Only(m: HgMeta, k: Touch) {
    && !m.racy && m.threads == {} && m.segment == k.Seg()
    && m.state == if k.a.write then ExclusiveWrite else ExclusiveRead
  }

  lemma {:induction false} UntouchedStaysNew(h: seq<HgEvent>, x: Addr)
    requires Untouched(h, x)
    ensures MetaOf(h, x) == NEW_META
  {
    if h != [] {
      var n := |h| - 1;
      UntouchedStaysNew(h[..n], x);
      assert !Touches(h[n], x);
      if h[n].Joined? {
        assert NEW_META.threads - {h[n].child} == {};
        assert NEW_META.lastOp - {h[n].child} == NEW_META.lastOp;
      }
    }
  }

  lemma JoinKeepsOnly(m: HgMeta, k: Touch, child: Tid)
    requires Only(m, k)
    ensures Only(AfterJoin(m, child), k)
  {
  }

  lemma {:induction false} UntouchedStaysOnly(h: seq<HgEvent>, g: seq<HgEvent>, k: Touch)
    requires Only(MetaOf(h, k.a.x), k) && Untouched(g, k.a.x)
    ensures Only(MetaOf(h + g, k.a.x), k)
  {
    if g == [] {
      assert h + g == h;
    } else {
      var n := |g| - 1;
      assert (h + g)[..|h| + n] == h + g[..n] && (h + g)[|h| + n] == g[n];
      UntouchedStaysOnly(h, g[..n], k);
      assert !Touches(g[n], k.a.x);
      if g[n].Joined? {
        JoinKeepsOnly(MetaOf(h + g[..n], k.a.x), k, g[n].child);
      }
    }
  }

  lemma AccessKeepsFlag(m: HgMeta, k: Touch)
    requires m.racy
    ensures Process(m, k).racy
  {
  }

  lemma {:induction false} FlagStays(h: seq<HgEvent>, g: seq<HgEvent>, x: Addr)
    requires MetaOf(h, x).racy
    ensures MetaOf(h + g, x).racy
  {
    if g == [] {
      assert h + g == h;
    } else {
      var n := |g| - 1;
      assert (h + g)[..|h| + n] == h + g[..n] && (h + g)[|h| + n] == g[n];
      FlagStays(h, g[..n], x);
    }
  }

  /**
    If the first two accesses to an address are by different threads, conflict, are unordered, and
    the second holds no lock, the address is flagged for good, whatever comes between and after.
   */
  lemma FirstConflictIsFlagged(before: seq<HgEvent>, a: Touch, between: seq<HgEvent>, b: Touch, after: seq<HgEvent>)
    requires Untouched(before, a.a.x) && Untouched(between, a.a.x)
    requires Conflict(a.a, b.a) && !HappensBefore(a.a.vc, b.a.vc) && b.Locks() == {}
    ensures MetaOf(before + [Touched(a)] + between + [Touched(b)] + after, a.a.x).racy
  {
    UntouchedStaysNew(before, a.a.x);
    UntouchedStaysOnly(before + [Touched(a)], between, a);
    FlagStays(before + [Touched(a)] + between + [Touched(b)], after, a.a.x);
  }

  // ----- Exclusive addresses and the segment they remember

  /** The state of an exclusive address tells whether the segment is a write. */
  predicate SegmentKind(m: HgMeta) {
    (m.state == ExclusiveRead ==> !m.segment.write) && (m.state == ExclusiveWrite ==> m.segment.write)
  }

  lemma {:induction false} SegmentKindKept(h: seq<HgEvent>, x: Addr)
    ensures SegmentKind(MetaOf(h, x))
  {
    if h != [] {
      SegmentKindKept(h[..|h| - 1], x);
    }
  }

  /**
    While an address is exclusive, an access that holds no lock is flagged, for good, if it conflicts
    with the access that set the segment and does not know it, with any locks and joins before and after.
   */
  lemma ConflictWithSegmentIsFlagged(h: seq<HgEvent>, a: Access, b: Touch, after: seq<HgEvent>)
    requires var m := MetaOf(h, a.x);
             (m.state == ExclusiveRead || m.state == ExclusiveWrite) && m.segment == Segment(a.vc, a.t, a.write)
    requires Conflict(a, b.a) && !Ordered(a, b.a) && b.Locks() == {}
    ensures MetaOf(h + [Touched(b)] + after, a.x).racy
  {
    SegmentKindKept(h, a.x);
    FlagStays(h + [Touched(b)], after, a.x);
  }

  // ----- Which races are seen when no locks are held

  predicate LockFree(h: seq<HgEvent>) {
    forall i :: 0 <= i < |h| && h[i].Touched? ==> h[i].touch.held == {} && h[i].touch.writeHeld == {}
  }

  /** The guard that leaves the segment as it is: the access comes after it and is by its thread. */
  predicate Skipped(m: HgMeta, k: Touch) {
    After(m, k) && m.segment.t == k.a.t && (m.state == ExclusiveWrite || (m.state == ExclusiveRead && k.a.write))
  }

  /** The accesses to `x` that the guard does not skip. */
  function Kept(h: seq<HgEvent>, x: Addr): seq<Access> {
    if h == [] then []
    else
      var pre, e := h[..|h| - 1], h[|h| - 1];
      Kept(pre, x) + if Touches(e, x) && !Skipped(MetaOf(pre, x), e.touch) then [e.touch.a] else []
  }

  /** Every access to `x` that the guard skips is in the frame of the segment. */
  predicate FreshSegments(h: seq<HgEvent>, x: Addr) {
    h == []
    || (var pre, e := h[..|h| - 1], h[|h| - 1];
        && FreshSegments(pre, x)
        && (Touches(e, x) && Skipped(MetaOf(pre, x), e.touch) ==>
              e.touch.a.Clk() == Get(MetaOf(pre, x).segment.vc, e.touch.a.t)))
  }

  /** Of two reads of `x` by different threads, one knows the other. */
  ghost predicate ReadsOrdered(h: seq<Access>, x: Addr) {
    forall a, b :: a in h && b in h && a.x == b.x == x && !a.write && !b.write && a.t != b.t ==> Ordered(a, b) || Ordered(b, a)
  }

  /** Clock `vc` knows every access to `x`. */
  ghost predicate AllKnown(h: seq<Access>, x: Addr, vc: Clock) {
    forall a :: a in h && a.x == x ==> a.Clk() <= Get(vc, a.t)
  }

  /** The segment is the last access that was kept, and knows all of them. */
  ghost predicate SegmentIsLast(m: HgMeta, kept: seq<Access>, x: Addr) {
    && !m.racy && m.threads == {}
    && (m.state == New <==> kept == [])
    && (m.state == New ==> m.segment == NO_SEGMENT)
    && (m.state != New ==>
          var last := kept[|kept| - 1];
          && m.state == (if last.write then ExclusiveWrite else ExclusiveRead)
          && m.segment == Segment(last.vc, last.t, last.write)
          && AllKnown(kept, x, last.vc))
  }

  lemma {:induction false} KeptAreAccesses(h: seq<HgEvent>, x: Addr)
    ensures forall a :: a in Kept(h, x) ==> a in Accesses(h) && a.x == x
  {
    if h != [] {
      KeptAreAccesses(h[..|h| - 1], x);
    }
  }

  /** The comparison with a segment decides whether its access is known. */
  lemma AfterIsOrdered(m: HgMeta, s: Access, k: Touch)
    requires m.segment.vc == s.vc && WellTimed(s) && Sequenced(s, k.a)
    ensures After(m, k) <==> Ordered(s, k.a)
    ensures After(m, k) <==> Leq(s.vc, k.a.vc)
    ensures !After(m, k) ==> s.t != k.a.t && !Ordered(k.a, s)
  {
    HappensBeforeIsLeq(s.vc, k.a.vc);
    assert Leq(s.vc, k.a.vc) ==> Get(s.vc, s.t) <= Get(k.a.vc, s.t);
  }

  lemma KnownByLater(h: seq<Access>, x: Addr, s: Clock, a: Access)
    requires AllKnown(h, x, s) && Leq(s, a.vc)
    ensures AllKnown(h + [a], x, a.vc)
  {
  }

  lemma KnownAddsNoRace(h: seq<Access>, x: Addr, a: Access)
    requires AllKnown(h, x, a.vc) || a.x != x
    ensures HasRace(h + [a], x) <==> HasRace(h, x)
  {
    RaceOfNewAccess(h, a, x);
    if a.x == x {
      forall i | 0 <= i < |h| ensures !Racing(h[i], a) {
        assert h[i] in h;
      }
    }
  }

  /** An access without locks meets the segment: it follows it, is skipped, or conflicts with it. */
  lemma AccessMeetsSegment(m: HgMeta, kept: seq<Access>, k: Touch)
    requires SegmentIsLast(m, kept, k.a.x) && k.held == {} && k.writeHeld == {} && m.state != New
    requires var last := kept[|kept| - 1]; WellTimed(last) && Sequenced(last, k.a) && last.x == k.a.x
    requires !Skipped(m, k) ==> ReadsOrdered(kept + [k.a], k.a.x)
    ensures var last := kept[|kept| - 1];
            && (Skipped(m, k) ==> SegmentIsLast(Process(m, k), kept, k.a.x))
            && (!Skipped(m, k) && After(m, k) ==> SegmentIsLast(Process(m, k), kept + [k.a], k.a.x))
            && (!After(m, k) ==> Process(m, k).racy && Racing(last, k.a))
  {
    var last := kept[|kept| - 1];
    AfterIsOrdered(m, last, k);
    if After(m, k) {
      KnownByLater(kept, k.a.x, last.vc, k.a);
    } else {
      assert last in kept + [k.a] && k.a in kept + [k.a];
    }
  }

  /** What is true of the kept accesses before and after a flag. */
  ghost predicate KeptDecide(m: HgMeta, kept: seq<Access>, x: Addr) {
    (m.racy <==> HasRace(kept, x)) && (!m.racy ==> SegmentIsLast(m, kept, x))
  }

  lemma AccessKeepsDecision(m: HgMeta, kept: seq<Access>, k: Touch)
    requires KeptDecide(m, kept, k.a.x) && k.held == {} && k.writeHeld == {}
    requires forall s :: s in kept ==> WellTimed(s) && Sequenced(s, k.a) && s.x == k.a.x
    requires !Skipped(m, k) ==> ReadsOrdered(kept + [k.a], k.a.x)
    ensures KeptDecide(Process(m, k), kept + if Skipped(m, k) then [] else [k.a], k.a.x)
  {
    var m1, x := Process(m, k), k.a.x;
    assert kept + [] == kept;
    RaceOfNewAccess(kept, k.a, x);
    if m.racy {
      AccessKeepsFlag(m, k);
    } else if m.state == New {
      assert kept == [] && !Skipped(m, k);
      assert SegmentIsLast(m1, [k.a], x);
      assert kept + [k.a] == [k.a];
    } else {
      var last := kept[|kept| - 1];
      assert last in kept;
      AccessMeetsSegment(m, kept, k);
      AfterIsOrdered(m, last, k);
      if After(m, k) {
        KnownByLater(kept, x, last.vc, k.a);
        KnownAddsNoRace(kept, x, k.a);
      } else {
        assert kept[|kept| - 1] == last && Racing(last, k.a);
      }
    }
  }

  lemma JoinKeepsDecision(m: HgMeta, kept: seq<Access>, child: Tid, x: Addr)
    requires KeptDecide(m, kept, x)
    ensures KeptDecide(AfterJoin(m, child), kept, x)
  {
  }

  lemma SequencedWithNew(h: seq<Access>, a: Access)
    requires Consistent(h + [a])
    ensures Consistent(h) && forall s :: s in h ==> WellTimed(s) && Sequenced(s, a)
  {
    ConsistentPrefix(h, a);
  }

  /**
    Without locks, and as long as no two kept reads are concurrent, Helgrind is an exact race
    detector for the accesses that its guard does not skip, whenever threads are joined.
   */
  lemma {:induction false} KeptRacesAreFlagged(h: seq<HgEvent>, x: Addr)
    requires LockFree(h) && Consistent(Accesses(h)) && ReadsOrdered(Kept(h, x), x)
    ensures KeptDecide(MetaOf(h, x), Kept(h, x), x)
  {
    if h != [] {
      var n := |h| - 1;
      var pre, e := h[..n], h[n];
      var m, kept := MetaOf(pre, x), Kept(pre, x);
      if e.Touched? {
        SequencedWithNew(Accesses(pre), e.touch.a);
      }
      KeptRacesAreFlagged(pre, x);
      KeptAreAccesses(pre, x);
      assert kept + [] == kept;
      if Touches(e, x) {
        AccessKeepsDecision(m, kept, e.touch);
      } else if e.Joined? {
        JoinKeepsDecision(m, kept, e.child, x);
      }
    }
  }

  /** Where skipped accesses are in the segment's frame, the segment knows every access. */
  lemma {:induction false} FreshSegmentKnowsAll(h: seq<HgEvent>, x: Addr)
    requires LockFree(h) && Consistent(Accesses(h)) && ReadsOrdered(Kept(h, x), x) && FreshSegments(h, x)
    ensures !MetaOf(h, x).racy ==> AllKnown(Accesses(h), x, MetaOf(h, x).segment.vc) && !HasRace(Accesses(h), x)
  {
    if h != [] {
      var n := |h| - 1;
      var pre, e := h[..n], h[n];
      var m, as0 := MetaOf(pre, x), Accesses(pre);
      if e.Touched? {
        SequencedWithNew(as0, e.touch.a);
      }
      FreshSegmentKnowsAll(pre, x);
      KeptRacesAreFlagged(pre, x);
      KeptRacesAreFlagged(h, x);
      KeptAreAccesses(pre, x);
      if !MetaOf(h, x).racy {
        if Touches(e, x) {
          FreshStep(m, Kept(pre, x), as0, e.touch);
        } else if e.Touched? {
          KnownAddsNoRace(as0, x, e.touch.a);
        }
      }
    }
  }

  lemma FreshStep(m: HgMeta, kept: seq<Access>, h: seq<Access>, k: Touch)
    requires forall a :: a in h ==> WellTimed(a)
    requires SegmentIsLast(m, kept, k.a.x) && k.held == {} && k.writeHeld == {}
    requires forall s :: s in kept ==> WellTimed(s) && Sequenced(s, k.a) && s.x == k.a.x
    requires !Skipped(m, k) ==> ReadsOrdered(kept + [k.a], k.a.x)
    requires AllKnown(h, k.a.x, m.segment.vc) && !HasRace(h, k.a.x)
    requires Skipped(m, k) ==> k.a.Clk() == Get(m.segment.vc, k.a.t)
    requires !Process(m, k).racy
    ensures AllKnown(h + [k.a], k.a.x, Process(m, k).segment.vc) && !HasRace(h + [k.a], k.a.x)
  {
    if m.state != New {
      var last := kept[|kept| - 1];
      assert last in kept;
      AfterIsOrdered(m, last, k);
      AccessMeetsSegment(m, kept, k);
      KnownByLater(h, k.a.x, last.vc, k.a);
    }
    KnownAddsNoRace(h, k.a.x, k.a);
  }

  /**
    Without locks, where no two reads are concurrent and the guard skips accesses in the segment's
    own frame only, the flag is set iff two accesses to the address race.
   */
  lemma FreshHistoriesAreExact(h: seq<HgEvent>, x: Addr)
    requires LockFree(h) && Consistent(Accesses(h)) && ReadsOrdered(Accesses(h), x) && FreshSegments(h, x)
    ensures MetaOf(h, x).racy <==> HasRace(Accesses(h), x)
  {
    KeptAreAccesses(h, x);
    KeptRacesAreFlagged(h, x);
    FreshSegmentKnowsAll(h, x);
    RaceOfPart(Kept(h, x), Accesses(h), x);
  }

  /**
    On every run without locks whose reads of `x` are ordered: the flag is set iff two of the kept
    accesses race, which is a data race of the run, and iff the run has a data race if the guard
    skips accesses in the segment's own frame only.
   */
  lemma LockFreeVerdict(es: seq<Event>, h: seq<HgEvent>, x: Addr)
    requires WellFormed(es) && Accesses(h) == Run(es).hist && LockFree(h) && ReadsOrdered(Run(es).hist, x)
    ensures MetaOf(h, x).racy <==> HasRace(Kept(h, x), x)
    ensures MetaOf(h, x).racy ==> Verdicts.DataRace(es, x)
    ensures FreshSegments(h, x) ==> (MetaOf(h, x).racy <==> Verdicts.DataRace(es, x))
  {
    Verdicts.RacesAreDataRaces(es, x);
    KeptAreAccesses(h, x);
    KeptRacesAreFlagged(h, x);
    RaceOfPart(Kept(h, x), Accesses(h), x);
    if FreshSegments(h, x) {
      FreshHistoriesAreExact(h, x);
    }
  }

  // ----- A run on which a stale segment hides a race

  const READ_FIRST := Access(1, 7, false, map[1 := 1])
  const THEN_WRITE := Access(1, 7, true, map[1 := 2])
  const OTHER_WRITE := Access(2, 7, true, map[1 := 1, 2 := 1])

  function Bare(a: Access): HgEvent {
    Touched(Touch(a, {}, {}))
  }

  /** Thread 1 reads and, in a later frame, writes; thread 2 knows only the first frame and writes. */
  const STALE: seq<HgEvent> := [Bare(READ_FIRST)] + [Bare(THEN_WRITE)] + [Bare(OTHER_WRITE)]

  lemma MetaSnoc(h: seq<HgEvent>, a: Access)
    ensures MetaOf(h + [Bare(a)], a.x) == Process(MetaOf(h, a.x), Touch(a, {}, {}))
    ensures Accesses(h + [Bare(a)]) == Accesses(h) + [a]
  {
  }

  lemma StaleAccesses()
    ensures Accesses(STALE) == [READ_FIRST, THEN_WRITE, OTHER_WRITE]
    ensures Consistent(Accesses(STALE)) && HasRace(Accesses(STALE), 7)
  {
    var h: seq<HgEvent> := [];
    assert h + [Bare(READ_FIRST)] == [Bare(READ_FIRST)];
    MetaSnoc(h, READ_FIRST);
    MetaSnoc([Bare(READ_FIRST)], THEN_WRITE);
    MetaSnoc([Bare(READ_FIRST)] + [Bare(THEN_WRITE)], OTHER_WRITE);
    var as3 := Accesses(STALE);
    assert as3[1] == THEN_WRITE && as3[2] == OTHER_WRITE && Racing(as3[1], as3[2]);
  }

  lemma StaleMeta()
    ensures !MetaOf(STALE, 7).racy
  {
    var h: seq<HgEvent> := [];
    assert h + [Bare(READ_FIRST)] == [Bare(READ_FIRST)];
    MetaSnoc(h, READ_FIRST);
    MetaSnoc([Bare(READ_FIRST)], THEN_WRITE);
    MetaSnoc([Bare(READ_FIRST)] + [Bare(THEN_WRITE)], OTHER_WRITE);
    var m := MetaOf([Bare(READ_FIRST)], 7);
    assert m.state == ExclusiveRead && m.segment == Segment(READ_FIRST.vc, 1, false) && !m.racy;
    assert HappensBefore(READ_FIRST.vc, THEN_WRITE.vc) && HappensBefore(READ_FIRST.vc, OTHER_WRITE.vc);
  }

  /** The same accesses as a run: thread 1 starts thread 2 between its read and its write. */
  const STALE_RUN: seq<Event> :=
    [] + [Start(1, 0)] + [Mem(1, 7, false)] + [Start(2, 1)] + [Mem(1, 7, true)] + [Mem(2, 7, true)]

  lemma ReadThenFork()
    ensures Reached([] + [Start(1, 0)] + [Mem(1, 7, false)] + [Start(2, 1)], 2, TWO_CLOCKS, [] + [READ_FIRST])
  {
    var c1: map<Tid, Clock> := map[1 := map[1 := 1]];
    ThenAccess([] + [Start(1, 0)], 1, c1, [], 1, 7, false);
    FirstForkClocks();
    ThenFork([] + [Start(1, 0)] + [Mem(1, 7, false)], 1, c1, [] + [READ_FIRST], 2, 1);
  }

  lemma StaleRun()
    ensures WellFormed(STALE_RUN) && Run(STALE_RUN).hist == [READ_FIRST, THEN_WRITE, OTHER_WRITE]
  {
    ReadThenFork();
    ThenTwoAccesses([] + [Start(1, 0)] + [Mem(1, 7, false)] + [Start(2, 1)], 2, TWO_CLOCKS, [] + [READ_FIRST],
                    THEN_WRITE, OTHER_WRITE);
    assert [] + [READ_FIRST] + [THEN_WRITE] + [OTHER_WRITE] == [READ_FIRST, THEN_WRITE, OTHER_WRITE];
  }

  /**
    The other direction fails on a reachable run: a write that its own thread did not record lets a
    data race go unseen.
   */
  lemma StaleSegmentMissesARace()
    ensures WellFormed(STALE_RUN) && Run(STALE_RUN).hist == Accesses(STALE)
    ensures Verdicts.DataRace(STALE_RUN, 7) && !MetaOf(STALE, 7).racy
  {
    StaleRun();
    StaleAccesses();
    StaleMeta();
    Verdicts.RacesAreDataRaces(STALE_RUN, 7);
  }
}
