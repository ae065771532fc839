/**
  Parallel detection. Memory events are sharded by address and wait in a ring buffer of their
  thread until the ring is full or the thread issues another kind of event; all other events go
  to every detector at once. The detector consumes its queue in order.
 */
module Parallel {
  import opened Clocks
  import opened History
  import opened Machine
  import opened MachineProofs
  import opened ClockSteps
  import opened Scenarios
  import HappensBefore
  import Verdicts
  import Djit
  import FastTrack

  const RING_CAPACITY := 10

  /** One detector's queue, and for each thread the ring of memory events bound for it. */
  datatype Pipe = Pipe(rings: map<Tid, seq<Event>>, queue: seq<Event>)

  function Ring(p: Pipe, t: Tid): seq<Event> {
    if t in p.rings then p.rings[t] else []
  }

  /** Detector `d` of `n` is responsible for these addresses. */
  predicate Routed(x: Addr, d: nat, n: nat)
    requires n > 0
  {
    x % n == d
  }

  /** Every address has exactly one detector. */
  lemma OneDetectorPerAddress(x: Addr, n: nat)
    requires n > 0
    ensures exists d: nat :: d < n && Routed(x, d, n) && forall e: nat :: Routed(x, e, n) ==> e == d
  {
    var d := x % n;
    assert d < n && Routed(x, d, n) && forall e: nat :: Routed(x, e, n) ==> e == d;
  }

  function Flushed(p: Pipe, t: Tid): Pipe {
    Pipe(p.rings[t := []], p.queue + Ring(p, t))
  }

  function Pushed(p: Pipe, e: Event): Pipe {
    p.(rings := p.rings[e.t := Ring(p, e.t) + [e]])
  }

  function DistributeMemory(p: Pipe, e: Event): Pipe {
    Pushed(if |Ring(p, e.t)| == RING_CAPACITY then Flushed(p, e.t) else p, e)
  }

  function DistributeOther(p: Pipe, e: Event): Pipe {
    var p1 := Flushed(p, e.t);
    p1.(queue := p1.queue + [e])
  }

  function PipeStep(p: Pipe, e: Event, d: nat, n: nat): Pipe
    requires n > 0
  {
    if !e.Mem? then DistributeOther(p, e)
    else if Routed(e.x, d, n) then DistributeMemory(p, e)
    else p
  }

  /** Detector `d`'s pipe after the program events `es`. */
  function PipeRun(es: seq<Event>, d: nat, n: nat): Pipe
    requires n > 0
  {
    if es == [] then Pipe(map[], []) else PipeStep(PipeRun(es[..|es| - 1], d, n), es[|es| - 1], d, n)
  }

  /**
    The two events that change or end another thread's clock find that thread's ring empty: a
    parent has nothing waiting when its child starts, and a child nothing when it is joined.
   */
  predicate Quiet(p: Pipe, e: Event) {
    && (e.Start? ==> Ring(p, e.parent) == [])
    && (e.Join? ==> Ring(p, e.child) == [])
  }

  predicate QuietRun(es: seq<Event>, d: nat, n: nat)
    requires n > 0
  {
    es == [] || (QuietRun(es[..|es| - 1], d, n) && Quiet(PipeRun(es[..|es| - 1], d, n), es[|es| - 1]))
  }

  /** The condition on joins alone, which the exit of the joined thread brings about. */
  predicate QuietJoins(es: seq<Event>, d: nat, n: nat)
    requires n > 0
  {
    es == []
    || (var pre, e := es[..|es| - 1], es[|es| - 1];
        QuietJoins(pre, d, n) && (e.Join? ==> Ring(PipeRun(pre, d, n), e.child) == []))
  }

  // ----- Nothing is lost, duplicated or reordered within a thread

  /** The events of thread `t` in `es` that detector `d` is to receive. */
  function Issued(es: seq<Event>, t: Tid, d: nat, n: nat): seq<Event>
    requires n > 0
  {
    if es == [] then []
    else
      var e := es[|es| - 1];
      Issued(es[..|es| - 1], t, d, n) + if e.t == t && (e.Mem? ==> Routed(e.x, d, n)) then [e] else []
  }

  lemma {:induction false} IssuedAppend(es: seq<Event>, fs: seq<Event>, t: Tid, d: nat, n: nat)
    requires n > 0
    ensures Issued(es + fs, t, d, n) == Issued(es, t, d, n) + Issued(fs, t, d, n)
  {
    if fs == [] {
      assert es + fs == es;
    } else {
      var m := |fs| - 1;
      assert (es + fs)[..|es| + m] == es + fs[..m];
      IssuedAppend(es, fs[..m], t, d, n);
    }
  }

  ghost predicate RingOf(r: seq<Event>, t: Tid, d: nat, n: nat)
    requires n > 0
  {
    |r| <= RING_CAPACITY && forall i :: 0 <= i < |r| ==> r[i].Mem? && r[i].t == t && Routed(r[i].x, d, n)
  }

  lemma {:induction false} IssuedOfRing(r: seq<Event>, t: Tid, u: Tid, d: nat, n: nat)
    requires n > 0 && RingOf(r, t, d, n)
    ensures Issued(r, u, d, n) == if u == t then r else []
  {
    if r != [] {
      IssuedOfRing(r[..|r| - 1], t, u, d, n);
      assert r == r[..|r| - 1] + [r[|r| - 1]];
    }
  }

  /**
    What has been queued for a detector from a thread, followed by what waits in that thread's
    ring, is what the thread issued, in program order; rings stay within their capacity.
   */
  lemma {:induction false} PipeIsFifo(es: seq<Event>, t: Tid, d: nat, n: nat)
    requires n > 0
    ensures Issued(PipeRun(es, d, n).queue, t, d, n) + Ring(PipeRun(es, d, n), t) == Issued(es, t, d, n)
    ensures RingOf(Ring(PipeRun(es, d, n), t), t, d, n)
  {
    if es != [] {
      var p, e := PipeRun(es[..|es| - 1], d, n), es[|es| - 1];
      PipeIsFifo(es[..|es| - 1], t, d, n);
      PipeIsFifo(es[..|es| - 1], e.t, d, n);
      PipeStepIsFifo(p, e, t, d, n);
    }
  }

  lemma FlushIsFifo(p: Pipe, u: Tid, t: Tid, d: nat, n: nat)
    requires n > 0 && RingOf(Ring(p, u), u, d, n)
    ensures Issued(Flushed(p, u).queue, t, d, n) + Ring(Flushed(p, u), t) == Issued(p.queue, t, d, n) + Ring(p, t)
    ensures Ring(Flushed(p, u), t) == if u == t then [] else Ring(p, t)
  {
    IssuedAppend(p.queue, Ring(p, u), t, d, n);
    IssuedOfRing(Ring(p, u), u, t, d, n);
  }

  lemma OtherIsFifo(p: Pipe, e: Event, t: Tid, d: nat, n: nat)
    requires n > 0 && !e.Mem? && RingOf(Ring(p, e.t), e.t, d, n)
    ensures Issued(DistributeOther(p, e).queue, t, d, n) + Ring(DistributeOther(p, e), t) ==
            Issued(p.queue, t, d, n) + Ring(p, t) + Issued([e], t, d, n)
    ensures Ring(DistributeOther(p, e), t) == if e.t == t then [] else Ring(p, t)
  {
    var p1, i := Flushed(p, e.t), Issued([e], t, d, n);
    FlushIsFifo(p, e.t, t, d, n);
    IssuedAppend(p1.queue, [e], t, d, n);
    assert Ring(DistributeOther(p, e), t) == Ring(p1, t);
    var q, r := Issued(p1.queue, t, d, n), Ring(p1, t);
    if e.t == t {
      assert r == [] && q + i + [] == q + [] + i;
    } else {
      assert i == [] && q + i + r == q + r + i;
    }
  }

  lemma PipeStepIsFifo(p: Pipe, e: Event, t: Tid, d: nat, n: nat)
    requires n > 0 && RingOf(Ring(p, t), t, d, n) && RingOf(Ring(p, e.t), e.t, d, n)
    ensures Issued(PipeStep(p, e, d, n).queue, t, d, n) + Ring(PipeStep(p, e, d, n), t) ==
            Issued(p.queue, t, d, n) + Ring(p, t) + Issued([e], t, d, n)
    ensures RingOf(Ring(PipeStep(p, e, d, n), t), t, d, n)
  {
    if !e.Mem? {
      OtherIsFifo(p, e, t, d, n);
    } else if Routed(e.x, d, n) {
      FlushIsFifo(p, e.t, t, d, n);
    }
  }

  // ----- What the detector records of each access

  /** The clock of thread `t`, recorded `lag` frames of `t` too late. */
  function Late(vc: Clock, t: Tid, lag: nat): Clock {
    if lag == 0 then vc else vc[t := Get(vc, t) + lag]
  }

  /**
    An access on its way to the detector: it waits in its thread's ring until that is flushed,
    and meanwhile `lag` threads have been started with its thread as their parent.
   */
  datatype Delivery = Delivery(access: Access, lag: nat, waits: bool) {
    /** The access as the detector records it: each overtaking start has ticked its thread's clock. */
    function Seen(): Access {
      access.(vc := Late(access.vc, access.t, lag))
    }

    function Waiting(): Event {
      Mem(access.t, access.x, access.write)
    }
  }

  /** The ring of `t` has been flushed. */
  function Arrived(ds: seq<Delivery>, t: Tid): seq<Delivery> {
    seq(|ds|, i requires 0 <= i < |ds| => if ds[i].access.t == t then ds[i].(waits := false) else ds[i])
  }

  /** A child of `parent` has started. */
  function Overtaken(ds: seq<Delivery>, parent: Tid): seq<Delivery> {
    seq(|ds|, i requires 0 <= i < |ds| =>
      if ds[i].waits && ds[i].access.t == parent then ds[i].(lag := ds[i].lag + 1) else ds[i])
  }

  /** A new access enters its thread's ring. */
  function Pushing(s: Sys, e: Event): Delivery
    requires e.Mem?
  {
    Delivery(Access(e.t, e.x, e.write, At(s, Thr(e.t)).vc), 0, true)
  }

  function DeliveryStep(ds: seq<Delivery>, p: Pipe, s: Sys, e: Event, d: nat, n: nat): seq<Delivery>
    requires n > 0
  {
    if !e.Mem? then
      var ds1 := Arrived(ds, e.t);
      if e.Start? then Overtaken(ds1, e.parent) else ds1
    else if Routed(e.x, d, n) then
      (if |Ring(p, e.t)| == RING_CAPACITY then Arrived(ds, e.t) else ds)
      + [Pushing(s, e)]
    else ds
  }

  /** Every access of the run that is bound for detector `d`, in the order of the run. */
  function Deliveries(es: seq<Event>, d: nat, n: nat): seq<Delivery>
    requires n > 0
  {
    if es == [] then []
    else
      var pre := es[..|es| - 1];
      DeliveryStep(Deliveries(pre, d, n), PipeRun(pre, d, n), Run(pre), es[|es| - 1], d, n)
  }

  // ----- The detector's run is the program's, with late accesses

  ghost predicate RingsReady(p: Pipe, s: Sys, d: nat, n: nat)
    requires n > 0
  {
    forall t :: RingOf(Ring(p, t), t, d, n) && (Ring(p, t) != [] ==> Live(s, t) && t !in s.open)
  }

  predicate Made(ds: seq<Delivery>, a: Access) {
    exists i :: 0 <= i < |ds| && ds[i].access == a
  }

  predicate Recorded(ds: seq<Delivery>, a: Access) {
    exists i :: 0 <= i < |ds| && !ds[i].waits && ds[i].Seen() == a
  }

  predicate InRing(ds: seq<Delivery>, e: Event) {
    exists i :: 0 <= i < |ds| && ds[i].waits && ds[i].Waiting() == e
  }

  /** The deliveries are the accesses of the program, and those that no longer wait are the detector's. */
  ghost predicate Accounted(p: Pipe, s: Sys, ds: seq<Delivery>, d: nat, n: nat)
    requires n > 0
  {
    && (forall a :: a in s.hist && Routed(a.x, d, n) <==> Made(ds, a))
    && (forall a :: a in Run(p.queue).hist <==> Recorded(ds, a))
  }

  /** The rings hold the deliveries that wait, and these will be recorded with their thread's present clock. */
  ghost predicate Waiting(p: Pipe, s: Sys, ds: seq<Delivery>) {
    && (forall t, e :: e in Ring(p, t) ==> InRing(ds, e))
    && (forall i :: 0 <= i < |ds| && ds[i].waits ==>
          ds[i].Waiting() in Ring(p, ds[i].access.t) && ds[i].Seen().vc == At(s, Thr(ds[i].access.t)).vc)
  }

  ghost predicate Tracks(p: Pipe, s: Sys, ds: seq<Delivery>, d: nat, n: nat)
    requires n > 0
  {
    && WellFormed(p.queue)
    && SameClocks(s, Run(p.queue))
    && RingsReady(p, s, d, n)
    && Accounted(p, s, ds, d, n)
    && Waiting(p, s, ds)
  }

  lemma {:induction false} RunOfRing(q: seq<Event>, r: seq<Event>, t: Tid)
    requires WellFormed(q) && Live(Run(q), t) && t !in Run(q).open
    requires forall i :: 0 <= i < |r| ==> r[i].Mem? && r[i].t == t
    ensures WellFormed(q + r) && SameClocks(Run(q), Run(q + r))
    ensures forall a :: a in Run(q + r).hist <==>
                        a in Run(q).hist || (a.t == t && Mem(t, a.x, a.write) in r && a.vc == At(Run(q), Thr(t)).vc)
  {
    if r == [] {
      assert q + r == q;
    } else {
      var m := |r| - 1;
      var e := r[m];
      assert q + r == (q + r[..m]) + [e];
      RunOfRing(q, r[..m], t);
      RunSnoc(q + r[..m], e);
      var s := Run(q + r[..m]);
      SameAt(Run(q), s, Thr(t));
      RecordKeepsClocks(s, t, e.x, e.write);
      assert r == r[..m] + [e];
    }
  }

  lemma FlushedIsRecorded(p: Pipe, s: Sys, ds: seq<Delivery>, t: Tid, d: nat, n: nat, a: Access)
    requires n > 0 && RingsReady(p, s, d, n) && Waiting(p, s, ds)
    ensures Recorded(Arrived(ds, t), a) <==>
            Recorded(ds, a) || (a.t == t && Mem(t, a.x, a.write) in Ring(p, t) && a.vc == At(s, Thr(t)).vc)
  {
    var ds1, r := Arrived(ds, t), Ring(p, t);
    if Recorded(ds1, a) {
      var i :| 0 <= i < |ds1| && !ds1[i].waits && ds1[i].Seen() == a;
      assert ds[i].Seen() == a;
      assert ds[i].waits ==> ds[i].Waiting() in r;
    }
    if Recorded(ds, a) {
      var i :| 0 <= i < |ds| && !ds[i].waits && ds[i].Seen() == a;
      assert ds1[i] == ds[i];
    }
    if a.t == t && Mem(t, a.x, a.write) in r && a.vc == At(s, Thr(t)).vc {
      assert InRing(ds, Mem(t, a.x, a.write));
      var i :| 0 <= i < |ds| && ds[i].waits && ds[i].Waiting() == Mem(t, a.x, a.write);
      assert !ds1[i].waits && ds1[i].Seen() == a;
    }
  }

  lemma FlushKeepsWaiting(p: Pipe, s: Sys, ds: seq<Delivery>, t: Tid, d: nat, n: nat)
    requires n > 0 && RingsReady(p, s, d, n) && Waiting(p, s, ds)
    ensures RingsReady(Flushed(p, t), s, d, n) && Waiting(Flushed(p, t), s, Arrived(ds, t))
  {
    var p1, ds1 := Flushed(p, t), Arrived(ds, t);
    assert forall u :: Ring(p1, u) == if u == t then [] else Ring(p, u);
    forall u, e | e in Ring(p1, u) ensures InRing(ds1, e) {
      assert e in Ring(p, u) && InRing(ds, e);
      var i :| 0 <= i < |ds| && ds[i].waits && ds[i].Waiting() == e;
      assert RingOf(Ring(p, u), u, d, n);
      assert ds1[i] == ds[i];
    }
  }

  lemma FlushKeepsMade(ds: seq<Delivery>, t: Tid, a: Access)
    ensures Made(Arrived(ds, t), a) <==> Made(ds, a)
  {
    var ds1 := Arrived(ds, t);
    if i :| 0 <= i < |ds| && ds[i].access == a {
      assert ds1[i].access == a;
    }
    if i :| 0 <= i < |ds1| && ds1[i].access == a {
      assert ds[i].access == a;
    }
  }

  lemma FlushTracks(p: Pipe, s: Sys, ds: seq<Delivery>, t: Tid, d: nat, n: nat)
    requires n > 0 && Tracks(p, s, ds, d, n)
    ensures Tracks(Flushed(p, t), s, Arrived(ds, t), d, n)
  {
    var p1, q, r := Flushed(p, t), p.queue, Ring(p, t);
    SameAt(s, Run(q), Thr(t));
    if r == [] {
      assert q + r == q;
    } else {
      RunOfRing(q, r, t);
    }
    FlushKeepsWaiting(p, s, ds, t, d, n);
    forall a ensures a in Run(p1.queue).hist <==> Recorded(Arrived(ds, t), a) {
      FlushedIsRecorded(p, s, ds, t, d, n, a);
    }
    forall a ensures Made(Arrived(ds, t), a) <==> Made(ds, a) {
      FlushKeepsMade(ds, t, a);
    }
  }

  lemma NewDelivery(ds: seq<Delivery>, b: Delivery)
    requires b.waits
    ensures forall a :: Made(ds + [b], a) <==> Made(ds, a) || a == b.access
    ensures forall a :: Recorded(ds + [b], a) <==> Recorded(ds, a)
    ensures forall e :: InRing(ds + [b], e) <==> InRing(ds, e) || e == b.Waiting()
  {
    var ds1 := ds + [b];
    assert ds1[|ds|] == b;
    assert forall i :: 0 <= i < |ds| ==> ds1[i] == ds[i];
  }

  lemma RecordKeepsAt(s: Sys, e: Event, t: Tid)
    requires e.Mem? && Live(s, e.t)
    ensures At(Step(s, e), Thr(t)).vc == At(s, Thr(t)).vc && (Live(Step(s, e), t) <==> Live(s, t))
  {
  }

  lemma PushKeepsWaiting(p: Pipe, s: Sys, ds: seq<Delivery>, e: Event, d: nat, n: nat)
    requires n > 0 && RingsReady(p, s, d, n) && Waiting(p, s, ds) && Enabled(s, e)
    requires e.Mem? && Routed(e.x, d, n) && |Ring(p, e.t)| < RING_CAPACITY
    ensures RingsReady(Pushed(p, e), Step(s, e), d, n) && Waiting(Pushed(p, e), Step(s, e), ds + [Pushing(s, e)])
  {
    var p1, s1, ds1 := Pushed(p, e), Step(s, e), ds + [Pushing(s, e)];
    NewDelivery(ds, Pushing(s, e));
    assert forall u :: Ring(p1, u) == if u == e.t then Ring(p, u) + [e] else Ring(p, u);
    forall t ensures At(s1, Thr(t)).vc == At(s, Thr(t)).vc && (Live(s1, t) <==> Live(s, t)) {
      RecordKeepsAt(s, e, t);
    }
    forall i | 0 <= i < |ds1| && ds1[i].waits
      ensures ds1[i].Waiting() in Ring(p1, ds1[i].access.t) && ds1[i].Seen().vc == At(s1, Thr(ds1[i].access.t)).vc
    {
      assert i < |ds| ==> ds1[i] == ds[i];
    }
  }

  lemma PushTracks(p: Pipe, s: Sys, ds: seq<Delivery>, e: Event, d: nat, n: nat)
    requires n > 0 && Tracks(p, s, ds, d, n) && Enabled(s, e)
    requires e.Mem? && Routed(e.x, d, n) && |Ring(p, e.t)| < RING_CAPACITY
    ensures Tracks(Pushed(p, e), Step(s, e), ds + [Pushing(s, e)], d, n)
  {
    var b, s1 := Pushing(s, e), Step(s, e);
    RecordKeepsClocks(s, e.t, e.x, e.write);
    PushKeepsWaiting(p, s, ds, e, d, n);
    NewDelivery(ds, b);
    assert s1.hist == s.hist + [b.access];
    assert Pushed(p, e).queue == p.queue;
  }

  lemma UnroutedTracks(p: Pipe, s: Sys, ds: seq<Delivery>, e: Event, d: nat, n: nat)
    requires n > 0 && Tracks(p, s, ds, d, n) && Enabled(s, e) && e.Mem? && !Routed(e.x, d, n)
    ensures Tracks(p, Step(s, e), ds, d, n)
  {
    var s1 := Record(s, e.t, e.x, e.write);
    RecordKeepsClocks(s, e.t, e.x, e.write);
    forall t ensures At(s1, Thr(t)).vc == At(s, Thr(t)).vc {
      SameAt(s, s1, Thr(t));
    }
  }

  /** A start gives its parent a new frame and takes nothing from it. */
  lemma ParentTicked(s: Sys, t: Tid, parent: Tid)
    requires Live(s, parent) && parent != t && parent != NO_THREAD && parent !in s.open
    ensures var s1 := StartStep(s, t, parent);
            At(s1, Thr(parent)).vc == Ticked(At(s, Thr(parent)).vc, parent) && Live(s1, parent) && parent !in s1.open
  {
  }

  /** The clocks of the threads that have something waiting, after an event of a thread that has not. */
  lemma WaitingClocks(p: Pipe, s: Sys, e: Event, t: Tid)
    requires Inv(s) && Enabled(s, e) && Live(s, t) && t !in s.open && e.t != t && (e.Join? ==> e.child != t)
    ensures var s1 := Step(s, e);
            && At(s1, Thr(t)).vc == (if e.Start? && e.parent == t then Ticked(At(s, Thr(t)).vc, t) else At(s, Thr(t)).vc)
            && Live(s1, t) && t !in s1.open
  {
    if e.Start? && e.parent == t {
      ParentTicked(s, e.t, t);
    } else {
      OthersKept(s, e, t);
    }
  }

  function AfterOther(ds: seq<Delivery>, e: Event): seq<Delivery> {
    if e.Start? then Overtaken(ds, e.parent) else ds
  }

  lemma OtherKeepsDelivery(ds: seq<Delivery>, e: Event, i: nat)
    requires i < |ds|
    ensures var b, b1 := ds[i], AfterOther(ds, e)[i];
            && b1.access == b.access && b1.waits == b.waits && (!b.waits ==> b1 == b)
            && b1.Waiting() == b.Waiting()
            && (b.waits ==>
                 b1.Seen().vc == if e.Start? && e.parent == b.access.t then Ticked(b.Seen().vc, b.access.t) else b.Seen().vc)
  {
  }

  lemma OtherKeepsAccounts(ds: seq<Delivery>, e: Event)
    ensures forall a :: Made(AfterOther(ds, e), a) <==> Made(ds, a)
    ensures forall a :: Recorded(AfterOther(ds, e), a) <==> Recorded(ds, a)
    ensures forall f :: InRing(AfterOther(ds, e), f) <==> InRing(ds, f)
  {
    var ds1 := AfterOther(ds, e);
    forall i | 0 <= i < |ds|
      ensures ds1[i].access == ds[i].access && ds1[i].waits == ds[i].waits && (!ds[i].waits ==> ds1[i] == ds[i])
    {
      OtherKeepsDelivery(ds, e, i);
    }
    assert forall i :: 0 <= i < |ds| ==> ds1[i].Waiting() == ds[i].Waiting();
  }

  lemma OtherKeepsWaiting(p: Pipe, s: Sys, ds: seq<Delivery>, e: Event, d: nat, n: nat)
    requires n > 0 && Inv(s) && RingsReady(p, s, d, n) && Waiting(p, s, ds) && Enabled(s, e)
    requires Ring(p, e.t) == [] && (e.Join? ==> Ring(p, e.child) == [])
    ensures RingsReady(p, Step(s, e), d, n) && Waiting(p, Step(s, e), AfterOther(ds, e))
  {
    var s1, ds1 := Step(s, e), AfterOther(ds, e);
    forall t | Ring(p, t) != [] ensures Live(s1, t) && t !in s1.open {
      WaitingClocks(p, s, e, t);
    }
    OtherKeepsAccounts(ds, e);
    forall i | 0 <= i < |ds1| && ds1[i].waits
      ensures ds1[i].Waiting() in Ring(p, ds1[i].access.t) && ds1[i].Seen().vc == At(s1, Thr(ds1[i].access.t)).vc
    {
      OtherKeepsDelivery(ds, e, i);
      WaitingClocks(p, s, e, ds[i].access.t);
    }
  }

  lemma OtherTracks(p: Pipe, s: Sys, ds: seq<Delivery>, e: Event, d: nat, n: nat)
    requires n > 0 && Inv(s) && Tracks(p, s, ds, d, n) && Enabled(s, e)
    requires !e.Mem? && Ring(p, e.t) == [] && (e.Join? ==> Ring(p, e.child) == [])
    ensures Tracks(p.(queue := p.queue + [e]), Step(s, e), AfterOther(ds, e), d, n)
  {
    var p1, s1, q := p.(queue := p.queue + [e]), Step(s, e), Run(p.queue);
    SameEnabled(s, q, e);
    SameStep(s, q, e);
    RunSnoc(p.queue, e);
    HappensBefore.StepHist(s, e);
    HappensBefore.StepHist(q, e);
    OtherKeepsWaiting(p, s, ds, e, d, n);
    OtherKeepsAccounts(ds, e);
    assert forall t :: Ring(p1, t) == Ring(p, t);
    assert s1.hist == s.hist && Run(p1.queue).hist == q.hist;
  }

  /**
    What a detector knows, on every run whose joins find the child's ring empty: its clocks are
    the program's, and it has recorded, or will find in a ring, each access bound for it, at the
    clock it was made at but for the frames of its own thread that starts have skipped.
   */
  lemma {:induction false} PipeTracks(es: seq<Event>, d: nat, n: nat)
    requires n > 0 && WellFormed(es) && QuietJoins(es, d, n)
    ensures Tracks(PipeRun(es, d, n), Run(es), Deliveries(es, d, n), d, n)
  {
    if es != [] {
      var pre, e := es[..|es| - 1], es[|es| - 1];
      var p, s, ds := PipeRun(pre, d, n), Run(pre), Deliveries(pre, d, n);
      PipeTracks(pre, d, n);
      RunKeepsInv(pre);
      if !e.Mem? {
        FlushTracks(p, s, ds, e.t, d, n);
        OtherTracks(Flushed(p, e.t), s, Arrived(ds, e.t), e, d, n);
      } else if Routed(e.x, d, n) {
        FlushTracks(p, s, ds, e.t, d, n);
        var full := |Ring(p, e.t)| == RING_CAPACITY;
        PushTracks(if full then Flushed(p, e.t) else p, s, if full then Arrived(ds, e.t) else ds, e, d, n);
      } else {
        UnroutedTracks(p, s, ds, e, d, n);
      }
    } else {
      assert forall t :: Ring(PipeRun(es, d, n), t) == [];
    }
  }

  /** Where parents have nothing waiting when their children start, no access is late. */
  lemma {:induction false} QuietIsPunctual(es: seq<Event>, d: nat, n: nat)
    requires n > 0 && WellFormed(es) && QuietRun(es, d, n)
    ensures QuietJoins(es, d, n)
    ensures forall i :: 0 <= i < |Deliveries(es, d, n)| ==> Deliveries(es, d, n)[i].lag == 0
  {
    if es != [] {
      var pre, e := es[..|es| - 1], es[|es| - 1];
      var ds := Deliveries(pre, d, n);
      QuietIsPunctual(pre, d, n);
      PipeTracks(pre, d, n);
      if e.Start? {
        forall i | 0 <= i < |ds| ensures Overtaken(Arrived(ds, e.t), e.parent)[i].lag == 0 {
          assert ds[i].waits ==> ds[i].Waiting() in Ring(PipeRun(pre, d, n), ds[i].access.t);
        }
      }
    }
  }

  // ----- Verdicts

  /**
    The second access knows the first at the clock it was made at, but not at the clock it is
    recorded at: what it knows of that thread it learnt from a start that overtook the access.
   */
  predicate Misleads(a: Delivery, b: Delivery) {
    && Conflict(a.access, b.access)
    && a.access.Clk() <= Get(b.access.vc, a.access.t) < a.access.Clk() + a.lag
  }

  /** Two recorded accesses to `x` race. */
  ghost predicate RaceArrived(ds: seq<Delivery>, x: Addr) {
    exists i, j :: 0 <= i < |ds| && 0 <= j < |ds| && !ds[i].waits && !ds[j].waits && ds[i].access.x == x
                   && Racing(ds[i].access, ds[j].access)
  }

  /** A recorded access to `x` was overtaken by a start through which another recorded access knows of it. */
  ghost predicate Misled(ds: seq<Delivery>, x: Addr) {
    exists i, j :: 0 <= i < |ds| && 0 <= j < |ds| && !ds[i].waits && !ds[j].waits && ds[i].access.x == x
                   && Misleads(ds[i], ds[j])
  }

  /** When two accesses race in the detector's records. */
  lemma SeenRacing(h: seq<Access>, a: Delivery, b: Delivery)
    requires Consistent(h) && a.access in h && b.access in h
    ensures Racing(a.Seen(), b.Seen()) <==> Racing(a.access, b.access) || Misleads(a, b) || Misleads(b, a)
  {
  }

  lemma RecordedRaceIsReal(h: seq<Access>, g: seq<Access>, ds: seq<Delivery>, x: Addr)
    requires Consistent(g) && forall i :: 0 <= i < |ds| ==> ds[i].access in g
    requires forall a :: a in h ==> Recorded(ds, a)
    ensures HasRace(h, x) ==> RaceArrived(ds, x) || Misled(ds, x)
  {
    if HasRace(h, x) {
      var u, v :| 0 <= u < |h| && 0 <= v < |h| && h[u].x == x && Racing(h[u], h[v]);
      assert Recorded(ds, h[u]) && Recorded(ds, h[v]);
      var i :| 0 <= i < |ds| && !ds[i].waits && ds[i].Seen() == h[u];
      var j :| 0 <= j < |ds| && !ds[j].waits && ds[j].Seen() == h[v];
      SeenRacing(g, ds[i], ds[j]);
    }
  }

  lemma RealRaceIsRecorded(h: seq<Access>, g: seq<Access>, ds: seq<Delivery>, x: Addr)
    requires Consistent(g) && forall i :: 0 <= i < |ds| ==> ds[i].access in g
    requires forall a :: Recorded(ds, a) ==> a in h
    ensures RaceArrived(ds, x) || Misled(ds, x) ==> HasRace(h, x)
  {
    if RaceArrived(ds, x) || Misled(ds, x) {
      var i, j :| 0 <= i < |ds| && 0 <= j < |ds| && !ds[i].waits && !ds[j].waits && ds[i].access.x == x
                  && (Racing(ds[i].access, ds[j].access) || Misleads(ds[i], ds[j]));
      SeenRacing(g, ds[i], ds[j]);
      assert Recorded(ds, ds[i].Seen()) && Recorded(ds, ds[j].Seen());
      RaceAmong(h, x, ds[i].Seen(), ds[j].Seen());
    }
  }

  /**
    What parallel detection flags, at any moment of any run whose joins find the child's ring
    empty: the races among the accesses recorded so far, none of which is ever lost, and the
    conflicts with an access that was overtaken by a start and is known only through it.
   */
  lemma ArrivedVerdict(es: seq<Event>, x: Addr, d: nat, n: nat)
    requires n > 0 && WellFormed(es) && QuietJoins(es, d, n)
    ensures var q, ds := PipeRun(es, d, n).queue, Deliveries(es, d, n);
            && WellFormed(q)
            && (HasRace(Run(q).hist, x) <==> RaceArrived(ds, x) || Misled(ds, x))
  {
    var q, ds, g := PipeRun(es, d, n).queue, Deliveries(es, d, n), Run(es).hist;
    DeliveriesAreAccesses(es, d, n);
    RecordedRaceIsReal(Run(q).hist, g, ds, x);
    RealRaceIsRecorded(Run(q).hist, g, ds, x);
  }

  /** What `PipeTracks` says of the histories alone. */
  lemma DeliveriesAreAccesses(es: seq<Event>, d: nat, n: nat)
    requires n > 0 && WellFormed(es) && QuietJoins(es, d, n)
    ensures var p, ds := PipeRun(es, d, n), Deliveries(es, d, n);
            && WellFormed(p.queue) && Consistent(Run(es).hist)
            && (forall i :: 0 <= i < |ds| ==> ds[i].access in Run(es).hist)
            && (forall i :: 0 <= i < |ds| && ds[i].waits ==> ds[i].Waiting() in Ring(p, ds[i].access.t))
            && (forall a :: a in Run(es).hist && Routed(a.x, d, n) ==> Made(ds, a))
            && (forall a :: a in Run(p.queue).hist <==> Recorded(ds, a))
  {
    var ds := Deliveries(es, d, n);
    PipeTracks(es, d, n);
    RunKeepsInv(es);
    forall i | 0 <= i < |ds| ensures ds[i].access in Run(es).hist {
      assert Made(ds, ds[i].access);
    }
  }

  predicate NothingPending(p: Pipe, x: Addr) {
    forall t, i :: t in p.rings && 0 <= i < |p.rings[t]| && p.rings[t][i].Mem? ==> p.rings[t][i].x != x
  }

  /** The recorded races are races of the run, and all of them once no access to the address waits. */
  lemma ArrivedRaces(es: seq<Event>, x: Addr, d: nat, n: nat)
    requires n > 0 && WellFormed(es) && QuietJoins(es, d, n) && Routed(x, d, n)
    ensures RaceArrived(Deliveries(es, d, n), x) ==> HasRace(Run(es).hist, x)
    ensures NothingPending(PipeRun(es, d, n), x) && HasRace(Run(es).hist, x) ==> RaceArrived(Deliveries(es, d, n), x)
  {
    var p, ds, g := PipeRun(es, d, n), Deliveries(es, d, n), Run(es).hist;
    DeliveriesAreAccesses(es, d, n);
    if NothingPending(p, x) {
      forall i | 0 <= i < |ds| && ds[i].access.x == x ensures !ds[i].waits {
      }
    }
  }

  /**
    The verdict of parallel detection: once no access to `x` waits, the detector responsible for
    `x` flags it, with Djit or FastTrack, iff the program has a data race on it or a start that
    overtook an access to it misleads the detector. No race is lost, whatever starts overtake.
   */
  lemma OvertakingVerdict(es: seq<Event>, x: Addr, d: nat, n: nat)
    requires n > 0 && WellFormed(es) && QuietJoins(es, d, n) && Routed(x, d, n)
    requires NothingPending(PipeRun(es, d, n), x)
    ensures var h := Run(PipeRun(es, d, n).queue).hist;
            && (Djit.MetaOf(h, x).racy <==> Verdicts.DataRace(es, x) || Misled(Deliveries(es, d, n), x))
            && (FastTrack.MetaOf(h, x).racy <==> Djit.MetaOf(h, x).racy)
  {
    var q := PipeRun(es, d, n).queue;
    ArrivedVerdict(es, x, d, n);
    ArrivedRaces(es, x, d, n);
    Verdicts.RacesAreDataRaces(es, x);
    Verdicts.RacesAreDataRaces(q, x);
    Djit.MetaIsExact(Run(q).hist, x);
    FastTrack.MetaIsExact(Run(q).hist, x);
  }

  /**
    On quiet runs parallel detection gives the sequential verdict: once no access to `x` waits in
    a ring, the detector responsible for `x`, working through its queue, flags `x` iff the program
    run has a data race on it, whether it runs Djit or FastTrack.
   */
  lemma ParallelVerdict(es: seq<Event>, x: Addr, d: nat, n: nat)
    requires n > 0 && WellFormed(es) && QuietRun(es, d, n) && Routed(x, d, n)
    requires NothingPending(PipeRun(es, d, n), x)
    ensures var h := Run(PipeRun(es, d, n).queue).hist;
            && (Djit.MetaOf(h, x).racy <==> Djit.MetaOf(Run(es).hist, x).racy)
            && (FastTrack.MetaOf(h, x).racy <==> Djit.MetaOf(Run(es).hist, x).racy)
            && (Djit.MetaOf(h, x).racy <==> Verdicts.DataRace(es, x))
  {
    QuietIsPunctual(es, d, n);
    OvertakingVerdict(es, x, d, n);
    Verdicts.DjitVerdict(es, x);
  }

  // ----- Conditions on the program alone

  /** The last event of `t`, if any, is not a memory access. */
  predicate Settled(es: seq<Event>, t: Tid) {
    if es == [] then true
    else
      var e := es[|es| - 1];
      if e.t == t then !e.Mem? else Settled(es[..|es| - 1], t)
  }

  /** Children are settled when they are joined, as they are once they have exited. */
  predicate CalmJoins(es: seq<Event>) {
    es == []
    || (var pre, e := es[..|es| - 1], es[|es| - 1]; CalmJoins(pre) && (e.Join? ==> Settled(pre, e.child)))
  }

  /** Parents are settled when their children start, and children when they are joined. */
  predicate CalmRun(es: seq<Event>) {
    es == []
    || (var pre, e := es[..|es| - 1], es[|es| - 1];
        CalmRun(pre) && (e.Start? ==> Settled(pre, e.parent)) && (e.Join? ==> Settled(pre, e.child)))
  }

  /** A settled thread's rings are empty; with a single detector no other thread's are. */
  lemma {:induction false} SettledRing(es: seq<Event>, t: Tid, d: nat, n: nat)
    requires d < n
    ensures Settled(es, t) ==> Ring(PipeRun(es, d, n), t) == []
    ensures n == 1 ==> (Settled(es, t) <==> Ring(PipeRun(es, d, n), t) == [])
  {
    if es != [] {
      SettledRing(es[..|es| - 1], t, d, n);
    }
  }

  /** Calm runs are quiet for every detector; with a single detector the two are the same. */
  lemma {:induction false} CalmIsQuiet(es: seq<Event>, d: nat, n: nat)
    requires d < n
    ensures CalmRun(es) ==> QuietRun(es, d, n) && CalmJoins(es)
    ensures CalmJoins(es) ==> QuietJoins(es, d, n)
    ensures n == 1 ==> (CalmRun(es) <==> QuietRun(es, d, n)) && (CalmJoins(es) <==> QuietJoins(es, d, n))
  {
    if es != [] {
      var pre, e := es[..|es| - 1], es[|es| - 1];
      CalmIsQuiet(pre, d, n);
      if e.Start? {
        SettledRing(pre, e.parent, d, n);
      }
      if e.Join? {
        SettledRing(pre, e.child, d, n);
      }
    }
  }

  lemma NothingPendingWhenSettled(es: seq<Event>, x: Addr, d: nat, n: nat)
    requires d < n && forall t :: Settled(es, t)
    ensures NothingPending(PipeRun(es, d, n), x)
  {
    var p := PipeRun(es, d, n);
    forall t | t in p.rings ensures p.rings[t] == [] {
      assert Settled(es, t);
      SettledRing(es, t, d, n);
      assert Ring(p, t) == p.rings[t];
    }
  }

  /**
    Parallel detection of a program run whose joins wait for the child's exit: the queue of the
    detector responsible for `x` has a data race on `x` exactly where a recorded pair races or
    misleads; it has every data race of the program once all threads are settled, and no other if
    parents are settled when their children start.
   */
  lemma CalmParallelVerdict(es: seq<Event>, x: Addr, n: nat)
    requires n > 0 && WellFormed(es) && CalmJoins(es)
    ensures var d := x % n;
            var q := PipeRun(es, d, n).queue;
            && WellFormed(q)
            && (Verdicts.DataRace(q, x) <==> RaceArrived(Deliveries(es, d, n), x) || Misled(Deliveries(es, d, n), x))
            && (RaceArrived(Deliveries(es, d, n), x) ==> Verdicts.DataRace(es, x))
            && ((forall t :: Settled(es, t)) ==> (RaceArrived(Deliveries(es, d, n), x) <==> Verdicts.DataRace(es, x)))
            && (CalmRun(es) ==> !Misled(Deliveries(es, d, n), x))
  {
    var d := x % n;
    var q := PipeRun(es, d, n).queue;
    CalmIsQuiet(es, d, n);
    ArrivedVerdict(es, x, d, n);
    ArrivedRaces(es, x, d, n);
    Verdicts.RacesAreDataRaces(es, x);
    Verdicts.RacesAreDataRaces(q, x);
    if forall t :: Settled(es, t) {
      NothingPendingWhenSettled(es, x, d, n);
    }
    if CalmRun(es) {
      QuietIsPunctual(es, d, n);
    }
  }

  // ----- A start that overtakes its parent

  /** Thread 1 has called `pthread_create` and the call has returned; the two events of the call are `Exit`s. */
  const CREATED: seq<Event> := [] + [Start(1, 0)] + [Exit(1)] + [Exit(1)]

  /**
    Thread 1 goes on and writes; only then does thread 2 come to announce its start. It reads, and
    both end. The write and the read are concurrent, but the start takes thread 1's clock after
    the write.
   */
  const EARLY_WRITE: seq<Event> :=
    CREATED + [Mem(1, 0, true)] + [Start(2, 1)] + [Mem(2, 0, false)] + [Exit(1)] + [Exit(2)]

  /** What the only detector receives: the write, left in thread 1's ring, comes after the start of thread 2. */
  const LATE_WRITE: seq<Event> :=
    CREATED + [Start(2, 1)] + [Mem(1, 0, true)] + [Exit(1)] + [Mem(2, 0, false)] + [Exit(2)]

  const BEFORE_EXITS: seq<Event> := CREATED + [Mem(1, 0, true)] + [Start(2, 1)] + [Mem(2, 0, false)]

  /** The pipe has this queue, and these rings of threads 1 and 2. */
  predicate PipeIs(p: Pipe, queue: seq<Event>, ring1: seq<Event>, ring2: seq<Event>) {
    p.queue == queue && Ring(p, 1) == ring1 && Ring(p, 2) == ring2 && forall t :: t in p.rings ==> t == 1 || t == 2
  }

  lemma SyncFlushes(es: seq<Event>, e: Event, queue: seq<Event>, ring1: seq<Event>, ring2: seq<Event>)
    requires PipeIs(PipeRun(es, 0, 1), queue, ring1, ring2) && !e.Mem? && (e.t == 1 || e.t == 2)
    ensures PipeIs(PipeRun(es + [e], 0, 1), queue + (if e.t == 1 then ring1 else ring2) + [e],
                   if e.t == 1 then [] else ring1, if e.t == 2 then [] else ring2)
  {
  }

  lemma AccessWaits(es: seq<Event>, e: Event, queue: seq<Event>, ring1: seq<Event>, ring2: seq<Event>)
    requires PipeIs(PipeRun(es, 0, 1), queue, ring1, ring2) && e.Mem? && (e.t == 1 || e.t == 2)
    requires |if e.t == 1 then ring1 else ring2| < RING_CAPACITY
    ensures PipeIs(PipeRun(es + [e], 0, 1), queue, if e.t == 1 then ring1 + [e] else ring1,
                   if e.t == 2 then ring2 + [e] else ring2)
  {
  }

  lemma CreatedIsQueued()
    ensures PipeIs(PipeRun(CREATED, 0, 1), CREATED, [], [])
  {
    var e0: seq<Event> := [];
    SyncFlushes(e0, Start(1, 0), [], [], []);
    var e1 := e0 + [Start(1, 0)];
    assert e0 + [] + [Start(1, 0)] == e1;
    SyncFlushes(e1, Exit(1), e1, [], []);
    assert e1 + [] + [Exit(1)] == e1 + [Exit(1)];
    SyncFlushes(e1 + [Exit(1)], Exit(1), e1 + [Exit(1)], [], []);
    assert e1 + [Exit(1)] + [] + [Exit(1)] == CREATED;
  }

  lemma StartsOvertake()
    ensures PipeIs(PipeRun(BEFORE_EXITS, 0, 1), CREATED + [] + [Start(2, 1)], [] + [Mem(1, 0, true)], [] + [Mem(2, 0, false)])
  {
    CreatedIsQueued();
    AccessWaits(CREATED, Mem(1, 0, true), CREATED, [], []);
    SyncFlushes(CREATED + [Mem(1, 0, true)], Start(2, 1), CREATED, [] + [Mem(1, 0, true)], []);
    AccessWaits(CREATED + [Mem(1, 0, true)] + [Start(2, 1)], Mem(2, 0, false),
                CREATED + [] + [Start(2, 1)], [] + [Mem(1, 0, true)], []);
  }

  lemma LateWriteIsQueued()
    ensures PipeRun(EARLY_WRITE, 0, 1).queue == LATE_WRITE
    ensures NothingPending(PipeRun(EARLY_WRITE, 0, 1), 0)
  {
    var w, r, q := [] + [Mem(1, 0, true)], [] + [Mem(2, 0, false)], CREATED + [] + [Start(2, 1)];
    StartsOvertake();
    SyncFlushes(BEFORE_EXITS, Exit(1), q, w, r);
    SyncFlushes(BEFORE_EXITS + [Exit(1)], Exit(2), q + w + [Exit(1)], [], r);
    assert q == CREATED + [Start(2, 1)];
  }

  const EARLY := Access(1, 0, true, map[1 := 1])
  const LATE := Access(1, 0, true, map[1 := 2])
  const CHILD_READ := Access(2, 0, false, map[1 := 1, 2 := 1])

  lemma CreatedRun()
    ensures Reached(CREATED, 1, map[1 := map[1 := 1]], [])
  {
    var c1: map<Tid, Clock> := map[1 := map[1 := 1]];
    ThenExit([] + [Start(1, 0)], 1, c1, [], 1);
    ThenExit([] + [Start(1, 0)] + [Exit(1)], 1, c1, [], 1);
  }

  lemma EarlyWriteIsOrdered()
    ensures WellFormed(EARLY_WRITE) && !HasRace(Run(EARLY_WRITE).hist, 0)
  {
    var c1: map<Tid, Clock> := map[1 := map[1 := 1]];
    var h := [] + [EARLY];
    var e1 := CREATED + [Mem(1, 0, true)];
    CreatedRun();
    FirstForkClocks();
    ThenAccess(CREATED, 1, c1, [], 1, 0, true);
    ThenFork(e1, 1, c1, h, 2, 1);
    ThenAccess(e1 + [Start(2, 1)], 2, TWO_CLOCKS, h, 2, 0, false);
    ThenExit(BEFORE_EXITS, 2, TWO_CLOCKS, h + [CHILD_READ], 1);
    ThenExit(BEFORE_EXITS + [Exit(1)], 2, TWO_CLOCKS, h + [CHILD_READ], 2);
    assert h + [CHILD_READ] == [EARLY, CHILD_READ];
  }

  lemma LateWriteRaces()
    ensures WellFormed(LATE_WRITE) && HasRace(Run(LATE_WRITE).hist, 0)
  {
    var e1, h := CREATED + [Start(2, 1)], [] + [LATE];
    CreatedRun();
    FirstForkClocks();
    ThenFork(CREATED, 1, map[1 := map[1 := 1]], [], 2, 1);
    ThenAccess(e1, 2, TWO_CLOCKS, [], 1, 0, true);
    ThenExit(e1 + [Mem(1, 0, true)], 2, TWO_CLOCKS, h, 1);
    ThenAccess(e1 + [Mem(1, 0, true)] + [Exit(1)], 2, TWO_CLOCKS, h, 2, 0, false);
    ThenExit(e1 + [Mem(1, 0, true)] + [Exit(1)] + [Mem(2, 0, false)], 2, TWO_CLOCKS, h + [CHILD_READ], 2);
    assert Run(LATE_WRITE).hist == [LATE, CHILD_READ];
    RaceAmong(Run(LATE_WRITE).hist, 0, LATE, CHILD_READ);
  }

  lemma EarlyWriteIsUnflagged()
    ensures WellFormed(EARLY_WRITE) && !Verdicts.DataRace(EARLY_WRITE, 0) && !Djit.MetaOf(Run(EARLY_WRITE).hist, 0).racy
  {
    EarlyWriteIsOrdered();
    Verdicts.RacesAreDataRaces(EARLY_WRITE, 0);
    Verdicts.DjitVerdict(EARLY_WRITE, 0);
  }

  lemma LateWriteIsFlagged()
    ensures Djit.MetaOf(Run(LATE_WRITE).hist, 0).racy
  {
    LateWriteRaces();
    Verdicts.RacesAreDataRaces(LATE_WRITE, 0);
    Verdicts.DjitVerdict(LATE_WRITE, 0);
  }

  lemma {:induction false} NoJoins(es: seq<Event>)
    requires forall i :: 0 <= i < |es| ==> !es[i].Join?
    ensures CalmJoins(es)
  {
    if es != [] {
      NoJoins(es[..|es| - 1]);
    }
  }

  lemma FlaggedIsMisled(es: seq<Event>, x: Addr)
    requires WellFormed(es) && CalmJoins(es) && NothingPending(PipeRun(es, 0, 1), x)
    requires Djit.MetaOf(Run(PipeRun(es, 0, 1).queue).hist, x).racy && !Verdicts.DataRace(es, x)
    ensures Misled(Deliveries(es, 0, 1), x)
  {
    CalmIsQuiet(es, 0, 1);
    OvertakingVerdict(es, x, 0, 1);
  }

  /**
    A start that overtakes its parent makes parallel detection disagree with sequential detection:
    a write made after `pthread_create` has returned is ordered before the child by the one, and
    flagged as concurrent with the child by the other.
   */
  lemma OvertakenForkMisleads()
    ensures WellFormed(EARLY_WRITE) && CalmJoins(EARLY_WRITE)
    ensures !Verdicts.DataRace(EARLY_WRITE, 0) && !Djit.MetaOf(Run(EARLY_WRITE).hist, 0).racy
    ensures NothingPending(PipeRun(EARLY_WRITE, 0, 1), 0)
    ensures Djit.MetaOf(Run(PipeRun(EARLY_WRITE, 0, 1).queue).hist, 0).racy
    ensures Misled(Deliveries(EARLY_WRITE, 0, 1), 0)
  {
    EarlyWriteIsUnflagged();
    LateWriteIsQueued();
    LateWriteIsFlagged();
    NoJoins(EARLY_WRITE);
    FlaggedIsMisled(EARLY_WRITE, 0);
  }
}
