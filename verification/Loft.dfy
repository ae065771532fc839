/** Loft: the clock machine with mutex joins and assignments skipped where they should be redundant. */
module Loft {
  import opened Clocks
  import opened Machine
  import opened MachineProofs
  import opened VectorClocks
  import opened Detectors
  import HappensBefore

  /** `lastrld` is the thread that last released a mutex, `lastlock` the mutex a thread last released. */
  datatype LoftSys = LoftSys(sys: Sys, lastrld: map<Addr, Tid>, lastlock: map<Tid, Addr>)

  const INITIAL_LOFT := LoftSys(INITIAL, map[], map[])

  function ProcessLock(s: LoftSys, t: Tid, a: Addr): LoftSys {
    if a in s.lastrld && s.lastrld[a] == t then s
    else s.(sys := Step(s.sys, Lock(t, a)))
  }

  /** The guard under which the source skips the assignment to the mutex clock. */
  predicate SkipsAssignment(s: LoftSys, t: Tid, a: Addr) {
    t in s.lastlock && s.lastlock[t] == a && Get(At(s.sys, Mutex(a)).vc, t) >= Own(s.sys, t)
  }

  function ProcessUnlock(s: LoftSys, t: Tid, a: Addr): LoftSys {
    if SkipsAssignment(s, t, a) then
      s.(lastrld := s.lastrld[a := t], sys := Tick(s.sys, t))
    else
      LoftSys(Step(s.sys, Unlock(t, a)), s.lastrld[a := t], s.lastlock[t := a])
  }

  function LoftStep(s: LoftSys, e: Event): LoftSys {
    match e
    case Lock(t, a) => ProcessLock(s, t, a)
    case Unlock(t, a) => ProcessUnlock(s, t, a)
    case _ => s.(sys := Step(s.sys, e))
  }

  function LoftRun(es: seq<Event>): LoftSys {
    if es == [] then INITIAL_LOFT else LoftStep(LoftRun(es[..|es| - 1]), es[|es| - 1])
  }

  /** While the last releaser of a mutex lives, it knows everything that the mutex clock holds. */
  ghost predicate ReleaserKnows(s: LoftSys) {
    forall a :: a in s.lastrld && Live(s.sys, s.lastrld[a]) ==>
      Below(At(s.sys, Mutex(a)), At(s.sys, Thr(s.lastrld[a])))
  }

  /** A join with a clock that is below is no change at all. */
  lemma RedundantJoin(s: Sys, t: Tid, a: Addr)
    requires Inv(s) && Live(s, t) && Below(At(s, Mutex(a)), At(s, Thr(t)))
    ensures JoinInto(s, Thr(t), Mutex(a)) == s
  {
    var k, m := At(s, Thr(t)), At(s, Mutex(a));
    AtIsFaithful(s, Mutex(a));
    forall u | u in m.vc ensures u in k.vc {
      assert 1 <= m.vc[u] && Get(m.vc, u) <= Get(k.vc, u);
    }
    forall u | u in k.vc ensures Get(Joined(k.vc, m.vc), u) == k.vc[u] {
      assert Get(m.vc, u) <= Get(k.vc, u);
    }
    assert Joined(k.vc, m.vc) == k.vc;
    assert JoinKnow(k, m) == k;
  }

  lemma NotifyKeepsMutexes(s: Sys, t: Tid, c: Addr, a: Addr)
    ensures At(NotifyStep(s, t, c), Mutex(a)) == At(s, Mutex(a))
  {
    var ws := Waiters(s, c);
    JoinWaitersGrows(s, t, c, ws);
    SignalWaitersKeepsThreads(JoinWaiters(s, t, c, ws), t, c, ws);
  }

  lemma ReleaseKeepsMutexes(s: Sys, e: Event, a: Addr)
    requires e.PreWait? || e.PreBarrier? || e.SemPost? || e.Start? || e.Exit? || e.Mem? || (e.Unlock? && e.a != a)
    ensures At(Step(s, e), Mutex(a)) == At(s, Mutex(a))
  {
  }

  lemma AcquireKeepsMutexes(s: Sys, e: Event, a: Addr)
    requires e.Join? || e.Lock? || e.RdLock? || e.WrLock? || e.PostWait? || e.PostBarrier? || e.SemWait?
    ensures At(Step(s, e), Mutex(a)) == At(s, Mutex(a))
  {
  }

  /** Only releasing a mutex changes its clock. */
  lemma MutexKept(s: Sys, e: Event, a: Addr)
    requires !(e.Unlock? && e.a == a)
    ensures At(Step(s, e), Mutex(a)) == At(s, Mutex(a))
  {
    if e.RwUnlock? {
      RwUnlockKeepsMutexes(s, e.t, e.a, a);
    } else if e.Notify? {
      NotifyKeepsMutexes(s, e.t, e.a, a);
    } else if e.Join? || e.Lock? || e.RdLock? || e.WrLock? || e.PostWait? || e.PostBarrier? || e.SemWait? {
      AcquireKeepsMutexes(s, e, a);
    } else {
      ReleaseKeepsMutexes(s, e, a);
    }
  }

  lemma RwUnlockKeepsMutexes(s: Sys, t: Tid, b: Addr, a: Addr)
    ensures At(RwUnlockStep(s, t, b), Mutex(a)) == At(s, Mutex(a))
  {
  }

  ghost predicate Simulates(s: LoftSys, plain: Sys) {
    && s.sys == plain
    && ReleaserKnows(s)
    && (forall a :: a in s.lastrld ==> s.lastrld[a] in plain.started)
  }

  lemma KeepsReleaserKnows(s: LoftSys, e: Event, s1: LoftSys)
    requires Inv(s.sys) && Enabled(s.sys, e) && ReleaserKnows(s)
    requires forall a :: a in s.lastrld ==> s.lastrld[a] in s.sys.started
    requires s1.sys == Step(s.sys, e)
    requires s1.lastrld == if e.Unlock? then s.lastrld[e.a := e.t] else s.lastrld
    ensures ReleaserKnows(s1)
  {
    forall a | a in s1.lastrld && Live(s1.sys, s1.lastrld[a])
      ensures Below(At(s1.sys, Mutex(a)), At(s1.sys, Thr(s1.lastrld[a])))
    {
      var t := s1.lastrld[a];
      if e.Unlock? && e.a == a {
        TickGrows(Copy(s.sys, Mutex(a), Thr(t)), t, Thr(t));
      } else {
        StepStarts(s.sys, e, t);
        MutexKept(s.sys, e, a);
        StepGrowsThreads(s.sys, e, t);
        BelowTransitive(At(s.sys, Mutex(a)), At(s.sys, Thr(t)), At(s1.sys, Thr(t)));
      }
    }
  }

  /** The assignment is never skipped: the releasing thread is ahead of the mutex clock. */
  lemma AssignmentNeverSkipped(s: LoftSys, t: Tid, a: Addr)
    requires Inv(s.sys) && Enabled(s.sys, Unlock(t, a))
    ensures !SkipsAssignment(s, t, a)
  {
  }

  lemma SkippedJoinSimulates(s: LoftSys, plain: Sys, t: Tid, a: Addr)
    requires Inv(plain) && Simulates(s, plain) && Enabled(plain, Lock(t, a)) && a in s.lastrld && s.lastrld[a] == t
    ensures Simulates(LoftStep(s, Lock(t, a)), Step(plain, Lock(t, a)))
  {
    RedundantJoin(plain, t, a);
  }

  /** What Loft has recorded of the releasers after a step that it does not skip. */
  function Releasers(s: LoftSys, e: Event): map<Addr, Tid> {
    if e.Unlock? then s.lastrld[e.a := e.t] else s.lastrld
  }

  lemma PlainStepSimulates(s: LoftSys, plain: Sys, e: Event, s1: LoftSys)
    requires Inv(plain) && Simulates(s, plain) && Enabled(plain, e)
    requires s1.sys == Step(plain, e) && s1.lastrld == Releasers(s, e)
    ensures Simulates(s1, Step(plain, e))
  {
    KeepsReleaserKnows(s, e, s1);
    forall a | a in s1.lastrld ensures s1.lastrld[a] in Step(plain, e).started {
      StepStarts(plain, e, s1.lastrld[a]);
    }
  }

  lemma LoftStepSimulates(s: LoftSys, plain: Sys, e: Event)
    requires Inv(plain) && Simulates(s, plain) && Enabled(plain, e)
    ensures Simulates(LoftStep(s, e), Step(plain, e))
  {
    if e.Lock? && e.a in s.lastrld && s.lastrld[e.a] == e.t {
      SkippedJoinSimulates(s, plain, e.t, e.a);
    } else {
      if e.Unlock? {
        AssignmentNeverSkipped(s, e.t, e.a);
      }
      PlainStepSimulates(s, plain, e, LoftStep(s, e));
    }
  }

  /**
    Loft computes the clocks of the plain rule on every run: each join it skips would have been
    a no-op, and the case in which it would skip an assignment never arises.
   */
  lemma {:induction false} LoftIsPlain(es: seq<Event>)
    requires WellFormed(es)
    ensures LoftRun(es).sys == Run(es)
    ensures Simulates(LoftRun(es), Run(es))
    ensures forall t, a :: Enabled(Run(es), Unlock(t, a)) ==> !SkipsAssignment(LoftRun(es), t, a)
  {
    RunKeepsInv(es);
    if es != [] {
      var n := |es| - 1;
      LoftIsPlain(es[..n]);
      RunKeepsInv(es[..n]);
      LoftStepSimulates(LoftRun(es[..n]), Run(es[..n]), es[n]);
    }
    forall t, a | Enabled(Run(es), Unlock(t, a)) ensures !SkipsAssignment(LoftRun(es), t, a) {
      AssignmentNeverSkipped(LoftRun(es), t, a);
    }
  }

  // ----- The detector

  /** What Loft has computed after one more event is the plain machine's next state. */
  lemma NextStateIsPlain(es: seq<Event>, e: Event)
    requires WellFormed(es) && Enabled(Run(es), e)
    ensures LoftRun(es).sys == Run(es)
    ensures LoftStep(LoftRun(es), e).sys == Step(Run(es), e)
  {
    RunSnoc(es, e);
    LoftIsPlain(es);
    LoftIsPlain(es + [e]);
  }

  /** The tables are those of Loft after the run. */
  ghost predicate Recorded(es: seq<Event>, lastrld: map<Addr, Tid>, lastlock: map<Tid, Addr>) {
    LoftRun(es).lastrld == lastrld && LoftRun(es).lastlock == lastlock
  }

  /** What an unlock leaves in Loft's own tables, and that skipping the assignment would change nothing. */
  lemma AfterUnlock(es: seq<Event>, t: Tid, a: Addr, lastrld: map<Addr, Tid>, lastlock: map<Tid, Addr>)
    requires WellFormed(es) && Enabled(Run(es), Unlock(t, a)) && Recorded(es, lastrld, lastlock)
    ensures LoftRun(es).sys == Run(es)
    ensures SkipsAssignment(LoftRun(es), t, a) ==>
              && Recorded(es + [Unlock(t, a)], lastrld[a := t], lastlock)
              && Step(Run(es), Unlock(t, a)) == Tick(Run(es), t)
    ensures !SkipsAssignment(LoftRun(es), t, a) ==>
              Recorded(es + [Unlock(t, a)], lastrld[a := t], lastlock[t := a])
  {
    NextStateIsPlain(es, Unlock(t, a));
  }

  class LoftDetector {
    const base: Detector
    var lastrld: map<Addr, Tid>
    var lastlock: map<Tid, Addr>

    /** The fields are those of the model after the events handled. */
    ghost predicate Valid()
      reads this, base, base.clocks.Values
    {
      base.Valid() && Recorded(base.run, lastrld, lastlock)
    }

    constructor ()
      ensures Valid() && base.run == []
    {
      base := new Detector();
      lastrld, lastlock := map[], map[];
    }

    /** Skips the join when this thread was the last to release the mutex. */
    method ProcessLock(t: Tid, a: Addr)
      requires Valid() && Enabled(Run(base.run), Lock(t, a))
      modifies base, base.clocks.Values
      ensures Valid() && base.run == old(base.run) + [Lock(t, a)]
    {
      NextStateIsPlain(base.run, Lock(t, a));
      if a in lastrld && lastrld[a] == t {
        base.Done(Lock(t, a));
      } else {
        base.Handle(Lock(t, a));
      }
    }

    /** Evaluates the guard of the skipped assignment. */
    method Skips(t: Tid, a: Addr) returns (skip: bool)
      requires Valid() && Live(Run(base.run), t) && LoftRun(base.run).sys == Run(base.run)
      ensures skip <==> SkipsAssignment(LoftRun(base.run), t, a)
    {
      if t !in lastlock || lastlock[t] != a {
        return false;
      }
      ghost var s := Run(base.run);
      assert ClockIn(base.View(), Thr(t)) == At(s, Thr(t)).vc;
      assert ClockIn(base.View(), Mutex(a)) == At(s, Mutex(a)).vc;
      var released := 0;
      if Mutex(a) in base.clocks {
        released := base.clocks[Mutex(a)].GetClock(t);
      }
      var own := 0;
      if Thr(t) in base.clocks {
        own := base.clocks[Thr(t)].GetClock(t);
      }
      return released >= own;
    }

    /** Releases the mutex, leaving its clock alone if that makes no difference. */
    method Release(t: Tid, a: Addr, skip: bool)
      requires base.Valid() && Enabled(Run(base.run), Unlock(t, a))
      requires skip ==> Step(Run(base.run), Unlock(t, a)) == Tick(Run(base.run), t)
      modifies base, base.clocks.Values
      ensures base.Valid() && base.run == old(base.run) + [Unlock(t, a)]
    {
      if skip {
        ShowsLive(base.View(), Run(base.run), t);
        base.IncrementClock(t, Run(base.run));
        base.Done(Unlock(t, a));
      } else {
        base.Handle(Unlock(t, a));
      }
    }

    method ProcessUnlock(t: Tid, a: Addr)
      requires Valid() && Enabled(Run(base.run), Unlock(t, a))
      modifies this, base, base.clocks.Values
      ensures Valid() && base.run == old(base.run) + [Unlock(t, a)]
    {
      ghost var es := base.run;
      AfterUnlock(es, t, a, lastrld, lastlock);
      var skip := Skips(t, a);
      Release(t, a, skip);
      RecordRelease(t, a, skip);
    }

    method RecordRelease(t: Tid, a: Addr, skip: bool)
      requires base.Valid()
      requires Recorded(base.run, lastrld[a := t], if skip then lastlock else lastlock[t := a])
      modifies this
      ensures Valid() && base.run == old(base.run)
    {
      lastrld := lastrld[a := t];
      if !skip {
        lastlock := lastlock[t := a];
      }
    }
  }
}
