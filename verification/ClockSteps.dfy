/**
  What an event does to clocks alone.

    `SameClocks`  Two states with the same clocks keep the same clocks under every event but an
                  access, whatever their histories and pasts: one lemma for each primitive of the
                  store, then one for each step, then `SameStep`.
    `ThreadKept`  An event leaves the clock of a thread as it was, unless the event is the thread's
                  own, starts a child of it, or joins it: `OthersKept`.

  Parallel detection rests on both: a detector handles the same events as the program, except that
  the accesses come later.
 */
module ClockSteps {
  import opened Clocks
  import opened History
  import opened Machine
  import opened MachineProofs
  import Verdicts

  function ClocksOf(s: Sys): map<Loc, Clock> {
    map l | l in s.know :: s.know[l].vc
  }

  /** The two systems differ at most in what they know of memory accesses. */
  predicate SameClocks(s: Sys, q: Sys) {
    && ClocksOf(s) == ClocksOf(q)
    && s.open == q.open && s.started == q.started
    && s.waiter == q.waiter && s.refs == q.refs
  }

  lemma SameAt(s: Sys, q: Sys, l: Loc)
    requires SameClocks(s, q)
    ensures l in s.know <==> l in q.know
    ensures At(s, l).vc == At(q, l).vc
  {
    assert l in ClocksOf(s) <==> l in s.know;
    assert l in ClocksOf(q) <==> l in q.know;
  }

  lemma SameJoin(s: Sys, q: Sys, dst: Loc, src: Loc)
    requires SameClocks(s, q)
    ensures SameClocks(JoinInto(s, dst, src), JoinInto(q, dst, src))
  {
    SameAt(s, q, dst);
    SameAt(s, q, src);
    assert ClocksOf(JoinInto(s, dst, src)) == ClocksOf(s)[dst := Joined(At(s, dst).vc, At(s, src).vc)];
    assert ClocksOf(JoinInto(q, dst, src)) == ClocksOf(q)[dst := Joined(At(q, dst).vc, At(q, src).vc)];
  }

  lemma SameCopy(s: Sys, q: Sys, dst: Loc, src: Loc)
    requires SameClocks(s, q)
    ensures SameClocks(Copy(s, dst, src), Copy(q, dst, src))
  {
    SameAt(s, q, src);
    assert ClocksOf(Copy(s, dst, src)) == ClocksOf(s)[dst := At(s, src).vc];
    assert ClocksOf(Copy(q, dst, src)) == ClocksOf(q)[dst := At(q, src).vc];
  }

  lemma SameDrop(s: Sys, q: Sys, l: Loc)
    requires SameClocks(s, q)
    ensures SameClocks(Drop(s, l), Drop(q, l))
  {
    assert ClocksOf(Drop(s, l)) == ClocksOf(s) - {l};
    assert ClocksOf(Drop(q, l)) == ClocksOf(q) - {l};
  }

  lemma SameTick(s: Sys, q: Sys, t: Tid)
    requires SameClocks(s, q)
    ensures SameClocks(Tick(s, t), Tick(q, t))
  {
    SameAt(s, q, Thr(t));
    assert ClocksOf(Tick(s, t)) == ClocksOf(s)[Thr(t) := Ticked(At(s, Thr(t)).vc, t)];
    assert ClocksOf(Tick(q, t)) == ClocksOf(q)[Thr(t) := Ticked(At(q, Thr(t)).vc, t)];
  }

  lemma SameSpawn(s: Sys, q: Sys, t: Tid)
    requires SameClocks(s, q)
    ensures SameClocks(Spawn(s, t), Spawn(q, t))
  {
    assert ClocksOf(Spawn(s, t)) == ClocksOf(s)[Thr(t) := Ticked(map[], t)];
    assert ClocksOf(Spawn(q, t)) == ClocksOf(q)[Thr(t) := Ticked(map[], t)];
  }

  /** Recording an access changes no clock. */
  lemma RecordKeepsClocks(s: Sys, t: Tid, x: Addr, write: bool)
    requires Live(s, t)
    ensures SameClocks(s, Record(s, t, x, write))
  {
  }

  lemma {:induction false} SameJoinWaiters(s: Sys, q: Sys, t: Tid, c: Addr, ws: seq<Tid>)
    requires SameClocks(s, q)
    ensures SameClocks(JoinWaiters(s, t, c, ws), JoinWaiters(q, t, c, ws))
  {
    if ws != [] {
      var n := |ws| - 1;
      SameJoinWaiters(s, q, t, c, ws[..n]);
      SameJoin(JoinWaiters(s, t, c, ws[..n]), JoinWaiters(q, t, c, ws[..n]), Thr(t), CondWait(c, ws[n]));
    }
  }

  lemma {:induction false} SameSignalWaiters(s: Sys, q: Sys, t: Tid, c: Addr, ws: seq<Tid>)
    requires SameClocks(s, q)
    ensures SameClocks(SignalWaiters(s, t, c, ws), SignalWaiters(q, t, c, ws))
  {
    if ws != [] {
      var n := |ws| - 1;
      SameSignalWaiters(s, q, t, c, ws[..n]);
      SameCopy(SignalWaiters(s, t, c, ws[..n]), SignalWaiters(q, t, c, ws[..n]), CondSig(c, ws[n]), Thr(t));
    }
  }

  lemma SameNotify(s: Sys, q: Sys, t: Tid, c: Addr)
    requires SameClocks(s, q)
    ensures SameClocks(NotifyStep(s, t, c), NotifyStep(q, t, c))
  {
    assert s.know.Keys == q.know.Keys by {
      forall l ensures l in s.know <==> l in q.know {
        SameAt(s, q, l);
      }
    }
    var ws := Waiters(s, c);
    assert (set l | l in s.know && l.CondWait? && l.a == c :: l.t) == (set l | l in q.know && l.CondWait? && l.a == c :: l.t);
    assert ws == Waiters(q, c);
    var s1, q1 := JoinWaiters(s, t, c, ws), JoinWaiters(q, t, c, ws);
    SameJoinWaiters(s, q, t, c, ws);
    SameSignalWaiters(s1, q1, t, c, ws);
    SameTick(SignalWaiters(s1, t, c, ws), SignalWaiters(q1, t, c, ws), t);
  }

  lemma SameStart(s: Sys, q: Sys, t: Tid, parent: Tid)
    requires SameClocks(s, q)
    ensures SameClocks(StartStep(s, t, parent), StartStep(q, t, parent))
  {
    SameSpawn(s, q, t);
    if parent != NO_THREAD {
      SameJoin(Spawn(s, t), Spawn(q, t), Thr(t), Thr(parent));
      SameTick(JoinInto(Spawn(s, t), Thr(t), Thr(parent)), JoinInto(Spawn(q, t), Thr(t), Thr(parent)), parent);
    }
  }

  lemma SameThreadJoin(s: Sys, q: Sys, t: Tid, child: Tid)
    requires SameClocks(s, q)
    ensures SameClocks(JoinStep(s, t, child), JoinStep(q, t, child))
  {
    var s1, q1 := JoinInto(s, Thr(t), Thr(child)), JoinInto(q, Thr(t), Thr(child));
    SameJoin(s, q, Thr(t), Thr(child));
    SameTick(s1, q1, t);
    SameDrop(Tick(s1, t), Tick(q1, t), Thr(child));
  }

  lemma SamePostWait(s: Sys, q: Sys, t: Tid, a: Addr)
    requires SameClocks(s, q)
    ensures SameClocks(PostWaitStep(s, t, a), PostWaitStep(q, t, a))
  {
    var s1, q1 := JoinInto(s, Thr(t), CondSig(a, t)), JoinInto(q, Thr(t), CondSig(a, t));
    SameJoin(s, q, Thr(t), CondSig(a, t));
    SameDrop(s1, q1, CondWait(a, t));
    SameDrop(Drop(s1, CondWait(a, t)), Drop(q1, CondWait(a, t)), CondSig(a, t));
  }

  lemma SameJoinAndTick(s: Sys, q: Sys, t: Tid, src: Loc)
    requires SameClocks(s, q)
    ensures SameClocks(Tick(JoinInto(s, Thr(t), src), t), Tick(JoinInto(q, Thr(t), src), t))
  {
    SameJoin(s, q, Thr(t), src);
    SameTick(JoinInto(s, Thr(t), src), JoinInto(q, Thr(t), src), t);
  }

  lemma SameBarrierEnd(s: Sys, q: Sys, waiter: map<Addr, int>, a: Addr)
    requires SameClocks(s, q)
    ensures SameClocks(s.(waiter := waiter), q.(waiter := waiter))
    ensures SameClocks(Drop(s.(waiter := waiter), Bar(a)), Drop(q.(waiter := waiter), Bar(a)))
  {
    SameDrop(s.(waiter := waiter), q.(waiter := waiter), Bar(a));
  }

  lemma SamePostBarrier(s: Sys, q: Sys, t: Tid, a: Addr)
    requires SameClocks(s, q)
    ensures SameClocks(PostBarrierStep(s, t, a), PostBarrierStep(q, t, a))
  {
    var counts := s.waiter[a := Count(s.waiter, a) - 1];
    SameJoinAndTick(s, q, t, Bar(a));
    SameBarrierEnd(Tick(JoinInto(s, Thr(t), Bar(a)), t), Tick(JoinInto(q, Thr(t), Bar(a)), t), counts, a);
    BarrierEnds(s, t, a, counts);
    BarrierEnds(q, t, a, counts);
  }

  lemma SameSessionEnd(s: Sys, q: Sys, t: Tid, a: Addr)
    requires SameClocks(s, q)
    ensures SameClocks(Tick(Drop(Copy(s, RwVc(a), RwWait(a)), RwWait(a)), t),
                       Tick(Drop(Copy(q, RwVc(a), RwWait(a)), RwWait(a)), t))
  {
    SameCopy(s, q, RwVc(a), RwWait(a));
    SameDrop(Copy(s, RwVc(a), RwWait(a)), Copy(q, RwVc(a), RwWait(a)), RwWait(a));
    SameTick(Drop(Copy(s, RwVc(a), RwWait(a)), RwWait(a)), Drop(Copy(q, RwVc(a), RwWait(a)), RwWait(a)), t);
  }

  lemma SameRwUnlock(s: Sys, q: Sys, t: Tid, a: Addr)
    requires SameClocks(s, q)
    ensures SameClocks(RwUnlockStep(s, t, a), RwUnlockStep(q, t, a))
  {
    var counts := s.refs[a := Count(s.refs, a) - 1];
    var s1, q1 := JoinInto(s, RwWait(a), Thr(t)).(refs := counts), JoinInto(q, RwWait(a), Thr(t)).(refs := counts);
    SameJoin(s, q, RwWait(a), Thr(t));
    ReleaseEnds(s, t, a, counts);
    ReleaseEnds(q, t, a, counts);
    if Count(counts, a) == 0 {
      SameSessionEnd(s1, q1, t, a);
    } else {
      SameTick(s1, q1, t);
    }
  }

  lemma SameRelease(s: Sys, q: Sys, t: Tid, dst: Loc, joining: bool)
    requires SameClocks(s, q)
    ensures joining ==> SameClocks(Tick(JoinInto(s, dst, Thr(t)), t), Tick(JoinInto(q, dst, Thr(t)), t))
    ensures !joining ==> SameClocks(Tick(Copy(s, dst, Thr(t)), t), Tick(Copy(q, dst, Thr(t)), t))
  {
    if joining {
      SameJoin(s, q, dst, Thr(t));
      SameTick(JoinInto(s, dst, Thr(t)), JoinInto(q, dst, Thr(t)), t);
    } else {
      SameCopy(s, q, dst, Thr(t));
      SameTick(Copy(s, dst, Thr(t)), Copy(q, dst, Thr(t)), t);
    }
  }

  lemma SameRwLock(s: Sys, q: Sys, t: Tid, a: Addr)
    requires SameClocks(s, q)
    ensures SameClocks(RwLockStep(s, t, a), RwLockStep(q, t, a))
  {
    SameJoin(s, q, Thr(t), RwVc(a));
  }

  lemma SamePreBarrier(s: Sys, q: Sys, t: Tid, a: Addr)
    requires SameClocks(s, q)
    ensures SameClocks(PreBarrierStep(s, t, a), PreBarrierStep(q, t, a))
  {
    SameJoin(s, q, Bar(a), Thr(t));
  }

  lemma SameAcquireStep(s: Sys, q: Sys, e: Event)
    requires SameClocks(s, q) && (e.Lock? || e.RdLock? || e.WrLock? || e.SemWait?)
    ensures SameClocks(Step(s, e), Step(q, e))
  {
    match e {
      case Lock(t, a) => SameJoin(s, q, Thr(t), Mutex(a));
      case RdLock(t, a) => SameRwLock(s, q, t, a);
      case WrLock(t, a) => SameRwLock(s, q, t, a);
      case SemWait(t, a) => SameJoinAndTick(s, q, t, Sem(a));
    }
  }

  lemma SameReleaseStep(s: Sys, q: Sys, e: Event)
    requires SameClocks(s, q) && (e.Unlock? || e.PreWait? || e.SemPost?)
    ensures SameClocks(Step(s, e), Step(q, e))
  {
    match e {
      case Unlock(t, a) => SameRelease(s, q, t, Mutex(a), false);
      case PreWait(t, a) => SameRelease(s, q, t, CondWait(a, t), false);
      case SemPost(t, a) => SameRelease(s, q, t, Sem(a), true);
    }
  }

  lemma SameThreadStep(s: Sys, q: Sys, e: Event)
    requires SameClocks(s, q) && (e.Start? || e.Exit? || e.Join?)
    ensures SameClocks(Step(s, e), Step(q, e))
  {
    match e {
      case Start(t, parent) => SameStart(s, q, t, parent);
      case Exit(t) =>
      case Join(t, child) => SameThreadJoin(s, q, t, child);
    }
  }

  /** Every event other than an access acts on the clocks alone. */
  lemma SameStep(s: Sys, q: Sys, e: Event)
    requires SameClocks(s, q) && !e.Mem?
    ensures SameClocks(Step(s, e), Step(q, e))
  {
    if e.Start? || e.Exit? || e.Join? {
      SameThreadStep(s, q, e);
    } else if e.Unlock? || e.PreWait? || e.SemPost? {
      SameReleaseStep(s, q, e);
    } else if e.Lock? || e.RdLock? || e.WrLock? || e.SemWait? {
      SameAcquireStep(s, q, e);
    } else {
      match e {
        case RwUnlock(t, a) => SameRwUnlock(s, q, t, a);
        case Notify(t, a) => SameNotify(s, q, t, a);
        case PostWait(t, a) => SamePostWait(s, q, t, a);
        case PreBarrier(t, a) => SamePreBarrier(s, q, t, a);
        case PostBarrier(t, a) => SamePostBarrier(s, q, t, a);
      }
    }
  }

  lemma SameEnabled(s: Sys, q: Sys, e: Event)
    requires SameClocks(s, q)
    ensures Enabled(s, e) <==> Enabled(q, e)
  {
    forall l ensures l in s.know <==> l in q.know {
      SameAt(s, q, l);
    }
  }

  lemma OthersKeptByNotify(s: Sys, t: Tid, c: Addr, u: Tid)
    requires Live(s, t) && u != t
    ensures At(NotifyStep(s, t, c), Thr(u)) == At(s, Thr(u))
    ensures Live(NotifyStep(s, t, c), u) <==> Live(s, u)
    ensures u in NotifyStep(s, t, c).open <==> u in s.open
  {
    var ws := Waiters(s, c);
    var s1 := JoinWaiters(s, t, c, ws);
    JoinWaitersGrows(s, t, c, ws);
    SignalWaitersKeepsThreads(s1, t, c, ws);
    WaitersOnlyRead(s, t, c, ws, u);
    WaitersOnlyRead(s, t, c, ws, t);
    WaitersOnlyRead(s1, t, c, ws, u);
    Verdicts.OpenAfterJoin(s, t, c, ws);
    Verdicts.OpenAfterSignal(s1, t, c, ws);
  }

  lemma OthersKeptByRelease(s: Sys, t: Tid, a: Addr, u: Tid)
    requires u != t
    ensures At(RwUnlockStep(s, t, a), Thr(u)) == At(s, Thr(u))
    ensures Live(RwUnlockStep(s, t, a), u) <==> Live(s, u)
    ensures u in RwUnlockStep(s, t, a).open <==> u in s.open
  {
  }

  /** The thread's clock, life and openness are the same in both states. */
  predicate ThreadKept(s: Sys, s1: Sys, u: Tid) {
    At(s1, Thr(u)).vc == At(s, Thr(u)).vc && (Live(s1, u) <==> Live(s, u)) && (u in s1.open <==> u in s.open)
  }

  lemma OthersKeptByThreads(s: Sys, e: Event, u: Tid)
    requires e.t != u && (e.Start? || e.Exit? || e.Join? || (e.Mem? && Live(s, e.t)))
    requires (e.Start? ==> e.parent != u) && (e.Join? ==> e.child != u)
    ensures ThreadKept(s, Step(s, e), u)
  {
  }

  lemma OthersKeptByAcquire(s: Sys, e: Event, u: Tid)
    requires e.t != u && (e.Lock? || e.RdLock? || e.WrLock? || e.PostWait? || e.PostBarrier? || e.SemWait?)
    ensures ThreadKept(s, Step(s, e), u)
  {
  }

  lemma OthersKeptByPublish(s: Sys, e: Event, u: Tid)
    requires e.t != u && (e.Unlock? || e.PreWait? || e.PreBarrier? || e.SemPost?)
    ensures ThreadKept(s, Step(s, e), u)
  {
  }

  /** A thread's clock is changed only by its own events, by its children's starts and by its being joined. */
  lemma OthersKept(s: Sys, e: Event, u: Tid)
    requires Enabled(s, e) && Live(s, u)
    requires e.t != u && (e.Start? ==> e.parent != u) && (e.Join? ==> e.child != u)
    ensures ThreadKept(s, Step(s, e), u)
  {
    if e.Notify? {
      OthersKeptByNotify(s, e.t, e.a, u);
    } else if e.RwUnlock? {
      OthersKeptByRelease(s, e.t, e.a, u);
    } else if e.Start? || e.Exit? || e.Join? || e.Mem? {
      OthersKeptByThreads(s, e, u);
    } else if e.Unlock? || e.PreWait? || e.PreBarrier? || e.SemPost? {
      OthersKeptByPublish(s, e, u);
    } else {
      OthersKeptByAcquire(s, e, u);
    }
  }
}
