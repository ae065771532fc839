/** Told from the events of a run: when a thread enters a new frame, which threads are there, and who waits. */
module Frames {
  import opened Clocks
  import opened History
  import opened Machine
  import opened MachineProofs
  import opened EventGraph = HappensBefore

  /**
    The events that move the own entry of thread `t`: its releases, its joins, leaving a barrier,
    waiting for a semaphore, and the starts of its children.
   */
  predicate OpensFrame(e: Event, t: Tid) {
    || (e.t == t && (e.Join? || e.Unlock? || e.RwUnlock? || e.Notify? || e.PreWait? || e.PostBarrier?
                     || e.SemPost? || e.SemWait?))
    || (e.Start? && e.parent == t)
  }

  /** How many frames `t` has opened, beside its first. */
  function FramesOf(es: seq<Event>, t: Tid): nat {
    if es == [] then 0 else FramesOf(es[..|es| - 1], t) + if OpensFrame(es[|es| - 1], t) then 1 else 0
  }

  /** The own entry of `t` moves by one if the event opens a frame of it, and not otherwise. */
  predicate OwnMoves(s: Sys, e: Event, t: Tid) {
    Own(Step(s, e), t) == Own(s, t) + if OpensFrame(e, t) then 1 else 0
  }

  lemma OwnAfterTick(s: Sys, u: Tid, t: Tid)
    requires Live(s, u)
    ensures Own(Tick(s, u), t) == Own(s, t) + if u == t then 1 else 0
  {
  }

  lemma {:induction false} OwnAfterWaiters(s: Sys, u: Tid, c: Addr, ws: seq<Tid>, t: Tid)
    requires Dominance(s) && Live(s, t) && Live(s, u)
    ensures Dominance(JoinWaiters(s, u, c, ws)) && Live(JoinWaiters(s, u, c, ws), u)
    ensures Live(JoinWaiters(s, u, c, ws), t) && Own(JoinWaiters(s, u, c, ws), t) == Own(s, t)
  {
    if ws != [] {
      var n := |ws| - 1;
      OwnAfterWaiters(s, u, c, ws[..n], t);
      JoinKeepsDominance(JoinWaiters(s, u, c, ws[..n]), Thr(u), CondWait(c, ws[n]));
    }
  }

  lemma OwnAfterNotify(s: Sys, u: Tid, c: Addr, t: Tid)
    requires Dominance(s) && Live(s, t) && Live(s, u)
    ensures OwnMoves(s, Notify(u, c), t)
  {
    var ws := Waiters(s, c);
    var s1 := JoinWaiters(s, u, c, ws);
    OwnAfterWaiters(s, u, c, ws, t);
    SignalWaitersKeepsThreads(s1, u, c, ws);
    WaitersOnlyRead(s1, u, c, ws, u);
    OwnAfterTick(SignalWaiters(s1, u, c, ws), u, t);
  }

  lemma OwnAfterStart(s: Sys, u: Tid, parent: Tid, t: Tid)
    requires Shape(s) && Dominance(s) && Live(s, t) && Enabled(s, Start(u, parent))
    ensures OwnMoves(s, Start(u, parent), t)
  {
  }

  /** A new thread is in its first frame. */
  lemma OwnAtStart(s: Sys, t: Tid, parent: Tid)
    requires Shape(s) && Dominance(s) && Enabled(s, Start(t, parent))
    ensures Own(Step(s, Start(t, parent)), t) == 1
  {
  }

  lemma OwnAfterThreadStep(s: Sys, e: Event, t: Tid)
    requires Dominance(s) && Enabled(s, e) && Live(s, t) && Live(Step(s, e), t) && (e.Exit? || e.Join? || e.Mem?)
    ensures OwnMoves(s, e, t)
  {
  }

  lemma OwnAfterRelease(s: Sys, e: Event, t: Tid)
    requires Enabled(s, e) && Live(s, t) && (e.Unlock? || e.RwUnlock? || e.PreWait? || e.PreBarrier? || e.SemPost?)
    ensures OwnMoves(s, e, t)
  {
  }

  lemma OwnAfterLockStep(s: Sys, e: Event, t: Tid)
    requires Dominance(s) && Enabled(s, e) && Live(s, t) && (e.Lock? || e.RdLock? || e.WrLock?)
    ensures OwnMoves(s, e, t)
  {
  }

  lemma OwnAfterPostWait(s: Sys, u: Tid, a: Addr, t: Tid)
    requires Dominance(s) && Live(s, u) && Live(s, t)
    ensures OwnMoves(s, PostWait(u, a), t)
  {
  }

  lemma OwnAfterWaiting(s: Sys, e: Event, t: Tid)
    requires Dominance(s) && Live(s, e.t) && Live(s, t) && (e.PostBarrier? || e.SemWait?)
    ensures OwnMoves(s, e, t)
  {
  }

  lemma OwnAfterStep(s: Sys, e: Event, t: Tid)
    requires Shape(s) && Dominance(s) && Enabled(s, e) && Live(s, t) && Live(Step(s, e), t)
    ensures OwnMoves(s, e, t)
  {
    if e.Start? {
      OwnAfterStart(s, e.t, e.parent, t);
    } else if e.Notify? {
      OwnAfterNotify(s, e.t, e.a, t);
    } else if e.Exit? || e.Join? || e.Mem? {
      OwnAfterThreadStep(s, e, t);
    } else if e.Unlock? || e.RwUnlock? || e.PreWait? || e.PreBarrier? || e.SemPost? {
      OwnAfterRelease(s, e, t);
    } else if e.Lock? || e.RdLock? || e.WrLock? {
      OwnAfterLockStep(s, e, t);
    } else if e.PostWait? {
      OwnAfterPostWait(s, e.t, e.a, t);
    } else {
      OwnAfterWaiting(s, e, t);
    }
  }

  /**
    The own entry of a live thread is 1 and one more for each of its joins, unlocks, rwlock releases,
    notifies, waits begun, barriers left, semaphore posts and waits, and starts of its children.
    No other event moves it: not a lock, a read or write lock, a wait ended or a barrier entered.
   */
  lemma {:induction false} FramesAreCounted(es: seq<Event>, t: Tid)
    requires WellFormed(es)
    ensures Live(Run(es), t) ==> Own(Run(es), t) == 1 + FramesOf(es, t)
    ensures t !in Run(es).started && t != NO_THREAD ==> FramesOf(es, t) == 0
  {
    if es != [] {
      var n := |es| - 1;
      var s, e := Run(es[..n]), es[n];
      FramesAreCounted(es[..n], t);
      RunKeepsInv(es[..n]);
      StepStarts(s, e, t);
      if Live(Step(s, e), t) {
        if Live(s, t) {
          OwnAfterStep(s, e, t);
        } else {
          OwnAtStart(s, t, e.parent);
        }
      }
    }
  }

  /** The clock of an access is the frame of its thread, counted on the events before it. */
  lemma {:induction false} AccessesAreInFrames(es: seq<Event>, i: nat)
    requires WellFormed(es) && i < |Run(es).hist|
    ensures |Positions(es)| == |Run(es).hist| && Positions(es)[i] < |es|
    ensures Run(es).hist[i].Clk() == 1 + FramesOf(es[..Positions(es)[i]], Run(es).hist[i].t)
  {
    var n := |es| - 1;
    PositionsAre(es);
    PositionsAre(es[..n]);
    StepHist(Run(es[..n]), es[n]);
    if i < |Run(es[..n]).hist| {
      AccessesAreInFrames(es[..n], i);
      assert es[..n][..Positions(es)[i]] == es[..Positions(es)[i]];
    } else {
      FramesAreCounted(es[..n], es[n].t);
    }
  }

  // ----- Barriers

  /** How many more threads have entered barrier `b` than left it. */
  function Inside(es: seq<Event>, b: Addr): int {
    if es == [] then 0
    else
      var e := es[|es| - 1];
      Inside(es[..|es| - 1], b) + if e.PreBarrier? && e.a == b then 1 else if e.PostBarrier? && e.a == b then -1 else 0
  }

  lemma {:induction false} WaitersKeepCount(s: Sys, t: Tid, c: Addr, ws: seq<Tid>)
    ensures JoinWaiters(s, t, c, ws).waiter == SignalWaiters(s, t, c, ws).waiter == s.waiter
  {
    if ws != [] {
      WaitersKeepCount(s, t, c, ws[..|ws| - 1]);
    }
  }

  /** The count that decides which thread clears a barrier's clock is that of the threads inside. */
  lemma {:induction false} BarriersAreCounted(es: seq<Event>, b: Addr)
    ensures Count(Run(es).waiter, b) == Inside(es, b)
  {
    if es != [] {
      var n := |es| - 1;
      var s, e := Run(es[..n]), es[n];
      BarriersAreCounted(es[..n], b);
      if e.Notify? {
        var ws := Waiters(s, e.a);
        WaitersKeepCount(s, e.t, e.a, ws);
        WaitersKeepCount(JoinWaiters(s, e.t, e.a, ws), e.t, e.a, ws);
      }
    }
  }

  // ----- Who is there, and who waits

  predicate IsWait(l: Loc) {
    l.Thr? || l.CondWait? || l.CondSig?
  }

  lemma {:induction false} WaitersKeepKeys(s: Sys, t: Tid, c: Addr, ws: seq<Tid>, l: Loc)
    requires Thr(t) in s.know
    ensures l in JoinWaiters(s, t, c, ws).know <==> l in s.know
    ensures l in SignalWaiters(s, t, c, ws).know <==> l in s.know || (l.CondSig? && l.a == c && l.t in ws)
  {
    if ws != [] {
      var n := |ws| - 1;
      WaitersKeepKeys(s, t, c, ws[..n], l);
      assert ws == ws[..n] + [ws[n]];
    }
  }

  /** Whether an entry for a thread or a waiter is there after an event. */
  predicate PresentAfter(s: Sys, e: Event, l: Loc) {
    if e.Start? && l == Thr(e.t) then true
    else if e.Join? && l == Thr(e.child) then false
    else if e.PreWait? && l == CondWait(e.a, e.t) then true
    else if e.PostWait? && (l == CondWait(e.a, e.t) || l == CondSig(e.a, e.t)) then false
    else if e.Notify? && l.CondSig? && l.a == e.a && CondWait(e.a, l.t) in s.know then true
    else l in s.know
  }

  lemma NotifyKeys(s: Sys, t: Tid, c: Addr, l: Loc)
    requires Thr(t) in s.know
    ensures l in NotifyStep(s, t, c).know <==> PresentAfter(s, Notify(t, c), l)
  {
    var ws := Waiters(s, c);
    WaitersKeepKeys(s, t, c, ws, l);
    WaitersKeepKeys(s, t, c, ws, Thr(t));
    WaitersKeepKeys(JoinWaiters(s, t, c, ws), t, c, ws, l);
    if l.CondSig? {
      WaitersAre(s, c, l.t);
    }
  }

  lemma ThreadKeys(s: Sys, e: Event, l: Loc)
    requires Enabled(s, e) && IsWait(l) && (e.Start? || e.Exit? || e.Join? || e.Mem?) && (e.Join? ==> e.t != e.child)
    ensures l in Step(s, e).know <==> PresentAfter(s, e, l)
  {
  }

  lemma ReleaseKeys(s: Sys, e: Event, l: Loc)
    requires Enabled(s, e) && IsWait(l) && (e.Unlock? || e.RwUnlock? || e.PreWait? || e.PreBarrier? || e.SemPost?)
    ensures l in Step(s, e).know <==> PresentAfter(s, e, l)
  {
  }

  lemma AcquireKeys(s: Sys, e: Event, l: Loc)
    requires Enabled(s, e) && IsWait(l)
    requires e.Lock? || e.RdLock? || e.WrLock? || e.PostWait? || e.PostBarrier? || e.SemWait?
    ensures l in Step(s, e).know <==> PresentAfter(s, e, l)
  {
  }

  lemma StepKeys(s: Sys, e: Event, l: Loc)
    requires Enabled(s, e) && IsWait(l)
    ensures l in Step(s, e).know <==> PresentAfter(s, e, l)
  {
    if e.Notify? {
      NotifyKeys(s, e.t, e.a, l);
    } else if e.Start? || e.Exit? || e.Join? || e.Mem? {
      ThreadKeys(s, e, l);
    } else if e.Unlock? || e.RwUnlock? || e.PreWait? || e.PreBarrier? || e.SemPost? {
      ReleaseKeys(s, e, l);
    } else {
      AcquireKeys(s, e, l);
    }
  }

  predicate Unjoined(es: seq<Event>, t: Tid) {
    forall j :: 0 <= j < |es| && es[j].Join? ==> es[j].child != t
  }

  lemma UnjoinedSnoc(es: seq<Event>, e: Event, t: Tid)
    ensures Unjoined(es + [e], t) <==> Unjoined(es, t) && !(e.Join? && e.child == t)
  {
    var g := es + [e];
    assert g[|es|] == e;
    forall j | 0 <= j < |es| ensures g[j] == es[j] {
    }
  }

  lemma JoinedIsGone(s: Sys, t: Tid, child: Tid)
    ensures !Live(Step(s, Join(t, child)), child)
  {
  }

  /** A thread that is there has not been joined, and neither has one that has not started. */
  lemma {:induction false} LiveIsUnjoined(es: seq<Event>, t: Tid)
    requires WellFormed(es)
    ensures Live(Run(es), t) || t !in Run(es).started ==> Unjoined(es, t)
  {
    if es != [] {
      var n := |es| - 1;
      assert es == es[..n] + [es[n]];
      LiveIsUnjoined(es[..n], t);
      UnjoinedSnoc(es[..n], es[n], t);
      RunKeepsInv(es[..n]);
      StepStarts(Run(es[..n]), es[n], t);
      if es[n].Join? {
        JoinedIsGone(Run(es[..n]), es[n].t, es[n].child);
      }
    }
  }

  predicate HasStarted(es: seq<Event>, t: Tid) {
    exists e :: e in es && e.Start? && e.t == t
  }

  lemma StartedSnoc(es: seq<Event>, e: Event, t: Tid)
    ensures HasStarted(es + [e], t) <==> HasStarted(es, t) || (e.Start? && e.t == t)
  {
  }

  /** The threads that have a clock are those that have started and not been joined. */
  lemma {:induction false} LiveThreadsAre(es: seq<Event>, t: Tid)
    requires WellFormed(es)
    ensures t in Run(es).started <==> HasStarted(es, t)
    ensures Live(Run(es), t) <==> HasStarted(es, t) && Unjoined(es, t)
  {
    if es != [] {
      var n := |es| - 1;
      assert es == es[..n] + [es[n]];
      LiveThreadsAre(es[..n], t);
      StartedSnoc(es[..n], es[n], t);
      UnjoinedSnoc(es[..n], es[n], t);
      LiveIsUnjoined(es[..n], t);
      StepStarts(Run(es[..n]), es[n], t);
      StepKeys(Run(es[..n]), es[n], Thr(t));
    }
  }

  /** Thread `t` has begun a wait on condition `a` and not ended it. */
  predicate WaitsOn(es: seq<Event>, t: Tid, a: Addr) {
    es != []
    && (var e := es[|es| - 1];
        e == PreWait(t, a) || (e != PostWait(t, a) && WaitsOn(es[..|es| - 1], t, a)))
  }

  /** A notification reaches exactly the threads that wait. */
  lemma {:induction false} WaitersHaveBegun(es: seq<Event>, t: Tid, a: Addr)
    requires WellFormed(es)
    ensures t in Waiters(Run(es), a) <==> WaitsOn(es, t, a)
  {
    WaitersAre(Run(es), a, t);
    if es != [] {
      var n := |es| - 1;
      WaitersHaveBegun(es[..n], t, a);
      WaitersAre(Run(es[..n]), a, t);
      StepKeys(Run(es[..n]), es[n], CondWait(a, t));
    }
  }
}
