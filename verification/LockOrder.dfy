/**
  What locks order, and what is left when a run is stripped of its lock events.

    `CommonLockOrders`  Of two conflicting accesses made under the same lock, a mutex or a rwlock held
                        to read or to write, the later one knows the earlier: the first thread gives
                        the lock up in between, and the lock's clock carries what it knew.
                        `PassesMutex`, `PassesRwLock` and `PassesFromReader` say where the access is
                        meanwhile.
    `ThinnedIsUnder`    The run without the lock events is again a run of the machine. It makes the
                        same accesses, and every clock of it knows at most what the clock of the
                        whole run knows. `Under` relates the two states, step by step.

  Both are about locks that are used with discipline: a mutex by one thread at a time, and a rwlock
  not read-locked while a writer holds it.
 */
module LockOrder {
  import opened Clocks
  import opened History
  import opened Machine
  import opened MachineProofs
  import opened RwSessions
  import opened Frames
  import opened EventGraph = HappensBefore
  import Eraser
  import Verdicts

  // ----- The lockset of a thread

  predicate LocksWrite(e: Event, t: Tid) {
    (e.Lock? || e.WrLock?) && e.t == t
  }

  predicate Unlocks(e: Event, t: Tid) {
    (e.Unlock? || e.RwUnlock?) && e.t == t
  }

  /** The mutexes and the rwlocks held to write, as the lockset of writes. */
  function Held(es: seq<Event>, t: Tid): set<Addr> {
    if es == [] then {}
    else
      var e, before := es[|es| - 1], Held(es[..|es| - 1], t);
      if LocksWrite(e, t) then before + {e.a} else if Unlocks(e, t) then before - {e.a} else before
  }

  /** The rwlocks held to read, as the lockset that reads count besides. */
  function ReadHeld(es: seq<Event>, t: Tid): set<Addr> {
    if es == [] then {}
    else
      var e, before := es[|es| - 1], ReadHeld(es[..|es| - 1], t);
      if e.RdLock? && e.t == t then before + {e.a} else if e.RwUnlock? && e.t == t then before - {e.a} else before
  }

  /** Thread `t` took lock `a` at event `p`, to write or to read, and has not unlocked it since. */
  ghost predicate TookAt(es: seq<Event>, t: Tid, a: Addr, p: nat, write: bool) {
    && p < |es| && es[p].t == t
    && (if write then es[p] == Lock(t, a) || es[p] == WrLock(t, a) else es[p] == RdLock(t, a))
    && forall i :: p < i < |es| ==> es[i] != RwUnlock(t, a) && (write ==> es[i] != Unlock(t, a))
  }

  lemma TookSnoc(es: seq<Event>, e: Event, t: Tid, a: Addr, p: nat, write: bool)
    ensures TookAt(es + [e], t, a, p, write) <==>
            if p < |es| then TookAt(es, t, a, p, write) && e != RwUnlock(t, a) && (write ==> e != Unlock(t, a))
            else p == |es| && (if write then e == Lock(t, a) || e == WrLock(t, a) else e == RdLock(t, a))
  {
    var g := es + [e];
    assert g[|es|] == e && forall i :: 0 <= i < |es| ==> g[i] == es[i];
  }

  /** The locksets hold exactly the locks that were taken and not unlocked since, in either mode. */
  lemma {:induction false} LocksetsAre(es: seq<Event>, t: Tid, a: Addr)
    ensures a in Held(es, t) <==> exists p: nat :: TookAt(es, t, a, p, true)
    ensures a in ReadHeld(es, t) <==> exists p: nat :: TookAt(es, t, a, p, false)
  {
    if es != [] {
      var n := |es| - 1;
      assert es == es[..n] + [es[n]];
      LocksetsAre(es[..n], t, a);
      LocksetMoves(es[..n], es[n], t, a, true);
      LocksetMoves(es[..n], es[n], t, a, false);
    }
  }

  lemma LocksetMoves(es: seq<Event>, e: Event, t: Tid, a: Addr, write: bool)
    ensures (exists p: nat :: TookAt(es + [e], t, a, p, write)) <==>
            || (if write then e == Lock(t, a) || e == WrLock(t, a) else e == RdLock(t, a))
            || ((exists p: nat :: TookAt(es, t, a, p, write)) && e != RwUnlock(t, a) && (write ==> e != Unlock(t, a)))
  {
    forall p: nat
      ensures TookAt(es + [e], t, a, p, write) <==>
              if p < |es| then TookAt(es, t, a, p, write) && e != RwUnlock(t, a) && (write ==> e != Unlock(t, a))
              else p == |es| && (if write then e == Lock(t, a) || e == WrLock(t, a) else e == RdLock(t, a))
    {
      TookSnoc(es, e, t, a, p, write);
    }
    if p: nat :| TookAt(es, t, a, p, write) {
      assert p < |es|;
    }
    TookSnoc(es, e, t, a, |es|, write);
  }

  /** The locks that count at an access. */
  function Counting(es: seq<Event>, t: Tid, write: bool): set<Addr> {
    if write then Held(es, t) else Held(es, t) + ReadHeld(es, t)
  }

  /** The thread that holds rwlock `a` to write, if any. */
  function Writer(es: seq<Event>, a: Addr): Tid {
    if es == [] then NO_THREAD
    else
      var e := es[|es| - 1];
      if e.WrLock? && e.a == a then e.t
      else if Releases(e, a) then NO_THREAD
      else Writer(es[..|es| - 1], a)
  }

  /** A mutex is locked by one thread at a time and unlocked by that thread. */
  ghost predicate MutexDisciplined(es: seq<Event>, a: Addr) {
    es == []
    || (var pre, e := es[..|es| - 1], es[|es| - 1];
        && MutexDisciplined(pre, a)
        && (e.Lock? && e.a == a ==> forall u :: u != e.t ==> Eraser.Depth(pre, u, a) == 0)
        && (e.Unlock? && e.a == a ==> Eraser.Depth(pre, e.t, a) > 0))
  }

  /** A rwlock is not read-locked while a writer holds it, and is released by its holders. */
  predicate RwDisciplined(es: seq<Event>, a: Addr) {
    && Disciplined(es, a)
    && (es == []
        || (var pre, e := es[..|es| - 1], es[|es| - 1];
            RwDisciplined(pre, a) && (e.RdLock? && e.a == a ==> Writer(pre, a) == NO_THREAD)))
  }

  ghost predicate LocksDisciplined(es: seq<Event>) {
    forall a {:trigger Eraser.IsMutex(es, a)} ::
      (Eraser.IsMutex(es, a) && MutexDisciplined(es, a)) || (Eraser.IsRwLock(es, a) && RwDisciplined(es, a))
  }

  lemma {:induction false} HeldMutexIsLocked(es: seq<Event>, t: Tid, a: Addr)
    requires Eraser.IsMutex(es, a) && a in Held(es, t)
    ensures Eraser.Depth(es, t, a) > 0
  {
    var n := |es| - 1;
    assert es[n] in es;
    if a in Held(es[..n], t) {
      HeldMutexIsLocked(es[..n], t, a);
    }
  }

  /** A writer is the only holder. */
  lemma {:induction false} WriterIsAlone(es: seq<Event>, a: Addr)
    requires WellFormed(es) && RwDisciplined(es, a)
    ensures Writer(es, a) != NO_THREAD ==> Holders(es, a) == multiset{Writer(es, a)}
  {
    if es != [] {
      var n := |es| - 1;
      WriterIsAlone(es[..n], a);
      HoldersAreCounted(es[..n], a);
      if es[n].WrLock? && es[n].a == a {
        assert |Holders(es[..n], a)| == 0;
        assert Holders(es[..n], a) == multiset{};
      }
    }
  }

  /** A writer stays the writer until it releases the lock. */
  lemma WriterStays(es: seq<Event>, t: Tid, a: Addr)
    requires es != [] && WellFormed(es) && RwDisciplined(es, a) && Writer(es[..|es| - 1], a) == t && t > 0
    requires es[|es| - 1] != RwUnlock(t, a)
    ensures Writer(es, a) == t
  {
    var pre, e := es[..|es| - 1], es[|es| - 1];
    WriterIsAlone(pre, a);
    HoldersAreCounted(pre, a);
    assert |Holders(pre, a)| == 1;
  }

  lemma HeldBefore(es: seq<Event>, t: Tid, a: Addr)
    requires es != [] && a in Held(es, t) && Eraser.IsRwLock(es, a) && es[|es| - 1] != WrLock(t, a)
    ensures a in Held(es[..|es| - 1], t) && es[|es| - 1] != RwUnlock(t, a)
  {
    assert es[|es| - 1] in es;
  }

  lemma WriterIsThread(s: Sys, t: Tid, a: Addr)
    requires Inv(s) && Enabled(s, WrLock(t, a))
    ensures t > 0
  {
  }

  lemma {:induction false} HeldRwLockIsWritten(es: seq<Event>, t: Tid, a: Addr)
    requires WellFormed(es) && Eraser.IsRwLock(es, a) && RwDisciplined(es, a) && a in Held(es, t)
    ensures Writer(es, a) == t && t > 0
  {
    var n := |es| - 1;
    if es[n] == WrLock(t, a) {
      RunKeepsInv(es[..n]);
      WriterIsThread(Run(es[..n]), t, a);
    } else {
      HeldBefore(es, t, a);
      assert forall e :: e in es[..n] ==> e in es;
      HeldRwLockIsWritten(es[..n], t, a);
      WriterStays(es, t, a);
    }
  }

  lemma {:induction false} MutexIsNotRead(es: seq<Event>, t: Tid, a: Addr)
    requires Eraser.IsMutex(es, a)
    ensures a !in ReadHeld(es, t)
  {
    if es != [] {
      assert es[|es| - 1] in es;
      assert forall e :: e in es[..|es| - 1] ==> e in es;
      MutexIsNotRead(es[..|es| - 1], t, a);
    }
  }

  /** A reader holds the lock, and no writer does. */
  lemma {:induction false} ReadHeldExcludesWriter(es: seq<Event>, t: Tid, a: Addr)
    requires WellFormed(es) && RwDisciplined(es, a) && a in ReadHeld(es, t)
    ensures t in Holders(es, a) && Writer(es, a) == NO_THREAD
  {
    var pre, e := es[..|es| - 1], es[|es| - 1];
    HoldersAreCounted(pre, a);
    if e != RdLock(t, a) {
      ReadHeldExcludesWriter(pre, t, a);
      assert |Holders(pre, a)| > 0;
    }
  }

  // ----- What passes through a mutex

  /** A live thread knows its own accesses. */
  lemma OwnAccessesKnown(s: Sys, i: nat)
    requires Inv(s) && i < |s.hist| && Live(s, s.hist[i].t)
    ensures i in At(s, Thr(s.hist[i].t)).past
  {
    var t := s.hist[i].t;
    assert Leq(s.hist[i].vc, s.know[Thr(t)].vc);
    assert Knows(s.know[Thr(t)], s.hist[i]);
  }

  lemma MutexPastAfter(s: Sys, e: Event, a: Addr)
    requires Enabled(s, e) && (e.Start? ==> Thr(e.t) !in s.know)
    ensures At(Step(s, e), Mutex(a)).past == if e.Unlock? && e.a == a then At(s, Thr(e.t)).past else At(s, Mutex(a)).past
  {
    StepFlow(s, e, Mutex(a));
    if e.Unlock? {
      ReadPastOfOne(s, e, Thr(e.t));
    }
  }

  lemma LockerLearns(s: Sys, t: Tid, a: Addr)
    ensures At(s, Mutex(a)).past <= At(Step(s, Lock(t, a)), Thr(t)).past
  {
  }

  lemma StartsAreNew(s: Sys, e: Event)
    requires Inv(s) && Enabled(s, e)
    ensures e.Start? ==> Thr(e.t) !in s.know
  {
  }

  /** Live holders of the mutex know its clock. */
  ghost predicate MutexHoldersKnow(es: seq<Event>, a: Addr) {
    forall t :: Eraser.Depth(es, t, a) > 0 && Live(Run(es), t) ==> At(Run(es), Mutex(a)).past <= At(Run(es), Thr(t)).past
  }

  lemma {:induction false} HoldersKnowMutex(es: seq<Event>, a: Addr)
    requires WellFormed(es) && MutexDisciplined(es, a)
    ensures MutexHoldersKnow(es, a)
  {
    if es != [] {
      HoldersKnowMutex(es[..|es| - 1], a);
      forall t | Eraser.Depth(es, t, a) > 0 && Live(Run(es), t)
        ensures At(Run(es), Mutex(a)).past <= At(Run(es), Thr(t)).past
      {
        HolderKnowsMutex(es, a, t);
      }
    }
  }

  lemma HolderKnowsMutex(es: seq<Event>, a: Addr, t: Tid)
    requires es != [] && WellFormed(es) && MutexDisciplined(es, a) && MutexHoldersKnow(es[..|es| - 1], a)
    requires Eraser.Depth(es, t, a) > 0 && Live(Run(es), t)
    ensures At(Run(es), Mutex(a)).past <= At(Run(es), Thr(t)).past
  {
    var pre, e := es[..|es| - 1], es[|es| - 1];
    var s := Run(pre);
    RunKeepsInv(pre);
    StartsAreNew(s, e);
    MutexPastAfter(s, e, a);
    if e == Lock(t, a) {
      LockerLearns(s, t, a);
    } else {
      DepthBefore(es, t, a);
      StepStarts(s, e, t);
      UnstartedHoldsNothing(pre, t, a);
      StepGrowsThreads(s, e, t);
      if e.Unlock? && e.a == a && e.t != t {
        OneMutexHolder(pre, e.t, t, a);
      }
    }
  }

  lemma DepthBefore(es: seq<Event>, t: Tid, a: Addr)
    requires es != [] && Eraser.Depth(es, t, a) > 0 && es[|es| - 1] != Lock(t, a)
    ensures Eraser.Depth(es[..|es| - 1], t, a) > 0
  {
  }

  lemma {:induction false} UnstartedHoldsNothing(es: seq<Event>, t: Tid, a: Addr)
    requires WellFormed(es) && Eraser.Depth(es, t, a) > 0
    ensures t in Run(es).started
  {
    var pre, e := es[..|es| - 1], es[|es| - 1];
    RunKeepsInv(pre);
    StepStarts(Run(pre), e, t);
    if e != Lock(t, a) {
      DepthBefore(es, t, a);
      UnstartedHoldsNothing(pre, t, a);
    }
  }

  lemma {:induction false} OneMutexHolder(es: seq<Event>, t: Tid, u: Tid, a: Addr)
    requires MutexDisciplined(es, a) && t != u && Eraser.Depth(es, t, a) > 0
    ensures Eraser.Depth(es, u, a) == 0
  {
    var pre, e := es[..|es| - 1], es[|es| - 1];
    if e != Lock(t, a) {
      DepthBefore(es, t, a);
      OneMutexHolder(pre, t, u, a);
    }
  }

  /** Access `i`, made by `t1`, has passed to mutex `a`, or `t1` still holds the mutex; later holders know it. */
  ghost predicate PassesMutex(es: seq<Event>, i: nat, t1: Tid, a: Addr) {
    && (Eraser.Depth(es, t1, a) > 0 || i in At(Run(es), Mutex(a)).past)
    && forall t :: t != t1 && Eraser.Depth(es, t, a) > 0 && Live(Run(es), t) ==> i in At(Run(es), Thr(t)).past
  }

  lemma MutexStep(es: seq<Event>, i: nat, a: Addr)
    requires es != [] && WellFormed(es) && MutexDisciplined(es, a)
    requires i < |Run(es[..|es| - 1]).hist|
    requires PassesMutex(es[..|es| - 1], i, Run(es[..|es| - 1]).hist[i].t, a)
    ensures PassesMutex(es, i, Run(es[..|es| - 1]).hist[i].t, a)
  {
    var pre, e := es[..|es| - 1], es[|es| - 1];
    var s := Run(pre);
    var t1 := s.hist[i].t;
    RunKeepsInv(pre);
    StartsAreNew(s, e);
    MutexPastAfter(s, e, a);
    if e.Unlock? && e.a == a && e.t == t1 {
      OwnAccessesKnown(s, i);
    }
    forall t | t != t1 && Eraser.Depth(es, t, a) > 0 && Live(Run(es), t) ensures i in At(Run(es), Thr(t)).past {
      if e == Lock(t, a) {
        LockerLearns(s, t, a);
      } else {
        DepthBefore(es, t, a);
        StepStarts(s, e, t);
        UnstartedHoldsNothing(pre, t, a);
        StepGrowsThreads(s, e, t);
      }
    }
  }

  // ----- What passes through a rwlock

  ghost predicate PassesRwLock(es: seq<Event>, i: nat, t1: Tid, a: Addr) {
    Writer(es, a) == t1 || i in At(Run(es), RwVc(a)).past
  }

  lemma WriterReleases(s: Sys, t: Tid, a: Addr, i: nat)
    requires i in At(s, Thr(t)).past && Count(s.refs, a) == 1 && Enabled(s, RwUnlock(t, a))
    ensures i in At(Step(s, RwUnlock(t, a)), RwVc(a)).past
  {
    ReleaseGathers(s, t, a);
  }

  lemma RwLockStep(es: seq<Event>, i: nat, a: Addr)
    requires es != [] && WellFormed(es) && RwDisciplined(es, a)
    requires i < |Run(es[..|es| - 1]).hist|
    requires PassesRwLock(es[..|es| - 1], i, Run(es[..|es| - 1]).hist[i].t, a)
    ensures PassesRwLock(es, i, Run(es[..|es| - 1]).hist[i].t, a)
  {
    var pre, e := es[..|es| - 1], es[|es| - 1];
    var s := Run(pre);
    var t1 := s.hist[i].t;
    RunKeepsInv(pre);
    WriterIsAlone(pre, a);
    HoldersAreCounted(pre, a);
    if i in At(s, RwVc(a)).past {
      LockClockGrows(es, a);
    } else if Releases(e, a) {
      assert e.t in Holders(pre, a) && t1 in s.started;
      OwnAccessesKnown(s, i);
      WriterReleases(s, t1, a, i);
    }
  }

  /** Access `i`, made by `t1` as a reader, is in the lock's clock, or on its way there while no writer holds the lock. */
  ghost predicate PassesFromReader(es: seq<Event>, i: nat, t1: Tid, a: Addr) {
    || i in At(Run(es), RwVc(a)).past
    || (Writer(es, a) == NO_THREAD
        && (t1 in Holders(es, a) || (i in At(Run(es), RwWait(a)).past && Count(Run(es).refs, a) > 0)))
  }

  lemma GatheredOrClosed(s: Sys, t: Tid, a: Addr, i: nat)
    requires Enabled(s, RwUnlock(t, a)) && (i in At(s, Thr(t)).past || i in At(s, RwWait(a)).past)
    ensures var s1 := Step(s, RwUnlock(t, a));
            i in At(s1, RwVc(a)).past || (i in At(s1, RwWait(a)).past && Count(s1.refs, a) > 0)
  {
    ReleaseGathers(s, t, a);
    RefsCounted(s, RwUnlock(t, a), a);
  }

  lemma ReaderStep(es: seq<Event>, i: nat, a: Addr)
    requires es != [] && WellFormed(es) && RwDisciplined(es, a)
    requires i < |Run(es[..|es| - 1]).hist|
    requires PassesFromReader(es[..|es| - 1], i, Run(es[..|es| - 1]).hist[i].t, a)
    ensures PassesFromReader(es, i, Run(es[..|es| - 1]).hist[i].t, a)
  {
    var pre, e := es[..|es| - 1], es[|es| - 1];
    var s := Run(pre);
    var t1 := s.hist[i].t;
    RunKeepsInv(pre);
    if i in At(s, RwVc(a)).past {
      LockClockGrows(es, a);
    } else if Releases(e, a) && (e.t == t1 || i in At(s, RwWait(a)).past) {
      if e.t == t1 {
        OwnAccessesKnown(s, i);
      }
      GatheredOrClosed(s, e.t, a, i);
    } else {
      HoldersAreCounted(pre, a);
      RwClockKept(s, e, a);
      RefsCounted(s, e, a);
    }
  }

  // ----- Accesses under a common lock are ordered

  lemma HistoryKept(es: seq<Event>, i: nat)
    requires es != [] && i < |Run(es[..|es| - 1]).hist|
    ensures i < |Run(es).hist| && Run(es).hist[i] == Run(es[..|es| - 1]).hist[i]
  {
    StepHist(Run(es[..|es| - 1]), es[|es| - 1]);
  }

  lemma AccessMade(es: seq<Event>)
    requires es != [] && es[|es| - 1].Mem?
    ensures var i := |Run(es[..|es| - 1]).hist|; i < |Run(es).hist| && Run(es).hist[i].t == es[|es| - 1].t
  {
    StepHist(Run(es[..|es| - 1]), es[|es| - 1]);
  }

  /** The access that event `p` makes under lock `a` is carried by the lock for the rest of the run. */
  lemma {:induction false} PassesMutexTo(es: seq<Event>, p: nat, a: Addr)
    requires WellFormed(es) && MutexDisciplined(es, a) && Eraser.IsMutex(es, a)
    requires p < |es| && es[p].Mem? && a in Held(es[..p], es[p].t)
    ensures var i := |Run(es[..p]).hist|;
            i < |Run(es).hist| && Run(es).hist[i].t == es[p].t && PassesMutex(es, i, es[p].t, a)
  {
    var n := |es| - 1;
    if p == n {
      AccessMade(es);
      JustAccessedUnderMutex(es, a);
    } else {
      assert es[..n][..p] == es[..p] && es[..n][p] == es[p];
      PassesMutexTo(es[..n], p, a);
      HistoryKept(es, |Run(es[..p]).hist|);
      MutexStep(es, |Run(es[..p]).hist|, a);
    }
  }

  lemma {:induction false} DisciplinedPrefix(es: seq<Event>, n: nat, a: Addr)
    requires n <= |es|
    ensures MutexDisciplined(es, a) ==> MutexDisciplined(es[..n], a)
    ensures RwDisciplined(es, a) ==> RwDisciplined(es[..n], a)
  {
    if n == |es| {
      assert es[..n] == es;
    } else {
      assert es[..|es| - 1][..n] == es[..n];
      DisciplinedPrefix(es[..|es| - 1], n, a);
    }
  }

  lemma JustAccessedUnderMutex(es: seq<Event>, a: Addr)
    requires es != [] && es[|es| - 1].Mem? && MutexDisciplined(es, a) && Eraser.IsMutex(es, a)
    requires a in Held(es[..|es| - 1], es[|es| - 1].t)
    ensures PassesMutex(es, |Run(es[..|es| - 1]).hist|, es[|es| - 1].t, a)
  {
    var pre, t := es[..|es| - 1], es[|es| - 1].t;
    HeldMutexIsLocked(pre, t, a);
    forall u | u != t ensures Eraser.Depth(es, u, a) == 0 {
      OneMutexHolder(pre, t, u, a);
    }
  }

  lemma {:induction false} PassesRwLockTo(es: seq<Event>, p: nat, a: Addr)
    requires WellFormed(es) && RwDisciplined(es, a) && Eraser.IsRwLock(es, a)
    requires p < |es| && es[p].Mem? && a in Held(es[..p], es[p].t)
    ensures var i := |Run(es[..p]).hist|;
            i < |Run(es).hist| && Run(es).hist[i].t == es[p].t && PassesRwLock(es, i, es[p].t, a)
  {
    var n := |es| - 1;
    if p == n {
      AccessMade(es);
      HeldRwLockIsWritten(es[..n], es[p].t, a);
    } else {
      assert es[..n][..p] == es[..p] && es[..n][p] == es[p];
      PassesRwLockTo(es[..n], p, a);
      HistoryKept(es, |Run(es[..p]).hist|);
      RwLockStep(es, |Run(es[..p]).hist|, a);
    }
  }

  lemma {:induction false} PassesFromReaderTo(es: seq<Event>, p: nat, a: Addr)
    requires WellFormed(es) && RwDisciplined(es, a)
    requires p < |es| && es[p].Mem? && a in ReadHeld(es[..p], es[p].t)
    ensures var i := |Run(es[..p]).hist|;
            i < |Run(es).hist| && Run(es).hist[i].t == es[p].t && PassesFromReader(es, i, es[p].t, a)
  {
    var n := |es| - 1;
    if p == n {
      AccessMade(es);
      ReadHeldExcludesWriter(es[..n], es[p].t, a);
    } else {
      assert es[..n][..p] == es[..p] && es[..n][p] == es[p];
      PassesFromReaderTo(es[..n], p, a);
      HistoryKept(es, |Run(es[..p]).hist|);
      ReaderStep(es, |Run(es[..p]).hist|, a);
    }
  }

  lemma CommonMutexOrders(run: seq<Event>, p: nat, t: Tid, a: Addr)
    requires WellFormed(run) && Eraser.IsMutex(run, a) && MutexDisciplined(run, a)
    requires p < |run| && run[p].Mem? && run[p].t != t && Live(Run(run), t)
    requires a in Held(run[..p], run[p].t) && a in Held(run, t)
    ensures |Run(run[..p]).hist| in At(Run(run), Thr(t)).past
  {
    PassesMutexTo(run, p, a);
    HeldMutexIsLocked(run, t, a);
  }

  lemma HolderLearns(run: seq<Event>, i: nat, t: Tid, a: Addr)
    requires WellFormed(run) && Disciplined(run, a) && t in Holders(run, a) && Live(Run(run), t)
    requires i in At(Run(run), RwVc(a)).past
    ensures i in At(Run(run), Thr(t)).past
  {
    LiveHoldersKnow(run, a);
  }

  /** A write lock orders against both kinds of holders. */
  lemma CommonRwLockOrders(run: seq<Event>, p: nat, t: Tid, write: bool, a: Addr)
    requires WellFormed(run) && Eraser.IsRwLock(run, a) && RwDisciplined(run, a)
    requires p < |run| && run[p].Mem? && run[p].t != t && Live(Run(run), t) && (run[p].write || write)
    requires a in Counting(run[..p], run[p].t, run[p].write) && a in Counting(run, t, write)
    ensures |Run(run[..p]).hist| in At(Run(run), Thr(t)).past
  {
    var i := |Run(run[..p]).hist|;
    WriterIsAlone(run, a);
    if a in Held(run, t) {
      HeldRwLockIsWritten(run, t, a);
    } else {
      ReadHeldExcludesWriter(run, t, a);
    }
    if a in Held(run[..p], run[p].t) {
      PassesRwLockTo(run, p, a);
      WellFormedPrefix(run, p);
      WriterIsThreadAt(run, p, a);
    } else {
      PassesFromReaderTo(run, p, a);
    }
    HolderLearns(run, i, t, a);
  }

  lemma WriterIsThreadAt(run: seq<Event>, p: nat, a: Addr)
    requires WellFormed(run) && Eraser.IsRwLock(run, a) && RwDisciplined(run, a)
    requires p < |run| && run[p].Mem? && a in Held(run[..p], run[p].t)
    ensures run[p].t > 0
  {
    WellFormedPrefix(run, p);
    DisciplinedPrefix(run, p, a);
    HeldRwLockIsWritten(run[..p], run[p].t, a);
  }

  /** The access of event `p` is known at event `q` of another thread, if both are made under lock `a`. */
  lemma CommonLockOrders(es: seq<Event>, p: nat, q: nat, a: Addr)
    requires WellFormed(es) && LocksDisciplined(es) && p < q < |es| && es[p].Mem? && es[q].Mem?
    requires es[p].t != es[q].t && (es[p].write || es[q].write)
    requires a in Counting(es[..p], es[p].t, es[p].write) && a in Counting(es[..q], es[q].t, es[q].write)
    ensures |Run(es[..p]).hist| in At(Run(es[..q]), Thr(es[q].t)).past
  {
    var t, run := es[q].t, es[..q];
    assert run[..p] == es[..p];
    WellFormedPrefix(es, q);
    DisciplinedPrefix(es, q, a);
    if Eraser.IsMutex(es, a) && MutexDisciplined(es, a) {
      MutexIsNotRead(es[..p], es[p].t, a);
      MutexIsNotRead(run, t, a);
      CommonMutexOrders(run, p, t, a);
    } else {
      assert Eraser.IsRwLock(es, a) && RwDisciplined(es, a);
      CommonRwLockOrders(run, p, t, es[q].write, a);
    }
  }

  // ----- The run without lock events

  predicate IsRw(e: Event) {
    e.RdLock? || e.WrLock? || e.RwUnlock?
  }

  /**
    `fs` is `es` without the events of rwlocks and without some lock and unlock events: those that
    are part of a condition wait still act on the clocks.
   */
  predicate Thinned(es: seq<Event>, fs: seq<Event>) {
    if es == [] then fs == []
    else
      var pre, e := es[..|es| - 1], es[|es| - 1];
      || (!IsRw(e) && fs != [] && fs[|fs| - 1] == e && Thinned(pre, fs[..|fs| - 1]))
      || ((IsRw(e) || e.Lock? || e.Unlock?) && Thinned(pre, fs))
  }

  ghost predicate PastsUnder(b: Sys, s: Sys) {
    && (forall l :: At(b, l).past <= At(s, l).past)
    && (forall a :: At(b, RwVc(a)).past == {} && At(b, RwWait(a)).past == {})
  }

  ghost predicate SameEntries(b: Sys, s: Sys) {
    forall l :: IsWait(l) ==> (l in b.know <==> l in s.know)
  }

  ghost predicate HistoriesUnder(b: Sys, s: Sys) {
    && |b.hist| == |s.hist| == |b.before| == |s.before|
    && forall i :: 0 <= i < |b.hist| ==>
         b.hist[i].t == s.hist[i].t && b.hist[i].x == s.hist[i].x && b.hist[i].write == s.hist[i].write
         && b.before[i] <= s.before[i]
  }

  /** The thinner run knows less, and is otherwise in the same state. */
  ghost predicate Under(b: Sys, s: Sys) {
    && PastsUnder(b, s) && SameEntries(b, s) && HistoriesUnder(b, s)
    && b.open == s.open && b.started == s.started && b.waiter == s.waiter
  }

  lemma WaiterAfter(s: Sys, e: Event)
    ensures Step(s, e).waiter ==
            if e.PreBarrier? then s.waiter[e.a := Count(s.waiter, e.a) + 1]
            else if e.PostBarrier? then s.waiter[e.a := Count(s.waiter, e.a) - 1]
            else s.waiter
  {
    if e.Notify? {
      var ws := Waiters(s, e.a);
      WaitersKeepCount(s, e.t, e.a, ws);
      WaitersKeepCount(JoinWaiters(s, e.t, e.a, ws), e.t, e.a, ws);
    }
  }

  lemma UnderEnabled(b: Sys, s: Sys, e: Event)
    requires Under(b, s) && Enabled(s, e) && !IsRw(e)
    ensures Enabled(b, e)
  {
    forall l | IsWait(l) ensures l in b.know <==> l in s.know {
    }
  }

  lemma UnderReads(b: Sys, s: Sys, e: Event)
    requires Under(b, s) && !IsRw(e)
    ensures Reads(b, e) == Reads(s, e) && ReadPast(b, e) <= ReadPast(s, e)
  {
    assert forall l: Loc :: l.CondWait? ==> IsWait(l);
    assert Reads(b, e) == Reads(s, e);
  }

  lemma UnderEffect(b: Sys, s: Sys, e: Event, l: Loc)
    requires Under(b, s) && !IsRw(e)
    ensures EffectOf(b, e, l) == EffectOf(s, e, l)
    ensures (l.RwVc? || l.RwWait?) ==> EffectOf(b, e, l) == Keep
  {
    if l.CondSig? {
      assert IsWait(CondWait(l.a, l.t));
    }
  }

  /** What an effect makes of a mailbox, given what is in it, in the one it may be replaced by, and in the event. */
  function ByEffect(f: Effect, here: set<nat>, there: set<nat>, read: set<nat>): set<nat> {
    match f
    case Keep => here
    case Empty => {}
    case Put => here + read
    case Replace => read
    case ReplaceWith(l) => there + read
  }

  function There(s: Sys, f: Effect): set<nat> {
    if f.ReplaceWith? then At(s, f.l).past else {}
  }

  lemma PastByEffect(s: Sys, e: Event, l: Loc)
    ensures PastAfter(s, e, l) == ByEffect(EffectOf(s, e, l), At(s, l).past, There(s, EffectOf(s, e, l)), ReadPast(s, e))
  {
    var f := EffectOf(s, e, l);
    assert PastAfter(s, e, l) == match f
      case Keep => At(s, l).past
      case Empty => {}
      case Put => At(s, l).past + ReadPast(s, e)
      case Replace => ReadPast(s, e)
      case ReplaceWith(l1) => At(s, l1).past + ReadPast(s, e);
  }

  lemma ByEffectGrows(f: Effect, here: set<nat>, there: set<nat>, read: set<nat>,
          here1: set<nat>, there1: set<nat>, read1: set<nat>)
    requires here <= here1 && there <= there1 && read <= read1
    ensures ByEffect(f, here, there, read) <= ByEffect(f, here1, there1, read1)
  {
  }

  lemma UnderPast(b: Sys, s: Sys, e: Event, l: Loc)
    requires Under(b, s) && !IsRw(e) && Enabled(s, e) && Enabled(b, e) && Inv(s) && Inv(b)
    ensures At(Step(b, e), l).past <= At(Step(s, e), l).past
    ensures (l.RwVc? || l.RwWait?) ==> At(Step(b, e), l).past == {}
  {
    UnderReads(b, s, e);
    UnderEffect(b, s, e, l);
    var f := EffectOf(s, e, l);
    PastOfStep(b, e, l, f);
    PastOfStep(s, e, l, f);
    ByEffectGrows(f, At(b, l).past, There(b, f), ReadPast(b, e), At(s, l).past, There(s, f), ReadPast(s, e));
  }

  lemma PastOfStep(s: Sys, e: Event, l: Loc, f: Effect)
    requires Enabled(s, e) && Inv(s) && f == EffectOf(s, e, l)
    ensures At(Step(s, e), l).past == ByEffect(f, At(s, l).past, There(s, f), ReadPast(s, e))
  {
    StartsAreNew(s, e);
    StepFlow(s, e, l);
    PastByEffect(s, e, l);
  }

  lemma UnderKeys(b: Sys, s: Sys, e: Event, l: Loc)
    requires Under(b, s) && Enabled(s, e) && Enabled(b, e) && IsWait(l)
    ensures l in Step(b, e).know <==> l in Step(s, e).know
  {
    StepKeys(b, e, l);
    StepKeys(s, e, l);
    if l.CondSig? {
      assert IsWait(CondWait(l.a, l.t));
    }
  }

  lemma OpenSame(b: Sys, s: Sys, e: Event, t: Tid)
    requires b.open == s.open && Inv(b) && Inv(s) && Enabled(b, e) && Enabled(s, e) && Inv(Step(b, e)) && Inv(Step(s, e))
    ensures t in Step(b, e).open <==> t in Step(s, e).open
  {
    OpenAfter(b, e, t);
    OpenAfter(s, e, t);
  }

  lemma StartedSame(b: Sys, s: Sys, e: Event, t: Tid)
    requires b.started == s.started && Enabled(b, e) && Enabled(s, e)
    ensures t in Step(b, e).started <==> t in Step(s, e).started
  {
    StepStarts(b, e, t);
    StepStarts(s, e, t);
  }

  lemma SameThreads(b1: Sys, s1: Sys)
    requires forall t :: (t in b1.open <==> t in s1.open) && (t in b1.started <==> t in s1.started)
    ensures b1.open == s1.open && b1.started == s1.started
  {
  }

  lemma StepThreads(b: Sys, s: Sys, e: Event)
    requires b.open == s.open && b.started == s.started && Inv(b) && Inv(s) && Enabled(b, e) && Enabled(s, e)
    ensures Step(b, e).open == Step(s, e).open && Step(b, e).started == Step(s, e).started
  {
    StepKeepsInv(b, e);
    StepKeepsInv(s, e);
    forall t
      ensures t in Step(b, e).open <==> t in Step(s, e).open
      ensures t in Step(b, e).started <==> t in Step(s, e).started
    {
      OpenSame(b, s, e, t);
      StartedSame(b, s, e, t);
    }
    SameThreads(Step(b, e), Step(s, e));
  }

  /** A thread is live and open after an event as the event and its openness before tell. */
  lemma OpenAfter(s: Sys, e: Event, t: Tid)
    requires Inv(s) && Enabled(s, e) && Inv(Step(s, e))
    ensures t in Step(s, e).open <==>
            (e.PreBarrier? && e.t == t)
            || (t in s.open && !(e.PostBarrier? && e.t == t) && !(e.Start? && e.parent == t) && !(e.Join? && e.child == t))
  {
    LiveAfter(s, e, t);
    if Live(Step(s, e), t) {
      Verdicts.StepOpens(s, e, t);
    }
  }

  lemma LiveAfter(s: Sys, e: Event, t: Tid)
    requires Inv(s) && Enabled(s, e)
    ensures Live(Step(s, e), t) <==> (e.Start? && e.t == t) || (Live(s, t) && !(e.Join? && e.child == t))
  {
    StepKeys(s, e, Thr(t));
  }

  lemma UnderHistory(b: Sys, s: Sys, e: Event)
    requires Under(b, s)
    ensures HistoriesUnder(Step(b, e), Step(s, e))
  {
    StepHist(b, e);
    StepHist(s, e);
  }

  lemma StepPasts(b: Sys, s: Sys, e: Event)
    requires Under(b, s) && !IsRw(e) && Enabled(s, e) && Enabled(b, e) && Inv(s) && Inv(b)
    ensures PastsUnder(Step(b, e), Step(s, e))
  {
    forall l ensures At(Step(b, e), l).past <= At(Step(s, e), l).past {
      UnderPast(b, s, e, l);
    }
    forall a ensures At(Step(b, e), RwVc(a)).past == {} && At(Step(b, e), RwWait(a)).past == {} {
      UnderPast(b, s, e, RwVc(a));
      UnderPast(b, s, e, RwWait(a));
    }
  }

  lemma StepEntries(b: Sys, s: Sys, e: Event)
    requires Under(b, s) && Enabled(s, e) && Enabled(b, e)
    ensures SameEntries(Step(b, e), Step(s, e))
  {
    forall l | IsWait(l) ensures l in Step(b, e).know <==> l in Step(s, e).know {
      UnderKeys(b, s, e, l);
    }
  }

  lemma StepCounts(b: Sys, s: Sys, e: Event)
    requires b.waiter == s.waiter
    ensures Step(b, e).waiter == Step(s, e).waiter
  {
    WaiterAfter(b, e);
    WaiterAfter(s, e);
  }

  /** An event that both runs handle. */
  lemma UnderStep(b: Sys, s: Sys, e: Event)
    requires Under(b, s) && !IsRw(e) && Enabled(s, e) && Enabled(b, e) && Inv(s) && Inv(b)
    ensures Under(Step(b, e), Step(s, e))
  {
    StepThreads(b, s, e);
    StepCounts(b, s, e);
    UnderHistory(b, s, e);
    StepPasts(b, s, e);
    StepEntries(b, s, e);
  }

  lemma DroppedEffect(s: Sys, e: Event, l: Loc)
    requires (IsRw(e) || e.Lock? || e.Unlock?) && !l.RwVc? && !l.RwWait? && !l.Mutex?
    ensures EffectOf(s, e, l) == Keep || EffectOf(s, e, l) == Put
  {
  }

  /** A lock event of the whole run takes nothing from what it knows. */
  lemma DroppedGrows(s: Sys, e: Event, l: Loc)
    requires Inv(s) && Enabled(s, e) && (IsRw(e) || e.Lock? || e.Unlock?) && !l.RwVc? && !l.RwWait?
    requires e.Unlock? ==> At(s, Mutex(e.a)).past <= At(s, Thr(e.t)).past
    ensures At(s, l).past <= At(Step(s, e), l).past
  {
    if l.Mutex? {
      StartsAreNew(s, e);
      MutexPastAfter(s, e, l.a);
    } else {
      var f := EffectOf(s, e, l);
      DroppedEffect(s, e, l);
      PastOfStep(s, e, l, f);
    }
  }

  lemma DroppedPasts(b: Sys, s: Sys, e: Event)
    requires Under(b, s) && (IsRw(e) || e.Lock? || e.Unlock?) && Enabled(s, e) && Inv(s)
    requires e.Unlock? ==> At(s, Mutex(e.a)).past <= At(s, Thr(e.t)).past
    ensures PastsUnder(b, Step(s, e))
  {
    forall l ensures At(b, l).past <= At(Step(s, e), l).past {
      if !l.RwVc? && !l.RwWait? {
        DroppedGrows(s, e, l);
      }
    }
  }

  lemma DroppedEntries(b: Sys, s: Sys, e: Event)
    requires Under(b, s) && (IsRw(e) || e.Lock? || e.Unlock?) && Enabled(s, e)
    ensures SameEntries(b, Step(s, e))
  {
    forall l | IsWait(l) ensures l in b.know <==> l in Step(s, e).know {
      StepKeys(s, e, l);
    }
  }

  lemma DroppedThreads(s: Sys, e: Event)
    requires (IsRw(e) || e.Lock? || e.Unlock?) && Enabled(s, e) && Inv(s)
    ensures Step(s, e).open == s.open && Step(s, e).started == s.started
  {
    StepKeepsInv(s, e);
    forall t ensures (t in Step(s, e).open <==> t in s.open) && (t in Step(s, e).started <==> t in s.started) {
      OpenAfter(s, e, t);
      StepStarts(s, e, t);
    }
    SameThreads(Step(s, e), s);
  }

  /** An event that the thinner run does not have. */
  lemma UnderDropped(b: Sys, s: Sys, e: Event)
    requires Under(b, s) && (IsRw(e) || e.Lock? || e.Unlock?) && Enabled(s, e) && Inv(s)
    requires e.Unlock? ==> At(s, Mutex(e.a)).past <= At(s, Thr(e.t)).past
    ensures Under(b, Step(s, e))
  {
    WaiterAfter(s, e);
    StepHist(s, e);
    DroppedPasts(b, s, e);
    DroppedEntries(b, s, e);
    DroppedThreads(s, e);
  }

  lemma LocksDisciplinedPrefix(es: seq<Event>)
    requires es != [] && LocksDisciplined(es)
    ensures LocksDisciplined(es[..|es| - 1])
  {
    var pre := es[..|es| - 1];
    forall a {:trigger Eraser.IsMutex(pre, a)}
      ensures (Eraser.IsMutex(pre, a) && MutexDisciplined(pre, a)) || (Eraser.IsRwLock(pre, a) && RwDisciplined(pre, a))
    {
      assert forall e :: e in pre ==> e in es;
      assert Eraser.IsMutex(es, a) || !Eraser.IsMutex(es, a);
    }
  }

  lemma UnlockerKnows(es: seq<Event>)
    requires es != [] && WellFormed(es) && LocksDisciplined(es) && es[|es| - 1].Unlock?
    ensures var s, e := Run(es[..|es| - 1]), es[|es| - 1]; At(s, Mutex(e.a)).past <= At(s, Thr(e.t)).past
  {
    var pre, e := es[..|es| - 1], es[|es| - 1];
    assert e in es;
    assert Eraser.IsMutex(es, e.a) && MutexDisciplined(es, e.a);
    HoldersKnowMutex(pre, e.a);
    assert Eraser.Depth(pre, e.t, e.a) > 0;
  }

  /** The run without lock events is a run of the machine, and knows no more than the whole run. */
  lemma {:induction false} ThinnedIsUnder(es: seq<Event>, fs: seq<Event>)
    requires WellFormed(es) && LocksDisciplined(es) && Thinned(es, fs)
    ensures WellFormed(fs) && Under(Run(fs), Run(es))
  {
    if es != [] {
      var pre, e := es[..|es| - 1], es[|es| - 1];
      LocksDisciplinedPrefix(es);
      RunKeepsInv(pre);
      if !IsRw(e) && fs != [] && fs[|fs| - 1] == e && Thinned(pre, fs[..|fs| - 1]) {
        var fpre := fs[..|fs| - 1];
        ThinnedIsUnder(pre, fpre);
        RunKeepsInv(fpre);
        UnderEnabled(Run(fpre), Run(pre), e);
        UnderStep(Run(fpre), Run(pre), e);
      } else {
        ThinnedIsUnder(pre, fs);
        if e.Unlock? {
          UnlockerKnows(es);
        }
        UnderDropped(Run(fs), Run(pre), e);
      }
    }
  }
}
