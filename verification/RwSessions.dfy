/**
  Sessions of a read-write lock under FastTrack's rule: from the first acquisition to the
  release that brings the reference count back to 0, released clocks gather aside and become the
  lock's clock only at the end.
 */
module RwSessions {
  import opened Clocks
  import opened Machine
  import opened MachineProofs

  predicate Acquires(e: Event, a: Addr) {
    (e.RdLock? || e.WrLock?) && e.a == a
  }

  predicate Releases(e: Event, a: Addr) {
    e.RwUnlock? && e.a == a
  }

  /** The threads that hold rwlock `a`, in either mode; a thread may hold several read locks at once. */
  function Holders(es: seq<Event>, a: Addr): multiset<Tid> {
    if es == [] then multiset{}
    else
      var e, before := es[|es| - 1], Holders(es[..|es| - 1], a);
      if Acquires(e, a) then before + multiset{e.t}
      else if Releases(e, a) then before - multiset{e.t}
      else before
  }

  /** Rwlocks are released by their holders. */
  predicate Disciplined(es: seq<Event>, a: Addr) {
    es == []
    || (var n := |es| - 1;
        && Disciplined(es[..n], a)
        && (Releases(es[n], a) ==> es[n].t in Holders(es[..n], a)))
  }

  predicate Closes(s: Sys, e: Event, a: Addr) {
    Releases(e, a) && Count(s.refs, a) == 1
  }

  lemma {:induction false} WaitersKeepRefs(s: Sys, t: Tid, c: Addr, ws: seq<Tid>)
    ensures JoinWaiters(s, t, c, ws).refs == SignalWaiters(s, t, c, ws).refs == s.refs
  {
    if ws != [] {
      WaitersKeepRefs(s, t, c, ws[..|ws| - 1]);
    }
  }

  lemma RefsCounted(s: Sys, e: Event, a: Addr)
    ensures Count(Step(s, e).refs, a) ==
            Count(s.refs, a) + if Acquires(e, a) then 1 else if Releases(e, a) then -1 else 0
  {
    if e.Notify? {
      var ws := Waiters(s, e.a);
      WaitersKeepRefs(s, e.t, e.a, ws);
      WaitersKeepRefs(JoinWaiters(s, e.t, e.a, ws), e.t, e.a, ws);
    }
  }

  lemma NotifyKeepsRw(s: Sys, t: Tid, c: Addr, a: Addr)
    ensures At(NotifyStep(s, t, c), RwVc(a)) == At(s, RwVc(a))
    ensures At(NotifyStep(s, t, c), RwWait(a)) == At(s, RwWait(a))
  {
    var ws := Waiters(s, c);
    JoinWaitersGrows(s, t, c, ws);
    SignalWaitersKeepsThreads(JoinWaiters(s, t, c, ws), t, c, ws);
  }

  /** Neither of the lock's two clocks has changed. */
  predicate RwKept(s: Sys, s1: Sys, a: Addr) {
    At(s1, RwVc(a)) == At(s, RwVc(a)) && At(s1, RwWait(a)) == At(s, RwWait(a))
  }

  lemma PublishKeepsRw(s: Sys, e: Event, a: Addr)
    requires e.Unlock? || e.PreWait? || e.PreBarrier? || e.SemPost?
    ensures RwKept(s, Step(s, e), a)
  {
  }

  lemma ThreadStepKeepsRw(s: Sys, e: Event, a: Addr)
    requires e.Start? || e.Exit? || e.Mem? || e.Join?
    ensures RwKept(s, Step(s, e), a)
  {
  }

  lemma AcquireKeepsRw(s: Sys, e: Event, a: Addr)
    requires e.Lock? || e.RdLock? || e.WrLock? || e.SemWait?
    ensures RwKept(s, Step(s, e), a)
  {
  }

  lemma WakeKeepsRw(s: Sys, e: Event, a: Addr)
    requires e.PostWait? || e.PostBarrier?
    ensures RwKept(s, Step(s, e), a)
  {
  }

  /** The lock's clock changes only when a session ends; until then readers cannot see the session's releases. */
  lemma RwClockKept(s: Sys, e: Event, a: Addr)
    requires Enabled(s, e)
    ensures !Closes(s, e, a) ==> At(Step(s, e), RwVc(a)) == At(s, RwVc(a))
    ensures !Releases(e, a) ==> At(Step(s, e), RwWait(a)) == At(s, RwWait(a))
  {
    if e.Notify? {
      NotifyKeepsRw(s, e.t, e.a, a);
    } else if e.RwUnlock? {
      ReleaseElsewhere(s, e.t, e.a, a);
    } else if e.Lock? || e.RdLock? || e.WrLock? || e.SemWait? {
      AcquireKeepsRw(s, e, a);
    } else if e.PostWait? || e.PostBarrier? {
      WakeKeepsRw(s, e, a);
    } else if e.Unlock? || e.PreWait? || e.PreBarrier? || e.SemPost? {
      PublishKeepsRw(s, e, a);
    } else {
      ThreadStepKeepsRw(s, e, a);
    }
  }

  lemma ReleaseElsewhere(s: Sys, t: Tid, b: Addr, a: Addr)
    ensures a != b || Count(s.refs, a) != 1 ==> At(RwUnlockStep(s, t, b), RwVc(a)) == At(s, RwVc(a))
    ensures a != b ==> At(RwUnlockStep(s, t, b), RwWait(a)) == At(s, RwWait(a))
  {
  }

  ghost predicate HoldersKnow(es: seq<Event>, a: Addr) {
    forall h :: h in Holders(es, a) && Live(Run(es), h) ==> Below(At(Run(es), RwVc(a)), At(Run(es), Thr(h)))
  }

  lemma {:induction false} HoldersAreCounted(es: seq<Event>, a: Addr)
    requires WellFormed(es) && Disciplined(es, a)
    ensures Count(Run(es).refs, a) == |Holders(es, a)|
    ensures forall h :: h in Holders(es, a) ==> h in Run(es).started
  {
    if es != [] {
      var n := |es| - 1;
      HoldersAreCounted(es[..n], a);
      RunKeepsInv(es[..n]);
      RefsCounted(Run(es[..n]), es[n], a);
      forall h ensures h in Holders(es, a) ==> h in Run(es).started {
        StepStarts(Run(es[..n]), es[n], h);
      }
    }
  }

  /** The reference count is the number of holders, and live holders know the lock's clock. */
  lemma {:induction false} LiveHoldersKnow(es: seq<Event>, a: Addr)
    requires WellFormed(es) && Disciplined(es, a)
    ensures Count(Run(es).refs, a) == |Holders(es, a)|
    ensures HoldersKnow(es, a)
  {
    HoldersAreCounted(es, a);
    if es != [] {
      LiveHoldersKnow(es[..|es| - 1], a);
      forall h | h in Holders(es, a) && Live(Run(es), h)
        ensures Below(At(Run(es), RwVc(a)), At(Run(es), Thr(h)))
      {
        HolderKnows(es, a, h);
      }
    }
  }

  /** A thread that has just acquired the lock knows its clock. */
  lemma AcquirerKnows(s: Sys, e: Event, a: Addr)
    requires Inv(s) && Enabled(s, e) && Acquires(e, a)
    ensures Below(At(Step(s, e), RwVc(a)), At(Step(s, e), Thr(e.t)))
  {
    JoinGrows(s, Thr(e.t), RwVc(a));
    JoinedIsLeastUpperBound(At(s, Thr(e.t)).vc, At(s, RwVc(a)).vc, map[]);
  }

  /** A live thread that knew the lock's clock still does after a step that leaves it as it is. */
  lemma KnowerKeeps(s: Sys, e: Event, a: Addr, h: Tid)
    requires Inv(s) && Enabled(s, e) && !Closes(s, e, a) && Live(s, h) && Live(Step(s, e), h)
    requires Below(At(s, RwVc(a)), At(s, Thr(h)))
    ensures Below(At(Step(s, e), RwVc(a)), At(Step(s, e), Thr(h)))
  {
    RwClockKept(s, e, a);
    StepGrowsThreads(s, e, h);
    BelowTransitive(At(s, RwVc(a)), At(s, Thr(h)), At(Step(s, e), Thr(h)));
  }

  lemma HolderKnows(es: seq<Event>, a: Addr, h: Tid)
    requires es != [] && WellFormed(es) && Disciplined(es, a) && HoldersKnow(es[..|es| - 1], a)
    requires h in Holders(es, a) && Live(Run(es), h)
    ensures Below(At(Run(es), RwVc(a)), At(Run(es), Thr(h)))
  {
    var pre, e := es[..|es| - 1], es[|es| - 1];
    var s := Run(pre);
    RunKeepsInv(pre);
    HoldersAreCounted(pre, a);
    if Acquires(e, a) && e.t == h {
      AcquirerKnows(s, e, a);
    } else {
      StepStarts(s, e, h);
      if Closes(s, e, a) {
        LoneHolder(Holders(pre, a), e.t);
        assert false;
      }
      KnowerKeeps(s, e, a, h);
    }
  }

  lemma LoneHolder(s: multiset<Tid>, t: Tid)
    requires t in s && |s| == 1
    ensures s == multiset{t}
  {
    assert |s - multiset{t}| == 0;
    assert s - multiset{t} == multiset{};
  }

  /** The knowledge `k` released into lock `a` is still on its way: gathered aside, or in the lock's clock. */
  ghost predicate Kept(es: seq<Event>, a: Addr, k: Know) {
    || Below(k, At(Run(es), RwVc(a)))
    || (Below(k, At(Run(es), RwWait(a))) && Count(Run(es).refs, a) > 0)
  }

  lemma JoinIsAbove(a: Know, b: Know)
    ensures Below(a, JoinKnow(a, b)) && Below(b, JoinKnow(a, b))
  {
  }

  /** What a release does to the two clocks of the lock. */
  lemma ReleaseGathers(s: Sys, t: Tid, a: Addr)
    requires Enabled(s, RwUnlock(t, a))
    ensures var s1 := Step(s, RwUnlock(t, a));
            var gathered := JoinKnow(At(s, RwWait(a)), At(s, Thr(t)));
            if Count(s.refs, a) == 1 then At(s1, RwVc(a)) == gathered && At(s1, RwWait(a)) == NOTHING
            else At(s1, RwWait(a)) == gathered
  {
  }

  lemma StepKeepsKnowledge(es: seq<Event>, a: Addr, k: Know)
    requires es != [] && WellFormed(es) && Disciplined(es, a) && Kept(es[..|es| - 1], a, k)
    ensures Kept(es, a, k)
  {
    var pre, e := es[..|es| - 1], es[|es| - 1];
    var s := Run(pre);
    LiveHoldersKnow(pre, a);
    RwClockKept(s, e, a);
    RefsCounted(s, e, a);
    if Releases(e, a) {
      var gathered := JoinKnow(At(s, RwWait(a)), At(s, Thr(e.t)));
      ReleaseGathers(s, e.t, a);
      JoinIsAbove(At(s, RwWait(a)), At(s, Thr(e.t)));
      if Below(k, At(s, RwVc(a))) {
        assert Below(At(s, RwVc(a)), At(s, Thr(e.t)));
        BelowTransitive(k, At(s, RwVc(a)), At(s, Thr(e.t)));
        BelowTransitive(k, At(s, Thr(e.t)), gathered);
      } else {
        BelowTransitive(k, At(s, RwWait(a)), gathered);
      }
    }
  }

  lemma {:induction false} ReleaseIsKept(es: seq<Event>, n: nat, t: Tid, a: Addr)
    requires n < |es| && es[n] == RwUnlock(t, a)
    requires WellFormed(es) && Disciplined(es, a)
    ensures Kept(es, a, At(Run(es[..n]), Thr(t)))
  {
    var k, m := At(Run(es[..n]), Thr(t)), |es| - 1;
    if n == m {
      var s := Run(es[..n]);
      ReleaseGathers(s, t, a);
      RefsCounted(s, es[n], a);
      JoinIsAbove(At(s, RwWait(a)), k);
    } else {
      assert es[..m][..n] == es[..n];
      ReleaseIsKept(es[..m], n, t, a);
      StepKeepsKnowledge(es, a, k);
    }
  }

  /**
    Sessions conserve knowledge: whenever no thread holds the lock, its clock dominates the clock
    of every thread that ever released it, as of that release.
   */
  lemma SessionsConserveKnowledge(es: seq<Event>, n: nat, t: Tid, a: Addr)
    requires n < |es| && es[n] == RwUnlock(t, a)
    requires WellFormed(es) && Disciplined(es, a) && Holders(es, a) == multiset{}
    ensures Leq(At(Run(es[..n]), Thr(t)).vc, At(Run(es), RwVc(a)).vc)
    ensures At(Run(es[..n]), Thr(t)).past <= At(Run(es), RwVc(a)).past
  {
    ReleaseIsKept(es, n, t, a);
    HoldersAreCounted(es, a);
  }

  /** The lock's clock never loses anything, whatever a session ends with. */
  lemma LockClockGrows(es: seq<Event>, a: Addr)
    requires es != [] && WellFormed(es) && Disciplined(es, a)
    ensures Below(At(Run(es[..|es| - 1]), RwVc(a)), At(Run(es), RwVc(a)))
  {
    var pre, e := es[..|es| - 1], es[|es| - 1];
    var s := Run(pre);
    RwClockKept(s, e, a);
    if Closes(s, e, a) {
      LiveHoldersKnow(pre, a);
      JoinIsAbove(At(s, RwWait(a)), At(s, Thr(e.t)));
      BelowTransitive(At(s, RwVc(a)), At(s, Thr(e.t)), At(Run(es), RwVc(a)));
    }
  }
}
