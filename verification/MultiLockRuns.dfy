/**
  MultiLock-HB on runs with lock events. Its clock machine handles the run without them, and its
  locksets are what they leave held. It flags everything that Djit flags on the whole run, and more.
 */
module MultiLockRuns {
  import opened Clocks
  import opened History
  import opened Machine
  import opened MachineProofs
  import opened Scenarios
  import opened LockOrder
  import opened MultiLockHb
  import opened EventGraph = HappensBefore
  import Djit
  import Verdicts

  // ----- What MultiLock-HB sees

  /** The accesses of `es`, with the clocks of the thinner run `fs` and the locksets at that moment. */
  ghost predicate Watched(es: seq<Event>, fs: seq<Event>, h: seq<Locked>) {
    && |h| == |Run(fs).hist| == |Positions(es)|
    && forall i :: 0 <= i < |h| ==>
         && h[i].a == Run(fs).hist[i] && Positions(es)[i] <= |es|
         && h[i].held == Counting(es[..Positions(es)[i]], h[i].a.t, h[i].a.write)
  }

  /** A race of the whole run is one of the thinner run, and no lock is common to its accesses. */
  lemma RaceIsLockRace(es: seq<Event>, fs: seq<Event>, h: seq<Locked>, i: nat, j: nat)
    requires WellFormed(es) && LocksDisciplined(es) && Thinned(es, fs) && Watched(es, fs, h)
    requires i < j < |h| == |Run(es).hist| && Racing(Run(es).hist[i], Run(es).hist[j])
    ensures LockRace(h[i], h[j])
  {
    ThinnedIsUnder(es, fs);
    RunKeepsInv(es);
    RunKeepsInv(fs);
    PositionsAre(es);
    assert i !in Run(es).before[j];
    assert Run(fs).before[j] <= Run(es).before[j];
    forall a | a in h[i].held && a in h[j].held ensures false {
      CommonLockIsKnown(es, i, j, a);
    }
  }

  lemma CommonLockIsKnown(es: seq<Event>, i: nat, j: nat, a: Addr)
    requires WellFormed(es) && LocksDisciplined(es) && i < j < |Positions(es)| == |Run(es).before|
    requires Positions(es)[i] < Positions(es)[j] < |es|
    requires var e, f := es[Positions(es)[i]], es[Positions(es)[j]];
             && e.Mem? && f.Mem? && e.t != f.t && (e.write || f.write)
             && a in Counting(es[..Positions(es)[i]], e.t, e.write) && a in Counting(es[..Positions(es)[j]], f.t, f.write)
    ensures i in Run(es).before[j]
  {
    var p, q := Positions(es)[i], Positions(es)[j];
    PositionsCut(es, i);
    PositionsCut(es, j);
    WellFormedPrefix(es, p);
    PositionsAre(es[..p]);
    CommonLockOrders(es, p, q, a);
    BeforeIsPastAtAccess(es, j);
  }

  lemma RacesAreLockRaces(es: seq<Event>, fs: seq<Event>, h: seq<Locked>, x: Addr)
    requires WellFormed(es) && LocksDisciplined(es) && Thinned(es, fs) && Watched(es, fs, h) && |h| == |Run(es).hist|
    requires forall i :: 0 <= i < |h| ==> h[i].a.x == Run(es).hist[i].x
    ensures HasRace(Run(es).hist, x) ==> HasLockRace(h, x)
  {
    var g := Run(es).hist;
    if HasRace(g, x) {
      var i, j :| 0 <= i < |g| && 0 <= j < |g| && g[i].x == x && Racing(g[i], g[j]);
      var lo, hi := if i < j then i else j, if i < j then j else i;
      RaceIsLockRace(es, fs, h, lo, hi);
      assert h[lo].a.x == x;
    }
  }

  /**
    Every address that Djit flags on a run with lock events is flagged by MultiLock-HB, which takes
    no order from locks but compares locksets: accesses under a common lock are ordered anyway.
   */
  lemma DjitFlagsAreFlagged(es: seq<Event>, fs: seq<Event>, h: seq<Locked>, x: Addr)
    requires WellFormed(es) && LocksDisciplined(es) && Thinned(es, fs) && Watched(es, fs, h)
    ensures Djit.MetaOf(Run(es).hist, x).racy ==> MetaOf(h, x).racy
    ensures Verdicts.DataRace(es, x) ==> HasLockRace(h, x)
  {
    Verdicts.DjitVerdict(es, x);
    Verdicts.RacesAreDataRaces(es, x);
    PruningIsLossless(h, x);
    PositionsAre(es);
    ThinnedIsUnder(es, fs);
    RacesAreLockRaces(es, fs, h, x);
  }

  // ----- The converse fails

  const A: Addr := 5
  const PASSED_ON := TWO_THREADS + [Mem(1, 0, true)] + [Lock(1, A)] + [Unlock(1, A)]

  /** Thread 1 writes and then uses the lock; thread 2 takes it and reads. */
  const HANDED_OVER := PASSED_ON + [Lock(2, A)] + [Mem(2, 0, false)]
  const WITHOUT_LOCKS := TWO_THREADS + [Mem(1, 0, true)] + [Mem(2, 0, false)]

  const WRITE := Access(1, 0, true, map[1 := 2])
  const READ := Access(2, 0, false, map[1 := 1, 2 := 1])
  const ORDERED_READ := Access(2, 0, false, map[1 := 2, 2 := 1])
  const SEEN: seq<Locked> := [Locked(WRITE, {}), Locked(READ, {A})]

  lemma NoMutexYet()
    ensures LockReached(TWO_THREADS, 2, TWO_CLOCKS, [], A, map[])
  {
    var e0: seq<Event> := [];
    TwoThreads();
    RunSnoc(e0, Start(1, 0));
    RunSnoc(e0 + [Start(1, 0)], Start(2, 1));
  }

  lemma PassedClocks()
    ensures Joined(TWO_CLOCKS[1], map[]) == WRITE.vc && TWO_CLOCKS[1 := WRITE.vc] == TWO_CLOCKS
    ensures Joined(READ.vc, WRITE.vc) == ORDERED_READ.vc
  {
    var c, c1: Clock := READ.vc, WRITE.vc;
    assert Joined(c, c1) == map[1 := 2, 2 := 1];
  }

  lemma WriteAndPass(es: seq<Event>)
    requires LockReached(es, 2, TWO_CLOCKS, [], A, map[])
    ensures LockReached(es + [Mem(1, 0, true)] + [Lock(1, A)] + [Unlock(1, A)], 2, TWO_CLOCKS[1 := Ticked(WRITE.vc, 1)],
                        [] + [WRITE], A, WRITE.vc)
  {
    var e1 := es + [Mem(1, 0, true)];
    PassedClocks();
    ThenLockedAccess(es, 2, TWO_CLOCKS, [], A, map[], 1, 0, true);
    ThenLock(e1, 2, TWO_CLOCKS, [] + [WRITE], A, map[], 1);
    ThenUnlock(e1 + [Lock(1, A)], 2, TWO_CLOCKS, [] + [WRITE], A, map[], 1);
  }

  lemma TakeAndRead(es: seq<Event>)
    requires LockReached(es, 2, TWO_CLOCKS[1 := Ticked(WRITE.vc, 1)], [] + [WRITE], A, WRITE.vc)
    ensures WellFormed(es + [Lock(2, A)] + [Mem(2, 0, false)])
    ensures Run(es + [Lock(2, A)] + [Mem(2, 0, false)]).hist == [WRITE, ORDERED_READ]
  {
    var c := TWO_CLOCKS[1 := Ticked(WRITE.vc, 1)];
    PassedClocks();
    ThenLock(es, 2, c, [] + [WRITE], A, WRITE.vc, 2);
    ThenLockedAccess(es + [Lock(2, A)], 2, c[2 := ORDERED_READ.vc], [] + [WRITE], A, WRITE.vc, 2, 0, false);
    assert [] + [WRITE] + [ORDERED_READ] == [WRITE, ORDERED_READ];
  }

  lemma HandedReached()
    ensures WellFormed(HANDED_OVER) && Run(HANDED_OVER).hist == [WRITE, ORDERED_READ]
  {
    NoMutexYet();
    WriteAndPass(TWO_THREADS);
    TakeAndRead(PASSED_ON);
  }

  lemma HandedIsOrdered()
    ensures WellFormed(HANDED_OVER) && !Verdicts.DataRace(HANDED_OVER, 0)
  {
    HandedReached();
    assert !HasRace([WRITE, ORDERED_READ], 0) by {
      assert Ordered(WRITE, ORDERED_READ);
    }
    Verdicts.RacesAreDataRaces(HANDED_OVER, 0);
  }

  lemma ThinnedSnoc(es: seq<Event>, fs: seq<Event>, e: Event)
    requires Thinned(es, fs)
    ensures !IsRw(e) ==> Thinned(es + [e], fs + [e])
    ensures IsRw(e) || e.Lock? || e.Unlock? ==> Thinned(es + [e], fs)
  {
    assert (es + [e])[..|es|] == es && (fs + [e])[..|fs|] == fs;
  }

  lemma LocksTaken()
    ensures Thinned(HANDED_OVER, WITHOUT_LOCKS)
  {
    var e0: seq<Event> := [];
    var fs := TWO_THREADS + [Mem(1, 0, true)];
    ThinnedSnoc(e0, e0, Start(1, 0));
    ThinnedSnoc(e0 + [Start(1, 0)], e0 + [Start(1, 0)], Start(2, 1));
    ThinnedSnoc(TWO_THREADS, TWO_THREADS, Mem(1, 0, true));
    ThinnedSnoc(fs, fs, Lock(1, A));
    ThinnedSnoc(fs + [Lock(1, A)], fs, Unlock(1, A));
    ThinnedSnoc(PASSED_ON, fs, Lock(2, A));
    ThinnedSnoc(PASSED_ON + [Lock(2, A)], fs, Mem(2, 0, false));
  }

  lemma HeldSnoc(es: seq<Event>, e: Event, t: Tid)
    ensures Held(es + [e], t) ==
              if LocksWrite(e, t) then Held(es, t) + {e.a} else if Unlocks(e, t) then Held(es, t) - {e.a} else Held(es, t)
    ensures !IsRw(e) ==> ReadHeld(es + [e], t) == ReadHeld(es, t)
  {
    assert (es + [e])[..|es|] == es;
  }

  lemma PositionsSnoc(es: seq<Event>, e: Event)
    ensures Positions(es + [e]) == Positions(es) + if e.Mem? then [|es|] else []
  {
    assert (es + [e])[..|es|] == es;
  }

  predicate NothingHeld(es: seq<Event>) {
    Held(es, 1) == {} && Held(es, 2) == {} && ReadHeld(es, 1) == {} && ReadHeld(es, 2) == {}
  }

  lemma HeldAtStart()
    ensures NothingHeld(TWO_THREADS)
  {
    var e0: seq<Event> := [];
    HeldSnoc(e0, Start(1, 0), 1);
    HeldSnoc(e0, Start(1, 0), 2);
    HeldSnoc(e0 + [Start(1, 0)], Start(2, 1), 1);
    HeldSnoc(e0 + [Start(1, 0)], Start(2, 1), 2);
  }

  lemma PositionsAtStart()
    ensures Positions(TWO_THREADS) == [] && |TWO_THREADS| == 2
  {
    var e0: seq<Event> := [];
    PositionsSnoc(e0, Start(1, 0));
    PositionsSnoc(e0 + [Start(1, 0)], Start(2, 1));
  }

  /** Nothing is held after thread 1 wrote and used the lock. */
  lemma HeldOnPassing(es: seq<Event>)
    requires NothingHeld(es)
    ensures var e3 := es + [Mem(1, 0, true)] + [Lock(1, A)] + [Unlock(1, A)];
            Held(e3, 2) == {} && ReadHeld(e3, 2) == {}
  {
    var e1 := es + [Mem(1, 0, true)];
    HeldSnoc(es, Mem(1, 0, true), 2);
    HeldSnoc(e1, Lock(1, A), 2);
    HeldSnoc(e1 + [Lock(1, A)], Unlock(1, A), 2);
  }

  lemma HeldOnTaking(es: seq<Event>)
    requires Held(es, 2) == {} && ReadHeld(es, 2) == {}
    ensures Counting(es + [Lock(2, A)], 2, false) == {A}
  {
    HeldSnoc(es, Lock(2, A), 2);
  }

  lemma PositionsInTurn(es: seq<Event>)
    requires Positions(es) == [] && |es| == 2
    ensures var e4 := es + [Mem(1, 0, true)] + [Lock(1, A)] + [Unlock(1, A)] + [Lock(2, A)];
            Positions(e4 + [Mem(2, 0, false)]) == [2] + [6]
  {
    var e1 := es + [Mem(1, 0, true)];
    var e2 := e1 + [Lock(1, A)];
    var e3 := e2 + [Unlock(1, A)];
    PositionsSnoc(es, Mem(1, 0, true));
    PositionsSnoc(e1, Lock(1, A));
    PositionsSnoc(e2, Unlock(1, A));
    PositionsSnoc(e3, Lock(2, A));
    PositionsSnoc(e3 + [Lock(2, A)], Mem(2, 0, false));
  }

  lemma LocksHeld()
    ensures Counting(TWO_THREADS, 1, true) == {} && Counting(PASSED_ON + [Lock(2, A)], 2, false) == {A}
    ensures Positions(HANDED_OVER) == [2, 6] && |TWO_THREADS| == 2
  {
    HeldAtStart();
    HeldOnPassing(TWO_THREADS);
    HeldOnTaking(PASSED_ON);
    PositionsAtStart();
    PositionsInTurn(TWO_THREADS);
  }

  lemma SeenIsWatched()
    ensures WellFormed(WITHOUT_LOCKS) && Run(WITHOUT_LOCKS).hist == [WRITE, READ]
    ensures Watched(HANDED_OVER, WITHOUT_LOCKS, SEEN)
  {
    TwoThreads();
    ThenTwoAccesses(TWO_THREADS, 2, TWO_CLOCKS, [], WRITE, READ);
    assert [] + [WRITE] + [READ] == [WRITE, READ];
    LocksHeld();
    assert HANDED_OVER[..2] == TWO_THREADS;
    assert HANDED_OVER[..6] == PASSED_ON + [Lock(2, A)];
  }

  lemma SeenIsFlagged()
    ensures MetaOf(SEEN, 0).racy
  {
    PruningIsLossless(SEEN, 0);
    assert SEEN[0].a.x == 0 && LockRace(SEEN[0], SEEN[1]);
  }

  /** The converse fails, by design: a lock that orders two accesses without protecting both does not count. */
  lemma FlagsMoreThanDjit()
    ensures WellFormed(HANDED_OVER) && !Verdicts.DataRace(HANDED_OVER, 0)
    ensures Thinned(HANDED_OVER, WITHOUT_LOCKS) && Watched(HANDED_OVER, WITHOUT_LOCKS, SEEN)
    ensures MetaOf(SEEN, 0).racy
  {
    HandedIsOrdered();
    LocksTaken();
    SeenIsWatched();
    SeenIsFlagged();
  }
}
