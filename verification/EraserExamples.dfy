/** Two runs on which Eraser's lock tables differ from the locks that are held. */
module EraserExamples {
  import opened Clocks
  import opened History
  import opened Machine
  import opened Scenarios
  import opened RwSessions
  import opened Eraser
  import Verdicts

  lemma TablesSnoc(es: seq<Event>, e: Event)
    ensures TablesOf(es + [e]) == LockStep(TablesOf(es), e)
    ensures forall a :: Holders(es + [e], a) == (if Acquires(e, a) then Holders(es, a) + multiset{e.t}
                             else if Releases(e, a) then Holders(es, a) - multiset{e.t} else Holders(es, a))
    ensures forall t, a :: Depth(es + [e], t, a) == (if e == Lock(t, a) then Depth(es, t, a) + 1
                             else if e == Unlock(t, a) && Depth(es, t, a) > 0 then Depth(es, t, a) - 1 else Depth(es, t, a))
  {
    assert (es + [e])[..|es|] == es;
  }

  lemma MetaSnoc(es: seq<Event>, e: Event, x: Addr)
    ensures MetaOf(es + [e], x) ==
            if e.Mem? && e.x == x then
              (if e.write then ProcessWrite(MetaOf(es, x), TablesOf(es), e.t) else ProcessRead(MetaOf(es, x), TablesOf(es), e.t))
            else MetaOf(es, x)
  {
    assert (es + [e])[..|es|] == es;
  }

  const A: Addr := 5

  /** What is known of a run so far: the tables of threads 1 and 2 for lock `A`, and the meta of address 0. */
  predicate LocksAre(es: seq<Event>, held1: set<Addr>, held2: set<Addr>, write1: set<Addr>, write2: set<Addr>, refs: int) {
    var s := TablesOf(es);
    && Of(s.readers, 1) == held1 && Of(s.readers, 2) == held2
    && Of(s.writers, 1) == write1 && Of(s.writers, 2) == write2
    && Count(s.refs, A) == refs
  }

  lemma AfterAcquire(es: seq<Event>, e: Event, held1: set<Addr>, held2: set<Addr>,
          write1: set<Addr>, write2: set<Addr>, refs: int)
    requires LocksAre(es, held1, held2, write1, write2, refs) && (e.t == 1 || e.t == 2)
    requires e == RdLock(e.t, A) || (e == WrLock(e.t, A) && refs == 0) || e == Lock(e.t, A)
    ensures LocksAre(es + [e], if e.t == 1 then held1 + {A} else held1, if e.t == 2 then held2 + {A} else held2,
                     if e.t == 1 && !e.RdLock? then write1 + {A} else write1,
                     if e.t == 2 && !e.RdLock? then write2 + {A} else write2, if e.Lock? then refs else refs + 1)
    ensures MetaOf(es + [e], 0) == MetaOf(es, 0)
  {
    TablesSnoc(es, e);
    MetaSnoc(es, e, 0);
  }

  lemma AfterRelease(es: seq<Event>, e: Event, held1: set<Addr>, held2: set<Addr>,
          write1: set<Addr>, write2: set<Addr>, refs: int)
    requires LocksAre(es, held1, held2, write1, write2, refs) && (e.t == 1 || e.t == 2)
    requires e == RwUnlock(e.t, A) || e == Unlock(e.t, A)
    ensures var taken := e.Unlock? || refs == 1;
            LocksAre(es + [e], if taken && e.t == 1 then held1 - {A} else held1, if taken && e.t == 2 then held2 - {A} else held2,
                     if taken && e.t == 1 then write1 - {A} else write1,
                     if taken && e.t == 2 then write2 - {A} else write2, if e.Unlock? then refs else refs - 1)
    ensures MetaOf(es + [e], 0) == MetaOf(es, 0)
  {
    TablesSnoc(es, e);
    MetaSnoc(es, e, 0);
  }

  lemma NoLocksYet()
    ensures LocksAre(TWO_THREADS, {}, {}, {}, {}, 0) && MetaOf(TWO_THREADS, 0) == NEW_META
    ensures Holders(TWO_THREADS, A) == multiset{} && forall t :: Depth(TWO_THREADS, t, A) == 0
  {
    var e0: seq<Event> := [];
    TablesSnoc(e0, Start(1, 0));
    TablesSnoc(e0 + [Start(1, 0)], Start(2, 1));
    MetaSnoc(e0, Start(1, 0), 0);
    MetaSnoc(e0 + [Start(1, 0)], Start(2, 1), 0);
  }

  // ----- A rwlock released while others hold it stays in the reader table

  const BOTH_READ := TWO_THREADS + [RdLock(1, A)] + [RdLock(2, A)]
  const ONE_LEFT := BOTH_READ + [RwUnlock(1, A)]
  const READ_BARE := ONE_LEFT + [Mem(1, 0, false)]
  const WRITER_IN := READ_BARE + [RwUnlock(2, A)] + [WrLock(2, A)]

  /**
    Two readers hold the lock; the first releases it and reads without any lock. The second
    releases it too, acquires it to write, and writes.
   */
  const STAYS_TABLED := WRITER_IN + [Mem(2, 0, true)]

  lemma ReadersComeAndGo(es: seq<Event>)
    requires LocksAre(es, {}, {}, {}, {}, 0)
    ensures var run := es + [RdLock(1, A)] + [RdLock(2, A)] + [RwUnlock(1, A)];
            LocksAre(run, {A}, {A}, {}, {}, 1) && MetaOf(run, 0) == MetaOf(es, 0)
  {
    var e1 := es + [RdLock(1, A)];
    AfterAcquire(es, RdLock(1, A), {}, {}, {}, {}, 0);
    AfterAcquire(e1, RdLock(2, A), {} + {A}, {}, {}, {}, 1);
    AfterRelease(e1 + [RdLock(2, A)], RwUnlock(1, A), {} + {A}, {} + {A}, {}, {}, 2);
    assert {} + {A} == {A};
  }

  lemma HoldersComeAndGo(es: seq<Event>)
    requires Holders(es, A) == multiset{}
    ensures Holders(es + [RdLock(1, A)] + [RdLock(2, A)] + [RwUnlock(1, A)], A) == multiset{2}
  {
    var e1 := es + [RdLock(1, A)];
    TablesSnoc(es, RdLock(1, A));
    TablesSnoc(e1, RdLock(2, A));
    TablesSnoc(e1 + [RdLock(2, A)], RwUnlock(1, A));
    assert multiset{1, 2} - multiset{1} == multiset{2};
  }

  lemma TablesOfReaders()
    ensures LocksAre(ONE_LEFT, {A}, {A}, {}, {}, 1) && Holders(ONE_LEFT, A) == multiset{2}
    ensures MetaOf(ONE_LEFT, 0) == NEW_META
  {
    NoLocksYet();
    ReadersComeAndGo(TWO_THREADS);
    HoldersComeAndGo(TWO_THREADS);
  }

  lemma WriterComes(es: seq<Event>)
    requires LocksAre(es, {A}, {A}, {}, {}, 1) && MetaOf(es, 0) == NEW_META
    ensures var run := es + [Mem(1, 0, false)] + [RwUnlock(2, A)] + [WrLock(2, A)];
            LocksAre(run, {A}, {A}, {}, {A}, 1) && MetaOf(run, 0) == EraserMeta(false, Virgin, 1, {A}, {})
  {
    var e1 := es + [Mem(1, 0, false)];
    TablesSnoc(es, Mem(1, 0, false));
    MetaSnoc(es, Mem(1, 0, false), 0);
    AfterRelease(e1, RwUnlock(2, A), {A}, {A}, {}, {}, 1);
    AfterAcquire(e1 + [RwUnlock(2, A)], WrLock(2, A), {A}, {A} - {A}, {}, {} - {A}, 0);
    assert {A} - {A} + {A} == {A} && {} - {A} + {A} == {A};
  }

  lemma TablesOfWriter()
    ensures LocksAre(WRITER_IN, {A}, {A}, {}, {A}, 1)
    ensures MetaOf(WRITER_IN, 0) == EraserMeta(false, Virgin, 1, {A}, {})
  {
    TablesOfReaders();
    WriterComes(ONE_LEFT);
  }

  lemma StaysQuiet()
    ensures !MetaOf(STAYS_TABLED, 0).racy
  {
    TablesOfWriter();
    MetaSnoc(WRITER_IN, Mem(2, 0, true), 0);
    assert ({A} + {}) * {A} == {A};
  }

  const C1: Clock := map[1 := 2]
  const C2: Clock := map[1 := 1, 2 := 1]
  const BARE_READ := Access(1, 0, false, map[1 := 3])
  const LOCKED_WRITE := Access(2, 0, true, map[1 := 2, 2 := 2])

  lemma JoinedNothing(c: Clock)
    ensures Joined(c, map[]) == c && Joined(map[], c) == c
  {
  }

  /** A lock never released has nothing to pass on. */
  lemma ThenEarlyRdLock(es: seq<Event>, clocks: map<Tid, Clock>, n: nat, t: Tid)
    requires RwReached(es, 2, clocks, [], A, n, map[], map[]) && t in clocks
    ensures RwReached(es + [RdLock(t, A)], 2, clocks, [], A, n + 1, map[], map[])
  {
    ThenRdLock(es, 2, clocks, [], A, n, map[], map[], t);
    JoinedNothing(clocks[t]);
    assert clocks[t := clocks[t]] == clocks;
  }

  const C3: Clock := map[1 := 3]
  const AFTER_ONE: map<Tid, Clock> := map[1 := C3, 2 := C2]

  lemma ReaderClocks()
    ensures Joined(map[], C1) == C1 && Ticked(C1, 1) == C3 && TWO_CLOCKS[1 := C3] == AFTER_ONE
  {
  }

  lemma ThenOneLeaves(es: seq<Event>)
    requires RwReached(es, 2, TWO_CLOCKS, [], A, 2, map[], map[])
    ensures RwReached(es + [RwUnlock(1, A)], 2, AFTER_ONE, [], A, 1, map[], C1)
  {
    ThenRwUnlock(es, 2, TWO_CLOCKS, [], A, 2, map[], map[], 1);
    ReaderClocks();
  }

  lemma ReadersReached()
    ensures RwReached(ONE_LEFT, 2, AFTER_ONE, [], A, 1, map[], C1)
  {
    TwoThreads();
    NoRwYet();
    ThenEarlyRdLock(TWO_THREADS, TWO_CLOCKS, 0, 1);
    ThenEarlyRdLock(TWO_THREADS + [RdLock(1, A)], TWO_CLOCKS, 1, 2);
    ThenOneLeaves(BOTH_READ);
  }

  lemma NoRwYet()
    ensures var s := Run(TWO_THREADS); Count(s.refs, A) == 0 && At(s, RwVc(A)) == NOTHING && At(s, RwWait(A)) == NOTHING
    ensures At(Run(TWO_THREADS), Mutex(A)) == NOTHING
  {
    var e0: seq<Event> := [];
    RunSnoc(e0, Start(1, 0));
    RunSnoc(e0 + [Start(1, 0)], Start(2, 1));
  }

  lemma WriterClocks()
    ensures Joined(C1, C2) == map[1 := 2, 2 := 1]
    ensures Joined(Ticked(C2, 2), Joined(C1, C2)) == LOCKED_WRITE.vc
  {
  }

  lemma ThenWriterComes(es: seq<Event>)
    requires RwReached(es, 2, AFTER_ONE, [], A, 1, map[], C1)
    ensures var c1, rw := AFTER_ONE[2 := Ticked(C2, 2)], Joined(C1, C2);
            RwReached(es + [Mem(1, 0, false)] + [RwUnlock(2, A)] + [WrLock(2, A)], 2, c1[2 := Joined(c1[2], rw)],
                      [] + [BARE_READ], A, 1, rw, map[])
  {
    var e1 := es + [Mem(1, 0, false)];
    var c1, rw := AFTER_ONE[2 := Ticked(C2, 2)], Joined(C1, C2);
    ThenRwAccess(es, 2, AFTER_ONE, [], A, 1, map[], C1, 1, 0, false);
    ThenRwUnlock(e1, 2, AFTER_ONE, [] + [BARE_READ], A, 1, map[], C1, 2);
    ThenWrLock(e1 + [RwUnlock(2, A)], 2, c1, [] + [BARE_READ], A, rw, map[], 2);
  }

  lemma WriterReached()
    ensures WellFormed(STAYS_TABLED) && Run(STAYS_TABLED).hist == [BARE_READ, LOCKED_WRITE]
  {
    var c1, rw := AFTER_ONE[2 := Ticked(C2, 2)], Joined(C1, C2);
    ReadersReached();
    ThenWriterComes(ONE_LEFT);
    WriterClocks();
    ThenRwAccess(WRITER_IN, 2, c1[2 := LOCKED_WRITE.vc], [] + [BARE_READ], A, 1, rw, map[], 2, 0, true);
    assert [] + [BARE_READ] + [LOCKED_WRITE] == [BARE_READ, LOCKED_WRITE];
  }

  /**
    The reader table keeps a lock that its thread has released, and so Eraser takes the bare read
    for protected and misses the data race with the write.
   */
  lemma ReleasedLockHidesARace()
    ensures WellFormed(STAYS_TABLED) && Verdicts.DataRace(STAYS_TABLED, 0) && !MetaOf(STAYS_TABLED, 0).racy
    ensures 1 !in Holders(ONE_LEFT, A) && A in Of(TablesOf(ONE_LEFT).readers, 1)
  {
    TablesOfReaders();
    StaysQuiet();
    WriterReached();
    RaceAmong(Run(STAYS_TABLED).hist, 0, BARE_READ, LOCKED_WRITE);
    Verdicts.RacesAreDataRaces(STAYS_TABLED, 0);
  }

  // ----- A mutex locked twice leaves the tables at its first unlock

  const LOCKED_TWICE := TWO_THREADS + [Lock(1, A)] + [Lock(1, A)] + [Unlock(1, A)]
  const OTHER_TURN := LOCKED_TWICE + [Mem(1, 0, true)] + [Unlock(1, A)]
  const OTHER_TWICE := OTHER_TURN + [Lock(2, A)] + [Lock(2, A)] + [Unlock(2, A)]

  /** Each thread locks the mutex twice and unlocks it once before it writes, still holding it. */
  const NESTED := OTHER_TWICE + [Mem(2, 0, true)]

  /** Locking a mutex twice and unlocking it once leaves nothing in the tables. */
  lemma TwiceLeavesNothing(es: seq<Event>, t: Tid)
    requires LocksAre(es, {}, {}, {}, {}, 0) && (t == 1 || t == 2)
    ensures var run := es + [Lock(t, A)] + [Lock(t, A)] + [Unlock(t, A)];
            LocksAre(run, {}, {}, {}, {}, 0) && MetaOf(run, 0) == MetaOf(es, 0)
  {
    var one: set<Addr> := if t == 1 then {A} else {};
    var two: set<Addr> := if t == 2 then {A} else {};
    var e1 := es + [Lock(t, A)];
    AfterAcquire(es, Lock(t, A), {}, {}, {}, {}, 0);
    AfterAcquire(e1, Lock(t, A), one, two, one, two, 0);
    AfterRelease(e1 + [Lock(t, A)], Unlock(t, A), one, two, one, two, 0);
  }

  lemma TwiceIsDeep(es: seq<Event>, t: Tid)
    requires Depth(es, t, A) == 0
    ensures var run := es + [Lock(t, A)] + [Lock(t, A)] + [Unlock(t, A)];
            Depth(run, t, A) == 1 && forall u :: u != t ==> Depth(run, u, A) == Depth(es, u, A)
  {
    var e1 := es + [Lock(t, A)];
    TablesSnoc(es, Lock(t, A));
    TablesSnoc(e1, Lock(t, A));
    TablesSnoc(e1 + [Lock(t, A)], Unlock(t, A));
  }

  lemma FirstTwice()
    ensures LocksAre(LOCKED_TWICE, {}, {}, {}, {}, 0) && Depth(LOCKED_TWICE, 1, A) == 1 && Depth(LOCKED_TWICE, 2, A) == 0
    ensures MetaOf(LOCKED_TWICE, 0) == NEW_META
  {
    NoLocksYet();
    TwiceLeavesNothing(TWO_THREADS, 1);
    TwiceIsDeep(TWO_THREADS, 1);
  }

  lemma SecondTwice()
    ensures LocksAre(OTHER_TWICE, {}, {}, {}, {}, 0) && Depth(OTHER_TWICE, 2, A) == 1
    ensures MetaOf(OTHER_TWICE, 0) == EraserMeta(false, Exclusive, 1, {}, {})
  {
    FirstTwice();
    TablesSnoc(LOCKED_TWICE, Mem(1, 0, true));
    MetaSnoc(LOCKED_TWICE, Mem(1, 0, true), 0);
    TablesSnoc(LOCKED_TWICE + [Mem(1, 0, true)], Unlock(1, A));
    MetaSnoc(LOCKED_TWICE + [Mem(1, 0, true)], Unlock(1, A), 0);
    AfterRelease(LOCKED_TWICE + [Mem(1, 0, true)], Unlock(1, A), {}, {}, {}, {}, 0);
    assert {} - {A} == {};
    TwiceLeavesNothing(OTHER_TURN, 2);
    TwiceIsDeep(OTHER_TURN, 2);
  }

  const FIRST_WRITE := Access(1, 0, true, map[1 := 3])
  const SECOND_WRITE := Access(2, 0, true, map[1 := 3, 2 := 2])

  /** Locking a mutex twice and unlocking it once publishes what the thread then knows. */
  lemma ThenLockTwice(es: seq<Event>, clocks: map<Tid, Clock>, h: seq<Access>, mutex: Clock, t: Tid)
    requires LockReached(es, 2, clocks, h, A, mutex) && t in clocks
    ensures var c := Joined(Joined(clocks[t], mutex), mutex);
            LockReached(es + [Lock(t, A)] + [Lock(t, A)] + [Unlock(t, A)], 2, clocks[t := Ticked(c, t)], h, A, c)
  {
    var c1 := clocks[t := Joined(clocks[t], mutex)];
    var c2 := c1[t := Joined(c1[t], mutex)];
    ThenLock(es, 2, clocks, h, A, mutex, t);
    ThenLock(es + [Lock(t, A)], 2, c1, h, A, mutex, t);
    ThenUnlock(es + [Lock(t, A)] + [Lock(t, A)], 2, c2, h, A, mutex, t);
    assert c2[t := Ticked(c2[t], t)] == clocks[t := Ticked(c2[t], t)];
  }

  lemma FirstTurnClocks()
    ensures Joined(Joined(C1, map[]), map[]) == C1 && Ticked(C1, 1) == C3 && TWO_CLOCKS[1 := C3] == AFTER_ONE
    ensures AFTER_ONE[1 := Ticked(C3, 1)] == map[1 := map[1 := 4], 2 := C2]
  {
    JoinedNothing(C1);
    assert Ticked(C3, 1) == map[1 := 4];
  }

  lemma FirstTurn(es: seq<Event>)
    requires LockReached(es, 2, TWO_CLOCKS, [], A, map[])
    ensures LockReached(es + [Lock(1, A)] + [Lock(1, A)] + [Unlock(1, A)], 2, AFTER_ONE, [], A, C1)
  {
    ThenLockTwice(es, TWO_CLOCKS, [], map[], 1);
    FirstTurnClocks();
  }

  lemma FirstTurnReached()
    ensures LockReached(OTHER_TURN, 2, map[1 := map[1 := 4], 2 := C2], [] + [FIRST_WRITE], A, C3)
  {
    TwoThreads();
    NoRwYet();
    FirstTurn(TWO_THREADS);
    ThenLockedAccess(LOCKED_TWICE, 2, AFTER_ONE, [], A, C1, 1, 0, true);
    ThenUnlock(LOCKED_TWICE + [Mem(1, 0, true)], 2, AFTER_ONE, [] + [FIRST_WRITE], A, C1, 1);
    FirstTurnClocks();
  }

  lemma SecondTurnClocks()
    ensures Joined(Joined(C2, map[1 := 3]), map[1 := 3]) == map[1 := 3, 2 := 1]
    ensures Ticked(map[1 := 3, 2 := 1], 2) == SECOND_WRITE.vc
  {
    var m: Clock := map[1 := 3];
    assert Joined(C2, m) == map[1 := 3, 2 := 1];
  }

  lemma NestedReached()
    ensures WellFormed(NESTED) && Run(NESTED).hist == [FIRST_WRITE, SECOND_WRITE]
  {
    var c: map<Tid, Clock> := map[1 := map[1 := 4], 2 := C2];
    var m: Clock := map[1 := 3];
    FirstTurnReached();
    SecondTurnClocks();
    ThenLockTwice(OTHER_TURN, c, [] + [FIRST_WRITE], m, 2);
    ThenLockedAccess(OTHER_TWICE, 2, c[2 := SECOND_WRITE.vc], [] + [FIRST_WRITE], A, map[1 := 3, 2 := 1], 2, 0, true);
    assert [] + [FIRST_WRITE] + [SECOND_WRITE] == [FIRST_WRITE, SECOND_WRITE];
  }

  lemma NestedIsOrdered()
    ensures WellFormed(NESTED) && !Verdicts.DataRace(NESTED, 0)
  {
    NestedReached();
    assert !HasRace([FIRST_WRITE, SECOND_WRITE], 0) by {
      assert Ordered(FIRST_WRITE, SECOND_WRITE);
    }
    Verdicts.RacesAreDataRaces(NESTED, 0);
  }

  /** Two writes under the same mutex, ordered by it, raise an alarm: each thread had unlocked it once before. */
  lemma NestedMutexAlarms()
    ensures WellFormed(NESTED) && !Verdicts.DataRace(NESTED, 0) && MetaOf(NESTED, 0).racy
    ensures Depth(LOCKED_TWICE, 1, A) == 1 && Depth(OTHER_TWICE, 2, A) == 1
  {
    FirstTwice();
    SecondTwice();
    MetaSnoc(OTHER_TWICE, Mem(2, 0, true), 0);
    NestedIsOrdered();
  }
}
