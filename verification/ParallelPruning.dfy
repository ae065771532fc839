/**
  FastTrack as it stands, pruning at joins, behind the rings of parallel detection. Its flag is
  exact for the events as they are queued, but rings can swap two accesses on their way: a race that
  starts with a write in the program may start with a read in the queue, and be lost to pruning.
 */
module ParallelPruning {
  import opened Clocks
  import opened History
  import opened Machine
  import opened Scenarios
  import opened Parallel
  import opened JoinPruning
  import EventGraph = HappensBefore
  import FT = FastTrack
  import Verdicts

  /** The run has a data race on `x` between two writes. */
  ghost predicate WriteWriteRace(es: seq<Event>, x: Addr) {
    exists p, q :: 0 <= p < q < |es| && es[p].Mem? && es[q].Mem? && es[p].write && es[q].write
                   && Verdicts.ConflictingEvents(es[p], es[q], x) && !EventGraph.Reaches(es, p, q)
  }

  lemma RacingWritesOfHistory(es: seq<Event>, x: Addr) returns (a: Access, b: Access)
    requires WellFormed(es) && WriteWriteRace(es, x)
    ensures a in Run(es).hist && b in Run(es).hist && a.x == x && a.write && b.write && Racing(a, b)
  {
    var p, q :| 0 <= p < q < |es| && es[p].Mem? && es[q].Mem? && es[p].write && es[q].write
                && Verdicts.ConflictingEvents(es[p], es[q], x) && !EventGraph.Reaches(es, p, q);
    var i := Verdicts.PositionOf(es, p);
    var j := Verdicts.PositionOf(es, q);
    EventGraph.PositionsAre(es);
    Verdicts.PairRaces(es, i, j, x);
    a, b := Run(es).hist[i], Run(es).hist[j];
  }

  lemma WritesInOrder(es: seq<Event>, x: Addr, i: nat, j: nat)
    requires WellFormed(es) && i < j < |Run(es).hist|
    requires var a, b := Run(es).hist[i], Run(es).hist[j]; a.x == x && a.write && Racing(a, b)
    ensures WriteFirstRace(es, x)
  {
    EventGraph.PositionsAre(es);
    Verdicts.PairRaces(es, i, j, x);
    var p, q := EventGraph.Positions(es)[i], EventGraph.Positions(es)[j];
    assert es[p] == Mem(Run(es).hist[i].t, Run(es).hist[i].x, Run(es).hist[i].write);
  }

  lemma OneBeforeOther(h: seq<Access>, i: nat, j: nat)
    requires i < |h| && j < |h| && Racing(h[i], h[j])
    ensures i != j && Racing(h[j], h[i]) && h[i].x == h[j].x
  {
  }

  /** Of two racing writes, whichever comes first starts a race with a write. */
  lemma RacingWritesStartWithAWrite(es: seq<Event>, x: Addr, a: Access, b: Access)
    requires WellFormed(es) && a in Run(es).hist && b in Run(es).hist
    requires a.x == x && a.write && b.write && Racing(a, b)
    ensures WriteFirstRace(es, x)
  {
    var h := Run(es).hist;
    var i :| 0 <= i < |h| && h[i] == a;
    var j :| 0 <= j < |h| && h[j] == b;
    OneBeforeOther(h, i, j);
    WritesInOrder(es, x, if i < j then i else j, if i < j then j else i);
  }

  /** Late recording keeps a race of two accesses that have both been recorded. */
  lemma RaceIsRecorded(ds: seq<Delivery>, g: seq<Access>, h: seq<Access>, a: Access, b: Access) returns (a1: Access, b1: Access)
    requires Consistent(g) && a in g && b in g && Racing(a, b)
    requires Made(ds, a) && Made(ds, b) && forall c :: Recorded(ds, c) ==> c in h
    requires forall i :: 0 <= i < |ds| && (ds[i].access == a || ds[i].access == b) ==> !ds[i].waits
    ensures a1 in h && b1 in h && Racing(a1, b1)
    ensures a1.x == a.x && a1.write == a.write && b1.write == b.write
  {
    var i :| 0 <= i < |ds| && ds[i].access == a;
    var j :| 0 <= j < |ds| && ds[j].access == b;
    SeenRacing(g, ds[i], ds[j]);
    a1, b1 := ds[i].Seen(), ds[j].Seen();
    assert Recorded(ds, a1) && Recorded(ds, b1);
  }

  lemma QueuedWritesRace(es: seq<Event>, x: Addr, d: nat, n: nat)
    requires n > 0 && WellFormed(es) && QuietJoins(es, d, n) && Routed(x, d, n)
    requires NothingPending(PipeRun(es, d, n), x) && WriteWriteRace(es, x)
    ensures WellFormed(PipeRun(es, d, n).queue) && WriteFirstRace(PipeRun(es, d, n).queue, x)
  {
    var p, ds := PipeRun(es, d, n), Deliveries(es, d, n);
    DeliveriesAreAccesses(es, d, n);
    var a, b := RacingWritesOfHistory(es, x);
    assert forall i :: 0 <= i < |ds| && ds[i].waits ==> ds[i].access.x != x;
    var a1, b1 := RaceIsRecorded(ds, Run(es).hist, Run(p.queue).hist, a, b);
    RacingWritesStartWithAWrite(p.queue, x, a1, b1);
  }

  /**
    The verdict of pruning FastTrack behind the rings. The flag is set iff the queue has a data race
    that starts with a write, or with a read still held when the write comes. Every flag is a
    recorded race or the work of an overtaking start, and a race between two writes of the program
    is always flagged.
   */
  lemma PrunedParallelVerdict(es: seq<Event>, x: Addr, d: nat, n: nat)
    requires n > 0 && WellFormed(es) && QuietJoins(es, d, n) && Routed(x, d, n)
    ensures var q, ds := PipeRun(es, d, n).queue, Deliveries(es, d, n);
            && WellFormed(q)
            && (PrunedMeta(q, x).racy <==> CaughtRace(q, x))
            && (PrunedMeta(q, x).racy ==> Verdicts.DataRace(es, x) || Misled(ds, x))
            && (NothingPending(PipeRun(es, d, n), x) && WriteWriteRace(es, x) ==> PrunedMeta(q, x).racy)
  {
    var p := PipeRun(es, d, n);
    ArrivedVerdict(es, x, d, n);
    ArrivedRaces(es, x, d, n);
    PrunedVerdict(p.queue, x);
    PrunedAlarmsAreRaces(p.queue, x);
    Verdicts.RacesAreDataRaces(p.queue, x);
    Verdicts.RacesAreDataRaces(es, x);
    if NothingPending(p, x) && WriteWriteRace(es, x) {
      QueuedWritesRace(es, x, d, n);
      PruningLosesReadsOnly(p.queue, x);
    }
  }

  // ----- A race that starts with a write, and is lost

  const L: Addr := 5
  const HANDED_ON := THREE_THREADS + [Lock(2, L)] + [Mem(2, 0, false)] + [Unlock(2, L)] + [Lock(1, L)]

  /**
    Thread 2 reads, and thread 1 writes after it, ordered by a mutex. Thread 3 then reads, unordered
    with the write, and joins thread 2.
   */
  const SWAPPED := HANDED_ON + [Mem(1, 0, true)] + [Mem(3, 0, false)] + [Join(3, 2)] + [Unlock(1, L)]

  /** What the only detector receives: the write waits in its ring until thread 3 has read and joined. */
  const SWAPPED_QUEUE := HANDED_ON + [Mem(3, 0, false)] + [Join(3, 2)] + [Mem(1, 0, true)] + [Unlock(1, L)]

  /** The queue, and the rings that are not empty. */
  ghost predicate PipeHolds(es: seq<Event>, queue: seq<Event>, rings: map<Tid, seq<Event>>) {
    var p := PipeRun(es, 0, 1);
    p.queue == queue && forall t :: Ring(p, t) == if t in rings then rings[t] else []
  }

  lemma ThenOther(es: seq<Event>, e: Event, queue: seq<Event>, rings: map<Tid, seq<Event>>)
    requires PipeHolds(es, queue, rings) && !e.Mem?
    ensures PipeHolds(es + [e], queue + (if e.t in rings then rings[e.t] else []) + [e], rings - {e.t})
  {
    assert (es + [e])[..|es|] == es;
    assert forall t :: Ring(PipeRun(es + [e], 0, 1), t) == if t == e.t then [] else Ring(PipeRun(es, 0, 1), t);
  }

  lemma ThenMemory(es: seq<Event>, e: Event, queue: seq<Event>, rings: map<Tid, seq<Event>>)
    requires PipeHolds(es, queue, rings) && e.Mem? && e.t !in rings
    ensures PipeHolds(es + [e], queue, rings[e.t := [e]])
  {
    assert (es + [e])[..|es|] == es;
    assert forall t :: Ring(PipeRun(es + [e], 0, 1), t) == if t == e.t then [e] else Ring(PipeRun(es, 0, 1), t);
  }

  lemma ThenQuietOther(es: seq<Event>, e: Event)
    requires PipeHolds(es, es, map[]) && !e.Mem?
    ensures PipeHolds(es + [e], es + [e], map[])
  {
    ThenOther(es, e, es, map[]);
    assert es + [] + [e] == es + [e];
  }

  lemma StartsQueued()
    ensures PipeHolds(THREE_THREADS, THREE_THREADS, map[])
  {
    var e0: seq<Event> := [];
    ThenQuietOther(e0, Start(1, 0));
    ThenQuietOther(e0 + [Start(1, 0)], Start(2, 1));
    ThenQuietOther(TWO_THREADS, Start(3, 1));
  }

  lemma HandedOnQueued(es: seq<Event>)
    requires PipeHolds(es, es, map[])
    ensures var run := es + [Lock(2, L)] + [Mem(2, 0, false)] + [Unlock(2, L)] + [Lock(1, L)]; PipeHolds(run, run, map[])
  {
    var e1 := es + [Lock(2, L)];
    var read := [Mem(2, 0, false)];
    ThenQuietOther(es, Lock(2, L));
    ThenMemory(e1, Mem(2, 0, false), e1, map[]);
    ThenOther(e1 + read, Unlock(2, L), e1, map[2 := read]);
    assert map[2 := read] - {2} == map[];
    ThenQuietOther(e1 + read + [Unlock(2, L)], Lock(1, L));
  }

  lemma Swap(es: seq<Event>)
    requires PipeHolds(es, es, map[])
    ensures PipeHolds(es + [Mem(1, 0, true)] + [Mem(3, 0, false)] + [Join(3, 2)] + [Unlock(1, L)],
                      es + [Mem(3, 0, false)] + [Join(3, 2)] + [Mem(1, 0, true)] + [Unlock(1, L)], map[])
  {
    var w, r := [Mem(1, 0, true)], [Mem(3, 0, false)];
    ThenMemory(es, Mem(1, 0, true), es, map[]);
    ThenMemory(es + w, Mem(3, 0, false), es, map[1 := w]);
    ThenOther(es + w + r, Join(3, 2), es, map[1 := w, 3 := r]);
    assert map[1 := w, 3 := r] - {3} == map[1 := w];
    ThenOther(es + w + r + [Join(3, 2)], Unlock(1, L), es + r + [Join(3, 2)], map[1 := w]);
    assert map[1 := w] - {1} == map[];
  }

  lemma SwappedIsQueued()
    ensures PipeRun(SWAPPED, 0, 1).queue == SWAPPED_QUEUE && NothingPending(PipeRun(SWAPPED, 0, 1), 0)
  {
    StartsQueued();
    HandedOnQueued(THREE_THREADS);
    Swap(HANDED_ON);
    var p := PipeRun(SWAPPED, 0, 1);
    forall t | t in p.rings ensures p.rings[t] == [] {
      assert Ring(p, t) == p.rings[t];
    }
  }

  // Clocks of the program and of the queue

  const WRITE1 := Access(1, 0, true, map[1 := 3, 2 := 1])
  const HANDED_CLOCKS: map<Tid, Clock> := map[1 := WRITE1.vc, 2 := map[1 := 1, 2 := 2], 3 := READ3.vc]

  lemma NoMutexYet()
    ensures At(Run(THREE_THREADS), Mutex(L)) == NOTHING
  {
    var e0: seq<Event> := [];
    RunSnoc(e0, Start(1, 0));
    RunSnoc(e0 + [Start(1, 0)], Start(2, 1));
    RunSnoc(TWO_THREADS, Start(3, 1));
  }

  lemma HandClocks()
    ensures THREE_CLOCKS[2 := Joined(THREE_CLOCKS[2], map[])] == THREE_CLOCKS
    ensures Ticked(READ2.vc, 2) == map[1 := 1, 2 := 2] && Joined(THREE_CLOCKS[1], READ2.vc) == WRITE1.vc
  {
    var c, c1, c2: Clock := READ2.vc, map[1 := 3], map[1 := 1, 2 := 1];
    assert Joined(c, map[]) == c;
    assert Joined(c1, c2) == map[1 := 3, 2 := 1];
  }

  lemma ReadAndUnlock(es: seq<Event>)
    requires LockReached(es, 3, THREE_CLOCKS, [], L, map[])
    ensures LockReached(es + [Mem(2, 0, false)] + [Unlock(2, L)], 3, THREE_CLOCKS[2 := map[1 := 1, 2 := 2]],
                        [] + [READ2], L, READ2.vc)
  {
    ThenLockedAccess(es, 3, THREE_CLOCKS, [], L, map[], 2, 0, false);
    ThenUnlock(es + [Mem(2, 0, false)], 3, THREE_CLOCKS, [] + [READ2], L, map[], 2);
    HandClocks();
  }

  lemma FirstLock(es: seq<Event>)
    requires LockReached(es, 3, THREE_CLOCKS, [], L, map[])
    ensures LockReached(es + [Lock(2, L)], 3, THREE_CLOCKS, [], L, map[])
  {
    ThenLock(es, 3, THREE_CLOCKS, [], L, map[], 2);
    HandClocks();
  }

  lemma LastClocks()
    ensures THREE_CLOCKS[2 := map[1 := 1, 2 := 2]][1 := WRITE1.vc] == HANDED_CLOCKS
  {
  }

  lemma LastLock(es: seq<Event>)
    requires LockReached(es, 3, THREE_CLOCKS[2 := map[1 := 1, 2 := 2]], [] + [READ2], L, READ2.vc)
    ensures Reached(es + [Lock(1, L)], 3, HANDED_CLOCKS, [] + [READ2])
  {
    var c := THREE_CLOCKS[2 := map[1 := 1, 2 := 2]];
    ThenLock(es, 3, c, [] + [READ2], L, READ2.vc, 1);
    HandClocks();
    LastClocks();
  }

  lemma HandedOnReached()
    ensures Reached(HANDED_ON, 3, HANDED_CLOCKS, [] + [READ2])
    ensures PrunedMeta(HANDED_ON, 0) == FT.Process(FT.NEW_META, READ2)
  {
    var e1 := THREE_THREADS + [Lock(2, L)];
    ThreeThreads();
    NoMutexYet();
    FirstLock(THREE_THREADS);
    ReadAndUnlock(e1);
    LastLock(e1 + [Mem(2, 0, false)] + [Unlock(2, L)]);
    NoMetaYet();
    HandOnMeta(THREE_THREADS);
  }

  lemma HandOnMeta(es: seq<Event>)
    requires PrunedMeta(es, 0) == FT.NEW_META && LockReached(es + [Lock(2, L)], 3, THREE_CLOCKS, [], L, map[])
    ensures PrunedMeta(es + [Lock(2, L)] + [Mem(2, 0, false)] + [Unlock(2, L)] + [Lock(1, L)], 0)
            == FT.Process(FT.NEW_META, READ2)
  {
    var e1 := es + [Lock(2, L)];
    var e2 := e1 + [Mem(2, 0, false)];
    PrunedSnoc(es, Lock(2, L), 0);
    PrunedSnoc(e1, Mem(2, 0, false), 0);
    PrunedSnoc(e2, Unlock(2, L), 0);
    PrunedSnoc(e2 + [Unlock(2, L)], Lock(1, L), 0);
  }

  lemma ThenJoinAndUnlock(es: seq<Event>, h: seq<Access>)
    requires Reached(es, 3, HANDED_CLOCKS, h)
    ensures WellFormed(es + [Join(3, 2)] + [Unlock(1, L)]) && Run(es + [Join(3, 2)] + [Unlock(1, L)]).hist == h
  {
    ThenJoin(es, 3, HANDED_CLOCKS, h, 3, 2);
    ThenAnyUnlock(es + [Join(3, 2)], 3, (HANDED_CLOCKS - {2})[3 := Ticked(Joined(HANDED_CLOCKS[3], HANDED_CLOCKS[2]), 3)], h);
  }

  lemma ThenAnyUnlock(es: seq<Event>, last: Tid, clocks: map<Tid, Clock>, h: seq<Access>)
    requires Reached(es, last, clocks, h) && 1 in clocks
    ensures WellFormed(es + [Unlock(1, L)]) && Run(es + [Unlock(1, L)]).hist == h
  {
    ThenUnlock(es, last, clocks, h, L, At(Run(es), Mutex(L)).vc, 1);
  }

  lemma ProgramReached()
    ensures WellFormed(SWAPPED) && Run(SWAPPED).hist == [READ2, WRITE1, READ3]
  {
    var e2 := HANDED_ON + [Mem(1, 0, true)] + [Mem(3, 0, false)];
    HandedOnReached();
    ThenTwoAccesses(HANDED_ON, 3, HANDED_CLOCKS, [] + [READ2], WRITE1, READ3);
    assert [] + [READ2] + [WRITE1] + [READ3] == [READ2, WRITE1, READ3];
    ThenJoinAndUnlock(e2, [READ2, WRITE1, READ3]);
  }

  lemma ProgramStartsWithAWrite()
    ensures WellFormed(SWAPPED) && WriteFirstRace(SWAPPED, 0)
  {
    ProgramReached();
    var h := Run(SWAPPED).hist;
    assert h[1] == WRITE1 && h[2] == READ3 && Racing(WRITE1, READ3);
    WritesInOrder(SWAPPED, 0, 1, 2);
  }

  /** The read of thread 3 makes the address shared, and the join leaves a stale reader epoch. */
  lemma MetaBeforeJoin(es: seq<Event>)
    requires Reached(es, 3, HANDED_CLOCKS, [] + [READ2]) && PrunedMeta(es, 0) == FT.Process(FT.NEW_META, READ2)
    ensures PrunedMeta(es + [Mem(3, 0, false)] + [Join(3, 2)], 0) == AFTER_JOIN
    ensures Reached(es + [Mem(3, 0, false)], 3, HANDED_CLOCKS, [] + [READ2] + [READ3])
  {
    ThenAccess(es, 3, HANDED_CLOCKS, [] + [READ2], 3, 0, false);
    PrunedSnoc(es, Mem(3, 0, false), 0);
    PrunedSnoc(es + [Mem(3, 0, false)], Join(3, 2), 0);
    MetaAfterReads();
    MetaAfterJoin();
  }

  lemma StaleEpochIsKnown()
    ensures !FT.Process(AFTER_JOIN, WRITE1).racy
  {
  }

  lemma WriterKeepsClock(es: seq<Event>, h: seq<Access>)
    requires Reached(es, 3, HANDED_CLOCKS, h)
    ensures At(Run(es + [Join(3, 2)]), Thr(1)).vc == WRITE1.vc
  {
    ThenJoin(es, 3, HANDED_CLOCKS, h, 3, 2);
  }

  /** The write of thread 1 knows the stale epoch, and the pruned one is not looked at. */
  lemma WriteIsQuiet(es: seq<Event>, h: seq<Access>)
    requires Reached(es, 3, HANDED_CLOCKS, h) && PrunedMeta(es + [Join(3, 2)], 0) == AFTER_JOIN
    ensures !PrunedMeta(es + [Join(3, 2)] + [Mem(1, 0, true)] + [Unlock(1, L)], 0).racy
  {
    var e1 := es + [Join(3, 2)];
    WriterKeepsClock(es, h);
    PrunedSnoc(e1, Mem(1, 0, true), 0);
    PrunedSnoc(e1 + [Mem(1, 0, true)], Unlock(1, L), 0);
    StaleEpochIsKnown();
  }

  /**
    A race of the program that starts with a write, which sequential FastTrack flags on every run,
    can be lost behind the rings: the write waits while another thread reads and a join prunes.
   */
  lemma SwappedRaceIsLost()
    ensures WellFormed(SWAPPED) && WriteFirstRace(SWAPPED, 0) && PrunedMeta(SWAPPED, 0).racy
    ensures NothingPending(PipeRun(SWAPPED, 0, 1), 0) && !PrunedMeta(PipeRun(SWAPPED, 0, 1).queue, 0).racy
  {
    ProgramStartsWithAWrite();
    PruningLosesReadsOnly(SWAPPED, 0);
    SwappedIsQueued();
    HandedOnReached();
    MetaBeforeJoin(HANDED_ON);
    WriteIsQuiet(HANDED_ON + [Mem(3, 0, false)], [] + [READ2] + [READ3]);
  }
}
