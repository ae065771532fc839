/**
  Which reads survive the pruning at joins, told from events alone: `SparedRacesAreFlagged`. A race
  that starts with a read is flagged unless some join in between takes a thread that read in its
  wake, or the last but one of the readers that are kept apart.
 */
module PrunedReads {
  import opened Clocks
  import opened History
  import opened Machine
  import opened MachineProofs
  import opened FastTrack
  import opened JoinPruning
  import opened Frames
  import opened EventGraph = HappensBefore
  import Verdicts

  // ----- When a join spares a read

  predicate ReadsAt(es: seq<Event>, r: nat, x: Addr) {
    r < |es| && es[r].Mem? && es[r].x == x && !es[r].write
  }

  predicate StillThere(es: seq<Event>, k: nat, n: nat, t: Tid)
    requires n <= |es|
  {
    forall j :: k < j < n && es[j].Join? ==> es[j].child != t
  }

  /** Read `r` is the read `p` itself or knows it. */
  ghost predicate InWake(es: seq<Event>, p: nat, r: nat, x: Addr) {
    ReadsAt(es, r, x) && p <= r && (r == p || Reaches(es, p, r))
  }

  /** A thread that has read since `p`, never knowing it, and has not been joined. */
  ghost predicate ReadsApart(es: seq<Event>, p: nat, k: nat, n: nat, x: Addr)
    requires n <= |es|
  {
    && p < k < n && ReadsAt(es, k, x) && StillThere(es, k, n, es[k].t)
    && forall r :: p <= r < n && es[r].t == es[k].t ==> !InWake(es, p, r, x)
  }

  /**
    The join at `j` spares read `p`: the joined thread has not read in its wake, and if it has read
    `x` at all, then another thread keeps reading apart.
   */
  ghost predicate Spares(es: seq<Event>, p: nat, j: nat, x: Addr)
    requires j < |es| && es[j].Join?
  {
    && (forall r :: p <= r < j && es[r].t == es[j].child ==> !InWake(es, p, r, x))
    && (|| (forall r :: 0 <= r < j && es[r].t == es[j].child ==> !ReadsAt(es, r, x))
        || exists k: nat :: ReadsApart(es, p, k, j, x) && es[k].t != es[j].child)
  }

  ghost predicate JoinsSpare(es: seq<Event>, p: nat, q: nat, x: Addr)
    requires q <= |es|
  {
    forall j :: p < j < q && es[j].Join? ==> Spares(es, p, j, x)
  }

  // ----- Accesses of events

  lemma AccessOfPrefix(es: seq<Event>, n: nat, r: nat)
    requires r < n <= |es| && es[r].Mem?
    ensures AccessAt(es[..n], r) == AccessAt(es, r)
  {
    assert es[..n][..r] == es[..r];
  }

  lemma AccessesInTurn(es: seq<Event>, p: nat, q: nat)
    requires WellFormed(es) && p < q < |es| && es[p].Mem? && es[q].Mem?
    ensures WellTimed(AccessAt(es, p)) && WellTimed(AccessAt(es, q)) && Sequenced(AccessAt(es, p), AccessAt(es, q))
    ensures Ordered(AccessAt(es, p), AccessAt(es, q)) <==> Reaches(es, p, q)
  {
    var i := Verdicts.PositionOf(es, p);
    var j := Verdicts.PositionOf(es, q);
    RunKeepsInv(es);
    PositionsAre(es);
    HistoryOfEvents(es, i);
    HistoryOfEvents(es, j);
    HBIsReachability(es, i, j);
  }

  /** A real epoch is that of some read before. */
  lemma RealRead(es: seq<Event>, n: nat, e: Epoch, x: Addr) returns (r: nat)
    requires WellFormed(es) && n <= |es| && e != NO_EPOCH && Real(e, Run(es[..n]).hist, x, false)
    ensures r < n && ReadsAt(es, r, x) && es[r].t == e.t && AccessAt(es, r).Clk() == e.c
  {
    var i := AccessOf(e, Run(es[..n]).hist, x, false);
    WellFormedPrefix(es, n);
    HistoryOfEvents(es[..n], i);
    r := Positions(es[..n])[i];
    AccessOfPrefix(es, n, r);
  }

  /** No epoch that the read state holds of the thread of event `n` is newer than its clock then. */
  predicate NotAhead(m: FtMeta, a: Access) {
    && (m.reader_epoch.t == a.t ==> m.reader_epoch.c <= a.Clk())
    && (a.t in m.reader_vc ==> m.reader_vc[a.t] <= a.Clk())
  }

  lemma OwnEpochsNotAhead(es: seq<Event>, n: nat, x: Addr)
    requires WellFormed(es) && n < |es| && es[n].Mem?
    ensures NotAhead(PrunedMeta(es[..n], x), AccessAt(es, n))
  {
    var m, a := PrunedMeta(es[..n], x), AccessAt(es, n);
    WellFormedPrefix(es, n);
    PrunedIsSound(es[..n], x);
    if m.reader_epoch.t == a.t && m.reader_epoch != NO_EPOCH {
      var r := RealRead(es, n, m.reader_epoch, x);
      AccessesInTurn(es, r, n);
      assert Get(AccessAt(es, r).vc, a.t) <= Get(a.vc, a.t);
    }
    if a.t in m.reader_vc {
      var r := RealRead(es, n, Epoch(a.t, m.reader_vc[a.t]), x);
      AccessesInTurn(es, r, n);
      assert Get(AccessAt(es, r).vc, a.t) <= Get(a.vc, a.t);
    }
  }

  // ----- The read state

  /** While reads are kept apart, the reader epoch of a thread that is still there is among them. */
  predicate EpochKept(m: FtMeta, t: Tid) {
    m.shared && m.reader_epoch.t == t ==> t in m.reader_vc && m.reader_vc[t] >= m.reader_epoch.c
  }

  lemma AccessKeepsEpoch(m: FtMeta, a: Access, t: Tid)
    requires EpochKept(m, t) && NotAhead(m, a)
    ensures EpochKept(Process(m, a), t)
  {
  }

  lemma {:induction false} EpochIsKept(es: seq<Event>, x: Addr, t: Tid)
    requires WellFormed(es) && StillThere(es, 0, |es|, t)
    ensures EpochKept(PrunedMeta(es, x), t)
  {
    if es != [] {
      var n := |es| - 1;
      forall j | 0 < j < n && es[..n][j].Join? ensures es[..n][j].child != t {
        assert es[..n][j] == es[j];
      }
      EpochIsKept(es[..n], x, t);
      if es[n].Mem? {
        OwnEpochsNotAhead(es, n, x);
        if es[n].x == x {
          AccessKeepsEpoch(PrunedMeta(es[..n], x), AccessAt(es, n), t);
        }
      }
    }
  }

  /** A join erases the joined thread from the read state, and drops the rest if fewer than two are left. */
  lemma PruneKeepsReads(m: FtMeta, child: Tid, e: Epoch)
    ensures HoldsRead(Prune(m, child), e) <==>
            if m.shared && child in m.reader_vc && |m.reader_vc - {child}| < 2 then m.reader_epoch == e
            else HoldsRead(m, e) && (m.shared ==> e.t != child)
  {
  }

  /** A read leaves a held epoch in place, or is held itself and knows it. */
  lemma ReadPassesOn(m: FtMeta, r: Access, a: Access)
    requires HoldsRead(m, Epoch(r.t, r.Clk())) && WellTimed(r) && WellTimed(a) && Sequenced(r, a) && !a.write
    ensures var m1 := Process(m, a);
            HoldsRead(m1, Epoch(r.t, r.Clk())) || (HoldsRead(m1, Epoch(a.t, a.Clk())) && Ordered(r, a))
  {
  }

  /** A read that does not know a held one is kept apart from it. */
  lemma ReadKeptApart(m: FtMeta, r: Access, a: Access)
    requires HoldsRead(m, Epoch(r.t, r.Clk())) && WellTimed(r) && WellTimed(a) && Sequenced(r, a) && !a.write
    requires EpochKept(m, a.t) && !Ordered(r, a)
    ensures Process(m, a).shared && a.t in Process(m, a).reader_vc
  {
  }

  lemma ReadIsHeld(m: FtMeta, a: Access)
    requires WellTimed(a) && EpochKept(m, a.t) && NotAhead(m, a) && !a.write
    ensures HoldsRead(Process(m, a), Epoch(a.t, a.Clk()))
  {
  }

  // ----- One read through the run

  function EpochAt(es: seq<Event>, r: nat): Epoch
    requires r < |es| && es[r].Mem?
  {
    Epoch(es[r].t, AccessAt(es, r).Clk())
  }

  ghost predicate HeldBy(m: FtMeta, es: seq<Event>, p: nat, r: nat, n: nat, x: Addr) {
    r < n && InWake(es, p, r, x) && HoldsRead(m, EpochAt(es, r))
  }

  /** The threads that read apart from `p` are all kept. */
  ghost predicate ApartKept(m: FtMeta, es: seq<Event>, p: nat, n: nat, x: Addr)
    requires n <= |es|
  {
    forall k: nat :: ReadsApart(es, p, k, n, x) ==> m.shared && es[k].t in m.reader_vc
  }

  /** Some read in the wake of `p` is held. */
  ghost predicate Kept(m: FtMeta, es: seq<Event>, p: nat, n: nat, x: Addr)
    requires n <= |es|
  {
    (exists r: nat :: HeldBy(m, es, p, r, n, x)) && ApartKept(m, es, p, n, x)
  }

  lemma MetaNext(es: seq<Event>, n: nat, x: Addr)
    requires n < |es|
    ensures es[n].Mem? && es[n].x == x ==> PrunedMeta(es[..n + 1], x) == Process(PrunedMeta(es[..n], x), AccessAt(es, n))
    ensures es[n].Join? ==> PrunedMeta(es[..n + 1], x) == Prune(PrunedMeta(es[..n], x), es[n].child)
    ensures !es[n].Join? && !(es[n].Mem? && es[n].x == x) ==> PrunedMeta(es[..n + 1], x) == PrunedMeta(es[..n], x)
  {
    assert es[..n + 1] == es[..n] + [es[n]];
    PrunedSnoc(es[..n], es[n], x);
  }

  lemma EpochKeptAt(es: seq<Event>, n: nat, x: Addr)
    requires WellFormed(es) && n < |es| && es[n].Mem?
    ensures EpochKept(PrunedMeta(es[..n], x), es[n].t)
  {
    NextEvent(es, n);
    WellFormedPrefix(es, n);
    LiveIsUnjoined(es[..n], es[n].t);
    EpochIsKept(es[..n], x, es[n].t);
  }

  /** The read itself is held at first. */
  lemma HeldAtFirst(es: seq<Event>, p: nat, x: Addr)
    requires WellFormed(es) && ReadsAt(es, p, x)
    ensures Kept(PrunedMeta(es[..p + 1], x), es, p, p + 1, x)
  {
    MetaNext(es, p, x);
    EpochKeptAt(es, p, x);
    OwnEpochsNotAhead(es, p, x);
    IsWellTimed(es, p);
    ReadIsHeld(PrunedMeta(es[..p], x), AccessAt(es, p));
    assert HeldBy(PrunedMeta(es[..p + 1], x), es, p, p, p + 1, x);
  }

  lemma IsWellTimed(es: seq<Event>, p: nat)
    requires WellFormed(es) && p < |es| && es[p].Mem?
    ensures WellTimed(AccessAt(es, p))
  {
    var i := Verdicts.PositionOf(es, p);
    RunKeepsInv(es);
    PositionsAre(es);
    HistoryOfEvents(es, i);
  }

  /** Knowing a read in the wake of `p` is knowing `p`. */
  lemma WakePassesOn(es: seq<Event>, p: nat, r: nat, n: nat, x: Addr)
    requires WellFormed(es) && ReadsAt(es, p, x) && InWake(es, p, r, x) && r < n < |es| && es[n].Mem?
    ensures Sequenced(AccessAt(es, r), AccessAt(es, n)) && WellTimed(AccessAt(es, r)) && WellTimed(AccessAt(es, n))
    ensures Ordered(AccessAt(es, r), AccessAt(es, n)) ==> Reaches(es, p, n)
  {
    AccessesInTurn(es, r, n);
    if r != p {
      AccessesInTurn(es, p, r);
    }
    AccessesInTurn(es, p, n);
    if Ordered(AccessAt(es, r), AccessAt(es, n)) {
      assert Get(AccessAt(es, r).vc, es[p].t) <= Get(AccessAt(es, n).vc, es[p].t);
    }
  }

  lemma ApartBefore(es: seq<Event>, p: nat, k: nat, n: nat, x: Addr)
    requires n < |es| && ReadsApart(es, p, k, n + 1, x)
    ensures if k < n then ReadsApart(es, p, k, n, x) else k == n && ReadsAt(es, n, x) && !Reaches(es, p, n)
    ensures es[n].Join? ==> k < n && es[k].t != es[n].child
  {
    if k == n {
      assert !InWake(es, p, n, x);
    }
  }

  /** The next read, with what it knows given. */
  lemma ReadKeeps(m: FtMeta, es: seq<Event>, p: nat, r: nat, n: nat, x: Addr, a: Access)
    requires p < n && ReadsAt(es, n, x) && HeldBy(m, es, p, r, n, x) && ApartKept(m, es, p, n, x)
    requires a.t == es[n].t && !a.write && EpochAt(es, n) == Epoch(a.t, a.Clk()) && EpochKept(m, a.t)
    requires var b := AccessAt(es, r);
             WellTimed(b) && WellTimed(a) && Sequenced(b, a) && (Ordered(b, a) ==> Reaches(es, p, n))
    ensures Kept(Process(m, a), es, p, n + 1, x)
  {
    var b, m1 := AccessAt(es, r), Process(m, a);
    ReadPassesOn(m, b, a);
    assert HeldBy(m1, es, p, r, n + 1, x) || HeldBy(m1, es, p, n, n + 1, x);
    if !Ordered(b, a) {
      ReadKeptApart(m, b, a);
    }
    forall k: nat | ReadsApart(es, p, k, n + 1, x) ensures m1.shared && es[k].t in m1.reader_vc {
      ApartBefore(es, p, k, n, x);
    }
  }

  lemma TwoOthers(readers: Clock, child: Tid, u: Tid, v: Tid)
    requires u in readers && v in readers && u != v && u != child && v != child
    ensures |readers - {child}| >= 2
  {
    var rest := readers - {child};
    assert {u, v} <= rest.Keys;
    TwoOf(rest.Keys, u, v);
    assert |rest| == |rest.Keys|;
  }

  lemma TwoOf(s: set<Tid>, u: Tid, v: Tid)
    requires u in s && v in s && u != v
    ensures |s| >= 2
  {
    assert s == {u} + (s - {u}) && v in s - {u};
    assert |s - {u}| >= 1;
  }

  lemma JoinKeeps(m: FtMeta, es: seq<Event>, p: nat, r: nat, n: nat, x: Addr)
    requires p < n < |es| && es[n].Join? && Spares(es, p, n, x)
    requires HeldBy(m, es, p, r, n, x) && ApartKept(m, es, p, n, x)
    requires es[n].child in m.reader_vc ==> exists i :: 0 <= i < n && es[i].t == es[n].child && ReadsAt(es, i, x)
    ensures Kept(Prune(m, es[n].child), es, p, n + 1, x)
  {
    var child := es[n].child;
    var m1 := Prune(m, child);
    if child in m.reader_vc && m.shared {
      var k: nat :| ReadsApart(es, p, k, n, x) && es[k].t != child;
      TwoOthers(m.reader_vc, child, es[r].t, es[k].t);
    }
    PruneKeepsReads(m, child, EpochAt(es, r));
    assert HeldBy(m1, es, p, r, n + 1, x);
    forall k: nat | ReadsApart(es, p, k, n + 1, x) ensures m1.shared && es[k].t in m1.reader_vc {
      ApartBefore(es, p, k, n, x);
    }
  }

  /** A thread in the read clock has read. */
  lemma ErasedHasRead(es: seq<Event>, n: nat, child: Tid, x: Addr)
    requires WellFormed(es) && n <= |es| && child in PrunedMeta(es[..n], x).reader_vc
    ensures exists r :: 0 <= r < n && es[r].t == child && ReadsAt(es, r, x)
  {
    WellFormedPrefix(es, n);
    PrunedIsSound(es[..n], x);
    var r := RealRead(es, n, Epoch(child, PrunedMeta(es[..n], x).reader_vc[child]), x);
  }

  lemma OtherKeeps(m: FtMeta, es: seq<Event>, p: nat, n: nat, x: Addr)
    requires p < n < |es| && !ReadsAt(es, n, x) && Kept(m, es, p, n, x)
    ensures Kept(m, es, p, n + 1, x)
  {
    var r: nat :| HeldBy(m, es, p, r, n, x);
    assert HeldBy(m, es, p, r, n + 1, x);
    forall k: nat | ReadsApart(es, p, k, n + 1, x) ensures ReadsApart(es, p, k, n, x) {
      ApartBefore(es, p, k, n, x);
    }
  }

  ghost predicate NoWriteBetween(es: seq<Event>, p: nat, q: nat, x: Addr)
    requires q <= |es|
  {
    forall j :: p < j < q && es[j].Mem? && es[j].x == x ==> !es[j].write
  }

  lemma KeptNext(es: seq<Event>, p: nat, n: nat, x: Addr)
    requires WellFormed(es) && ReadsAt(es, p, x) && p < n < |es| && Kept(PrunedMeta(es[..n], x), es, p, n, x)
    requires (es[n].Mem? && es[n].x == x ==> !es[n].write) && (es[n].Join? ==> Spares(es, p, n, x))
    ensures Kept(PrunedMeta(es[..n + 1], x), es, p, n + 1, x)
  {
    var m := PrunedMeta(es[..n], x);
    var r: nat :| HeldBy(m, es, p, r, n, x);
    MetaNext(es, n, x);
    if ReadsAt(es, n, x) {
      WakePassesOn(es, p, r, n, x);
      EpochKeptAt(es, n, x);
      ReadKeeps(m, es, p, r, n, x, AccessAt(es, n));
    } else if es[n].Join? {
      if es[n].child in m.reader_vc {
        ErasedHasRead(es, n, es[n].child, x);
      }
      JoinKeeps(m, es, p, r, n, x);
    } else {
      OtherKeeps(m, es, p, n, x);
    }
  }

  /** A read, and nothing up to event `q` that could take it away. */
  ghost predicate Uncrossed(es: seq<Event>, p: nat, q: nat, x: Addr) {
    WellFormed(es) && p < q <= |es| && ReadsAt(es, p, x) && NoWriteBetween(es, p, q, x) && JoinsSpare(es, p, q, x)
  }

  ghost predicate KeptAt(es: seq<Event>, p: nat, n: nat, x: Addr) {
    n <= |es| && Kept(PrunedMeta(es[..n], x), es, p, n, x)
  }

  lemma KeptFirst(es: seq<Event>, p: nat, q: nat, x: Addr)
    requires Uncrossed(es, p, q, x)
    ensures KeptAt(es, p, p + 1, x)
  {
    HeldAtFirst(es, p, x);
  }

  lemma KeptOn(es: seq<Event>, p: nat, n: nat, q: nat, x: Addr)
    requires Uncrossed(es, p, q, x) && p < n < q && KeptAt(es, p, n, x)
    ensures KeptAt(es, p, n + 1, x)
  {
    KeptNext(es, p, n, x);
  }

  lemma {:induction false} StaysHeld(es: seq<Event>, p: nat, n: nat, q: nat, x: Addr)
    requires p < n <= q && Uncrossed(es, p, q, x)
    ensures KeptAt(es, p, n, x)
  {
    if n == p + 1 {
      KeptFirst(es, p, q, x);
    } else {
      StaysHeld(es, p, n - 1, q, x);
      KeptOn(es, p, n - 1, q, x);
    }
  }

  // ----- The races that are flagged

  /** A read and a later write that race. */
  ghost predicate ReadWriteRace(es: seq<Event>, p: nat, q: nat, x: Addr) {
    p < q < |es| && Verdicts.ConflictingEvents(es[p], es[q], x) && !Reaches(es, p, q) && !es[p].write
  }

  /** If write `q` repeats a write of its frame, that one was made before `p` and races with it. */
  lemma RepetitionRacesBefore(es: seq<Event>, p: nat, q: nat, x: Addr)
    requires WellFormed(es) && ReadWriteRace(es, p, q, x) && NoWriteBetween(es, p, q, x)
    requires PrunedMeta(es[..q], x).writer_epoch == EpochAt(es, q)
    ensures WriteFirstRace(es, x)
  {
    var e := EpochAt(es, q);
    WellFormedPrefix(es, q);
    PrunedIsSound(es[..q], x);
    IsWellTimed(es, q);
    var i := AccessOf(e, Run(es[..q]).hist, x, true);
    HistoryOfEvents(es[..q], i);
    var w := Positions(es[..q])[i];
    AccessOfPrefix(es, q, w);
    assert w < p;
    AccessesInTurn(es, w, p);
    AccessesInTurn(es, p, q);
    assert Verdicts.ConflictingEvents(es[w], es[p], x);
  }

  lemma HeldReadIsCaught(es: seq<Event>, p: nat, r: nat, q: nat, x: Addr)
    requires WellFormed(es) && ReadWriteRace(es, p, q, x)
    requires HeldBy(PrunedMeta(es[..q], x), es, p, r, q, x) && PrunedMeta(es[..q], x).writer_epoch != EpochAt(es, q)
    ensures Caught(es, r, q, x)
  {
    WakePassesOn(es, p, r, q, x);
    AccessesInTurn(es, r, q);
    assert es[r].t != es[q].t;
  }

  lemma UncrossedRaceIsFlagged(es: seq<Event>, p: nat, q: nat, x: Addr)
    requires WellFormed(es) && ReadWriteRace(es, p, q, x) && NoWriteBetween(es, p, q, x) && JoinsSpare(es, p, q, x)
    ensures PrunedMeta(es, x).racy
  {
    var m := PrunedMeta(es[..q], x);
    StaysHeld(es, p, q, q, x);
    var r: nat :| HeldBy(m, es, p, r, q, x);
    if m.writer_epoch == EpochAt(es, q) {
      RepetitionRacesBefore(es, p, q, x);
      PruningLosesReadsOnly(es, x);
    } else {
      HeldReadIsCaught(es, p, r, q, x);
      PrunedVerdict(es, x);
    }
  }

  lemma {:induction false} FirstWriteBetween(es: seq<Event>, p: nat, q: nat, x: Addr) returns (w: nat)
    requires q <= |es| && !NoWriteBetween(es, p, q, x)
    ensures p < w < q && es[w].Mem? && es[w].x == x && es[w].write && NoWriteBetween(es, p, w, x)
  {
    if NoWriteBetween(es, p, q - 1, x) {
      w := q - 1;
    } else {
      w := FirstWriteBetween(es, p, q - 1, x);
    }
  }

  /** A write between the two accesses of a race is in a race with one of them. */
  lemma CrossedRace(es: seq<Event>, p: nat, w: nat, q: nat, x: Addr)
    requires WellFormed(es) && ReadWriteRace(es, p, q, x) && p < w < q
    requires es[w].Mem? && es[w].x == x && es[w].write
    ensures ReadWriteRace(es, p, w, x) || WriteFirstRace(es, x)
  {
    AccessesInTurn(es, p, w);
    AccessesInTurn(es, w, q);
    AccessesInTurn(es, p, q);
    if es[p].t == es[w].t || Reaches(es, p, w) {
      assert Ordered(AccessAt(es, p), AccessAt(es, w));
      assert Get(AccessAt(es, w).vc, es[p].t) > Get(AccessAt(es, q).vc, es[p].t);
      assert es[w].t != es[q].t && !Reaches(es, w, q);
    }
  }

  /** The run has a data race that starts with a write, or with a read that the joins in between spare. */
  ghost predicate SparedRace(es: seq<Event>, x: Addr) {
    exists p: nat, q: nat :: p < q < |es| && Verdicts.ConflictingEvents(es[p], es[q], x) && !Reaches(es, p, q)
                             && (es[p].write || JoinsSpare(es, p, q, x))
  }

  /**
    FastTrack with join pruning flags every data race, on every run, but those of a read with a
    later write between which a join has taken a thread that read in the wake of the read, or has
    left fewer than two threads that read apart.
   */
  lemma SparedRacesAreFlagged(es: seq<Event>, x: Addr)
    requires WellFormed(es) && SparedRace(es, x)
    ensures PrunedMeta(es, x).racy
  {
    var p: nat, q: nat :| p < q < |es| && Verdicts.ConflictingEvents(es[p], es[q], x) && !Reaches(es, p, q)
                          && (es[p].write || JoinsSpare(es, p, q, x));
    PruningLosesReadsOnly(es, x);
    if !es[p].write && !WriteFirstRace(es, x) {
      if NoWriteBetween(es, p, q, x) {
        UncrossedRaceIsFlagged(es, p, q, x);
      } else {
        var w := FirstWriteBetween(es, p, q, x);
        CrossedRace(es, p, w, q, x);
        UncrossedRaceIsFlagged(es, p, w, x);
      }
    }
  }
}
