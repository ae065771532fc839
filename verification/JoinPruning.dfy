/**
  FastTrack's own join handler also erases the joined thread from every read clock. Its alarms stay
  genuine, but races of a read with a later write can be lost: `PrunedVerdict` says which.
 */
module JoinPruning {
  import opened Clocks
  import opened History
  import opened Machine
  import opened MachineProofs
  import opened FastTrack
  import opened Scenarios
  import HappensBefore
  import Verdicts

  function Prune(m: FtMeta, child: Tid): FtMeta {
    if child !in m.reader_vc then m
    else
      var r := m.reader_vc - {child};
      m.(reader_vc := r, shared := m.shared && |r| > 1)
  }

  function PrunedStep(m: FtMeta, s: Sys, e: Event, x: Addr): FtMeta {
    match e
    case Mem(t, y, write) => if x == y then Process(m, Access(t, y, write, At(s, Thr(t)).vc)) else m
    case Join(t, child) => Prune(m, child)
    case _ => m
  }

  /** The meta of `x` after a run, with every join pruning the read clocks. */
  function PrunedMeta(es: seq<Event>, x: Addr): FtMeta {
    if es == [] then NEW_META
    else PrunedStep(PrunedMeta(es[..|es| - 1], x), Run(es[..|es| - 1]), es[|es| - 1], x)
  }

  lemma PrunedSnoc(es: seq<Event>, e: Event, x: Addr)
    ensures PrunedMeta(es + [e], x) == PrunedStep(PrunedMeta(es, x), Run(es), e, x)
  {
  }

  /** No join of the run finds its child in the read clock of `x`. */
  predicate NothingPruned(es: seq<Event>, x: Addr) {
    es == []
    || (var n := |es| - 1;
        NothingPruned(es[..n], x) && (es[n].Join? ==> es[n].child !in PrunedMeta(es[..n], x).reader_vc))
  }

  lemma RacyStepIsGenuine(m: FtMeta, h: seq<Access>, a: Access)
    requires Consistent(h + [a]) && Sound(m, h, a.x) && (m.racy ==> HasRace(h, a.x))
    ensures Process(m, a).racy ==> HasRace(h + [a], a.x)
  {
    RaceOfNewAccess(h, a, a.x);
    if !m.racy && Process(m, a).racy {
      if Newer(m.writer_epoch, a.t, a.vc) {
        NewerIsRace(m.writer_epoch, h, true, a);
      } else if !m.shared {
        NewerIsRace(m.reader_epoch, h, false, a);
      } else {
        var u :| u in m.reader_vc && Newer(Epoch(u, m.reader_vc[u]), a.t, a.vc);
        NewerIsRace(Epoch(u, m.reader_vc[u]), h, false, a);
      }
    }
  }

  lemma SoundElsewhere(m: FtMeta, h: seq<Access>, a: Access, x: Addr)
    requires Sound(m, h, x)
    ensures Sound(m, h + [a], x)
  {
    RealExtended(m.writer_epoch, h, x, true, a);
    RealExtended(m.reader_epoch, h, x, false, a);
    forall u | u in m.reader_vc ensures Real(Epoch(u, m.reader_vc[u]), h + [a], x, false) {
      RealExtended(Epoch(u, m.reader_vc[u]), h, x, false, a);
    }
  }

  function HistoryAfter(s: Sys, e: Event): seq<Access> {
    s.hist + if e.Mem? then [Access(e.t, e.x, e.write, At(s, Thr(e.t)).vc)] else []
  }

  lemma PrunedStepIsSound(m: FtMeta, s: Sys, e: Event, x: Addr)
    requires Consistent(HistoryAfter(s, e))
    requires Sound(m, s.hist, x) && (m.racy ==> HasRace(s.hist, x))
    ensures Sound(PrunedStep(m, s, e, x), HistoryAfter(s, e), x)
    ensures PrunedStep(m, s, e, x).racy ==> HasRace(HistoryAfter(s, e), x)
  {
    if e.Mem? {
      var a := Access(e.t, e.x, e.write, At(s, Thr(e.t)).vc);
      RaceOfNewAccess(s.hist, a, x);
      if e.x == x {
        SoundStep(m, s.hist, a);
        RacyStepIsGenuine(m, s.hist, a);
      } else {
        SoundElsewhere(m, s.hist, a, x);
      }
    } else {
      assert HistoryAfter(s, e) == s.hist;
    }
  }

  lemma {:induction false} PrunedIsSound(es: seq<Event>, x: Addr)
    requires WellFormed(es)
    ensures Sound(PrunedMeta(es, x), Run(es).hist, x)
    ensures PrunedMeta(es, x).racy ==> HasRace(Run(es).hist, x)
  {
    if es != [] {
      var n := |es| - 1;
      PrunedIsSound(es[..n], x);
      RunKeepsInv(es);
      HappensBefore.StepHist(Run(es[..n]), es[n]);
      PrunedStepIsSound(PrunedMeta(es[..n], x), Run(es[..n]), es[n], x);
    }
  }

  /** With pruning, every FastTrack alarm is still a data race of the run. */
  lemma PrunedAlarmsAreRaces(es: seq<Event>, x: Addr)
    requires WellFormed(es)
    ensures PrunedMeta(es, x).racy ==> Verdicts.DataRace(es, x)
  {
    PrunedIsSound(es, x);
    Verdicts.RacesAreDataRaces(es, x);
  }

  lemma UnprunedStep(s: Sys, e: Event, x: Addr)
    requires e.Join? ==> e.child !in MetaOf(s.hist, x).reader_vc
    ensures PrunedStep(MetaOf(s.hist, x), s, e, x) == MetaOf(HistoryAfter(s, e), x)
  {
    var h := HistoryAfter(s, e);
    if e.Mem? {
      assert h[..|h| - 1] == s.hist;
    } else {
      assert h == s.hist;
    }
  }

  lemma {:induction false} UnprunedIsPlain(es: seq<Event>, x: Addr)
    requires NothingPruned(es, x)
    ensures PrunedMeta(es, x) == MetaOf(Run(es).hist, x)
  {
    if es != [] {
      var n := |es| - 1;
      UnprunedIsPlain(es[..n], x);
      HappensBefore.StepHist(Run(es[..n]), es[n]);
      UnprunedStep(Run(es[..n]), es[n], x);
    }
  }

  /** Pruning can change the verdict only where a join finds its child in a read clock. */
  lemma ExactWhenNothingPruned(es: seq<Event>, x: Addr)
    requires WellFormed(es) && NothingPruned(es, x)
    ensures PrunedMeta(es, x).racy <==> Verdicts.DataRace(es, x)
  {
    UnprunedIsPlain(es, x);
    Verdicts.FastTrackVerdict(es, x);
  }

  // ----- What pruning loses

  /** The reader epoch is not in a frame that could hide a read from write `w`. */
  ghost predicate ReaderBeyond(m: FtMeta, h: seq<Access>, w: Access) {
    || m.reader_epoch == NO_EPOCH
    || Covers(m.reader_epoch, h, w)
    || m.reader_epoch.c <= Get(w.vc, m.reader_epoch.t)
  }

  /** No write has been forgotten: joins prune neither of the two epochs. */
  ghost predicate WritesCovered(m: FtMeta, h: seq<Access>, x: Addr) {
    forall i :: 0 <= i < |h| && h[i].x == x && h[i].write ==> Covers(m.writer_epoch, h, h[i]) && ReaderBeyond(m, h, h[i])
  }

  /** The read state holds this epoch, so that the next write is checked against it. */
  predicate HoldsRead(m: FtMeta, e: Epoch) {
    if m.shared then e.t in m.reader_vc && m.reader_vc[e.t] == e.c else m.reader_epoch == e
  }

  /** Write `w` is not skipped as a repetition, and the read state still holds the epoch of `r`. */
  predicate Checked(m: FtMeta, r: Access, w: Access) {
    m.writer_epoch != Epoch(w.t, w.Clk()) && HoldsRead(m, Epoch(r.t, r.Clk()))
  }

  /** Access `a` races with one before it that is a write, or a read that the meta still holds. */
  ghost predicate Catches(m: FtMeta, h: seq<Access>, a: Access) {
    exists i :: 0 <= i < |h| && h[i].x == a.x && Racing(h[i], a) && (h[i].write || Checked(m, h[i], a))
  }

  lemma StillBeyond(m: FtMeta, h: seq<Access>, w: Access, a: Access)
    requires Covers(m.writer_epoch, h, w) && ReaderBeyond(m, h, w)
    ensures Covers(m.writer_epoch, h + [a], w) && ReaderBeyond(m, h + [a], w)
  {
    CoversExtended(m.writer_epoch, h, w, a);
    if Covers(m.reader_epoch, h, w) {
      CoversExtended(m.reader_epoch, h, w, a);
    }
  }

  lemma WritesStayCovered(m: FtMeta, h: seq<Access>, x: Addr, a: Access)
    requires WritesCovered(m, h, x) && !(a.x == x && a.write)
    ensures WritesCovered(m, h + [a], x)
  {
    var g := h + [a];
    forall i | 0 <= i < |g| && g[i].x == x && g[i].write ensures Covers(m.writer_epoch, g, g[i]) && ReaderBeyond(m, g, g[i]) {
      assert g[i] == h[i];
      StillBeyond(m, h, h[i], a);
    }
  }

  /** A skipped read repeats the recorded one, which comes after every write it is to be checked against. */
  lemma SkippedReadIsOrdered(m: FtMeta, h: seq<Access>, a: Access, i: nat)
    requires Consistent(h + [a]) && WritesCovered(m, h, a.x)
    requires !a.write && m.reader_epoch == Epoch(a.t, a.Clk())
    requires i < |h| && h[i].x == a.x && h[i].write
    ensures !Racing(h[i], a)
  {
    ConsistentPrefix(h, a);
    if Covers(m.reader_epoch, h, h[i]) {
      CoveredIsOrdered(m.reader_epoch, h, h[i], a);
    } else {
      assert WellTimed(a);
    }
  }

  lemma ReadCatches(m: FtMeta, h: seq<Access>, a: Access)
    requires Consistent(h + [a]) && Sound(m, h, a.x) && WritesCovered(m, h, a.x) && !m.racy && !a.write
    ensures Process(m, a).racy <==> Catches(m, h, a)
  {
    if m.reader_epoch == Epoch(a.t, a.Clk()) {
      forall i | 0 <= i < |h| && h[i].x == a.x && h[i].write ensures !Racing(h[i], a) {
        SkippedReadIsOrdered(m, h, a, i);
      }
    } else if Newer(m.writer_epoch, a.t, a.vc) {
      var k := RaceWithNewer(m.writer_epoch, h, true, a);
    } else {
      forall i | 0 <= i < |h| && h[i].x == a.x && h[i].write ensures !Racing(h[i], a) {
        CoveredIsOrdered(m.writer_epoch, h, h[i], a);
      }
    }
  }

  lemma ReadKeepsWrites(m: FtMeta, h: seq<Access>, a: Access)
    requires Consistent(h + [a]) && Sound(m, h, a.x) && WritesCovered(m, h, a.x) && !a.write
    requires !Process(m, a).racy
    ensures WritesCovered(Process(m, a), h + [a], a.x)
  {
    var m1, g := Process(m, a), h + [a];
    WritesStayCovered(m, h, a.x, a);
    if m1.reader_epoch != m.reader_epoch {
      forall i | 0 <= i < |g| && g[i].x == a.x && g[i].write
        ensures Covers(m1.writer_epoch, g, g[i]) && ReaderBeyond(m1, g, g[i])
      {
        assert g[i] == h[i];
        CoveredIsOrdered(m.writer_epoch, h, h[i], a);
        NewestCovers(h, h[i], a);
      }
    }
  }

  lemma HeldReadIsNewer(m: FtMeta, r: Access, w: Access)
    requires Racing(r, w) && HoldsRead(m, Epoch(r.t, r.Clk()))
    ensures if m.shared then SomeNewer(m.reader_vc, w.t, w.vc) else Newer(m.reader_epoch, w.t, w.vc)
  {
    if m.shared {
      assert Newer(Epoch(r.t, m.reader_vc[r.t]), w.t, w.vc);
    }
  }

  /** What a write flags is what it catches. */
  lemma WriteFlagIsCaught(m: FtMeta, h: seq<Access>, a: Access)
    requires Consistent(h + [a]) && Sound(m, h, a.x) && !m.racy && a.write && Process(m, a).racy
    ensures Catches(m, h, a)
  {
    if Newer(m.writer_epoch, a.t, a.vc) {
      var k := RaceWithNewer(m.writer_epoch, h, true, a);
    } else if m.shared {
      var u :| u in m.reader_vc && Newer(Epoch(u, m.reader_vc[u]), a.t, a.vc);
      var k := RaceWithNewer(Epoch(u, m.reader_vc[u]), h, false, a);
      assert Checked(m, h[k], a);
    } else {
      var k := RaceWithNewer(m.reader_epoch, h, false, a);
      assert Checked(m, h[k], a);
    }
  }

  lemma WriteCatches(m: FtMeta, h: seq<Access>, a: Access)
    requires Consistent(h + [a]) && Sound(m, h, a.x) && WritesCovered(m, h, a.x) && !m.racy && a.write
    ensures Process(m, a).racy <==> Catches(m, h, a)
  {
    if Process(m, a).racy {
      WriteFlagIsCaught(m, h, a);
    } else if Catches(m, h, a) {
      var i :| 0 <= i < |h| && h[i].x == a.x && Racing(h[i], a) && (h[i].write || Checked(m, h[i], a));
      if h[i].write {
        CoveredIsOrdered(m.writer_epoch, h, h[i], a);
      } else {
        HeldReadIsNewer(m, h[i], a);
      }
    }
  }

  /** A write in the frame of the recorded writer epoch is covered as the write it repeats is. */
  lemma SkippedWriteIsCovered(m: FtMeta, h: seq<Access>, a: Access)
    requires Consistent(h + [a]) && Sound(m, h, a.x) && WritesCovered(m, h, a.x)
    requires a.write && m.writer_epoch == Epoch(a.t, a.Clk())
    ensures Covers(m.writer_epoch, h + [a], a) && ReaderBeyond(m, h + [a], a)
  {
    ConsistentPrefix(h, a);
    var k := AccessOf(m.writer_epoch, h, a.x, true);
    NewestCovers(h, a, a);
    if Covers(m.reader_epoch, h, h[k]) {
      CoversExtended(m.reader_epoch, h, a, a);
    } else {
      assert Sequenced(h[k], a);
      assert Get(h[k].vc, m.reader_epoch.t) <= Get(a.vc, m.reader_epoch.t);
    }
  }

  lemma WriteKeepsWrites(m: FtMeta, h: seq<Access>, a: Access)
    requires Consistent(h + [a]) && Sound(m, h, a.x) && WritesCovered(m, h, a.x) && a.write
    requires !Process(m, a).racy
    ensures WritesCovered(Process(m, a), h + [a], a.x)
  {
    var m1, g := Process(m, a), h + [a];
    if m.writer_epoch == Epoch(a.t, a.Clk()) {
      SkippedWriteIsCovered(m, h, a);
    } else {
      NewestCovers(h, a, a);
      ReaderEpochKnown(m, h, a);
    }
    forall i | 0 <= i < |h| && h[i].x == a.x && h[i].write
      ensures Covers(m1.writer_epoch, g, h[i]) && ReaderBeyond(m1, g, h[i])
    {
      StillBeyond(m, h, h[i], a);
      CoveredIsOrdered(m.writer_epoch, h, h[i], a);
      NewestCovers(h, h[i], a);
    }
    forall i | 0 <= i < |g| && g[i].x == a.x && g[i].write
      ensures Covers(m1.writer_epoch, g, g[i]) && ReaderBeyond(m1, g, g[i])
    {
      assert g[i] == if i < |h| then h[i] else a;
    }
  }

  // ----- The verdict of a run

  /** The access that event `p` of the run makes. */
  function AccessAt(es: seq<Event>, p: nat): Access
    requires p < |es| && es[p].Mem?
  {
    Access(es[p].t, es[p].x, es[p].write, At(Run(es[..p]), Thr(es[p].t)).vc)
  }

  /** Events `p` and `q` are a data race, and `p` is a write or a read that is still held when `q` comes. */
  ghost predicate Caught(es: seq<Event>, p: nat, q: nat, x: Addr) {
    && p < q < |es|
    && Verdicts.ConflictingEvents(es[p], es[q], x) && !HappensBefore.Reaches(es, p, q)
    && (es[p].write || Checked(PrunedMeta(es[..q], x), AccessAt(es, p), AccessAt(es, q)))
  }

  ghost predicate CaughtRace(es: seq<Event>, x: Addr) {
    exists p: nat, q: nat :: Caught(es, p, q, x)
  }

  lemma {:induction false} HistoryOfEvents(es: seq<Event>, i: nat)
    requires WellFormed(es) && i < |Run(es).hist|
    ensures |HappensBefore.Positions(es)| == |Run(es).hist|
    ensures var p := HappensBefore.Positions(es)[i]; p < |es| && es[p].Mem? && Run(es).hist[i] == AccessAt(es, p)
  {
    var n := |es| - 1;
    HappensBefore.PositionsAre(es);
    HappensBefore.PositionsAre(es[..n]);
    HappensBefore.StepHist(Run(es[..n]), es[n]);
    if i < |Run(es[..n]).hist| {
      HistoryOfEvents(es[..n], i);
      var p := HappensBefore.Positions(es[..n])[i];
      assert es[..n][..p] == es[..p];
    }
  }

  /** Where event `n` is a memory event, the history before it and its own access are parts of the final history. */
  lemma HistoryBefore(es: seq<Event>, n: nat) returns (j: nat)
    requires WellFormed(es) && n < |es| && es[n].Mem?
    ensures |HappensBefore.Positions(es)| == |Run(es).hist|
    ensures j < |Run(es).hist| && HappensBefore.Positions(es)[j] == n && Run(es).hist[j] == AccessAt(es, n)
    ensures Run(es[..n]).hist == Run(es).hist[..j]
  {
    j := Verdicts.PositionOf(es, n);
    HappensBefore.PositionsAre(es);
    HappensBefore.PositionsCut(es, j);
    HappensBefore.WellFormedPrefix(es, n);
    HappensBefore.PositionsAre(es[..n]);
    HistoryOfEvents(es, j);
    forall i | 0 <= i < j ensures Run(es[..n]).hist[i] == Run(es).hist[i] {
      HistoryOfEvents(es, i);
      HistoryOfEvents(es[..n], i);
      var p := HappensBefore.Positions(es)[i];
      assert es[..n][..p] == es[..p];
    }
  }

  /** What the access of event `n` catches are data races that end at `n`. */
  lemma CatchesAreCaught(es: seq<Event>, n: nat, x: Addr)
    requires WellFormed(es) && n < |es| && es[n].Mem? && es[n].x == x
    ensures Catches(PrunedMeta(es[..n], x), Run(es[..n]).hist, AccessAt(es, n)) <==> exists p :: Caught(es, p, n, x)
  {
    var m, h, a := PrunedMeta(es[..n], x), Run(es[..n]).hist, AccessAt(es, n);
    var j := HistoryBefore(es, n);
    if Catches(m, h, a) {
      var i :| 0 <= i < |h| && h[i].x == a.x && Racing(h[i], a) && (h[i].write || Checked(m, h[i], a));
      assert h[i] == Run(es).hist[i];
      Verdicts.PairRaces(es, i, j, x);
      HistoryOfEvents(es, i);
      assert Caught(es, HappensBefore.Positions(es)[i], n, x);
    }
    if p :| Caught(es, p, n, x) {
      CaughtIsInHistory(es, p, n, j, x);
    }
  }

  lemma CaughtIsInHistory(es: seq<Event>, p: nat, n: nat, j: nat, x: Addr)
    requires WellFormed(es) && Caught(es, p, n, x)
    requires j < |HappensBefore.Positions(es)| == |Run(es).hist| && HappensBefore.Positions(es)[j] == n
    requires Run(es).hist[j] == AccessAt(es, n) && Run(es[..n]).hist == Run(es).hist[..j]
    ensures Catches(PrunedMeta(es[..n], x), Run(es[..n]).hist, AccessAt(es, n))
  {
    var i := Verdicts.PositionOf(es, p);
    HappensBefore.PositionsAre(es);
    assert i < j;
    Verdicts.PairRaces(es, i, j, x);
    HistoryOfEvents(es, i);
    assert Run(es[..n]).hist[i] == Run(es).hist[i];
  }

  /** Up to event `n`, what is flagged is what was caught, and until then no write is forgotten. */
  ghost predicate ExactSoFar(es: seq<Event>, n: nat, x: Addr)
    requires n <= |es|
  {
    var m := PrunedMeta(es[..n], x);
    && (!m.racy ==> WritesCovered(m, Run(es[..n]).hist, x))
    && (m.racy <==> exists p: nat, q: nat :: q < n && Caught(es, p, q, x))
  }

  lemma RacyStays(m: FtMeta, s: Sys, e: Event, x: Addr)
    requires m.racy
    ensures PrunedStep(m, s, e, x).racy
  {
  }

  lemma QuietStepKeepsWrites(m: FtMeta, s: Sys, e: Event, x: Addr)
    requires Consistent(HistoryAfter(s, e)) && Sound(m, s.hist, x) && WritesCovered(m, s.hist, x)
    requires !PrunedStep(m, s, e, x).racy
    ensures WritesCovered(PrunedStep(m, s, e, x), HistoryAfter(s, e), x)
  {
    if e.Mem? {
      var a := Access(e.t, e.x, e.write, At(s, Thr(e.t)).vc);
      if e.x != x {
        WritesStayCovered(m, s.hist, x, a);
      } else if e.write {
        WriteKeepsWrites(m, s.hist, a);
      } else {
        ReadKeepsWrites(m, s.hist, a);
      }
    } else {
      assert HistoryAfter(s, e) == s.hist;
    }
  }

  /** A step that meets an unflagged meta flags it exactly if it catches a race. */
  lemma StepCatches(m: FtMeta, s: Sys, e: Event, x: Addr)
    requires Consistent(HistoryAfter(s, e)) && Sound(m, s.hist, x) && WritesCovered(m, s.hist, x) && !m.racy
    ensures PrunedStep(m, s, e, x).racy <==>
            e.Mem? && e.x == x && Catches(m, s.hist, Access(e.t, e.x, e.write, At(s, Thr(e.t)).vc))
  {
    if e.Mem? && e.x == x {
      var a := Access(e.t, e.x, e.write, At(s, Thr(e.t)).vc);
      if e.write {
        WriteCatches(m, s.hist, a);
      } else {
        ReadCatches(m, s.hist, a);
      }
    }
  }

  lemma CaughtAt(es: seq<Event>, n: nat, x: Addr)
    requires n < |es|
    ensures (exists p: nat, q: nat :: q < n + 1 && Caught(es, p, q, x)) <==>
            (exists p: nat, q: nat :: q < n && Caught(es, p, q, x)) || exists p :: Caught(es, p, n, x)
  {
    if p: nat, q: nat :| q < n + 1 && Caught(es, p, q, x) {
      assert q == n || q < n;
    }
    if p :| Caught(es, p, n, x) {
      assert n < n + 1 && Caught(es, p, n, x);
    }
  }

  lemma ExactStep(es: seq<Event>, n: nat, x: Addr)
    requires WellFormed(es) && n < |es| && ExactSoFar(es, n, x)
    ensures ExactSoFar(es, n + 1, x)
  {
    var m, s, e := PrunedMeta(es[..n], x), Run(es[..n]), es[n];
    HappensBefore.NextEvent(es, n);
    HappensBefore.WellFormedPrefix(es, n);
    HappensBefore.WellFormedPrefix(es, n + 1);
    PrunedSnoc(es[..n], e, x);
    RunSnoc(es[..n], e);
    RunKeepsInv(es[..n + 1]);
    HappensBefore.StepHist(s, e);
    PrunedIsSound(es[..n], x);
    CaughtAt(es, n, x);
    if m.racy {
      RacyStays(m, s, e, x);
    } else {
      StepCatches(m, s, e, x);
      if !PrunedStep(m, s, e, x).racy {
        QuietStepKeepsWrites(m, s, e, x);
      }
      if e.Mem? && e.x == x {
        CatchesAreCaught(es, n, x);
      }
    }
  }

  lemma {:induction false} PrunedIsExact(es: seq<Event>, n: nat, x: Addr)
    requires WellFormed(es) && n <= |es|
    ensures ExactSoFar(es, n, x)
  {
    if n > 0 {
      PrunedIsExact(es, n - 1, x);
      ExactStep(es, n - 1, x);
    }
  }

  /**
    What FastTrack flags as it stands, on every run: the data races whose first access is a write,
    and those whose first access is a read that its read state still holds when the write comes.
   */
  lemma PrunedVerdict(es: seq<Event>, x: Addr)
    requires WellFormed(es)
    ensures PrunedMeta(es, x).racy <==> CaughtRace(es, x)
  {
    PrunedIsExact(es, |es|, x);
    assert es[..|es|] == es;
  }

  /** The run has a data race on `x` whose first access is a write. */
  ghost predicate WriteFirstRace(es: seq<Event>, x: Addr) {
    exists p, q :: 0 <= p < q < |es| && es[p].Mem? && es[p].write
                   && Verdicts.ConflictingEvents(es[p], es[q], x) && !HappensBefore.Reaches(es, p, q)
  }

  lemma WriteFirstIsCaught(es: seq<Event>, x: Addr)
    requires WriteFirstRace(es, x)
    ensures CaughtRace(es, x)
  {
    var p, q :| 0 <= p < q < |es| && es[p].Mem? && es[p].write
                && Verdicts.ConflictingEvents(es[p], es[q], x) && !HappensBefore.Reaches(es, p, q);
    assert Caught(es, p, q, x);
  }

  /** On every run, however joins prune it, FastTrack can only miss races of a read with a later write. */
  lemma PruningLosesReadsOnly(es: seq<Event>, x: Addr)
    requires WellFormed(es)
    ensures WriteFirstRace(es, x) ==> PrunedMeta(es, x).racy
  {
    PrunedVerdict(es, x);
    if WriteFirstRace(es, x) {
      WriteFirstIsCaught(es, x);
    }
  }

  // ----- A run on which pruning loses a race

  const READ2 := Access(2, 0, false, map[1 := 1, 2 := 1])
  const READ3 := Access(3, 0, false, map[1 := 2, 3 := 1])
  const AFTER_READS := FtMeta(NO_EPOCH, Epoch(2, 1), map[2 := 1, 3 := 1], true, false)
  const AFTER_JOIN := FtMeta(NO_EPOCH, Epoch(2, 1), map[3 := 1], false, false)
  const JOINED_CLOCK: Clock := map[1 := 4, 2 := 1]

  lemma MetaAfterReads()
    ensures Process(Process(NEW_META, READ2), READ3) == AFTER_READS
  {
    var m1 := Process(NEW_META, READ2);
    assert m1 == FtMeta(NO_EPOCH, Epoch(2, 1), map[], false, false);
    assert Process(m1, READ3).reader_vc == map[3 := 1][2 := 1] == map[2 := 1, 3 := 1];
  }

  lemma ClockAfterJoin()
    ensures Ticked(Joined(THREE_CLOCKS[1], THREE_CLOCKS[2]), 1) == JOINED_CLOCK
  {
    var c1, c2: Clock := map[1 := 3], map[1 := 1, 2 := 1];
    assert Joined(c1, c2) == map[1 := 3, 2 := 1];
  }

  lemma MetaAfterJoin()
    ensures Prune(AFTER_READS, 2) == AFTER_JOIN
  {
    var readers: Clock := map[2 := 1, 3 := 1];
    assert readers - {2} == map[3 := 1];
  }

  lemma TwoReads(es: seq<Event>)
    requires Reached(es, 3, THREE_CLOCKS, []) && PrunedMeta(es, 0) == NEW_META
    ensures Reached(es + [Mem(2, 0, false)] + [Mem(3, 0, false)], 3, THREE_CLOCKS, [READ2, READ3])
    ensures PrunedMeta(es + [Mem(2, 0, false)] + [Mem(3, 0, false)], 0) == AFTER_READS
  {
    ThenAccess(es, 3, THREE_CLOCKS, [], 2, 0, false);
    PrunedSnoc(es, Mem(2, 0, false), 0);
    ThenAccess(es + [Mem(2, 0, false)], 3, THREE_CLOCKS, [] + [READ2], 3, 0, false);
    PrunedSnoc(es + [Mem(2, 0, false)], Mem(3, 0, false), 0);
    assert [] + [READ2] + [READ3] == [READ2, READ3];
    MetaAfterReads();
  }

  lemma WriteAfterJoinRaces(es: seq<Event>, clocks: map<Tid, Clock>)
    requires Reached(es, 3, clocks, [READ2, READ3]) && 1 in clocks && clocks[1] == JOINED_CLOCK
    requires PrunedMeta(es, 0) == AFTER_JOIN
    ensures WellFormed(es + [Mem(1, 0, true)])
    ensures Verdicts.DataRace(es + [Mem(1, 0, true)], 0) && !PrunedMeta(es + [Mem(1, 0, true)], 0).racy
  {
    ThenAccess(es, 3, clocks, [READ2, READ3], 1, 0, true);
    PrunedSnoc(es, Mem(1, 0, true), 0);
    var run := es + [Mem(1, 0, true)];
    var h := Run(run).hist;
    assert h[1] == READ3 && h[2] == Access(1, 0, true, JOINED_CLOCK);
    assert h[1].x == 0 && Racing(h[1], h[2]);
    Verdicts.RacesAreDataRaces(run, 0);
  }

  lemma NoMetaYet()
    ensures PrunedMeta(THREE_THREADS, 0) == NEW_META
  {
    var e0: seq<Event> := [];
    PrunedSnoc(e0, Start(1, 0), 0);
    PrunedSnoc(e0 + [Start(1, 0)], Start(2, 1), 0);
    PrunedSnoc(TWO_THREADS, Start(3, 1), 0);
  }

  /** Threads 2 and 3 read concurrently; thread 1 joins thread 2 and writes, unordered with thread 3. */
  const TWO_READS := THREE_THREADS + [Mem(2, 0, false)] + [Mem(3, 0, false)]
  const MISSED_RACE := TWO_READS + [Join(1, 2)] + [Mem(1, 0, true)]

  /** FastTrack as it stands misses a data race that Djit reports. */
  lemma PruningMissesARace()
    ensures WellFormed(MISSED_RACE)
    ensures Verdicts.DataRace(MISSED_RACE, 0) && !PrunedMeta(MISSED_RACE, 0).racy
  {
    ThreeThreads();
    NoMetaYet();
    TwoReads(THREE_THREADS);
    ThenJoin(TWO_READS, 3, THREE_CLOCKS, [READ2, READ3], 1, 2);
    PrunedSnoc(TWO_READS, Join(1, 2), 0);
    ClockAfterJoin();
    MetaAfterJoin();
    WriteAfterJoinRaces(TWO_READS + [Join(1, 2)], (THREE_CLOCKS - {2})[1 := Ticked(Joined(THREE_CLOCKS[1], THREE_CLOCKS[2]), 1)]);
  }
}
