/**
  FastTrack keeps one write epoch per address, and one read epoch that becomes a read clock while
  reads are concurrent. Joins do not prune the read clocks here; `JoinPruning` adds that.
 */
module FastTrack {
  import opened Clocks
  import opened History
  import Djit

  /** A thread and its clock; thread 0 means "none". */
  datatype Epoch = Epoch(t: Tid, c: nat)

  datatype FtMeta = FtMeta(writer_epoch: Epoch, reader_epoch: Epoch, reader_vc: Clock, shared: bool, racy: bool)

  const NO_EPOCH := Epoch(0, 0)
  const NEW_META := FtMeta(NO_EPOCH, NO_EPOCH, map[], false, false)

  /** The source's test for an epoch of another thread that is newer than what `vc` knows. */
  predicate Newer(e: Epoch, t: Tid, vc: Clock) {
    e.t != t && e.c > Get(vc, e.t)
  }

  predicate SomeNewer(readers: Clock, t: Tid, vc: Clock) {
    exists u :: u in readers && Newer(Epoch(u, readers[u]), t, vc)
  }

  function ProcessRead(m: FtMeta, t: Tid, vc: Clock): FtMeta {
    var clk := Get(vc, t);
    if m.reader_epoch == Epoch(t, clk) then m
    else
      var m1 := m.(racy := m.racy || Newer(m.writer_epoch, t, vc));
      var r := m.reader_epoch;
      if m.shared then m1.(reader_vc := m.reader_vc[t := clk])
      else if (r.t == t && r.c < clk) || r.t == 0 || (r.t != t && r.c <= Get(vc, r.t)) then
        m1.(reader_epoch := Epoch(t, clk))
      else m1.(reader_vc := m.reader_vc[t := clk][r.t := r.c], shared := true)
  }

  function ProcessWrite(m: FtMeta, t: Tid, vc: Clock): FtMeta {
    var clk := Get(vc, t);
    if m.writer_epoch == Epoch(t, clk) then m
    else
      var m1 := m.(racy := m.racy || Newer(m.writer_epoch, t, vc)
                           || (if m.shared then SomeNewer(m.reader_vc, t, vc) else Newer(m.reader_epoch, t, vc)),
                   writer_epoch := Epoch(t, clk));
      if m.shared then m1.(reader_vc := map[], shared := false, reader_epoch := NO_EPOCH) else m1
  }

  function Process(m: FtMeta, a: Access): FtMeta {
    if a.write then ProcessWrite(m, a.t, a.vc) else ProcessRead(m, a.t, a.vc)
  }

  function MetaOf(h: seq<Access>, x: Addr): FtMeta {
    if h == [] then NEW_META
    else
      var a, m := h[|h| - 1], MetaOf(h[..|h| - 1], x);
      if a.x == x then Process(m, a) else m
  }

  // ----- What the meta stands for

  /** `e` is the epoch of some access of this kind to `x`. */
  ghost predicate Real(e: Epoch, h: seq<Access>, x: Addr, write: bool) {
    e == NO_EPOCH
    || exists k :: 0 <= k < |h| && h[k].x == x && h[k].write == write && h[k].t == e.t && h[k].Clk() == e.c
  }

  /** Every epoch that the meta holds belongs to an access that was made. */
  ghost predicate Sound(m: FtMeta, h: seq<Access>, x: Addr) {
    && Real(m.writer_epoch, h, x, true)
    && Real(m.reader_epoch, h, x, false)
    && (forall u :: u in m.reader_vc ==> u > 0 && Real(Epoch(u, m.reader_vc[u]), h, x, false))
  }

  /** Whoever knows epoch `e` knows access `a`. */
  ghost predicate Covers(e: Epoch, h: seq<Access>, a: Access) {
    exists k :: 0 <= k < |h| && h[k].t == e.t && h[k].Clk() == e.c && Ordered(a, h[k])
  }

  ghost predicate ReadCovered(m: FtMeta, h: seq<Access>, a: Access) {
    || Covers(m.writer_epoch, h, a)
    || (!m.shared && Covers(m.reader_epoch, h, a))
    || (m.shared && exists u :: u in m.reader_vc && Covers(Epoch(u, m.reader_vc[u]), h, a))
  }

  /** Nothing that could still race has been forgotten. */
  ghost predicate Complete(m: FtMeta, h: seq<Access>, x: Addr) {
    && (!m.shared ==> m.reader_vc == map[])
    && (forall i :: 0 <= i < |h| && h[i].x == x && h[i].write ==> Covers(m.writer_epoch, h, h[i]))
    && (forall i :: 0 <= i < |h| && h[i].x == x && !h[i].write ==> ReadCovered(m, h, h[i]))
  }

  ghost predicate Exact(m: FtMeta, h: seq<Access>, x: Addr) {
    && Sound(m, h, x)
    && (!m.racy ==> Complete(m, h, x))
    && (m.racy <==> HasRace(h, x))
  }

  // ----- Facts about epochs

  lemma CoversExtended(e: Epoch, h: seq<Access>, a: Access, b: Access)
    requires Covers(e, h, a)
    ensures Covers(e, h + [b], a)
  {
    var k :| 0 <= k < |h| && h[k].t == e.t && h[k].Clk() == e.c && Ordered(a, h[k]);
    assert (h + [b])[k] == h[k];
  }

  lemma RealExtended(e: Epoch, h: seq<Access>, x: Addr, write: bool, b: Access)
    requires Real(e, h, x, write)
    ensures Real(e, h + [b], x, write)
  {
    if e != NO_EPOCH {
      var k :| 0 <= k < |h| && h[k].x == x && h[k].write == write && h[k].t == e.t && h[k].Clk() == e.c;
      assert (h + [b])[k] == h[k];
    }
  }

  lemma AccessOf(e: Epoch, h: seq<Access>, x: Addr, write: bool) returns (k: nat)
    requires Real(e, h, x, write) && e != NO_EPOCH
    ensures k < |h| && h[k].x == x && h[k].write == write && h[k].t == e.t && h[k].Clk() == e.c
  {
    k :| 0 <= k < |h| && h[k].x == x && h[k].write == write && h[k].t == e.t && h[k].Clk() == e.c;
  }

  /** An epoch that is not newer passes on all it covers. */
  lemma CoveredIsOrdered(e: Epoch, h: seq<Access>, a: Access, b: Access)
    requires Consistent(h + [b]) && Covers(e, h, a) && !Newer(e, b.t, b.vc)
    ensures Ordered(a, b)
  {
    ConsistentPrefix(h, b);
    var k :| 0 <= k < |h| && h[k].t == e.t && h[k].Clk() == e.c && Ordered(a, h[k]);
    assert Sequenced(h[k], b);
    assert Get(h[k].vc, a.t) <= Get(b.vc, a.t);
  }

  /** A newer real epoch is a race. */
  lemma RaceWithNewer(e: Epoch, h: seq<Access>, write: bool, b: Access) returns (k: nat)
    requires Consistent(h + [b]) && Real(e, h, b.x, write) && Newer(e, b.t, b.vc) && (write || b.write)
    ensures k < |h| && h[k].x == b.x && h[k].write == write && h[k].t == e.t && h[k].Clk() == e.c && Racing(h[k], b)
  {
    ConsistentPrefix(h, b);
    k := AccessOf(e, h, b.x, write);
    assert Sequenced(h[k], b);
  }

  lemma NewerIsRace(e: Epoch, h: seq<Access>, write: bool, b: Access)
    requires Consistent(h + [b]) && Real(e, h, b.x, write) && Newer(e, b.t, b.vc) && (write || b.write)
    ensures HasRace(h + [b], b.x)
  {
    var k := RaceWithNewer(e, h, write, b);
    RaceOfNewAccess(h, b, b.x);
  }

  /** The newest access covers itself and whatever it is ordered after. */
  lemma NewestCovers(h: seq<Access>, a: Access, b: Access)
    requires Ordered(a, b)
    ensures Covers(Epoch(b.t, b.Clk()), h + [b], a)
  {
    assert (h + [b])[|h|] == b;
  }

  // ----- Soundness of a step

  lemma SoundStep(m: FtMeta, h: seq<Access>, a: Access)
    requires Consistent(h + [a]) && Sound(m, h, a.x)
    ensures Sound(Process(m, a), h + [a], a.x)
  {
    ConsistentPrefix(h, a);
    var g := h + [a];
    assert g[|h|] == a;
    RealExtended(m.writer_epoch, h, a.x, true, a);
    RealExtended(m.reader_epoch, h, a.x, false, a);
    forall u | u in m.reader_vc ensures Real(Epoch(u, m.reader_vc[u]), g, a.x, false) {
      RealExtended(Epoch(u, m.reader_vc[u]), h, a.x, false, a);
    }
    assert Real(Epoch(a.t, a.Clk()), g, a.x, a.write);
    if !a.write && m.reader_epoch.t == 0 {
      assert m.reader_epoch == NO_EPOCH by {
        if k :| 0 <= k < |h| && h[k].x == a.x && h[k].t == m.reader_epoch.t {
          assert WellTimed(h[k]);
        }
      }
    }
  }

  // ----- Completeness of a step

  lemma ReadStaysCovered(m: FtMeta, h: seq<Access>, a: Access, b: Access)
    requires ReadCovered(m, h, a)
    ensures ReadCovered(m, h + [b], a)
  {
    if Covers(m.writer_epoch, h, a) {
      CoversExtended(m.writer_epoch, h, a, b);
    } else if !m.shared {
      CoversExtended(m.reader_epoch, h, a, b);
    } else {
      var u :| u in m.reader_vc && Covers(Epoch(u, m.reader_vc[u]), h, a);
      CoversExtended(Epoch(u, m.reader_vc[u]), h, a, b);
    }
  }

  /** A read in the frame of the recorded reader epoch is covered as the read it repeats is. */
  lemma SkippedReadComplete(m: FtMeta, h: seq<Access>, a: Access)
    requires Consistent(h + [a]) && Sound(m, h, a.x) && Complete(m, h, a.x)
    requires !a.write && m.reader_epoch == Epoch(a.t, a.Clk())
    ensures Complete(m, h + [a], a.x)
    ensures HasRace(h + [a], a.x) <==> HasRace(h, a.x)
  {
    ConsistentPrefix(h, a);
    var k := AccessOf(m.reader_epoch, h, a.x, false);
    RepeatedAccessAddsNoRace(h, a, k);
    OldStayCovered(m, h, a);
    assert ReadCovered(m, h + [a], h[k]);
  }

  lemma OldStayCovered(m: FtMeta, h: seq<Access>, a: Access)
    requires Complete(m, h, a.x)
    ensures forall i :: 0 <= i < |h| && h[i].x == a.x && h[i].write ==> Covers(m.writer_epoch, h + [a], h[i])
    ensures forall i :: 0 <= i < |h| && h[i].x == a.x && !h[i].write ==> ReadCovered(m, h + [a], h[i])
  {
    forall i | 0 <= i < |h| && h[i].x == a.x && h[i].write ensures Covers(m.writer_epoch, h + [a], h[i]) {
      CoversExtended(m.writer_epoch, h, h[i], a);
    }
    forall i | 0 <= i < |h| && h[i].x == a.x && !h[i].write ensures ReadCovered(m, h + [a], h[i]) {
      ReadStaysCovered(m, h, h[i], a);
    }
  }

  /** A recorded read moves what its reader state covered into the new reader state. */
  lemma RecordedReadKeeps(m: FtMeta, h: seq<Access>, a: Access, b: Access)
    requires Consistent(h + [a]) && Sound(m, h, a.x) && Complete(m, h, a.x)
    requires !a.write && m.reader_epoch != Epoch(a.t, a.Clk())
    requires ReadCovered(m, h, b)
    ensures ReadCovered(ProcessRead(m, a.t, a.vc), h + [a], b)
  {
    ConsistentPrefix(h, a);
    var m1, g := ProcessRead(m, a.t, a.vc), h + [a];
    if Covers(m.writer_epoch, h, b) {
      CoversExtended(m.writer_epoch, h, b, a);
    } else if m.shared {
      var u :| u in m.reader_vc && Covers(Epoch(u, m.reader_vc[u]), h, b);
      if u == a.t {
        CoveredIsOrdered(Epoch(u, m.reader_vc[u]), h, b, a);
        NewestCovers(h, b, a);
        assert a.t in m1.reader_vc;
      } else {
        CoversExtended(Epoch(u, m.reader_vc[u]), h, b, a);
        assert u in m1.reader_vc && m1.reader_vc[u] == m.reader_vc[u];
      }
    } else if m1.shared {
      CoversExtended(m.reader_epoch, h, b, a);
      assert m.reader_epoch.t in m1.reader_vc;
    } else {
      ReaderEpochKnown(m, h, a);
      CoveredIsOrdered(m.reader_epoch, h, b, a);
      NewestCovers(h, b, a);
    }
  }

  /** The stored reader epoch of the reading thread itself is never ahead of its clock. */
  lemma ReaderEpochKnown(m: FtMeta, h: seq<Access>, a: Access)
    requires Consistent(h + [a]) && Sound(m, h, a.x)
    ensures m.reader_epoch.t == a.t ==> m.reader_epoch.c <= a.Clk()
    ensures m.reader_epoch.t == 0 ==> m.reader_epoch == NO_EPOCH
  {
    ConsistentPrefix(h, a);
    if m.reader_epoch != NO_EPOCH {
      var k :| 0 <= k < |h| && h[k].x == a.x && h[k].t == m.reader_epoch.t && h[k].Clk() == m.reader_epoch.c;
      assert WellTimed(h[k]) && Sequenced(h[k], a);
    }
  }

  lemma RecordedReadComplete(m: FtMeta, h: seq<Access>, a: Access)
    requires Consistent(h + [a]) && Sound(m, h, a.x) && Complete(m, h, a.x)
    requires !a.write && m.reader_epoch != Epoch(a.t, a.Clk())
    ensures Complete(ProcessRead(m, a.t, a.vc), h + [a], a.x)
  {
    ConsistentPrefix(h, a);
    var m1, g := ProcessRead(m, a.t, a.vc), h + [a];
    OldStayCovered(m, h, a);
    forall i | 0 <= i < |g| && g[i].x == a.x && !g[i].write ensures ReadCovered(m1, g, g[i]) {
      if i < |h| {
        assert h[i] == g[i];
        RecordedReadKeeps(m, h, a, h[i]);
      } else {
        NewestCovers(h, a, a);
        ReaderEpochKnown(m, h, a);
        if m1.shared {
          assert a.t in m1.reader_vc && m1.reader_vc[a.t] == a.Clk();
        }
      }
    }
    forall i | 0 <= i < |g| && g[i].x == a.x && g[i].write ensures Covers(m1.writer_epoch, g, g[i]) {
      assert i < |h| && h[i] == g[i];
    }
  }

  /** If no check of a write fires, every earlier access to the address is ordered before it. */
  lemma QuietWriteIsOrdered(m: FtMeta, h: seq<Access>, a: Access, i: nat)
    requires Consistent(h + [a]) && Complete(m, h, a.x) && a.write
    requires i < |h| && h[i].x == a.x
    requires !Newer(m.writer_epoch, a.t, a.vc)
    requires if m.shared then !SomeNewer(m.reader_vc, a.t, a.vc) else !Newer(m.reader_epoch, a.t, a.vc)
    ensures Ordered(h[i], a)
  {
    if h[i].write || Covers(m.writer_epoch, h, h[i]) {
      CoveredIsOrdered(m.writer_epoch, h, h[i], a);
    } else if !m.shared {
      assert ReadCovered(m, h, h[i]);
      CoveredIsOrdered(m.reader_epoch, h, h[i], a);
    } else {
      assert ReadCovered(m, h, h[i]);
      var u :| u in m.reader_vc && Covers(Epoch(u, m.reader_vc[u]), h, h[i]);
      CoveredIsOrdered(Epoch(u, m.reader_vc[u]), h, h[i], a);
    }
  }

  lemma RecordedWriteComplete(m: FtMeta, h: seq<Access>, a: Access)
    requires Consistent(h + [a]) && Sound(m, h, a.x) && Complete(m, h, a.x)
    requires a.write && m.writer_epoch != Epoch(a.t, a.Clk()) && !ProcessWrite(m, a.t, a.vc).racy
    ensures Complete(ProcessWrite(m, a.t, a.vc), h + [a], a.x)
    ensures forall i :: 0 <= i < |h| ==> !Racing(h[i], a)
  {
    var m1, g := ProcessWrite(m, a.t, a.vc), h + [a];
    forall i | 0 <= i < |g| && g[i].x == a.x ensures Covers(m1.writer_epoch, g, g[i]) && Ordered(g[i], a) {
      if i < |h| {
        assert h[i] == g[i];
        QuietWriteIsOrdered(m, h, a, i);
      }
      NewestCovers(h, g[i], a);
    }
    forall i | 0 <= i < |h| ensures !Racing(h[i], a) {
      assert h[i] == g[i];
    }
  }

  lemma SkippedWriteComplete(m: FtMeta, h: seq<Access>, a: Access)
    requires Consistent(h + [a]) && Sound(m, h, a.x) && Complete(m, h, a.x)
    requires a.write && m.writer_epoch == Epoch(a.t, a.Clk())
    ensures Complete(m, h + [a], a.x)
    ensures HasRace(h + [a], a.x) <==> HasRace(h, a.x)
  {
    ConsistentPrefix(h, a);
    var k := AccessOf(m.writer_epoch, h, a.x, true);
    RepeatedAccessAddsNoRace(h, a, k);
    OldStayCovered(m, h, a);
    NewestCovers(h, a, a);
  }

  // ----- Exactness

  lemma ReadKeepsExact(m: FtMeta, h: seq<Access>, a: Access)
    requires Consistent(h + [a]) && Exact(m, h, a.x) && !a.write
    ensures Exact(ProcessRead(m, a.t, a.vc), h + [a], a.x)
  {
    ConsistentPrefix(h, a);
    SoundStep(m, h, a);
    RaceOfNewAccess(h, a, a.x);
    if !m.racy {
      if m.reader_epoch == Epoch(a.t, a.Clk()) {
        SkippedReadComplete(m, h, a);
      } else {
        RecordedReadComplete(m, h, a);
        if Newer(m.writer_epoch, a.t, a.vc) {
          NewerIsRace(m.writer_epoch, h, true, a);
        } else {
          forall i | 0 <= i < |h| ensures !Racing(h[i], a) {
            if Racing(h[i], a) {
              CoveredIsOrdered(m.writer_epoch, h, h[i], a);
            }
          }
        }
      }
    }
  }

  lemma WriteKeepsExact(m: FtMeta, h: seq<Access>, a: Access)
    requires Consistent(h + [a]) && Exact(m, h, a.x) && a.write
    ensures Exact(ProcessWrite(m, a.t, a.vc), h + [a], a.x)
  {
    var m1 := ProcessWrite(m, a.t, a.vc);
    SoundStep(m, h, a);
    RaceOfNewAccess(h, a, a.x);
    if !m.racy {
      if m.writer_epoch == Epoch(a.t, a.Clk()) {
        SkippedWriteComplete(m, h, a);
      } else if !m1.racy {
        RecordedWriteComplete(m, h, a);
      } else if Newer(m.writer_epoch, a.t, a.vc) {
        NewerIsRace(m.writer_epoch, h, true, a);
      } else if m.shared {
        var u :| u in m.reader_vc && Newer(Epoch(u, m.reader_vc[u]), a.t, a.vc);
        NewerIsRace(Epoch(u, m.reader_vc[u]), h, false, a);
      } else {
        NewerIsRace(m.reader_epoch, h, false, a);
      }
    }
  }

  lemma ElsewhereKeepsExact(m: FtMeta, h: seq<Access>, a: Access, x: Addr)
    requires Exact(m, h, x) && a.x != x
    ensures Exact(m, h + [a], x)
  {
    var g := h + [a];
    RaceOfNewAccess(h, a, x);
    RealExtended(m.writer_epoch, h, x, true, a);
    RealExtended(m.reader_epoch, h, x, false, a);
    forall u | u in m.reader_vc ensures Real(Epoch(u, m.reader_vc[u]), g, x, false) {
      RealExtended(Epoch(u, m.reader_vc[u]), h, x, false, a);
    }
    if !m.racy {
      forall i | 0 <= i < |g| && g[i].x == x && g[i].write ensures Covers(m.writer_epoch, g, g[i]) {
        assert g[i] == h[i];
        CoversExtended(m.writer_epoch, h, h[i], a);
      }
      forall i | 0 <= i < |g| && g[i].x == x && !g[i].write ensures ReadCovered(m, g, g[i]) {
        assert g[i] == h[i];
        ReadStaysCovered(m, h, h[i], a);
      }
    }
  }

  /**
    FastTrack is exact: with one write epoch, a read epoch that turns into a clock only when
    reads are concurrent, and read state thrown away at a write, its flag is still set exactly
    when two accesses to the address race.
   */
  lemma {:induction false} MetaIsExact(h: seq<Access>, x: Addr)
    requires Consistent(h)
    ensures Exact(MetaOf(h, x), h, x)
  {
    if h != [] {
      var g, a := h[..|h| - 1], h[|h| - 1];
      assert h == g + [a];
      ConsistentPrefix(g, a);
      MetaIsExact(g, x);
      if a.x != x {
        ElsewhereKeepsExact(MetaOf(g, x), g, a, x);
      } else if a.write {
        WriteKeepsExact(MetaOf(g, x), g, a);
      } else {
        ReadKeepsExact(MetaOf(g, x), g, a);
      }
    }
  }

  /** FastTrack and Djit give the same verdict on every address. */
  lemma AgreesWithDjit(h: seq<Access>, x: Addr)
    requires Consistent(h)
    ensures MetaOf(h, x).racy <==> Djit.MetaOf(h, x).racy
  {
    MetaIsExact(h, x);
    Djit.MetaIsExact(h, x);
  }
}
