/**
  Djit keeps, per address, a full clock of last reads and one of last writes, and compares them
  with the clock of each new access. It is exact on every history that the clock machine makes.
 */
module Djit {
  import opened Clocks
  import opened History

  datatype DjitMeta = DjitMeta(writer_vc: Clock, reader_vc: Clock, racy: bool)

  const NEW_META := DjitMeta(map[], map[], false)

  function ProcessRead(m: DjitMeta, t: Tid, vc: Clock): DjitMeta {
    if Get(m.reader_vc, t) == Get(vc, t) then m
    else m.(racy := m.racy || !HappensBefore(m.writer_vc, vc),
            reader_vc := m.reader_vc[t := Get(vc, t)])
  }

  function ProcessWrite(m: DjitMeta, t: Tid, vc: Clock): DjitMeta {
    if Get(m.writer_vc, t) == Get(vc, t) then m
    else m.(racy := m.racy || !HappensBefore(m.writer_vc, vc) || !HappensBefore(m.reader_vc, vc),
            writer_vc := m.writer_vc[t := Get(vc, t)])
  }

  function Process(m: DjitMeta, a: Access): DjitMeta {
    if a.write then ProcessWrite(m, a.t, a.vc) else ProcessRead(m, a.t, a.vc)
  }

  /** The meta of address `x` after the accesses of `h`. */
  function MetaOf(h: seq<Access>, x: Addr): DjitMeta {
    if h == [] then NEW_META
    else
      var a, m := h[|h| - 1], MetaOf(h[..|h| - 1], x);
      if a.x == x then Process(m, a) else m
  }

  /** `vc` holds, for each thread, the clock of its last access of this kind to `x`. */
  ghost predicate LastClocks(vc: Clock, h: seq<Access>, x: Addr, write: bool) {
    && (forall i :: 0 <= i < |h| && h[i].x == x && h[i].write == write ==> h[i].Clk() <= Get(vc, h[i].t))
    && (forall t :: t in vc ==>
         exists i :: 0 <= i < |h| && h[i].x == x && h[i].write == write && h[i].t == t && h[i].Clk() == vc[t])
  }

  lemma LastClocksStep(vc: Clock, h: seq<Access>, a: Access, write: bool)
    requires Consistent(h + [a]) && LastClocks(vc, h, a.x, write)
    ensures a.write == write ==> LastClocks(vc[a.t := a.Clk()], h + [a], a.x, write)
    ensures a.write != write ==> LastClocks(vc, h + [a], a.x, write)
  {
    ConsistentPrefix(h, a);
    var g := h + [a];
    forall t | t in vc
      ensures exists i :: 0 <= i < |g| && g[i].x == a.x && g[i].write == write && g[i].t == t && g[i].Clk() == vc[t]
    {
      var i :| 0 <= i < |h| && h[i].x == a.x && h[i].write == write && h[i].t == t && h[i].Clk() == vc[t];
      assert g[i] == h[i];
    }
    assert g[|h|] == a;
    forall i | 0 <= i < |h| && h[i].t == a.t ensures h[i].Clk() <= a.Clk() {
      assert Sequenced(h[i], a);
    }
  }

  /** A last-clock vector is not below the clock of `a` iff some access it stands for is unordered with `a`. */
  lemma ComparisonFindsRaces(vc: Clock, h: seq<Access>, a: Access, write: bool)
    requires Consistent(h + [a]) && LastClocks(vc, h, a.x, write)
    ensures !HappensBefore(vc, a.vc) <==>
            exists i :: 0 <= i < |h| && h[i].x == a.x && h[i].write == write && h[i].t != a.t
                        && !Ordered(h[i], a) && !Ordered(a, h[i])
  {
    ConsistentPrefix(h, a);
    if !HappensBefore(vc, a.vc) {
      var t :| t in vc && (t !in a.vc || vc[t] > a.vc[t]);
      var i :| 0 <= i < |h| && h[i].x == a.x && h[i].write == write && h[i].t == t && h[i].Clk() == vc[t];
      assert Sequenced(h[i], a);
      assert h[i].Clk() >= 1;
    }
    if i :| 0 <= i < |h| && h[i].x == a.x && h[i].write == write && h[i].t != a.t
            && !Ordered(h[i], a) && !Ordered(a, h[i]) {
      assert h[i].Clk() <= Get(vc, h[i].t);
      assert h[i].t in vc;
    }
  }

  ghost predicate Exact(m: DjitMeta, h: seq<Access>, x: Addr) {
    && LastClocks(m.writer_vc, h, x, true)
    && LastClocks(m.reader_vc, h, x, false)
    && (m.racy <==> HasRace(h, x))
  }

  lemma RepeatFound(vc: Clock, h: seq<Access>, a: Access)
    requires Consistent(h + [a]) && LastClocks(vc, h, a.x, a.write) && Get(vc, a.t) == a.Clk()
    ensures LastClocks(vc, h + [a], a.x, a.write)
    ensures HasRace(h + [a], a.x) <==> HasRace(h, a.x)
  {
    ConsistentPrefix(h, a);
    assert a.t in vc;
    var k :| 0 <= k < |h| && h[k].x == a.x && h[k].write == a.write && h[k].t == a.t && h[k].Clk() == vc[a.t];
    RepeatedAccessAddsNoRace(h, a, k);
    LastClocksStep(vc, h, a, a.write);
    assert vc[a.t := a.Clk()] == vc;
  }

  /** The step of a same-frame access, which leaves the meta alone. */
  lemma SkippedAccess(m: DjitMeta, h: seq<Access>, a: Access)
    requires Consistent(h + [a]) && Exact(m, h, a.x)
    requires Get(if a.write then m.writer_vc else m.reader_vc, a.t) == a.Clk()
    ensures Exact(m, h + [a], a.x)
  {
    if a.write {
      RepeatFound(m.writer_vc, h, a);
      LastClocksStep(m.reader_vc, h, a, false);
    } else {
      RepeatFound(m.reader_vc, h, a);
      LastClocksStep(m.writer_vc, h, a, true);
    }
  }

  /** A new access races with an old one iff the comparisons of its kind say so. */
  lemma NewRaceDetected(m: DjitMeta, h: seq<Access>, a: Access)
    requires Consistent(h + [a]) && Exact(m, h, a.x)
    ensures (exists i :: 0 <= i < |h| && Racing(h[i], a)) <==>
            !HappensBefore(m.writer_vc, a.vc) || (a.write && !HappensBefore(m.reader_vc, a.vc))
  {
    ComparisonFindsRaces(m.writer_vc, h, a, true);
    ComparisonFindsRaces(m.reader_vc, h, a, false);
    if i :| 0 <= i < |h| && Racing(h[i], a) {
      assert h[i].write || a.write;
    }
    if i :| 0 <= i < |h| && h[i].x == a.x && h[i].write && h[i].t != a.t && !Ordered(h[i], a) && !Ordered(a, h[i]) {
      assert Racing(h[i], a);
    }
    if a.write {
      if i :| 0 <= i < |h| && h[i].x == a.x && h[i].write == false && h[i].t != a.t
              && !Ordered(h[i], a) && !Ordered(a, h[i]) {
        assert Racing(h[i], a);
      }
    }
  }

  lemma ProcessKeepsExact(m: DjitMeta, h: seq<Access>, a: Access)
    requires Consistent(h + [a]) && Exact(m, h, a.x)
    ensures Exact(Process(m, a), h + [a], a.x)
  {
    if Get(if a.write then m.writer_vc else m.reader_vc, a.t) == a.Clk() {
      SkippedAccess(m, h, a);
    } else {
      LastClocksStep(m.writer_vc, h, a, true);
      LastClocksStep(m.reader_vc, h, a, false);
      NewRaceDetected(m, h, a);
      RaceOfNewAccess(h, a, a.x);
    }
  }

  lemma LastClocksElsewhere(vc: Clock, h: seq<Access>, a: Access, x: Addr, write: bool)
    requires LastClocks(vc, h, x, write) && a.x != x
    ensures LastClocks(vc, h + [a], x, write)
  {
    var g := h + [a];
    forall t | t in vc
      ensures exists i :: 0 <= i < |g| && g[i].x == x && g[i].write == write && g[i].t == t && g[i].Clk() == vc[t]
    {
      var i :| 0 <= i < |h| && h[i].x == x && h[i].write == write && h[i].t == t && h[i].Clk() == vc[t];
      assert g[i] == h[i];
    }
  }

  /**
    Djit is exact: although it keeps one clock per thread and skips repeated accesses, its flag
    is set exactly when the history holds two racing accesses to the address.
   */
  lemma {:induction false} MetaIsExact(h: seq<Access>, x: Addr)
    requires Consistent(h)
    ensures Exact(MetaOf(h, x), h, x)
  {
    if h != [] {
      var g, a := h[..|h| - 1], h[|h| - 1];
      assert h == g + [a];
      ConsistentPrefix(g, a);
      MetaIsExact(g, x);
      if a.x == x {
        ProcessKeepsExact(MetaOf(g, x), g, a);
      } else {
        LastClocksElsewhere(MetaOf(g, x).writer_vc, g, a, x, true);
        LastClocksElsewhere(MetaOf(g, x).reader_vc, g, a, x, false);
        RaceOfNewAccess(g, a, x);
      }
    }
  }

  // ----- Reports

  /** The threads that a check of `vc` reports: their entries are newer than the current thread knows. */
  function Reported(vc: Clock, t: Tid, curr: Clock): set<Tid> {
    set u | u in vc && u != t && vc[u] > Get(curr, u)
  }

  lemma NothingReported(vc: Clock, t: Tid, curr: Clock)
    requires HappensBefore(vc, curr)
    ensures Reported(vc, t, curr) == {}
  {
  }

  /** A check reports exactly the threads that made an access of the checked kind unordered with `a`. */
  lemma ReportsTheRacingThreads(vc: Clock, h: seq<Access>, a: Access, write: bool, u: Tid)
    requires Consistent(h + [a]) && LastClocks(vc, h, a.x, write)
    ensures u in Reported(vc, a.t, a.vc) <==>
            exists i :: 0 <= i < |h| && h[i].x == a.x && h[i].write == write && h[i].t == u
                        && u != a.t && !Ordered(h[i], a) && !Ordered(a, h[i])
  {
    ConsistentPrefix(h, a);
    if u in Reported(vc, a.t, a.vc) {
      var i :| 0 <= i < |h| && h[i].x == a.x && h[i].write == write && h[i].t == u && h[i].Clk() == vc[u];
      assert Sequenced(h[i], a);
    }
    if i :| 0 <= i < |h| && h[i].x == a.x && h[i].write == write && h[i].t == u
            && u != a.t && !Ordered(h[i], a) && !Ordered(a, h[i]) {
      assert h[i].Clk() <= Get(vc, u);
    }
  }
}
