/** LiteRace's meta as an object: counters in front of a Djit meta. */
module LiteRaceDetectors {
  import opened Clocks
  import opened VectorClocks
  import opened History
  import opened DjitDetectors
  import LR = LiteRace

  class LrMeta {
    const djit: DjitMeta
    var ncount: int
    var scount: int
    var rate: int

    ghost function Value(): LR.LrMeta
      reads this, djit, djit.writer_vc, djit.reader_vc
    {
      LR.LrMeta(djit.Value(), ncount, scount, rate)
    }

    /** The counters, none of which has gone below zero. */
    ghost predicate Valid()
      reads this, djit, djit.writer_vc, djit.reader_vc
    {
      djit.Valid() && LR.InCycle(Value())
    }

    constructor ()
      ensures Valid() && Value() == LR.NEW_META
      ensures fresh(djit) && fresh(djit.writer_vc) && fresh(djit.reader_vc)
    {
      djit := new DjitMeta();
      ncount, scount, rate := 0, LR.BURST, 1000;
    }

    method UpdateRate(sampling: LR.Sampling)
      requires LR.Sane(sampling) && 1 <= rate
      modifies this
      ensures Value() == LR.UpdateRate(old(Value()), sampling)
    {
      if sampling.Adaptive? {
        rate := rate / sampling.param;
        if rate < 1 {
          rate := 1;
        }
      }
      scount := LR.BURST;
      ncount := LR.BURST * (1000 - rate) / rate;
    }

    method ProcessAccess(a: Access, curr: VectorClock, sampling: LR.Sampling)
      requires Valid() && LR.Sane(sampling)
      requires curr != djit.writer_vc && curr != djit.reader_vc && curr.clocks == a.vc
      modifies this, djit, djit.writer_vc, djit.reader_vc
      ensures Value() == LR.Process(old(Value()), a, sampling)
      ensures Valid()
    {
      LR.ProcessKeepsCycle(Value(), a, sampling);
      if ncount == 0 {
        scount := scount - 1;
        if scount > 0 {
          if a.write {
            var writers, readers := djit.ProcessWrite(a.t, curr);
          } else {
            var writers := djit.ProcessRead(a.t, curr);
          }
          return;
        }
      }
      if scount == 0 {
        UpdateRate(sampling);
      } else {
        ncount := ncount - 1;
      }
    }
  }

  /** LiteRace's meta of `x`, fed the accesses to `x` of a whole history, is flagged iff two at sampled positions race. */
  method Detect(h: seq<Access>, clocks: seq<VectorClock>, x: Addr, sampling: LR.Sampling) returns (racy: bool)
    requires LR.Sane(sampling) && Consistent(h)
    requires |clocks| == |h| && forall i :: 0 <= i < |h| ==> clocks[i].clocks == h[i].vc
    ensures racy <==> HasRace(LR.SampleOf(h, x, sampling), x)
  {
    var m := new LrMeta();
    for i := 0 to |h|
      invariant fresh(m.djit) && fresh(m.djit.writer_vc) && fresh(m.djit.reader_vc)
      invariant m.Valid() && m.Value() == LR.MetaOf(h[..i], x, sampling)
    {
      LR.MetaNext(h[..i], h[i], x, sampling);
      assert h[..i + 1] == h[..i] + [h[i]];
      if h[i].x == x {
        m.ProcessAccess(h[i], clocks[i], sampling);
      }
    }
    assert h[..|h|] == h;
    LR.ReportsSampledRaces(h, x, sampling);
    racy := m.djit.racy;
  }
}
