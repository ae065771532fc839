/** Djit as an object: the base detector together with one meta per address. */
module DjitDetectors {
  import opened Clocks
  import opened VectorClocks
  import opened History
  import opened Machine
  import opened Detectors
  import EventGraph = HappensBefore
  import Verdicts
  import Djit

  class DjitMeta {
    const writer_vc: VectorClock
    const reader_vc: VectorClock
    var racy: bool

    ghost function Value(): Djit.DjitMeta
      reads this, writer_vc, reader_vc
    {
      Djit.DjitMeta(writer_vc.clocks, reader_vc.clocks, racy)
    }

    ghost predicate Valid() {
      writer_vc != reader_vc
    }

    constructor ()
      ensures Valid() && Value() == Djit.NEW_META
      ensures fresh(writer_vc) && fresh(reader_vc)
    {
      writer_vc := new VectorClock();
      reader_vc := new VectorClock();
      racy := false;
    }

    /** Compares the accesses summarised by `vc` with the current clock and collects the threads to report. */
    method Check(vc: VectorClock, t: Tid, curr: VectorClock) returns (reported: set<Tid>)
      requires vc in {writer_vc, reader_vc}
      modifies this
      ensures racy == (old(racy) || !HappensBefore(vc.clocks, curr.clocks))
      ensures reported == Djit.Reported(vc.clocks, t, curr.clocks)
    {
      reported := {};
      var before := vc.HappensBefore(curr);
      if before {
        Djit.NothingReported(vc.clocks, t, curr.clocks);
      } else {
        racy := true;
        reported := CollectReports(vc, t, curr);
      }
    }

    static method CollectReports(vc: VectorClock, t: Tid, curr: VectorClock) returns (reported: set<Tid>)
      ensures reported == Djit.Reported(vc.clocks, t, curr.clocks)
    {
      reported := {};
      var ks := InOrder(vc.clocks.Keys);
      for i := 0 to |ks|
        invariant reported == Djit.Reported(vc.clocks, t, curr.clocks) * KeysUpTo(ks, i)
      {
        assert ks[i] in ks;
        NextIsNew(ks, i);
        var clk := curr.GetClock(ks[i]);
        if ks[i] != t && vc.clocks[ks[i]] > clk {
          reported := reported + {ks[i]};
        }
      }
      AllKeys(ks, vc.clocks.Keys);
    }

    method ProcessRead(t: Tid, curr: VectorClock) returns (writers: set<Tid>)
      requires Valid() && curr != writer_vc && curr != reader_vc
      modifies this, reader_vc
      ensures Value() == Djit.ProcessRead(old(Value()), t, curr.clocks)
      ensures writers == if old(Get(reader_vc.clocks, t)) == Get(curr.clocks, t) then {}
                         else Djit.Reported(writer_vc.clocks, t, curr.clocks)
    {
      var seen := reader_vc.GetClock(t);
      var clk := curr.GetClock(t);
      if seen == clk {
        return {};
      }
      writers := Check(writer_vc, t, curr);
      reader_vc.SetClock(t, clk);
    }

    method ProcessWrite(t: Tid, curr: VectorClock) returns (writers: set<Tid>, readers: set<Tid>)
      requires Valid() && curr != writer_vc && curr != reader_vc
      modifies this, writer_vc
      ensures Value() == Djit.ProcessWrite(old(Value()), t, curr.clocks)
      ensures (writers, readers) ==
              if old(Get(writer_vc.clocks, t)) == Get(curr.clocks, t) then ({}, {})
              else (Djit.Reported(old(writer_vc.clocks), t, curr.clocks), Djit.Reported(reader_vc.clocks, t, curr.clocks))
    {
      var seen := writer_vc.GetClock(t);
      var clk := curr.GetClock(t);
      if seen == clk {
        return {}, {};
      }
      writers := Check(writer_vc, t, curr);
      readers := Check(reader_vc, t, curr);
      writer_vc.SetClock(t, clk);
    }
  }

  /** The metas of two addresses share nothing. */
  ghost predicate Disjoint(m: DjitMeta, n: DjitMeta) {
    && m != n
    && m.writer_vc != n.writer_vc && m.writer_vc != n.reader_vc
    && m.reader_vc != n.writer_vc && m.reader_vc != n.reader_vc
  }

  lemma MetaSnoc(h: seq<Access>, a: Access, x: Addr)
    ensures Djit.MetaOf(h + [a], x) ==
            if a.x == x then Djit.Process(Djit.MetaOf(h, x), a) else Djit.MetaOf(h, x)
  {
  }

  lemma AccessExtends(es: seq<Event>, t: Tid, x: Addr, write: bool)
    requires WellFormed(es) && Enabled(Run(es), Mem(t, x, write))
    ensures WellFormed(es + [Mem(t, x, write)])
    ensures Run(es + [Mem(t, x, write)]).hist == Run(es).hist + [Access(t, x, write, At(Run(es), Thr(t)).vc)]
  {
  }

  lemma OtherEventKeepsHistory(es: seq<Event>, e: Event)
    requires !e.Mem?
    ensures Run(es + [e]).hist == Run(es).hist
  {
    RunSnoc(es, e);
    EventGraph.StepHist(Run(es), e);
  }

  class DjitDetector {
    const base: Detector
    var metas: map<Addr, DjitMeta>
    ghost var Repr: set<object>

    ghost function Parts(): set<object>
      reads this`metas
    {
      (set x | x in metas :: metas[x] as object)
      + (set x | x in metas :: metas[x].writer_vc as object)
      + (set x | x in metas :: metas[x].reader_vc as object)
    }

    ghost function Footprint(): set<object>
      reads this`metas, base
    {
      {this, base} + (set c | c in base.clocks.Values :: c as object) + Parts()
    }

    ghost predicate Apart()
      reads this`metas, base
    {
      && (forall x :: x in metas ==>
           metas[x].Valid() && metas[x].writer_vc !in base.clocks.Values && metas[x].reader_vc !in base.clocks.Values)
      && (forall x, y :: x in metas && y in metas && x != y ==> Disjoint(metas[x], metas[y]))
    }

    ghost function ValueAt(x: Addr): Djit.DjitMeta
      reads this`metas, Parts()
    {
      if x in metas then metas[x].Value() else Djit.NEW_META
    }

    /** Every address has the value that Djit computes from the accesses made so far. */
    ghost predicate UpToDate(h: seq<Access>)
      reads this`metas, Parts()
    {
      forall x :: ValueAt(x) == Djit.MetaOf(h, x)
    }

    ghost predicate Current()
      reads this`metas, Parts(), base, base.clocks.Values
    {
      base.Valid() && Apart() && UpToDate(Run(base.run).hist)
    }

    ghost predicate Valid()
      reads this, Repr
    {
      && this in Repr && base in Repr && base.clocks.Values <= Repr && Parts() <= Repr
      && Current()
    }

    constructor ()
      ensures Valid() && base.run == [] && fresh(Repr)
    {
      base := new Detector();
      metas := map[];
      new;
      Repr := Footprint();
    }

    method GetMeta(x: Addr) returns (m: DjitMeta)
      requires Apart()
      modifies this`metas
      ensures Apart() && x in metas && m == metas[x]
      ensures forall y :: ValueAt(y) == old(ValueAt(y))
      ensures forall p :: p in Parts() ==> p in old(Parts()) || fresh(p)
    {
      if x !in metas {
        var fresh1 := new DjitMeta();
        metas := metas[x := fresh1];
      }
      m := metas[x];
    }

    method ProcessAccess(a: Access, curr: VectorClock)
      requires Apart() && curr in base.clocks.Values && curr.clocks == a.vc
      modifies this`metas, Parts()
      ensures Apart()
      ensures forall y :: ValueAt(y) == if y == a.x then Djit.Process(old(ValueAt(a.x)), a) else old(ValueAt(y))
      ensures forall p :: p in Parts() ==> p in old(Parts()) || fresh(p)
    {
      var m := GetMeta(a.x);
      if a.write {
        var writers, readers := m.ProcessWrite(a.t, curr);
      } else {
        var writers := m.ProcessRead(a.t, curr);
      }
    }

    /** The objects of the base detector are not part of any meta. */
    lemma BaseIsApart()
      requires Apart()
      ensures base !in Parts() && this !in Parts() && forall c :: c in base.clocks.Values ==> c !in Parts()
    {
    }

    method Record(a: Access, curr: VectorClock, ghost h: seq<Access>)
      requires Apart() && UpToDate(h) && curr in base.clocks.Values && curr.clocks == a.vc
      modifies this`metas, Parts()
      ensures Apart() && UpToDate(h + [a]) && Repr == old(Repr)
      ensures forall p :: p in Parts() ==> p in old(Parts()) || fresh(p)
    {
      BaseIsApart();
      ProcessAccess(a, curr);
      forall y ensures ValueAt(y) == Djit.MetaOf(h + [a], y) {
        MetaSnoc(h, a, y);
      }
    }

    /** Closes the handling of an access that the metas already show. */
    ghost method Accessed(t: Tid, x: Addr, write: bool)
      requires base.Valid() && Enabled(Run(base.run), Mem(t, x, write)) && Apart()
      requires UpToDate(Run(base.run + [Mem(t, x, write)]).hist)
      modifies base`run
      ensures Current() && base.run == old(base.run) + [Mem(t, x, write)]
    {
      BaseIsApart();
      base.Accessed(t, x, write);
    }

    method AccessStep(t: Tid, x: Addr, write: bool)
      requires Current() && Enabled(Run(base.run), Mem(t, x, write))
      modifies this`metas, Parts(), base`run
      ensures Current() && base.run == old(base.run) + [Mem(t, x, write)]
      ensures fresh(Footprint() - old(Footprint())) && Repr == old(Repr)
    {
      AccessExtends(base.run, t, x, write);
      BaseIsApart();
      var curr := base.CurrentClock(t);
      Record(Access(t, x, write, curr.clocks), curr, Run(base.run).hist);
      Accessed(t, x, write);
    }

    method SyncStep(e: Event)
      requires Current() && Enabled(Run(base.run), e) && !e.Mem?
      modifies base, base.clocks.Values
      ensures Current() && base.run == old(base.run) + [e]
      ensures fresh(Footprint() - old(Footprint()))
    {
      OtherEventKeepsHistory(base.run, e);
      BaseIsApart();
      base.Handle(e);
    }

    /** Takes the objects made by the last step into the representation. */
    ghost method Extend()
      requires Current() && this in Repr
      modifies this`Repr
      ensures Valid() && Repr == old(Repr) + Footprint()
    {
      Repr := Repr + Footprint();
    }

    method BeforeMemAccess(t: Tid, x: Addr, write: bool)
      requires Valid() && Enabled(Run(base.run), Mem(t, x, write))
      modifies Repr
      ensures Valid() && base.run == old(base.run) + [Mem(t, x, write)]
      ensures fresh(Repr - old(Repr))
    {
      ghost var f := Footprint();
      assert f <= Repr;
      AccessStep(t, x, write);
      Extend();
    }

    method HandleSync(e: Event)
      requires Valid() && Enabled(Run(base.run), e) && !e.Mem?
      modifies Repr
      ensures Valid() && base.run == old(base.run) + [e]
      ensures fresh(Repr - old(Repr))
    {
      ghost var f := Footprint();
      assert f <= Repr;
      SyncStep(e);
      Extend();
    }

    method Handle(e: Event)
      requires Valid() && Enabled(Run(base.run), e)
      modifies Repr
      ensures Valid() && base.run == old(base.run) + [e]
      ensures fresh(Repr - old(Repr))
    {
      if e.Mem? {
        BeforeMemAccess(e.t, e.x, e.write);
      } else {
        HandleSync(e);
      }
    }

    method HandleAll(es: seq<Event>)
      requires Valid() && base.run == [] && WellFormed(es)
      modifies Repr
      ensures Valid() && base.run == es
    {
      for i := 0 to |es|
        invariant Valid() && base.run == es[..i]
        invariant fresh(Repr - old(Repr))
      {
        EventGraph.NextEvent(es, i);
        Handle(es[i]);
      }
      assert es[..|es|] == es;
    }

    /** The flag of an address is set iff the events handled so far hold a data race on it. */
    method IsRacy(x: Addr) returns (r: bool)
      requires Valid()
      ensures r <==> Verdicts.DataRace(base.run, x)
    {
      Verdicts.DjitVerdict(base.run, x);
      assert ValueAt(x) == Djit.MetaOf(Run(base.run).hist, x);
      r := x in metas && metas[x].racy;
    }
  }

  /** Djit, fed a whole run, finds the addresses with a data race, all of them and no others. */
  method Detect(es: seq<Event>, xs: seq<Addr>) returns (racy: seq<Addr>)
    requires WellFormed(es)
    ensures forall x :: x in racy <==> x in xs && Verdicts.DataRace(es, x)
  {
    var d := new DjitDetector();
    d.HandleAll(es);
    racy := [];
    for i := 0 to |xs|
      invariant d.Valid() && d.base.run == es
      invariant forall x :: x in racy <==> x in xs[..i] && Verdicts.DataRace(es, x)
    {
      var r := d.IsRacy(xs[i]);
      if r {
        racy := racy + [xs[i]];
      }
      assert xs[..i + 1] == xs[..i] + [xs[i]];
    }
    assert xs[..|xs|] == xs;
  }
}
