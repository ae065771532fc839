/** FastTrack's meta as an object, and its table of metas with the pruning of read clocks at joins. */
module FastTrackDetectors {
  import opened Clocks
  import opened VectorClocks
  import opened History
  import opened Machine
  import opened Detectors
  import EventGraph = HappensBefore
  import FT = FastTrack
  import JoinPruning
  import HeldReads
  import PrunedReads
  import Verdicts

  class FtMeta {
    var writer_epoch: FT.Epoch
    var reader_epoch: FT.Epoch
    const reader_vc: VectorClock
    var shared: bool
    var racy: bool

    ghost function Value(): FT.FtMeta
      reads this, reader_vc
    {
      FT.FtMeta(writer_epoch, reader_epoch, reader_vc.clocks, shared, racy)
    }

    constructor ()
      ensures Value() == FT.NEW_META && fresh(reader_vc)
    {
      writer_epoch, reader_epoch := FT.NO_EPOCH, FT.NO_EPOCH;
      reader_vc := new VectorClock();
      shared, racy := false, false;
    }

    /** An epoch of another thread that is newer than the current clock knows is a race. */
    static method IsNewer(e: FT.Epoch, t: Tid, curr: VectorClock) returns (r: bool)
      ensures r <==> FT.Newer(e, t, curr.clocks)
    {
      var clk := curr.GetClock(e.t);
      r := e.t != t && e.c > clk;
    }

    method ProcessRead(t: Tid, curr: VectorClock)
      requires curr != reader_vc
      modifies this, reader_vc
      ensures Value() == FT.ProcessRead(old(Value()), t, curr.clocks)
    {
      var clk := curr.GetClock(t);
      if reader_epoch.t == t && reader_epoch.c == clk {
        return;
      }
      var newer := IsNewer(writer_epoch, t, curr);
      if newer {
        racy := true;
      }
      if shared {
        reader_vc.SetClock(t, clk);
      } else {
        var known := curr.GetClock(reader_epoch.t);
        if (reader_epoch.t == t && reader_epoch.c < clk) || reader_epoch.t == 0
           || (reader_epoch.t != t && reader_epoch.c <= known) {
          reader_epoch := FT.Epoch(t, clk);
        } else {
          reader_vc.SetClock(t, clk);
          reader_vc.SetClock(reader_epoch.t, reader_epoch.c);
          shared := true;
        }
      }
    }

    /** Looks for a newer read of another thread in the read clock. */
    method CheckReaders(t: Tid, curr: VectorClock) returns (newer: bool)
      ensures newer <==> FT.SomeNewer(reader_vc.clocks, t, curr.clocks)
    {
      newer := false;
      var ks := InOrder(reader_vc.clocks.Keys);
      for i := 0 to |ks|
        invariant newer <==> exists k :: 0 <= k < i && FT.Newer(FT.Epoch(ks[k], Get(reader_vc.clocks, ks[k])), t, curr.clocks)
      {
        assert ks[i] in ks;
        var e := IsNewer(FT.Epoch(ks[i], reader_vc.clocks[ks[i]]), t, curr);
        if e {
          newer := true;
        }
      }
      if FT.SomeNewer(reader_vc.clocks, t, curr.clocks) {
        var u :| u in reader_vc.clocks && FT.Newer(FT.Epoch(u, reader_vc.clocks[u]), t, curr.clocks);
        assert u in ks;
        var k :| 0 <= k < |ks| && ks[k] == u;
      }
      if newer {
        var k :| 0 <= k < |ks| && FT.Newer(FT.Epoch(ks[k], Get(reader_vc.clocks, ks[k])), t, curr.clocks);
        assert ks[k] in ks;
      }
    }

    method ProcessWrite(t: Tid, curr: VectorClock)
      requires curr != reader_vc
      modifies this, reader_vc
      ensures Value() == FT.ProcessWrite(old(Value()), t, curr.clocks)
    {
      var clk := curr.GetClock(t);
      if writer_epoch.t == t && writer_epoch.c == clk {
        return;
      }
      var newer := IsNewer(writer_epoch, t, curr);
      if newer {
        racy := true;
      }
      if !shared {
        var newerRead := IsNewer(reader_epoch, t, curr);
        if newerRead {
          racy := true;
        }
      } else {
        var newerRead := CheckReaders(t, curr);
        if newerRead {
          racy := true;
        }
        reader_vc.Clear();
        shared := false;
        reader_epoch := FT.NO_EPOCH;
      }
      writer_epoch := FT.Epoch(t, clk);
    }

    method PruneReader(child: Tid)
      modifies this, reader_vc
      ensures Value() == JoinPruning.Prune(old(Value()), child)
    {
      if child in reader_vc.clocks {
        reader_vc.Erase(child);
        if |reader_vc.clocks| <= 1 {
          shared := false;
        }
      }
    }
  }

  /** The metas of two addresses share nothing. */
  ghost predicate Disjoint(m: FtMeta, n: FtMeta) {
    m != n && m.reader_vc != n.reader_vc
  }

  class FastTrackDetector {
    const base: Detector
    var metas: map<Addr, FtMeta>
    ghost var Repr: set<object>

    ghost function Parts(): set<object>
      reads this`metas
    {
      (set x | x in metas :: metas[x] as object) + (set x | x in metas :: metas[x].reader_vc as object)
    }

    ghost function Footprint(): set<object>
      reads this`metas, base
    {
      {this, base} + (set c | c in base.clocks.Values :: c as object) + Parts()
    }

    ghost predicate Apart()
      reads this`metas, base
    {
      && (forall x :: x in metas ==> metas[x].reader_vc !in base.clocks.Values)
      && (forall x, y :: x in metas && y in metas && x != y ==> Disjoint(metas[x], metas[y]))
    }

    ghost function ValueAt(x: Addr): FT.FtMeta
      reads this`metas, Parts()
    {
      if x in metas then metas[x].Value() else FT.NEW_META
    }

    /** Every address has the value that FastTrack computes from the events so far. */
    ghost predicate UpToDate(es: seq<Event>)
      reads this`metas, Parts()
    {
      forall x :: ValueAt(x) == JoinPruning.PrunedMeta(es, x)
    }

    ghost predicate Current()
      reads this`metas, Parts(), base, base.clocks.Values
    {
      base.Valid() && Apart() && UpToDate(base.run)
    }

    ghost predicate Valid()
      reads this, Repr
    {
      && this in Repr && base in Repr && base.clocks.Values <= Repr && Parts() <= Repr
      && Current()
    }

    constructor ()
      ensures Valid() && base.run == [] && fresh(Repr)
    {
      base := new Detector();
      metas := map[];
      new;
      Repr := Footprint();
    }

    lemma BaseIsApart()
      requires Apart()
      ensures base !in Parts() && this !in Parts() && forall c :: c in base.clocks.Values ==> c !in Parts()
    {
    }

    method GetMeta(x: Addr) returns (m: FtMeta)
      requires Apart()
      modifies this`metas
      ensures Apart() && x in metas && m == metas[x]
      ensures forall y :: ValueAt(y) == old(ValueAt(y))
      ensures forall p :: p in Parts() ==> p in old(Parts()) || fresh(p)
    {
      if x !in metas {
        var meta := new FtMeta();
        metas := metas[x := meta];
      }
      m := metas[x];
    }

    method ProcessAccess(a: Access, curr: VectorClock)
      requires Apart() && curr in base.clocks.Values && curr.clocks == a.vc
      modifies this`metas, Parts()
      ensures Apart()
      ensures forall y :: ValueAt(y) == if y == a.x then FT.Process(old(ValueAt(a.x)), a) else old(ValueAt(y))
      ensures forall p :: p in Parts() ==> p in old(Parts()) || fresh(p)
    {
      var m := GetMeta(a.x);
      if a.write {
        m.ProcessWrite(a.t, curr);
      } else {
        m.ProcessRead(a.t, curr);
      }
    }

    method RecordAccess(a: Access, curr: VectorClock, ghost es: seq<Event>)
      requires Apart() && UpToDate(es) && curr in base.clocks.Values && curr.clocks == a.vc
      requires a.vc == At(Run(es), Thr(a.t)).vc
      modifies this`metas, Parts()
      ensures Apart() && UpToDate(es + [Mem(a.t, a.x, a.write)]) && Repr == old(Repr)
      ensures forall p :: p in Parts() ==> p in old(Parts()) || fresh(p)
    {
      BaseIsApart();
      ProcessAccess(a, curr);
      forall y ensures ValueAt(y) == JoinPruning.PrunedMeta(es + [Mem(a.t, a.x, a.write)], y) {
      }
    }

    ghost method Accessed(t: Tid, x: Addr, write: bool)
      requires base.Valid() && Enabled(Run(base.run), Mem(t, x, write)) && Apart()
      requires UpToDate(base.run + [Mem(t, x, write)])
      modifies base`run
      ensures Current() && base.run == old(base.run) + [Mem(t, x, write)]
    {
      BaseIsApart();
      base.Accessed(t, x, write);
    }

    method AccessStep(t: Tid, x: Addr, write: bool)
      requires Current() && Enabled(Run(base.run), Mem(t, x, write))
      modifies this`metas, Parts(), base`run
      ensures Current() && base.run == old(base.run) + [Mem(t, x, write)]
      ensures fresh(Footprint() - old(Footprint())) && Repr == old(Repr)
    {
      BaseIsApart();
      var curr := base.CurrentClock(t);
      RecordAccess(Access(t, x, write, curr.clocks), curr, base.run);
      Accessed(t, x, write);
    }

    /** Erases a joined thread from every read clock. */
    method PruneAll(child: Tid)
      requires Apart()
      modifies Parts()
      ensures forall y :: ValueAt(y) == JoinPruning.Prune(old(ValueAt(y)), child)
    {
      var ks := InOrder(metas.Keys);
      for i := 0 to |ks|
        invariant forall y :: ValueAt(y) ==
                    if y in KeysUpTo(ks, i) then JoinPruning.Prune(old(ValueAt(y)), child) else old(ValueAt(y))
      {
        assert ks[i] in ks;
        NextIsNew(ks, i);
        metas[ks[i]].PruneReader(child);
      }
      AllKeys(ks, metas.Keys);
    }

    method PruneStep(e: Event, ghost es: seq<Event>)
      requires Apart() && UpToDate(es) && !e.Mem?
      modifies Parts()
      ensures Apart() && UpToDate(es + [e]) && Repr == old(Repr)
    {
      BaseIsApart();
      if e.Join? {
        PruneAll(e.child);
      }
      forall y ensures ValueAt(y) == JoinPruning.PrunedMeta(es + [e], y) {
      }
    }

    method BaseStep(e: Event)
      requires Current() && Enabled(Run(base.run), e) && !e.Mem?
      modifies base, base.clocks.Values
      ensures base.Valid() && Apart() && UpToDate(old(base.run)) && base.run == old(base.run) + [e]
      ensures fresh(Footprint() - old(Footprint()))
    {
      BaseIsApart();
      base.Handle(e);
    }

    method SyncStep(e: Event)
      requires Current() && Enabled(Run(base.run), e) && !e.Mem?
      modifies Parts(), base, base.clocks.Values
      ensures Current() && base.run == old(base.run) + [e]
      ensures fresh(Footprint() - old(Footprint())) && Repr == old(Repr)
    {
      ghost var es := base.run;
      BaseStep(e);
      BaseIsApart();
      PruneStep(e, es);
    }

    /** Takes the objects made by the last step into the representation. */
    ghost method Extend()
      requires Current() && this in Repr
      modifies this`Repr
      ensures Valid() && Repr == old(Repr) + Footprint()
    {
      Repr := Repr + Footprint();
    }

    method BeforeMemAccess(t: Tid, x: Addr, write: bool)
      requires Valid() && Enabled(Run(base.run), Mem(t, x, write))
      modifies Repr
      ensures Valid() && base.run == old(base.run) + [Mem(t, x, write)]
      ensures fresh(Repr - old(Repr))
    {
      ghost var f := Footprint();
      assert f <= Repr;
      AccessStep(t, x, write);
      Extend();
    }

    method HandleSync(e: Event)
      requires Valid() && Enabled(Run(base.run), e) && !e.Mem?
      modifies Repr
      ensures Valid() && base.run == old(base.run) + [e]
      ensures fresh(Repr - old(Repr))
    {
      ghost var f := Footprint();
      assert f <= Repr;
      SyncStep(e);
      Extend();
    }

    method Handle(e: Event)
      requires Valid() && Enabled(Run(base.run), e)
      modifies Repr
      ensures Valid() && base.run == old(base.run) + [e]
      ensures fresh(Repr - old(Repr))
    {
      if e.Mem? {
        BeforeMemAccess(e.t, e.x, e.write);
      } else {
        HandleSync(e);
      }
    }

    method HandleAll(es: seq<Event>)
      requires Valid() && base.run == [] && WellFormed(es)
      modifies Repr
      ensures Valid() && base.run == es
    {
      for i := 0 to |es|
        invariant Valid() && base.run == es[..i]
        invariant fresh(Repr - old(Repr))
      {
        EventGraph.NextEvent(es, i);
        Handle(es[i]);
      }
      assert es[..|es|] == es;
    }

    /** The flag is set iff a data race was caught; where no join pruned the address, all of them are. */
    method IsRacy(x: Addr) returns (r: bool)
      requires Valid()
      ensures r <==> JoinPruning.CaughtRace(base.run, x)
      ensures r <==> SeesRace(base.run, x)
      ensures r ==> Verdicts.DataRace(base.run, x)
      ensures JoinPruning.NothingPruned(base.run, x) ==> (r <==> Verdicts.DataRace(base.run, x))
      ensures MustCatch(base.run, x) ==> r
    {
      CaughtAre(base.run, x);
      JoinPruning.PrunedVerdict(base.run, x);
      assert ValueAt(x) == JoinPruning.PrunedMeta(base.run, x);
      r := x in metas && metas[x].racy;
    }
  }

  /** The data races that no join can hide. */
  ghost predicate MustCatch(es: seq<Event>, x: Addr) {
    || JoinPruning.WriteFirstRace(es, x)
    || (JoinPruning.NothingPruned(es, x) && Verdicts.DataRace(es, x))
    || PrunedReads.SparedRace(es, x)
  }

  /** A data race of which the first access is a write, or a read that is still kept when the second comes. */
  ghost predicate SeesRace(es: seq<Event>, x: Addr) {
    exists p: nat, q: nat :: HeldReads.SeenRace(es, p, q, x)
  }

  lemma CaughtAre(es: seq<Event>, x: Addr)
    requires WellFormed(es)
    ensures JoinPruning.CaughtRace(es, x) ==> Verdicts.DataRace(es, x)
    ensures MustCatch(es, x) ==> JoinPruning.CaughtRace(es, x)
    ensures SeesRace(es, x) <==> JoinPruning.CaughtRace(es, x)
  {
    JoinPruning.PrunedVerdict(es, x);
    HeldReads.EventVerdict(es, x);
    if JoinPruning.WriteFirstRace(es, x) {
      JoinPruning.PruningLosesReadsOnly(es, x);
    } else if JoinPruning.NothingPruned(es, x) && Verdicts.DataRace(es, x) {
      JoinPruning.ExactWhenNothingPruned(es, x);
    } else if PrunedReads.SparedRace(es, x) {
      PrunedReads.SparedRacesAreFlagged(es, x);
    }
  }

  /**
    FastTrack as it stands, fed a whole run, flags exactly the addresses with a data race whose
    first access is a write, or a read that the read state still holds when the write comes; so it
    misses no race whose read the joins in between spare.
   */
  method Detect(es: seq<Event>, xs: seq<Addr>) returns (racy: seq<Addr>)
    requires WellFormed(es)
    ensures forall x :: x in racy <==> x in xs && SeesRace(es, x)
    ensures forall x :: x in racy ==> x in xs && Verdicts.DataRace(es, x)
    ensures forall x :: x in xs && MustCatch(es, x) ==> x in racy
  {
    var d := new FastTrackDetector();
    d.HandleAll(es);
    racy := [];
    for i := 0 to |xs|
      invariant d.Valid() && d.base.run == es
      invariant forall x :: x in racy <==> x in xs[..i] && JoinPruning.CaughtRace(es, x)
    {
      var r := d.IsRacy(xs[i]);
      if r {
        racy := racy + [xs[i]];
      }
      assert xs[..i + 1] == xs[..i] + [xs[i]];
    }
    assert xs[..|xs|] == xs;
    forall x
      ensures JoinPruning.CaughtRace(es, x) ==> Verdicts.DataRace(es, x)
      ensures MustCatch(es, x) ==> JoinPruning.CaughtRace(es, x)
      ensures SeesRace(es, x) <==> JoinPruning.CaughtRace(es, x)
    {
      CaughtAre(es, x);
    }
  }
}
