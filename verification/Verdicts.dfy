/** The laws of the clock machine and the detectors' verdicts, for every well-formed run. */
module Verdicts {
  import opened Clocks
  import opened History
  import opened Machine
  import opened MachineProofs
  import opened HappensBefore
  import Djit
  import FastTrack

  // ----- Laws of the clocks

  /**
    Clock exactness: after any run, an access made by thread `t` at its clock `c` is in the past
    of a thread, mutex, rwlock, condition, barrier or semaphore clock iff that clock's entry for
    `t` is at least `c`; and the past is what the events released there can be reached from.
   */
  lemma ClockExactness(es: seq<Event>, l: Loc, i: nat)
    requires WellFormed(es) && i < |Run(es).hist|
    ensures var k, a := At(Run(es), l), Run(es).hist[i];
            i in k.past <==> a.Clk() <= Get(k.vc, a.t)
    ensures |Positions(es)| == |Run(es).hist|
    ensures i in At(Run(es), l).past <==> Delivered(es, |es|, l, Positions(es)[i])
  {
    RunKeepsInv(es);
    AtIsFaithful(Run(es), l);
    PositionsAre(es);
    PastIsReachability(es, |es|);
    assert es[..|es|] == es;
    assert PastMatches(es, |es|, l, i);
  }

  /** Whether `t` has entered a barrier and not left it. */
  predicate InBarrier(es: seq<Event>, t: Tid) {
    if es == [] then false
    else
      var e := es[|es| - 1];
      if e.PreBarrier? && e.t == t then true
      else if e.PostBarrier? && e.t == t then false
      else InBarrier(es[..|es| - 1], t)
  }

  /** Whether `t` is inside a barrier and no child of it has started since it entered. */
  predicate WaitsUnticked(es: seq<Event>, t: Tid) {
    if es == [] then false
    else
      var e := es[|es| - 1];
      if e.PreBarrier? && e.t == t then true
      else if (e.PostBarrier? && e.t == t) || (e.Start? && e.parent == t) then false
      else WaitsUnticked(es[..|es| - 1], t)
  }

  lemma {:induction false} OpenAfterJoin(s: Sys, t: Tid, c: Addr, ws: seq<Tid>)
    ensures JoinWaiters(s, t, c, ws).open == s.open
  {
    if ws != [] {
      OpenAfterJoin(s, t, c, ws[..|ws| - 1]);
    }
  }

  lemma {:induction false} OpenAfterSignal(s: Sys, t: Tid, c: Addr, ws: seq<Tid>)
    ensures SignalWaiters(s, t, c, ws).open + {t} == s.open + {t}
  {
    if ws != [] {
      OpenAfterSignal(s, t, c, ws[..|ws| - 1]);
    }
  }

  predicate OpensAs(s: Sys, e: Event, t: Tid) {
    t in Step(s, e).open <==>
      (e.PreBarrier? && e.t == t) || (t in s.open && !(e.PostBarrier? && e.t == t) && !(e.Start? && e.parent == t))
  }

  lemma NotifyOpens(s: Sys, u: Tid, a: Addr, t: Tid)
    requires u !in s.open
    ensures OpensAs(s, Notify(u, a), t)
  {
    var ws := Waiters(s, a);
    OpenAfterJoin(s, u, a, ws);
    OpenAfterSignal(JoinWaiters(s, u, a, ws), u, a, ws);
  }

  lemma ThreadStepOpens(s: Sys, e: Event, t: Tid)
    requires Enabled(s, e) && Live(Step(s, e), t) && Shape(s) && (e.Start? || e.Exit? || e.Join? || e.Mem?)
    ensures OpensAs(s, e, t)
  {
  }

  lemma ReleaseStepOpens(s: Sys, e: Event, t: Tid)
    requires Enabled(s, e) && (e.Unlock? || e.RwUnlock? || e.PreWait? || e.PreBarrier? || e.SemPost?)
    ensures OpensAs(s, e, t)
  {
  }

  lemma AcquireStepOpens(s: Sys, e: Event, t: Tid)
    requires Enabled(s, e) && (e.Lock? || e.RdLock? || e.WrLock? || e.PostWait? || e.PostBarrier? || e.SemWait?)
    ensures OpensAs(s, e, t)
  {
  }

  lemma StepOpens(s: Sys, e: Event, t: Tid)
    requires Enabled(s, e) && Live(Step(s, e), t) && Shape(s)
    ensures OpensAs(s, e, t)
  {
    if e.Notify? {
      NotifyOpens(s, e.t, e.a, t);
    } else if e.Start? || e.Exit? || e.Join? || e.Mem? {
      ThreadStepOpens(s, e, t);
    } else if e.Unlock? || e.RwUnlock? || e.PreWait? || e.PreBarrier? || e.SemPost? {
      ReleaseStepOpens(s, e, t);
    } else {
      AcquireStepOpens(s, e, t);
    }
  }

  /**
    The threads whose clock others may have caught up with are those that wait at a barrier and
    have not been ticked by the start of a child meanwhile.
   */
  lemma {:induction false} OpenIsInBarrier(es: seq<Event>, t: Tid)
    requires WellFormed(es)
    ensures Live(Run(es), t) ==> (t in Run(es).open <==> WaitsUnticked(es, t))
    ensures WaitsUnticked(es, t) ==> InBarrier(es, t)
    ensures t !in Run(es).started ==> !WaitsUnticked(es, t)
  {
    if es != [] {
      var n := |es| - 1;
      var s, e := Run(es[..n]), es[n];
      OpenIsInBarrier(es[..n], t);
      RunKeepsInv(es[..n]);
      StepStarts(s, e, t);
      if Live(Step(s, e), t) {
        StepOpens(s, e, t);
      }
    }
  }

  /**
    Own-clock dominance: no other clock in the system has reached a live thread's own clock,
    except that while the thread waits unticked at a barrier others may have caught up with it.
   */
  lemma OwnClockDominates(es: seq<Event>, t: Tid, l: Loc)
    requires WellFormed(es) && Live(Run(es), t) && l != Thr(t)
    ensures Get(At(Run(es), l).vc, t) <= Own(Run(es), t)
    ensures !WaitsUnticked(es, t) ==> Get(At(Run(es), l).vc, t) < Own(Run(es), t)
    ensures !InBarrier(es, t) ==> !WaitsUnticked(es, t)
  {
    RunKeepsInv(es);
    AtLags(Run(es), l, t);
    OpenIsInBarrier(es, t);
  }

  /** Epoch transitivity: whoever knows the epoch of an access knows the whole clock it was made at. */
  lemma EpochTransitivity(es: seq<Event>, i: nat, l: Loc)
    requires WellFormed(es) && i < |Run(es).hist|
    requires Run(es).hist[i].Clk() <= Get(At(Run(es), l).vc, Run(es).hist[i].t)
    ensures Leq(Run(es).hist[i].vc, At(Run(es), l).vc)
  {
    RunKeepsInv(es);
    AtIsFaithful(Run(es), l);
  }

  /** Happens-before on accesses is transitive and contains the program order. */
  lemma HBIsAnOrder(es: seq<Event>, i: nat, j: nat, k: nat)
    requires WellFormed(es) && i < |Run(es).hist| && k < |Run(es).hist|
    ensures HB(Run(es), i, j) && HB(Run(es), j, k) ==> HB(Run(es), i, k)
    ensures i < k && Run(es).hist[i].t == Run(es).hist[k].t ==> HB(Run(es), i, k)
    ensures HB(Run(es), i, k) ==> i < k
  {
    var s := Run(es);
    RunKeepsInv(es);
    if HB(s, i, j) && HB(s, j, k) {
      var a, b, c := s.hist[i], s.hist[j], s.hist[k];
      assert Sequenced(b, c) && Ordered(a, b) && Ordered(b, c);
      assert Get(b.vc, a.t) <= Get(c.vc, a.t);
    }
    if i < k && s.hist[i].t == s.hist[k].t {
      assert Sequenced(s.hist[i], s.hist[k]);
      assert Ordered(s.hist[i], s.hist[k]);
    }
  }

  // ----- Verdicts

  predicate ConflictingEvents(e: Event, f: Event, x: Addr) {
    e.Mem? && f.Mem? && e.x == f.x == x && e.t != f.t && (e.write || f.write)
  }

  /** Two conflicting accesses to `x`, by different threads, with no path from the first to the second. */
  ghost predicate DataRace(es: seq<Event>, x: Addr) {
    exists p, q :: 0 <= p < q < |es| && ConflictingEvents(es[p], es[q], x) && !Reaches(es, p, q)
  }

  lemma PositionOf(es: seq<Event>, p: nat) returns (i: nat)
    requires p < |es| && es[p].Mem?
    ensures i < |Positions(es)| && Positions(es)[i] == p
  {
    var n := |es| - 1;
    if p == n {
      i := |Positions(es[..n])|;
    } else {
      i := PositionOf(es[..n], p);
    }
  }

  lemma PairRaces(es: seq<Event>, i: nat, j: nat, x: Addr)
    requires WellFormed(es) && i < j < |Positions(es)|
    ensures |Positions(es)| == |Run(es).hist| && Positions(es)[i] < Positions(es)[j] < |es|
    ensures Run(es).hist[i].x == x && Racing(Run(es).hist[i], Run(es).hist[j]) <==>
            ConflictingEvents(es[Positions(es)[i]], es[Positions(es)[j]], x)
            && !Reaches(es, Positions(es)[i], Positions(es)[j])
  {
    RunKeepsInv(es);
    PositionsAre(es);
    HBIsReachability(es, i, j);
    assert Sequenced(Run(es).hist[i], Run(es).hist[j]);
  }

  /** In a well-formed run the races of the history are the data races of the event graph. */
  lemma RacesAreDataRaces(es: seq<Event>, x: Addr)
    requires WellFormed(es)
    ensures Consistent(Run(es).hist)
    ensures HasRace(Run(es).hist, x) <==> DataRace(es, x)
  {
    var h := Run(es).hist;
    RunKeepsInv(es);
    PositionsAre(es);
    if HasRace(h, x) {
      var i, j :| 0 <= i < |h| && 0 <= j < |h| && h[i].x == x && Racing(h[i], h[j]);
      var lo, hi := if i < j then i else j, if i < j then j else i;
      PairRaces(es, lo, hi, x);
    }
    if DataRace(es, x) {
      RaceFound(es, x);
    }
  }

  lemma RaceFound(es: seq<Event>, x: Addr)
    requires WellFormed(es) && DataRace(es, x)
    ensures HasRace(Run(es).hist, x)
  {
    var p, q :| 0 <= p < q < |es| && ConflictingEvents(es[p], es[q], x) && !Reaches(es, p, q);
    var i := PositionOf(es, p);
    var j := PositionOf(es, q);
    PositionsAre(es);
    PairRaces(es, i, j, x);
    var h := Run(es).hist;
    assert h[i].x == x && Racing(h[i], h[j]);
  }

  /** Djit flags an address at the end of a run iff the run has a data race on it. */
  lemma DjitVerdict(es: seq<Event>, x: Addr)
    requires WellFormed(es)
    ensures Djit.MetaOf(Run(es).hist, x).racy <==> DataRace(es, x)
  {
    RacesAreDataRaces(es, x);
    Djit.MetaIsExact(Run(es).hist, x);
  }

  /** So does FastTrack, when joins do not prune its read clocks. */
  lemma FastTrackVerdict(es: seq<Event>, x: Addr)
    requires WellFormed(es)
    ensures FastTrack.MetaOf(Run(es).hist, x).racy <==> DataRace(es, x)
    ensures FastTrack.MetaOf(Run(es).hist, x).racy <==> Djit.MetaOf(Run(es).hist, x).racy
  {
    RacesAreDataRaces(es, x);
    DjitVerdict(es, x);
    FastTrack.AgreesWithDjit(Run(es).hist, x);
  }
}
