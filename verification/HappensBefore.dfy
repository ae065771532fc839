/**
  Happens-before, defined without clocks: reachability between the events of a run. Each
  synchronization object is a mailbox that holds the events released into it; an event has an
  edge from every event in the mailboxes it reads. The theorem is that the pasts which the
  clock machine carries are exactly this relation.
 */
module HappensBefore {
  import opened Clocks
  import opened History
  import opened Machine
  import opened MachineProofs

  /** The mailboxes an event reads: its own thread's, and what it acquires from. */
  function Reads(s: Sys, e: Event): set<Loc> {
    match e
    case Start(t, parent) => if parent == NO_THREAD then {} else {Thr(parent)}
    case Join(t, child) => {Thr(t), Thr(child)}
    case Lock(t, a) => {Thr(t), Mutex(a)}
    case RdLock(t, a) => {Thr(t), RwVc(a)}
    case WrLock(t, a) => {Thr(t), RwVc(a)}
    case Notify(t, a) => {Thr(t)} + (set l | l in s.know && l.CondWait? && l.a == a)
    case PostWait(t, a) => {Thr(t), CondSig(a, t)}
    case PostBarrier(t, a) => {Thr(t), Bar(a)}
    case SemWait(t, a) => {Thr(t), Sem(a)}
    case _ => {Thr(e.t)}
  }

  /** What an event does to a mailbox. */
  datatype Effect = Keep | Empty | Put | Replace | ReplaceWith(l: Loc)

  function EffectOf(s: Sys, e: Event, l: Loc): Effect {
    match e
    case Start(t, parent) => if l == Thr(t) then Replace else if parent != NO_THREAD && l == Thr(parent) then Put else Keep
    case Join(t, child) => if l == Thr(t) then Put else if l == Thr(child) then Empty else Keep
    case Unlock(t, a) => if l == Thr(t) then Put else if l == Mutex(a) then Replace else Keep
    case RwUnlock(t, a) =>
      var closes := Count(s.refs, a) == 1;
      if l == Thr(t) then Put
      else if l == RwWait(a) then (if closes then Empty else Put)
      else if l == RwVc(a) && closes then ReplaceWith(RwWait(a))
      else Keep
    case Notify(t, a) =>
      if l == Thr(t) then Put else if l.CondSig? && l.a == a && CondWait(a, l.t) in s.know then Replace else Keep
    case PreWait(t, a) => if l == Thr(t) then Put else if l == CondWait(a, t) then Replace else Keep
    case PostWait(t, a) => if l == Thr(t) then Put else if l == CondWait(a, t) || l == CondSig(a, t) then Empty else Keep
    case PreBarrier(t, a) => if l == Thr(t) || l == Bar(a) then Put else Keep
    case PostBarrier(t, a) => if l == Thr(t) then Put else if l == Bar(a) && Count(s.waiter, a) == 1 then Empty else Keep
    case SemPost(t, a) => if l == Thr(t) || l == Sem(a) then Put else Keep
    case _ => if l == Thr(e.t) then Put else Keep
  }

  /** The positions of the events released into `l` and still there after the run. */
  function Holds(es: seq<Event>, l: Loc): set<nat> {
    if es == [] then {}
    else
      var n, s := |es| - 1, Run(es[..|es| - 1]);
      match EffectOf(s, es[n], l)
      case Keep => Holds(es[..n], l)
      case Empty => {}
      case Put => Holds(es[..n], l) + {n}
      case Replace => {n}
      case ReplaceWith(l1) => Holds(es[..n], l1) + {n}
  }

  predicate Edge(es: seq<Event>, p: nat, q: nat)
    requires q < |es|
  {
    exists l :: l in Reads(Run(es[..q]), es[q]) && p in Holds(es[..q], l)
  }

  ghost predicate Reaches(es: seq<Event>, p: nat, q: nat)
    requires q < |es|
    decreases q
  {
    p == q || exists r :: 0 <= r < q && Edge(es, r, q) && Reaches(es, p, r)
  }

  /** The positions of the memory events; `hist[i]` is the access of event `Positions(es)[i]`. */
  function Positions(es: seq<Event>): seq<nat> {
    if es == [] then []
    else Positions(es[..|es| - 1]) + if es[|es| - 1].Mem? then [|es| - 1] else []
  }

  // ----- One step moves pasts as it moves events between mailboxes

  function ReadPast(s: Sys, e: Event): set<nat> {
    (set l, i | l in Reads(s, e) && i in At(s, l).past :: i) + if e.Mem? then {|s.hist|} else {}
  }

  function PastAfter(s: Sys, e: Event, l: Loc): set<nat> {
    match EffectOf(s, e, l)
    case Keep => At(s, l).past
    case Empty => {}
    case Put => At(s, l).past + ReadPast(s, e)
    case Replace => ReadPast(s, e)
    case ReplaceWith(l1) => At(s, l1).past + ReadPast(s, e)
  }

  lemma ReadPastOfOne(s: Sys, e: Event, l: Loc)
    requires Reads(s, e) == {l}
    ensures ReadPast(s, e) == At(s, l).past + if e.Mem? then {|s.hist|} else {}
  {
  }

  lemma ReadPastOfTwo(s: Sys, e: Event, l: Loc, l1: Loc)
    requires Reads(s, e) == {l, l1} && !e.Mem?
    ensures ReadPast(s, e) == At(s, l).past + At(s, l1).past
  {
  }

  function WaitersPast(s: Sys, c: Addr, ws: seq<Tid>): set<nat> {
    if ws == [] then {} else WaitersPast(s, c, ws[..|ws| - 1]) + At(s, CondWait(c, ws[|ws| - 1])).past
  }

  lemma {:induction false} WaitersPastHas(s: Sys, c: Addr, ws: seq<Tid>, i: nat)
    ensures i in WaitersPast(s, c, ws) <==> exists w :: w in ws && i in At(s, CondWait(c, w)).past
  {
    if ws != [] {
      var n := |ws| - 1;
      WaitersPastHas(s, c, ws[..n], i);
      assert ws == ws[..n] + [ws[n]];
    }
  }

  lemma {:induction false} JoinWaitersPast(s: Sys, t: Tid, c: Addr, ws: seq<Tid>)
    ensures At(JoinWaiters(s, t, c, ws), Thr(t)).past == At(s, Thr(t)).past + WaitersPast(s, c, ws)
    ensures forall l :: l != Thr(t) ==> At(JoinWaiters(s, t, c, ws), l) == At(s, l)
  {
    if ws != [] {
      JoinWaitersPast(s, t, c, ws[..|ws| - 1]);
    }
  }

  lemma {:induction false} SignalWaitersPast(s: Sys, t: Tid, c: Addr, ws: seq<Tid>, l: Loc)
    ensures At(SignalWaiters(s, t, c, ws), l) ==
            if l.CondSig? && l.a == c && l.t in ws then At(s, Thr(t)) else At(s, l)
  {
    if ws != [] {
      var n := |ws| - 1;
      SignalWaitersPast(s, t, c, ws[..n], l);
      SignalWaitersPast(s, t, c, ws[..n], Thr(t));
      assert ws == ws[..n] + [ws[n]];
    }
  }

  lemma WaitersAre(s: Sys, a: Addr, w: Tid)
    ensures w in Waiters(s, a) <==> CondWait(a, w) in s.know
  {
  }

  lemma NotifyReadsOne(s: Sys, t: Tid, a: Addr, i: nat)
    ensures i in ReadPast(s, Notify(t, a)) <==> i in At(s, Thr(t)).past || i in WaitersPast(s, a, Waiters(s, a))
  {
    var ws, e := Waiters(s, a), Notify(t, a);
    WaitersPastHas(s, a, ws, i);
    if i in ReadPast(s, e) {
      var r :| r in Reads(s, e) && i in At(s, r).past;
      if r != Thr(t) {
        WaitersAre(s, a, r.t);
        assert r == CondWait(a, r.t) && r.t in ws;
      }
    }
    if w :| w in ws && i in At(s, CondWait(a, w)).past {
      WaitersAre(s, a, w);
      assert CondWait(a, w) in Reads(s, e);
    }
    assert Thr(t) in Reads(s, e);
  }

  lemma NotifyReads(s: Sys, t: Tid, a: Addr)
    ensures ReadPast(s, Notify(t, a)) == At(s, Thr(t)).past + WaitersPast(s, a, Waiters(s, a))
  {
    forall i ensures i in ReadPast(s, Notify(t, a)) <==> i in At(s, Thr(t)).past + WaitersPast(s, a, Waiters(s, a)) {
      NotifyReadsOne(s, t, a, i);
    }
  }

  lemma TickFlow(s: Sys, t: Tid, l: Loc)
    ensures At(Tick(s, t), l).past == At(s, l).past
  {
  }

  lemma NotifyResult(s: Sys, t: Tid, a: Addr, l: Loc)
    ensures At(NotifyStep(s, t, a), l).past ==
            if l == Thr(t) || (l.CondSig? && l.a == a && l.t in Waiters(s, a)) then ReadPast(s, Notify(t, a))
            else At(s, l).past
  {
    var ws := Waiters(s, a);
    var s1 := JoinWaiters(s, t, a, ws);
    var s2 := SignalWaiters(s1, t, a, ws);
    JoinWaitersPast(s, t, a, ws);
    NotifyReads(s, t, a);
    SignalWaitersPast(s1, t, a, ws, l);
    TickFlow(s2, t, l);
    assert NotifyStep(s, t, a) == Tick(s2, t);
  }

  lemma NotifyPast(s: Sys, t: Tid, a: Addr, l: Loc)
    ensures PastAfter(s, Notify(t, a), l) ==
            if l == Thr(t) || (l.CondSig? && l.a == a && CondWait(a, l.t) in s.know) then ReadPast(s, Notify(t, a))
            else At(s, l).past
  {
  }

  lemma NotifyFlow(s: Sys, t: Tid, a: Addr, l: Loc)
    ensures At(NotifyStep(s, t, a), l).past == PastAfter(s, Notify(t, a), l)
  {
    NotifyResult(s, t, a, l);
    NotifyPast(s, t, a, l);
    if l.CondSig? {
      WaitersAre(s, a, l.t);
    }
  }

  lemma StartFlow(s: Sys, t: Tid, parent: Tid, l: Loc)
    requires Thr(t) !in s.know && parent != t && (parent != NO_THREAD ==> Live(s, parent))
    ensures At(StartStep(s, t, parent), l).past == PastAfter(s, Start(t, parent), l)
  {
    if parent != NO_THREAD {
      ReadPastOfOne(s, Start(t, parent), Thr(parent));
    }
  }

  lemma JoinFlow(s: Sys, t: Tid, child: Tid, l: Loc)
    requires t != child
    ensures At(JoinStep(s, t, child), l).past == PastAfter(s, Join(t, child), l)
  {
  }

  lemma PostWaitFlow(s: Sys, t: Tid, a: Addr, l: Loc)
    ensures At(PostWaitStep(s, t, a), l).past == PastAfter(s, PostWait(t, a), l)
  {
    ReadPastOfTwo(s, PostWait(t, a), Thr(t), CondSig(a, t));
  }

  lemma PostBarrierFlow(s: Sys, t: Tid, a: Addr, l: Loc)
    ensures At(PostBarrierStep(s, t, a), l).past == PastAfter(s, PostBarrier(t, a), l)
  {
    ReadPastOfTwo(s, PostBarrier(t, a), Thr(t), Bar(a));
  }

  lemma RwUnlockFlow(s: Sys, t: Tid, a: Addr, l: Loc)
    ensures At(RwUnlockStep(s, t, a), l).past == PastAfter(s, RwUnlock(t, a), l)
  {
    ReadPastOfOne(s, RwUnlock(t, a), Thr(t));
  }

  lemma AcquireFlow(s: Sys, e: Event, src: Loc, l: Loc)
    requires Reads(s, e) == {Thr(e.t), src} && !e.Mem?
    requires EffectOf(s, e, l) == if l == Thr(e.t) then Put else Keep
    requires forall r :: At(Step(s, e), r).past == At(JoinInto(s, Thr(e.t), src), r).past
    ensures At(Step(s, e), l).past == PastAfter(s, e, l)
  {
  }

  lemma StepFlow(s: Sys, e: Event, l: Loc)
    requires Enabled(s, e) && (e.Start? ==> Thr(e.t) !in s.know)
    ensures At(Step(s, e), l).past == PastAfter(s, e, l)
  {
    match e {
      case Start(t, parent) => StartFlow(s, t, parent, l);
      case Join(t, child) => JoinFlow(s, t, child, l);
      case Lock(t, a) => AcquireFlow(s, e, Mutex(a), l);
      case RdLock(t, a) => AcquireFlow(s, e, RwVc(a), l);
      case WrLock(t, a) => AcquireFlow(s, e, RwVc(a), l);
      case SemWait(t, a) => AcquireFlow(s, e, Sem(a), l);
      case RwUnlock(t, a) => RwUnlockFlow(s, t, a, l);
      case Notify(t, a) => NotifyFlow(s, t, a, l);
      case PostWait(t, a) => PostWaitFlow(s, t, a, l);
      case PostBarrier(t, a) => PostBarrierFlow(s, t, a, l);
      case _ => ReleaseFlow(s, e, l);
    }
  }

  /** The events that read nothing but their own thread. */
  lemma ReleaseFlow(s: Sys, e: Event, l: Loc)
    requires e.Exit? || e.Mem? || e.Unlock? || e.PreWait? || e.PreBarrier? || e.SemPost?
    requires Live(s, e.t)
    ensures At(Step(s, e), l).past == PastAfter(s, e, l)
  {
    ReadPastOfOne(s, e, Thr(e.t));
  }

  // ----- Pasts are reachability

  lemma {:induction false} HoldsEvents(es: seq<Event>, l: Loc)
    ensures forall q :: q in Holds(es, l) ==> q < |es|
  {
    if es != [] {
      var n := |es| - 1;
      HoldsEvents(es[..n], l);
      if EffectOf(Run(es[..n]), es[n], l).ReplaceWith? {
        HoldsEvents(es[..n], EffectOf(Run(es[..n]), es[n], l).l);
      }
    }
  }

  lemma {:induction false} PositionsAre(es: seq<Event>)
    requires WellFormed(es)
    ensures |Positions(es)| == |Run(es).hist|
    ensures forall i :: 0 <= i < |Positions(es)| ==>
              var p, a := Positions(es)[i], Run(es).hist[i];
              p < |es| && es[p] == Mem(a.t, a.x, a.write)
    ensures forall i, j :: 0 <= i < j < |Positions(es)| ==> Positions(es)[i] < Positions(es)[j]
  {
    if es != [] {
      PositionsAre(es[..|es| - 1]);
      StepHist(Run(es[..|es| - 1]), es[|es| - 1]);
    }
  }

  lemma {:induction false} JoinWaitersHist(s: Sys, t: Tid, c: Addr, ws: seq<Tid>)
    ensures JoinWaiters(s, t, c, ws).hist == s.hist && JoinWaiters(s, t, c, ws).before == s.before
    ensures SignalWaiters(s, t, c, ws).hist == s.hist && SignalWaiters(s, t, c, ws).before == s.before
  {
    if ws != [] {
      JoinWaitersHist(s, t, c, ws[..|ws| - 1]);
    }
  }

  /** Only memory events add to the history. */
  lemma StepHist(s: Sys, e: Event)
    ensures Step(s, e).hist == s.hist + if e.Mem? then [Access(e.t, e.x, e.write, At(s, Thr(e.t)).vc)] else []
    ensures Step(s, e).before == s.before + if e.Mem? then [At(s, Thr(e.t)).past] else []
  {
    if e.Notify? {
      var ws := Waiters(s, e.a);
      JoinWaitersHist(s, e.t, e.a, ws);
      JoinWaitersHist(JoinWaiters(s, e.t, e.a, ws), e.t, e.a, ws);
    }
  }

  /** After the first `n` events, mailbox `l` holds an event that is reachable from event `p`. */
  ghost predicate Delivered(es: seq<Event>, n: nat, l: Loc, p: nat)
    requires n <= |es|
  {
    exists q :: 0 <= q < n && q in Holds(es[..n], l) && Reaches(es, p, q)
  }

  /** An event is reached from `p` iff `p` was delivered to a mailbox it reads. */
  lemma ReachesThroughMailbox(es: seq<Event>, n: nat, p: nat)
    requires n < |es|
    ensures Reaches(es, p, n) <==>
            p == n || exists l :: l in Reads(Run(es[..n]), es[n]) && Delivered(es, n, l, p)
  {
    if Reaches(es, p, n) && p != n {
      var r :| 0 <= r < n && Edge(es, r, n) && Reaches(es, p, r);
      var l :| l in Reads(Run(es[..n]), es[n]) && r in Holds(es[..n], l);
      assert Delivered(es, n, l, p);
    }
    if l :| l in Reads(Run(es[..n]), es[n]) && Delivered(es, n, l, p) {
      var r :| 0 <= r < n && r in Holds(es[..n], l) && Reaches(es, p, r);
      assert Edge(es, r, n);
    }
  }

  lemma HoldsAfter(es: seq<Event>, n: nat, l: Loc)
    requires n < |es|
    ensures Holds(es[..n + 1], l) ==
            match EffectOf(Run(es[..n]), es[n], l)
            case Keep => Holds(es[..n], l)
            case Empty => {}
            case Put => Holds(es[..n], l) + {n}
            case Replace => {n}
            case ReplaceWith(l1) => Holds(es[..n], l1) + {n}
  {
    assert es[..n + 1][..n] == es[..n] && es[..n + 1][n] == es[n];
  }

  /** The new event `n` aside, what is delivered after it was delivered to mailbox `l0` before it. */
  lemma DeliveredBefore(es: seq<Event>, n: nat, l: Loc, l0: Loc, p: nat)
    requires n < |es|
    requires forall q :: q < n ==> (q in Holds(es[..n + 1], l) <==> q in Holds(es[..n], l0))
    ensures Delivered(es, n + 1, l, p) <==>
            Delivered(es, n, l0, p) || (n in Holds(es[..n + 1], l) && Reaches(es, p, n))
  {
  }

  lemma NothingDelivered(es: seq<Event>, n: nat, l: Loc, p: nat)
    requires n < |es| && (Holds(es[..n + 1], l) == {} || Holds(es[..n + 1], l) == {n})
    ensures Delivered(es, n + 1, l, p) <==> n in Holds(es[..n + 1], l) && Reaches(es, p, n)
  {
  }

  lemma DeliveredAfter(es: seq<Event>, n: nat, l: Loc, p: nat)
    requires n < |es|
    ensures Delivered(es, n + 1, l, p) <==>
            match EffectOf(Run(es[..n]), es[n], l)
            case Keep => Delivered(es, n, l, p)
            case Empty => false
            case Put => Delivered(es, n, l, p) || Reaches(es, p, n)
            case Replace => Reaches(es, p, n)
            case ReplaceWith(l1) => Delivered(es, n, l1, p) || Reaches(es, p, n)
  {
    var f := EffectOf(Run(es[..n]), es[n], l);
    HoldsAfter(es, n, l);
    match f {
      case Keep =>
        HoldsEvents(es[..n], l);
        DeliveredBefore(es, n, l, l, p);
      case Empty => NothingDelivered(es, n, l, p);
      case Put => DeliveredBefore(es, n, l, l, p);
      case Replace => NothingDelivered(es, n, l, p);
      case ReplaceWith(l1) => DeliveredBefore(es, n, l, l1, p);
    }
  }

  lemma {:induction false} ReachesForward(es: seq<Event>, p: nat, q: nat)
    requires q < |es| && Reaches(es, p, q)
    ensures p <= q
    decreases q
  {
    if p != q {
      var r :| 0 <= r < q && Edge(es, r, q) && Reaches(es, p, r);
      ReachesForward(es, p, r);
    }
  }

  lemma {:induction false} WellFormedPrefix(es: seq<Event>, n: nat)
    requires WellFormed(es) && n <= |es|
    ensures WellFormed(es[..n])
    ensures n < |es| ==> Enabled(Run(es[..n]), es[n])
  {
    if n < |es| {
      var k := |es| - 1;
      WellFormedPrefix(es[..k], n);
      assert es[..k][..n] == es[..n];
    } else {
      assert es[..n] == es;
    }
  }

  lemma OneMore(es: seq<Event>, i: nat)
    requires i < |es|
    ensures es[..i + 1] == es[..i] + [es[i]]
  {
  }

  lemma NextEvent(es: seq<Event>, i: nat)
    requires WellFormed(es) && i < |es|
    ensures es[..i + 1] == es[..i] + [es[i]] && Enabled(Run(es[..i]), es[i])
  {
    OneMore(es, i);
    WellFormedPrefix(es, i);
  }

  /** The access at position `i` of the history is in the past of `l` iff its event was delivered there. */
  ghost predicate PastMatches(es: seq<Event>, n: nat, l: Loc, i: nat)
    requires n <= |es| && i < |Positions(es[..n])|
  {
    i in At(Run(es[..n]), l).past <==> Delivered(es, n, l, Positions(es[..n])[i])
  }

  lemma ReadPastHas(s: Sys, e: Event, i: nat)
    ensures i in ReadPast(s, e) <==> (e.Mem? && i == |s.hist|) || exists r :: r in Reads(s, e) && i in At(s, r).past
  {
  }

  lemma PastBounded(s: Sys, l: Loc, i: nat)
    requires Inv(s) && i in At(s, l).past
    ensures i < |s.hist|
  {
  }

  /** What an event reads is what reaches it. */
  lemma ReadPastReaches(es: seq<Event>, n: nat, i: nat)
    requires WellFormed(es) && n < |es|
    requires forall l, k :: 0 <= k < |Positions(es[..n])| ==> PastMatches(es, n, l, k)
    requires i < |Positions(es[..n + 1])|
    ensures i in ReadPast(Run(es[..n]), es[n]) <==> Reaches(es, Positions(es[..n + 1])[i], n)
  {
    var s, e, p := Run(es[..n]), es[n], Positions(es[..n + 1])[i];
    assert es[..n + 1][..n] == es[..n];
    WellFormedPrefix(es, n);
    PositionsAre(es[..n]);
    RunKeepsInv(es[..n]);
    ReadPastHas(s, e, i);
    ReachesThroughMailbox(es, n, p);
    if i < |s.hist| {
      assert p == Positions(es[..n])[i] && p < n;
      if r :| r in Reads(s, e) && i in At(s, r).past {
        assert PastMatches(es, n, r, i);
      }
      if r :| r in Reads(s, e) && Delivered(es, n, r, p) {
        assert PastMatches(es, n, r, i);
      }
    }
  }

  /** The access that event `n` makes, if it makes one, is new to every mailbox. */
  lemma NewAccessUndelivered(es: seq<Event>, n: nat, l: Loc, i: nat)
    requires WellFormed(es) && n < |es|
    requires |Positions(es[..n])| <= i < |Positions(es[..n + 1])|
    ensures i !in At(Run(es[..n]), l).past
    ensures !Delivered(es, n, l, Positions(es[..n + 1])[i])
  {
    var s, p := Run(es[..n]), Positions(es[..n + 1])[i];
    assert es[..n + 1][..n] == es[..n];
    WellFormedPrefix(es, n);
    PositionsAre(es[..n]);
    RunKeepsInv(es[..n]);
    if i in At(s, l).past {
      PastBounded(s, l, i);
    }
    if Delivered(es, n, l, p) {
      var q :| 0 <= q < n && q in Holds(es[..n], l) && Reaches(es, p, q);
      ReachesForward(es, p, q);
    }
  }

  lemma OldMatches(es: seq<Event>, n: nat, l: Loc, i: nat)
    requires WellFormed(es) && n < |es| && i < |Positions(es[..n + 1])|
    requires forall l1, k :: 0 <= k < |Positions(es[..n])| ==> PastMatches(es, n, l1, k)
    ensures i in At(Run(es[..n]), l).past <==> Delivered(es, n, l, Positions(es[..n + 1])[i])
  {
    assert es[..n + 1][..n] == es[..n];
    if i < |Positions(es[..n])| {
      assert PastMatches(es, n, l, i);
    } else {
      NewAccessUndelivered(es, n, l, i);
    }
  }

  lemma PastMatchesStep(es: seq<Event>, n: nat, l: Loc, i: nat)
    requires WellFormed(es) && n < |es|
    requires forall l1, k :: 0 <= k < |Positions(es[..n])| ==> PastMatches(es, n, l1, k)
    requires i < |Positions(es[..n + 1])|
    ensures PastMatches(es, n + 1, l, i)
  {
    var s, e, p := Run(es[..n]), es[n], Positions(es[..n + 1])[i];
    assert es[..n + 1][..n] == es[..n];
    WellFormedPrefix(es, n);
    RunKeepsInv(es[..n]);
    StepFlow(s, e, l);
    DeliveredAfter(es, n, l, p);
    ReadPastReaches(es, n, i);
    var f := EffectOf(s, e, l);
    OldMatches(es, n, if f.ReplaceWith? then f.l else l, i);
  }

  lemma {:induction false} PastIsReachability(es: seq<Event>, n: nat)
    requires WellFormed(es) && n <= |es|
    ensures forall l, i :: 0 <= i < |Positions(es[..n])| ==> PastMatches(es, n, l, i)
  {
    if n > 0 {
      PastIsReachability(es, n - 1);
      forall l, i | 0 <= i < |Positions(es[..n])| ensures PastMatches(es, n, l, i) {
        PastMatchesStep(es, n - 1, l, i);
      }
    }
  }

  /** Cutting the run before a memory event cuts the list of memory events before it. */
  lemma {:induction false} PositionsCut(es: seq<Event>, j: nat)
    requires j < |Positions(es)|
    ensures Positions(es)[j] < |es| && es[Positions(es)[j]].Mem?
    ensures Positions(es[..Positions(es)[j]]) == Positions(es)[..j]
  {
    var n := |es| - 1;
    if j < |Positions(es[..n])| {
      PositionsCut(es[..n], j);
      var p := Positions(es[..n])[j];
      assert es[..n][..p] == es[..p];
      assert Positions(es)[..j] == Positions(es[..n])[..j];
    }
  }

  lemma {:induction false} BeforeIsPastAtAccess(es: seq<Event>, j: nat)
    requires j < |Positions(es)| && |Positions(es)| == |Run(es).before|
    ensures var p := Positions(es)[j];
            p < |es| && Run(es).before[j] == At(Run(es[..p]), Thr(es[p].t)).past
  {
    var n := |es| - 1;
    StepHist(Run(es[..n]), es[n]);
    if j < |Positions(es[..n])| {
      BeforeIsPastAtAccess(es[..n], j);
      var p := Positions(es[..n])[j];
      assert es[..n][..p] == es[..p];
    }
  }

  /**
    The happens-before relation that the machine records between accesses is reachability in
    the event graph.
   */
  lemma HBIsReachability(es: seq<Event>, i: nat, j: nat)
    requires WellFormed(es) && i < j < |Positions(es)|
    ensures Positions(es)[j] < |es|
    ensures HB(Run(es), i, j) <==> Reaches(es, Positions(es)[i], Positions(es)[j])
  {
    var p, q := Positions(es)[i], Positions(es)[j];
    RunKeepsInv(es);
    PositionsAre(es);
    PositionsCut(es, j);
    BeforeIsPastAtAccess(es, j);
    PastIsReachability(es, q);
    ReachesThroughMailbox(es, q, p);
    assert PastMatches(es, q, Thr(es[q].t), i);
  }
}
