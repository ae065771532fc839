/**
  What every step of the clock machine keeps, and what follows for whole runs. The invariant `Inv`
  has five parts:

    `Shape`             threads that are live or known to a clock have been started
    `Dominance`         no other clock is ahead of a live thread's own entry
    `HistoryDominance`  neither is the clock of an access that was made
    `AllFaithful`       the entries of a clock decide which accesses are in its past
    `RecordedOrder`     the pasts of the accesses made are their order, and their clocks are consistent

  Each primitive of the store keeps them, hence each step, hence each run.
 */
module MachineProofs {
  import opened Clocks
  import opened History
  import opened Machine

  // ----- One clock against the history

  predicate Knows(k: Know, a: Access) {
    a.Clk() <= Get(k.vc, a.t)
  }

  /** The clock decides exactly which accesses are in the past, and knows what they knew. */
  ghost predicate Faithful(k: Know, h: seq<Access>) {
    && Positive(k.vc)
    && (forall i :: i in k.past ==> i < |h|)
    && (forall i :: 0 <= i < |h| ==> (i in k.past <==> Knows(k, h[i])))
    && (forall i :: 0 <= i < |h| && Knows(k, h[i]) ==> Leq(h[i].vc, k.vc))
  }

  /** `k` lags behind thread `t`, whose own clock is `own`; it may have caught up only if `t` is open. */
  predicate Lags(k: Clock, t: Tid, own: nat, open: bool) {
    Get(k, t) < own || (open && Get(k, t) == own)
  }

  lemma JoinIsFaithful(a: Know, b: Know, h: seq<Access>)
    requires Faithful(a, h) && Faithful(b, h)
    ensures Faithful(JoinKnow(a, b), h)
  {
  }

  /** A thread that ticks already knows all its own accesses. */
  lemma TickIsFaithful(k: Know, t: Tid, h: seq<Access>)
    requires Faithful(k, h)
    requires forall i :: 0 <= i < |h| && h[i].t == t ==> Knows(k, h[i])
    ensures Faithful(k.(vc := Ticked(k.vc, t)), h)
  {
  }

  /** An access that `k` lags behind is not in its past. */
  lemma UnseenAccess(k: Know, h: seq<Access>, a: Access)
    requires Faithful(k, h) && Get(k.vc, a.t) < a.Clk()
    ensures Faithful(k, h + [a])
  {
  }

  lemma OwnAccess(k: Know, h: seq<Access>, a: Access)
    requires Faithful(k, h) && a.vc == k.vc
    ensures Faithful(k.(past := k.past + {|h|}), h + [a])
  {
  }

  // ----- The invariant

  ghost predicate Shape(s: Sys) {
    && |s.before| == |s.hist|
    && NO_THREAD !in s.started
    && (forall t :: t in s.open ==> Thr(t) in s.know)
    && (forall t :: Thr(t) in s.know ==> t in s.started && t in s.know[Thr(t)].vc)
    && (forall l, t :: l in s.know && t in s.know[l].vc ==> t in s.started)
    && (forall i :: 0 <= i < |s.hist| ==> s.hist[i].t in s.started)
    && (forall i, t :: 0 <= i < |s.hist| && t in s.hist[i].vc ==> t in s.started)
  }

  /** No clock but its own is ahead of a live thread; outside barriers none has even caught up. */
  ghost predicate Dominance(s: Sys) {
    && (forall t :: Thr(t) in s.know ==> Own(s, t) >= 1)
    && forall t, l :: Thr(t) in s.know && l in s.know && l != Thr(t) ==>
      Lags(s.know[l].vc, t, Own(s, t), t in s.open)
  }

  /** The same for the clocks that past accesses were made at. */
  ghost predicate HistoryDominance(s: Sys) {
    forall t, i :: Thr(t) in s.know && 0 <= i < |s.hist| ==>
      if s.hist[i].t == t then Leq(s.hist[i].vc, s.know[Thr(t)].vc)
      else Lags(s.hist[i].vc, t, Own(s, t), t in s.open)
  }

  ghost predicate AllFaithful(s: Sys) {
    forall l :: l in s.know ==> Faithful(s.know[l], s.hist)
  }

  /** The recorded happens-before relation is the one that the recorded clocks decide. */
  ghost predicate RecordedOrder(s: Sys) {
    && |s.before| == |s.hist|
    && Consistent(s.hist)
    && (forall i, j :: 0 <= j < |s.hist| && i in s.before[j] ==> i < j)
    && (forall i, j :: 0 <= i < j < |s.hist| ==> (i in s.before[j] <==> Ordered(s.hist[i], s.hist[j])))
  }

  ghost predicate Inv(s: Sys) {
    Shape(s) && Dominance(s) && HistoryDominance(s) && AllFaithful(s) && RecordedOrder(s)
  }

  lemma AtIsFaithful(s: Sys, l: Loc)
    requires AllFaithful(s) && Consistent(s.hist)
    ensures Faithful(At(s, l), s.hist)
  {
  }

  // ----- The primitives keep the invariant

  /** A clock that is no thread's own is replaced by one that lags as all others do. */
  lemma ReplaceKeepsDominance(s: Sys, dst: Loc, k: Know, newlyOpen: set<Tid>)
    requires Dominance(s)
    requires forall t :: Thr(t) in s.know && dst != Thr(t) ==> Lags(k.vc, t, Own(s, t), t in s.open + newlyOpen)
    requires dst.Thr? ==> dst in s.know && Get(k.vc, dst.t) == Own(s, dst.t)
    ensures Dominance(s.(know := s.know[dst := k], open := s.open + newlyOpen))
    ensures forall t :: Thr(t) in s.know ==> Own(s.(know := s.know[dst := k], open := s.open + newlyOpen), t) == Own(s, t)
  {
  }

  lemma AtLags(s: Sys, l: Loc, t: Tid)
    requires Dominance(s) && Live(s, t) && l != Thr(t)
    ensures Lags(At(s, l).vc, t, Own(s, t), t in s.open)
  {
  }

  lemma JoinKeepsDominance(s: Sys, dst: Loc, src: Loc)
    requires Dominance(s) && dst != src && (dst.Thr? ==> dst in s.know)
    ensures Dominance(JoinInto(s, dst, src))
    ensures forall t :: Thr(t) in s.know ==> Own(JoinInto(s, dst, src), t) == Own(s, t)
  {
    var k := JoinKnow(At(s, dst), At(s, src));
    forall t | Thr(t) in s.know
      ensures dst != Thr(t) ==> Lags(k.vc, t, Own(s, t), t in s.open + Publishes(src))
      ensures dst == Thr(t) ==> Get(k.vc, t) == Own(s, t)
    {
      JoinedAt(At(s, dst).vc, At(s, src).vc, t);
      if src != Thr(t) {
        AtLags(s, src, t);
      }
      if dst != Thr(t) {
        AtLags(s, dst, t);
      }
    }
    ReplaceKeepsDominance(s, dst, k, Publishes(src));
  }

  lemma CopyKeepsDominance(s: Sys, dst: Loc, src: Loc)
    requires Dominance(s) && dst != src && !dst.Thr?
    ensures Dominance(Copy(s, dst, src))
    ensures forall t :: Thr(t) in s.know ==> Own(Copy(s, dst, src), t) == Own(s, t)
  {
  }

  lemma TickKeepsDominance(s: Sys, t: Tid)
    requires Dominance(s) && Live(s, t)
    ensures Dominance(Tick(s, t))
    ensures forall u :: Thr(u) in s.know ==> Own(Tick(s, t), u) == Own(s, u) + if u == t then 1 else 0
  {
  }

  /** Growing the live threads' clocks and opening or ticking threads keeps history dominated. */
  lemma GrowthKeepsHistory(s: Sys, s1: Sys)
    requires HistoryDominance(s) && s1.hist == s.hist
    requires forall t :: Thr(t) in s1.know ==> Thr(t) in s.know && Leq(s.know[Thr(t)].vc, s1.know[Thr(t)].vc)
    requires forall t :: Thr(t) in s1.know && t in s.open ==> t in s1.open || Own(s1, t) > Own(s, t)
    ensures HistoryDominance(s1)
  {
  }

  lemma JoinIntoKeepsFaithful(s: Sys, dst: Loc, src: Loc)
    requires AllFaithful(s) && Consistent(s.hist)
    ensures AllFaithful(JoinInto(s, dst, src))
  {
    AtIsFaithful(s, dst);
    AtIsFaithful(s, src);
    JoinIsFaithful(At(s, dst), At(s, src), s.hist);
  }

  lemma JoinIntoKeepsHistory(s: Sys, dst: Loc, src: Loc)
    requires HistoryDominance(s) && dst != src && (dst.Thr? ==> dst in s.know)
    ensures HistoryDominance(JoinInto(s, dst, src))
  {
    var s1 := JoinInto(s, dst, src);
    JoinedIsLeastUpperBound(At(s, dst).vc, At(s, src).vc, s1.know[dst].vc);
    GrowthKeepsHistory(s, s1);
  }

  lemma JoinIntoKeeps(s: Sys, dst: Loc, src: Loc)
    requires Inv(s) && dst != src && (dst.Thr? ==> dst in s.know)
    requires src.Thr? ==> src in s.know
    ensures Inv(JoinInto(s, dst, src))
  {
    JoinKeepsDominance(s, dst, src);
    JoinIntoKeepsFaithful(s, dst, src);
    JoinIntoKeepsHistory(s, dst, src);
  }

  lemma CopyKeeps(s: Sys, dst: Loc, src: Loc)
    requires Inv(s) && dst != src && !dst.Thr?
    requires src.Thr? ==> src in s.know
    ensures Inv(Copy(s, dst, src))
  {
    CopyKeepsDominance(s, dst, src);
    AtIsFaithful(s, src);
    GrowthKeepsHistory(s, Copy(s, dst, src));
  }

  lemma DropKeepsDominance(s: Sys, l: Loc)
    requires Shape(s) && Dominance(s) && HistoryDominance(s)
    ensures Shape(Drop(s, l)) && Dominance(Drop(s, l)) && HistoryDominance(Drop(s, l))
  {
    assert forall t :: Thr(t) in Drop(s, l).know ==> Own(Drop(s, l), t) == Own(s, t);
  }

  lemma DropKeeps(s: Sys, l: Loc)
    requires Inv(s)
    ensures Inv(Drop(s, l))
  {
    DropKeepsDominance(s, l);
  }

  lemma TickKeeps(s: Sys, t: Tid)
    requires Inv(s) && Live(s, t)
    ensures Inv(Tick(s, t))
    ensures t !in Tick(s, t).open
  {
    var s1, k := Tick(s, t), s.know[Thr(t)];
    forall i | 0 <= i < |s.hist| && s.hist[i].t == t ensures Knows(k, s.hist[i]) {
      assert Leq(s.hist[i].vc, k.vc);
    }
    TickIsFaithful(k, t, s.hist);
    assert AllFaithful(s1);
    TickKeepsDominance(s, t);
    assert Leq(k.vc, Ticked(k.vc, t));
    GrowthKeepsHistory(s, s1);
  }

  /** A fresh thread is unknown to every clock and knows nothing. */
  lemma SpawnKeepsDominance(s: Sys, t: Tid)
    requires Shape(s) && Dominance(s) && t !in s.started
    ensures Dominance(Spawn(s, t))
  {
  }

  lemma SpawnKeepsHistory(s: Sys, t: Tid)
    requires Shape(s) && Dominance(s) && HistoryDominance(s) && t !in s.started
    ensures HistoryDominance(Spawn(s, t))
  {
  }

  lemma SpawnKeeps(s: Sys, t: Tid)
    requires Inv(s) && t > 0 && t !in s.started
    ensures Inv(Spawn(s, t))
  {
    var k := Spawn(s, t).know[Thr(t)];
    forall i | 0 <= i < |s.hist| ensures !Knows(k, s.hist[i]) {
      assert s.hist[i].t in s.started;
      assert WellTimed(s.hist[i]);
    }
    assert Faithful(k, s.hist);
    SpawnKeepsDominance(s, t);
    SpawnKeepsHistory(s, t);
  }

  lemma RecordKeeps(s: Sys, t: Tid, x: Addr, write: bool)
    requires Inv(s) && Live(s, t) && t !in s.open
    ensures Inv(Record(s, t, x, write))
  {
    RecordKeepsDominance(s, t, x, write);
    RecordKeepsHistory(s, t, x, write);
    RecordKeepsFaithful(s, t, x, write);
    RecordKeepsOrder(s, t, x, write);
  }

  lemma RecordKeepsDominance(s: Sys, t: Tid, x: Addr, write: bool)
    requires Shape(s) && Dominance(s) && Live(s, t)
    ensures Shape(Record(s, t, x, write)) && Dominance(Record(s, t, x, write))
    ensures forall u :: Thr(u) in s.know ==> Own(Record(s, t, x, write), u) == Own(s, u)
  {
  }

  lemma RecordKeepsHistory(s: Sys, t: Tid, x: Addr, write: bool)
    requires Dominance(s) && HistoryDominance(s) && Live(s, t)
    ensures HistoryDominance(Record(s, t, x, write))
  {
    var a := Access(t, x, write, s.know[Thr(t)].vc);
    forall u | Thr(u) in s.know && u != t ensures Lags(a.vc, u, Own(s, u), u in s.open) {
      AtLags(s, Thr(t), u);
    }
  }

  lemma RecordKeepsFaithful(s: Sys, t: Tid, x: Addr, write: bool)
    requires Dominance(s) && AllFaithful(s) && Live(s, t) && t !in s.open
    ensures AllFaithful(Record(s, t, x, write))
  {
    var s1, k := Record(s, t, x, write), s.know[Thr(t)];
    var a := Access(t, x, write, k.vc);
    OwnAccess(k, s.hist, a);
    forall l | l in s.know && l != Thr(t) ensures Faithful(s.know[l], s1.hist) {
      assert Lags(s.know[l].vc, t, Own(s, t), false);
      UnseenAccess(s.know[l], s.hist, a);
    }
  }

  lemma RecordKeepsOrder(s: Sys, t: Tid, x: Addr, write: bool)
    requires RecordedOrder(s) && HistoryDominance(s) && AllFaithful(s) && Dominance(s)
    requires Live(s, t) && t !in s.open && t > 0
    ensures RecordedOrder(Record(s, t, x, write))
  {
  }

  // ----- The steps keep the invariant

  lemma {:induction false} JoinWaitersKeeps(s: Sys, t: Tid, c: Addr, ws: seq<Tid>)
    requires Inv(s) && Live(s, t)
    ensures Inv(JoinWaiters(s, t, c, ws)) && Live(JoinWaiters(s, t, c, ws), t)
    ensures JoinWaiters(s, t, c, ws).open == s.open
  {
    if ws != [] {
      JoinWaitersKeeps(s, t, c, ws[..|ws| - 1]);
      JoinIntoKeeps(JoinWaiters(s, t, c, ws[..|ws| - 1]), Thr(t), CondWait(c, ws[|ws| - 1]));
    }
  }

  lemma {:induction false} SignalWaitersKeeps(s: Sys, t: Tid, c: Addr, ws: seq<Tid>)
    requires Inv(s) && Live(s, t)
    ensures Inv(SignalWaiters(s, t, c, ws)) && Live(SignalWaiters(s, t, c, ws), t)
    ensures SignalWaiters(s, t, c, ws).open <= s.open + {t}
  {
    if ws != [] {
      SignalWaitersKeeps(s, t, c, ws[..|ws| - 1]);
      CopyKeeps(SignalWaiters(s, t, c, ws[..|ws| - 1]), CondSig(c, ws[|ws| - 1]), Thr(t));
    }
  }

  lemma InvIgnoresCounters(s: Sys, waiter: map<Addr, int>, refs: map<Addr, int>)
    requires Inv(s)
    ensures Inv(s.(waiter := waiter, refs := refs))
  {
    var s1 := s.(waiter := waiter, refs := refs);
    assert forall t :: Own(s1, t) == Own(s, t);
  }

  lemma StepKeepsInv(s: Sys, e: Event)
    requires Inv(s) && Enabled(s, e)
    ensures Inv(Step(s, e))
  {
    match e {
      case Start(t, parent) =>
        SpawnKeeps(s, t);
        if parent != NO_THREAD {
          JoinIntoKeeps(Spawn(s, t), Thr(t), Thr(parent));
          TickKeeps(JoinInto(Spawn(s, t), Thr(t), Thr(parent)), parent);
        }
      case Exit(t) =>
      case Join(t, child) =>
        JoinIntoKeeps(s, Thr(t), Thr(child));
        TickKeeps(JoinInto(s, Thr(t), Thr(child)), t);
        DropKeeps(Tick(JoinInto(s, Thr(t), Thr(child)), t), Thr(child));
      case Mem(t, x, write) =>
        RecordKeeps(s, t, x, write);
      case Lock(t, a) =>
        JoinIntoKeeps(s, Thr(t), Mutex(a));
      case Unlock(t, a) =>
        CopyKeeps(s, Mutex(a), Thr(t));
        TickKeeps(Copy(s, Mutex(a), Thr(t)), t);
      case RdLock(t, a) =>
        JoinIntoKeeps(s, Thr(t), RwVc(a));
        InvIgnoresCounters(JoinInto(s, Thr(t), RwVc(a)), s.waiter, Step(s, e).refs);
      case WrLock(t, a) =>
        JoinIntoKeeps(s, Thr(t), RwVc(a));
        InvIgnoresCounters(JoinInto(s, Thr(t), RwVc(a)), s.waiter, Step(s, e).refs);
      case RwUnlock(t, a) =>
        RwUnlockKeeps(s, t, a);
      case Notify(t, a) =>
        var ws := Waiters(s, a);
        JoinWaitersKeeps(s, t, a, ws);
        SignalWaitersKeeps(JoinWaiters(s, t, a, ws), t, a, ws);
        TickKeeps(SignalWaiters(JoinWaiters(s, t, a, ws), t, a, ws), t);
      case PreWait(t, a) =>
        CopyKeeps(s, CondWait(a, t), Thr(t));
        TickKeeps(Copy(s, CondWait(a, t), Thr(t)), t);
      case PostWait(t, a) =>
        JoinIntoKeeps(s, Thr(t), CondSig(a, t));
        DropKeeps(JoinInto(s, Thr(t), CondSig(a, t)), CondWait(a, t));
        DropKeeps(Drop(JoinInto(s, Thr(t), CondSig(a, t)), CondWait(a, t)), CondSig(a, t));
      case PreBarrier(t, a) =>
        JoinIntoKeeps(s, Bar(a), Thr(t));
        InvIgnoresCounters(JoinInto(s, Bar(a), Thr(t)), Step(s, e).waiter, s.refs);
      case PostBarrier(t, a) =>
        PostBarrierKeeps(s, t, a);
      case SemPost(t, a) =>
        JoinIntoKeeps(s, Sem(a), Thr(t));
        TickKeeps(JoinInto(s, Sem(a), Thr(t)), t);
      case SemWait(t, a) =>
        JoinIntoKeeps(s, Thr(t), Sem(a));
        TickKeeps(JoinInto(s, Thr(t), Sem(a)), t);
    }
  }

  lemma SessionEndKeeps(s: Sys, t: Tid, a: Addr)
    requires Inv(s) && Live(s, t)
    ensures Inv(Drop(Copy(s, RwVc(a), RwWait(a)), RwWait(a)))
    ensures Live(Drop(Copy(s, RwVc(a), RwWait(a)), RwWait(a)), t)
  {
    CopyKeeps(s, RwVc(a), RwWait(a));
    DropKeeps(Copy(s, RwVc(a), RwWait(a)), RwWait(a));
  }

  lemma GatherKeeps(s: Sys, t: Tid, a: Addr, refs: map<Addr, int>)
    requires Inv(s) && Live(s, t)
    ensures Inv(JoinInto(s, RwWait(a), Thr(t)).(refs := refs))
    ensures Live(JoinInto(s, RwWait(a), Thr(t)).(refs := refs), t)
  {
    JoinIntoKeeps(s, RwWait(a), Thr(t));
    InvIgnoresCounters(JoinInto(s, RwWait(a), Thr(t)), s.waiter, refs);
  }

  lemma RwUnlockKeeps(s: Sys, t: Tid, a: Addr)
    requires Inv(s) && Live(s, t)
    ensures Inv(RwUnlockStep(s, t, a))
  {
    var counts := s.refs[a := Count(s.refs, a) - 1];
    var s1 := JoinInto(s, RwWait(a), Thr(t)).(refs := counts);
    GatherKeeps(s, t, a, counts);
    ReleaseEnds(s, t, a, counts);
    if Count(counts, a) == 0 {
      SessionEndKeeps(s1, t, a);
      TickKeeps(Drop(Copy(s1, RwVc(a), RwWait(a)), RwWait(a)), t);
    } else {
      TickKeeps(s1, t);
    }
  }

  lemma BarrierEndKeeps(s: Sys, a: Addr, waiter: map<Addr, int>)
    requires Inv(s)
    ensures Inv(s.(waiter := waiter)) && Inv(Drop(s.(waiter := waiter), Bar(a)))
  {
    InvIgnoresCounters(s, waiter, s.refs);
    DropKeeps(s.(waiter := waiter), Bar(a));
  }

  lemma PostBarrierKeeps(s: Sys, t: Tid, a: Addr)
    requires Inv(s) && Live(s, t)
    ensures Inv(PostBarrierStep(s, t, a))
  {
    JoinIntoKeeps(s, Thr(t), Bar(a));
    TickKeeps(JoinInto(s, Thr(t), Bar(a)), t);
    BarrierEndKeeps(Tick(JoinInto(s, Thr(t), Bar(a)), t), a, s.waiter[a := Count(s.waiter, a) - 1]);
    BarrierEnds(s, t, a, s.waiter[a := Count(s.waiter, a) - 1]);
  }

  lemma {:induction false} RunKeepsInv(es: seq<Event>)
    requires WellFormed(es)
    ensures Inv(Run(es))
  {
    if es != [] {
      RunKeepsInv(es[..|es| - 1]);
      StepKeepsInv(Run(es[..|es| - 1]), es[|es| - 1]);
    }
  }

  // ----- Threads only learn

  /** `a` adds nothing to `b`. */
  ghost predicate Below(a: Know, b: Know) {
    Leq(a.vc, b.vc) && a.past <= b.past
  }

  lemma JoinGrows(s: Sys, dst: Loc, src: Loc)
    ensures Below(At(s, dst), At(JoinInto(s, dst, src), dst))
  {
  }

  lemma {:induction false} JoinWaitersGrows(s: Sys, t: Tid, c: Addr, ws: seq<Tid>)
    ensures Below(At(s, Thr(t)), At(JoinWaiters(s, t, c, ws), Thr(t)))
    ensures forall l :: l != Thr(t) ==> At(JoinWaiters(s, t, c, ws), l) == At(s, l)
  {
    if ws != [] {
      var s1 := JoinWaiters(s, t, c, ws[..|ws| - 1]);
      JoinWaitersGrows(s, t, c, ws[..|ws| - 1]);
      JoinGrows(s1, Thr(t), CondWait(c, ws[|ws| - 1]));
      LeqTransitive(At(s, Thr(t)).vc, At(s1, Thr(t)).vc, At(JoinWaiters(s, t, c, ws), Thr(t)).vc);
    }
  }

  lemma {:induction false} SignalWaitersKeepsThreads(s: Sys, t: Tid, c: Addr, ws: seq<Tid>)
    ensures forall l: Loc :: !l.CondSig? ==> At(SignalWaiters(s, t, c, ws), l) == At(s, l)
  {
    if ws != [] {
      SignalWaitersKeepsThreads(s, t, c, ws[..|ws| - 1]);
    }
  }

  lemma BelowTransitive(a: Know, b: Know, c: Know)
    requires Below(a, b) && Below(b, c)
    ensures Below(a, c)
  {
  }

  lemma TickGrows(s: Sys, t: Tid, l: Loc)
    ensures Below(At(s, l), At(Tick(s, t), l))
  {
  }

  lemma AcquireGrows(s: Sys, u: Tid, src: Loc, t: Tid)
    ensures Below(At(s, Thr(t)), At(JoinInto(s, Thr(u), src), Thr(t)))
  {
  }

  lemma AcquireAndTickGrows(s: Sys, u: Tid, src: Loc, t: Tid)
    ensures Below(At(s, Thr(t)), At(Tick(JoinInto(s, Thr(u), src), u), Thr(t)))
  {
  }

  /** A release changes no thread's clock except by the tick. */
  lemma ReleaseGrows(s: Sys, s1: Sys, u: Tid, t: Tid)
    requires At(s1, Thr(t)) == At(s, Thr(t))
    ensures Below(At(s, Thr(t)), At(Tick(s1, u), Thr(t)))
  {
  }

  lemma StartGrows(s: Sys, u: Tid, parent: Tid, t: Tid)
    requires u != t
    ensures Below(At(s, Thr(t)), At(StartStep(s, u, parent), Thr(t)))
  {
  }

  lemma NotifyGrows(s: Sys, u: Tid, a: Addr, t: Tid)
    ensures Below(At(s, Thr(t)), At(NotifyStep(s, u, a), Thr(t)))
  {
    var ws := Waiters(s, a);
    var s1 := JoinWaiters(s, u, a, ws);
    var s2 := SignalWaiters(s1, u, a, ws);
    JoinWaitersGrows(s, u, a, ws);
    SignalWaitersKeepsThreads(s1, u, a, ws);
    ReleaseGrows(s1, s2, u, t);
    BelowTransitive(At(s, Thr(t)), At(s1, Thr(t)), At(Tick(s2, u), Thr(t)));
  }

  lemma RwUnlockGrows(s: Sys, u: Tid, a: Addr, t: Tid)
    ensures Below(At(s, Thr(t)), At(RwUnlockStep(s, u, a), Thr(t)))
  {
  }

  lemma DropKeepsOthers(s: Sys, dropped: Loc, l: Loc)
    requires dropped != l
    ensures At(Drop(s, dropped), l) == At(s, l)
  {
  }

  /** What a surviving thread knows it goes on knowing. */
  lemma StepGrowsThreads(s: Sys, e: Event, t: Tid)
    requires Enabled(s, e) && Shape(s) && Live(s, t) && Live(Step(s, e), t)
    ensures Below(At(s, Thr(t)), At(Step(s, e), Thr(t)))
  {
    match e {
      case Start(u, parent) => StartGrows(s, u, parent, t);
      case Exit(u) =>
      case Join(u, child) =>
        AcquireAndTickGrows(s, u, Thr(child), t);
        DropKeepsOthers(Tick(JoinInto(s, Thr(u), Thr(child)), u), Thr(child), Thr(t));
      case Mem(u, x, write) =>
      case Lock(u, a) => AcquireGrows(s, u, Mutex(a), t);
      case Unlock(u, a) => ReleaseGrows(s, Copy(s, Mutex(a), Thr(u)), u, t);
      case RdLock(u, a) => AcquireGrows(s, u, RwVc(a), t);
      case WrLock(u, a) => AcquireGrows(s, u, RwVc(a), t);
      case RwUnlock(u, a) => RwUnlockGrows(s, u, a, t);
      case Notify(u, a) => NotifyGrows(s, u, a, t);
      case PreWait(u, a) => ReleaseGrows(s, Copy(s, CondWait(a, u), Thr(u)), u, t);
      case PostWait(u, a) => AcquireGrows(s, u, CondSig(a, u), t);
      case PreBarrier(u, a) =>
      case PostBarrier(u, a) => AcquireAndTickGrows(s, u, Bar(a), t);
      case SemPost(u, a) => ReleaseGrows(s, JoinInto(s, Sem(a), Thr(u)), u, t);
      case SemWait(u, a) => AcquireAndTickGrows(s, u, Sem(a), t);
    }
  }

  lemma {:induction false} WaitersOnlyRead(s: Sys, t: Tid, c: Addr, ws: seq<Tid>, u: Tid)
    requires Live(s, t)
    ensures JoinWaiters(s, t, c, ws).started == SignalWaiters(s, t, c, ws).started == s.started
    ensures Live(JoinWaiters(s, t, c, ws), u) <==> Live(s, u)
    ensures Live(SignalWaiters(s, t, c, ws), u) <==> Live(s, u)
  {
    if ws != [] {
      WaitersOnlyRead(s, t, c, ws[..|ws| - 1], u);
    }
  }

  /** Threads come to life only by starting, and only then count as started. */
  lemma StepStarts(s: Sys, e: Event, u: Tid)
    requires Enabled(s, e)
    ensures u in Step(s, e).started <==> u in s.started || e == Start(u, if e.Start? then e.parent else 0)
    ensures Live(Step(s, e), u) ==> Live(s, u) || (e.Start? && e.t == u)
  {
    if e.Notify? {
      var ws := Waiters(s, e.a);
      WaitersOnlyRead(s, e.t, e.a, ws, u);
      WaitersOnlyRead(s, e.t, e.a, ws, e.t);
      WaitersOnlyRead(JoinWaiters(s, e.t, e.a, ws), e.t, e.a, ws, u);
    }
  }

  lemma NotYetKnown(es: seq<Event>, t: Tid)
    requires WellFormed(es) && t !in Run(es).started
    ensures Thr(t) !in Run(es).know
  {
    RunKeepsInv(es);
  }
}
