/**
  The base detector as an object: tables of vector clock objects that its event handlers update in
  place. Every handler performs one step of the clock machine; `run` records the events handled.
 */
module Detectors {
  import opened Clocks
  import opened VectorClocks
  import opened Machine
  import opened MachineProofs

  // ----- When a table of clocks shows a state of the machine

  function ClockIn(view: map<Loc, Clock>, l: Loc): Clock {
    if l in view then view[l] else map[]
  }

  /** Entries whose presence in their table matters; the others are created empty when first used. */
  predicate Tracked(l: Loc) {
    l.Thr? || l.CondWait? || l.CondSig?
  }

  ghost predicate Shows(view: map<Loc, Clock>, s: Sys) {
    forall l :: ClockIn(view, l) == At(s, l).vc && (Tracked(l) ==> (l in view <==> l in s.know))
  }

  lemma ShowsJoin(view: map<Loc, Clock>, s: Sys, dst: Loc, src: Loc)
    requires Shows(view, s)
    ensures Shows(view[dst := Joined(ClockIn(view, dst), ClockIn(view, src))], JoinInto(s, dst, src))
  {
  }

  lemma ShowsCopy(view: map<Loc, Clock>, s: Sys, dst: Loc, src: Loc)
    requires Shows(view, s)
    ensures Shows(view[dst := ClockIn(view, src)], Copy(s, dst, src))
  {
  }

  lemma ShowsTick(view: map<Loc, Clock>, s: Sys, t: Tid)
    requires Shows(view, s)
    ensures Shows(view[Thr(t) := Ticked(ClockIn(view, Thr(t)), t)], Tick(s, t))
  {
  }

  lemma ShowsDrop(view: map<Loc, Clock>, s: Sys, l: Loc)
    requires Shows(view, s)
    ensures Shows(view - {l}, Drop(s, l))
  {
  }

  /** Clearing an embedded clock is as good as removing it. */
  lemma ShowsClear(view: map<Loc, Clock>, s: Sys, l: Loc)
    requires Shows(view, s) && !Tracked(l)
    ensures Shows(view[l := map[]], Drop(s, l))
  {
  }

  lemma ShowsSpawn(view: map<Loc, Clock>, s: Sys, t: Tid)
    requires Shows(view, s)
    ensures Shows(view[Thr(t) := Ticked(map[], t)], Spawn(s, t))
  {
  }

  lemma ShowsWaiter(view: map<Loc, Clock>, s: Sys, waiter: map<Addr, int>)
    requires Shows(view, s)
    ensures Shows(view, s.(waiter := waiter))
  {
  }

  lemma ShowsRefs(view: map<Loc, Clock>, s: Sys, refs: map<Addr, int>)
    requires Shows(view, s)
    ensures Shows(view, s.(refs := refs))
  {
  }

  lemma ShowsRecord(view: map<Loc, Clock>, s: Sys, t: Tid, x: Addr, write: bool)
    requires Shows(view, s) && Live(s, t)
    ensures Shows(view, Record(s, t, x, write))
  {
  }

  lemma ShowsCreated(view: map<Loc, Clock>, s: Sys, l: Loc)
    requires Shows(view, s) && l !in view && !Tracked(l)
    ensures Shows(view[l := map[]], s)
  {
  }

  lemma ShowsLive(view: map<Loc, Clock>, s: Sys, t: Tid)
    requires Shows(view, s) && Live(s, t)
    ensures Thr(t) in view
  {
  }

  lemma StartIsNew(es: seq<Event>, t: Tid, parent: Tid)
    requires WellFormed(es) && Enabled(Run(es), Start(t, parent))
    ensures t != parent
  {
    RunKeepsInv(es);
  }

  /** A new thread's clock enters the table last, after its parent's has moved on. */
  function AfterStart(view: map<Loc, Clock>, t: Tid, parent: Tid): map<Loc, Clock> {
    var c, p := Ticked(map[], t), ClockIn(view, Thr(parent));
    if parent == NO_THREAD then view[Thr(t) := c]
    else view[Thr(parent) := Ticked(p, parent)][Thr(t) := Joined(c, p)]
  }

  lemma ForkOrder(view: map<Loc, Clock>, t: Tid, parent: Tid, c: Clock, c1: Clock, p: Clock)
    requires t != parent
    ensures view[Thr(t) := c][Thr(t) := c1][Thr(parent) := p] == view[Thr(parent) := p][Thr(t) := c1]
  {
  }

  lemma ShowsFork(view: map<Loc, Clock>, s: Sys, t: Tid, parent: Tid)
    requires Shows(view, s) && t != parent
    ensures var c, p := Ticked(map[], t), ClockIn(view, Thr(parent));
            Shows(view[Thr(parent) := Ticked(p, parent)][Thr(t) := Joined(c, p)],
                  Tick(JoinInto(Spawn(s, t), Thr(t), Thr(parent)), parent))
  {
    var c, p := Ticked(map[], t), ClockIn(view, Thr(parent));
    ShowsSpawn(view, s, t);
    ShowsJoin(view[Thr(t) := c], Spawn(s, t), Thr(t), Thr(parent));
    ShowsTick(view[Thr(t) := c][Thr(t) := Joined(c, p)], JoinInto(Spawn(s, t), Thr(t), Thr(parent)), parent);
    ForkOrder(view, t, parent, c, Joined(c, p), Ticked(p, parent));
  }

  lemma ShowsStart(view: map<Loc, Clock>, s: Sys, t: Tid, parent: Tid)
    requires Shows(view, s) && t != parent
    ensures Shows(AfterStart(view, t, parent), StartStep(s, t, parent))
  {
    if parent == NO_THREAD {
      ShowsSpawn(view, s, t);
    } else {
      ShowsFork(view, s, t, parent);
    }
  }

  /** Joining a clock that was never signalled is no change. */
  lemma ShowsJoinNothing(view: map<Loc, Clock>, s: Sys, dst: Loc, src: Loc)
    requires Shows(view, s) && dst in view && src !in view
    ensures Shows(view, JoinInto(s, dst, src))
  {
  }

  function WaitersIn(keys: set<Loc>, c: Addr): set<Tid> {
    set l | l in keys && l.CondWait? && l.a == c :: l.t
  }

  lemma SameWaiters(view: map<Loc, Clock>, s: Sys, c: Addr)
    requires Shows(view, s)
    ensures var ws := Waiters(s, c);
            && Ascending(ws) && |ws| == |WaitersIn(view.Keys, c)|
            && forall t :: t in ws <==> t in WaitersIn(view.Keys, c)
  {
    var p, q := WaitersIn(view.Keys, c), set l | l in s.know && l.CondWait? && l.a == c :: l.t;
    forall t ensures t in p <==> t in q {
      assert t in p <==> CondWait(c, t) in view;
      assert t in q <==> CondWait(c, t) in s.know;
      assert ClockIn(view, CondWait(c, t)) == At(s, CondWait(c, t)).vc;
    }
    assert p == q;
  }

  lemma {:induction false} CountersKept(s: Sys, t: Tid, c: Addr, ws: seq<Tid>)
    ensures JoinWaiters(s, t, c, ws).waiter == SignalWaiters(s, t, c, ws).waiter == s.waiter
    ensures JoinWaiters(s, t, c, ws).refs == SignalWaiters(s, t, c, ws).refs == s.refs
  {
    if ws != [] {
      CountersKept(s, t, c, ws[..|ws| - 1]);
    }
  }

  lemma NotifyKeepsCounters(s: Sys, t: Tid, c: Addr)
    ensures NotifyStep(s, t, c).waiter == s.waiter && NotifyStep(s, t, c).refs == s.refs
  {
    var ws := Waiters(s, c);
    CountersKept(s, t, c, ws);
    CountersKept(JoinWaiters(s, t, c, ws), t, c, ws);
  }

  /** The source erases the wait entry before the join, the machine after it. */
  lemma EraseEarlier(s: Sys, t: Tid, c: Addr)
    ensures Drop(JoinInto(Drop(s, CondWait(c, t)), Thr(t), CondSig(c, t)), CondSig(c, t)) == PostWaitStep(s, t, c)
  {
    var s1 := Drop(s, CondWait(c, t));
    assert At(s1, Thr(t)) == At(s, Thr(t)) && At(s1, CondSig(c, t)) == At(s, CondSig(c, t));
    assert JoinInto(s1, Thr(t), CondSig(c, t)).know == JoinInto(s, Thr(t), CondSig(c, t)).know - {CondWait(c, t)};
  }

  class Detector {
    var clocks: map<Loc, VectorClock>
    var waiter: map<Addr, int>
    var refs: map<Addr, int>
    ghost var run: seq<Event>

    ghost function View(): map<Loc, Clock>
      reads this`clocks, clocks.Values
    {
      map l | l in clocks :: clocks[l].clocks
    }

    /** No two entries share a clock object. */
    ghost predicate Separate()
      reads this`clocks
    {
      forall l, m :: l in clocks && m in clocks && l != m ==> clocks[l] != clocks[m]
    }

    /** The tables and counters are those of machine state `s`. */
    ghost predicate In(s: Sys)
      reads this`clocks, this`waiter, this`refs, clocks.Values
    {
      Separate() && Shows(View(), s) && waiter == s.waiter && refs == s.refs
    }

    ghost predicate Valid()
      reads this, clocks.Values
    {
      WellFormed(run) && In(Run(run))
    }

    method SetWaiter(counts: map<Addr, int>, ghost s: Sys)
      requires Separate() && Shows(View(), s) && s.waiter == counts && s.refs == refs
      modifies this`waiter
      ensures In(s)
    {
      waiter := counts;
    }

    method SetRefs(counts: map<Addr, int>, ghost s: Sys)
      requires Separate() && Shows(View(), s) && s.refs == counts && s.waiter == waiter
      modifies this`refs
      ensures In(s)
    {
      refs := counts;
    }

    /** Every clock object in the tables was there before or is new. */
    twostate predicate Grown(before: set<VectorClock>)
      reads this`clocks
    {
      forall c :: c in clocks.Values ==> c in before || fresh(c)
    }

    /** Closes the handling of event `e`, whose effect the tables already show. */
    ghost method Done(e: Event)
      requires WellFormed(run) && Enabled(Run(run), e) && In(Step(Run(run), e))
      modifies this`run
      ensures Valid() && run == old(run) + [e]
    {
      RunSnoc(run, e);
      run := run + [e];
    }

    constructor ()
      ensures Valid() && run == [] && clocks == map[]
    {
      clocks, waiter, refs := map[], map[], map[];
      run := [];
    }

    // ----- Operations on the tables, each a primitive of the machine

    /** Finds the clock at `l`, creating an empty one at first use. */
    method GetMeta(l: Loc, ghost s: Sys)
      requires Separate() && Shows(View(), s) && !Tracked(l)
      modifies this`clocks
      ensures Separate() && Shows(View(), s)
      ensures clocks.Keys == old(clocks).Keys + {l} && Grown(old(clocks.Values))
    {
      if l !in clocks {
        ghost var view := View();
        var vc := new VectorClock();
        clocks := clocks[l := vc];
        assert View() == view[l := map[]];
        ShowsCreated(view, s, l);
      }
    }

    method JoinClock(dst: Loc, src: Loc, ghost s: Sys)
      requires Separate() && Shows(View(), s) && dst in clocks && src in clocks
      modifies clocks[dst]
      ensures Shows(View(), JoinInto(s, dst, src))
    {
      ghost var view := View();
      clocks[dst].Join(clocks[src]);
      assert View() == view[dst := Joined(ClockIn(view, dst), ClockIn(view, src))];
      ShowsJoin(view, s, dst, src);
    }

    method JoinInMeta(dst: Loc, src: Loc, ghost s: Sys)
      requires Separate() && Shows(View(), s) && src in clocks && !Tracked(dst)
      modifies this`clocks, clocks.Values
      ensures Separate() && Shows(View(), JoinInto(s, dst, src)) && Grown(old(clocks.Values))
      ensures clocks.Keys == old(clocks).Keys + {dst}
    {
      GetMeta(dst, s);
      JoinClock(dst, src, s);
    }

    method JoinFromMeta(dst: Loc, src: Loc, ghost s: Sys)
      requires Separate() && Shows(View(), s) && dst in clocks && !Tracked(src)
      modifies this`clocks, clocks.Values
      ensures Separate() && Shows(View(), JoinInto(s, dst, src)) && Grown(old(clocks.Values))
      ensures clocks.Keys == old(clocks).Keys + {src}
    {
      GetMeta(src, s);
      JoinClock(dst, src, s);
    }

    /** Copies one clock over another, which is created if it does not exist. */
    method StoreClock(dst: Loc, src: Loc, ghost s: Sys)
      requires Separate() && Shows(View(), s) && src in clocks
      modifies this`clocks, clocks.Values
      ensures Separate() && Shows(View(), Copy(s, dst, src))
      ensures clocks.Keys == old(clocks).Keys + {dst} && Grown(old(clocks.Values))
    {
      ghost var view := View();
      if dst !in clocks {
        var vc := new VectorClock();
        clocks := clocks[dst := vc];
      }
      clocks[dst].Assign(clocks[src]);
      assert View() == view[dst := ClockIn(view, src)];
      ShowsCopy(view, s, dst, src);
    }

    method IncrementClock(t: Tid, ghost s: Sys)
      requires Separate() && Shows(View(), s) && Thr(t) in clocks
      modifies clocks[Thr(t)]
      ensures Shows(View(), Tick(s, t))
    {
      ghost var view := View();
      clocks[Thr(t)].Increment(t);
      assert View() == view[Thr(t) := Ticked(ClockIn(view, Thr(t)), t)];
      ShowsTick(view, s, t);
    }

    method ClearClock(l: Loc, ghost s: Sys)
      requires Separate() && Shows(View(), s) && l in clocks && !Tracked(l)
      modifies clocks[l]
      ensures Shows(View(), Drop(s, l))
    {
      ghost var view := View();
      clocks[l].Clear();
      assert View() == view[l := map[]];
      ShowsClear(view, s, l);
    }

    method EraseClock(l: Loc, ghost s: Sys)
      requires Separate() && Shows(View(), s)
      modifies this`clocks
      ensures Separate() && Shows(View(), Drop(s, l))
      ensures clocks == old(clocks) - {l} && Grown(old(clocks.Values))
    {
      ghost var view := View();
      clocks := clocks - {l};
      assert View() == view - {l};
      ShowsDrop(view, s, l);
    }

    /** The clock of a new thread, which knows what its parent knows; the parent enters a new frame. */
    method InitialClock(t: Tid, parent: Tid) returns (vc: VectorClock)
      requires Separate() && (parent != NO_THREAD ==> Thr(parent) in clocks)
      modifies if parent == NO_THREAD then {} else {clocks[Thr(parent)]}
      ensures fresh(vc)
      ensures View()[Thr(t) := vc.clocks] == AfterStart(old(View()), t, parent)
    {
      ghost var view := View();
      vc := new VectorClock();
      vc.Increment(t);
      if parent != NO_THREAD {
        var parentVc := clocks[Thr(parent)];
        vc.Join(parentVc);
        parentVc.Increment(parent);
        assert View() == view[Thr(parent) := Ticked(view[Thr(parent)], parent)];
      }
    }

    method AddThread(t: Tid, vc: VectorClock)
      requires Separate() && vc !in clocks.Values
      modifies this`clocks
      ensures Separate() && clocks == old(clocks)[Thr(t) := vc]
      ensures View() == old(View())[Thr(t) := vc.clocks]
    {
      clocks := clocks[Thr(t) := vc];
    }

    method StartClock(t: Tid, parent: Tid, ghost s: Sys)
      requires Separate() && Shows(View(), s) && t != parent
      requires parent != NO_THREAD ==> Thr(parent) in clocks
      modifies this`clocks, clocks.Values
      ensures Separate() && Shows(View(), StartStep(s, t, parent)) && Grown(old(clocks.Values))
    {
      ShowsStart(View(), s, t, parent);
      var vc := InitialClock(t, parent);
      AddThread(t, vc);
    }

    method JoinAndTick(t: Tid, src: Loc, ghost s: Sys)
      requires Separate() && Shows(View(), s) && Thr(t) in clocks && !Tracked(src)
      modifies this`clocks, clocks.Values
      ensures Separate() && Shows(View(), Tick(JoinInto(s, Thr(t), src), t)) && Grown(old(clocks.Values))
      ensures src in clocks
    {
      JoinFromMeta(Thr(t), src, s);
      IncrementClock(t, JoinInto(s, Thr(t), src));
    }

    method PublishAndTick(t: Tid, dst: Loc, ghost s: Sys)
      requires Separate() && Shows(View(), s) && Thr(t) in clocks && !Tracked(dst)
      modifies this`clocks, clocks.Values
      ensures Separate() && Shows(View(), Tick(JoinInto(s, dst, Thr(t)), t)) && Grown(old(clocks.Values))
    {
      JoinInMeta(dst, Thr(t), s);
      IncrementClock(t, JoinInto(s, dst, Thr(t)));
    }

    method StoreAndTick(t: Tid, dst: Loc, ghost s: Sys)
      requires Separate() && Shows(View(), s) && Thr(t) in clocks && dst != Thr(t)
      modifies this`clocks, clocks.Values
      ensures Separate() && Shows(View(), Tick(Copy(s, dst, Thr(t)), t)) && Grown(old(clocks.Values))
    {
      StoreClock(dst, Thr(t), s);
      IncrementClock(t, Copy(s, dst, Thr(t)));
    }

    // ----- The event handlers; `s` is the machine state before the event

    method ThreadStart(t: Tid, parent: Tid, ghost s: Sys)
      requires In(s) && Enabled(s, Start(t, parent)) && t != parent
      modifies this`clocks, this`waiter, this`refs, clocks.Values
      ensures In(Step(s, Start(t, parent))) && Grown(old(clocks.Values))
    {
      if parent != NO_THREAD {
        ShowsLive(View(), s, parent);
      }
      StartClock(t, parent, s);
    }

    method AfterPthreadJoin(t: Tid, child: Tid, ghost s: Sys)
      requires In(s) && Enabled(s, Join(t, child))
      modifies this`clocks, this`waiter, this`refs, clocks.Values
      ensures In(Step(s, Join(t, child))) && Grown(old(clocks.Values))
    {
      ShowsLive(View(), s, t);
      ShowsLive(View(), s, child);
      TakeOver(t, child, s);
    }

    method TakeOver(t: Tid, child: Tid, ghost s: Sys)
      requires Separate() && Shows(View(), s) && Thr(t) in clocks && Thr(child) in clocks
      modifies this`clocks, clocks.Values
      ensures Separate() && Shows(View(), JoinStep(s, t, child)) && Grown(old(clocks.Values))
    {
      JoinClock(Thr(t), Thr(child), s);
      IncrementClock(t, JoinInto(s, Thr(t), Thr(child)));
      EraseClock(Thr(child), Tick(JoinInto(s, Thr(t), Thr(child)), t));
    }

    method ProcessLock(t: Tid, a: Addr, ghost s: Sys)
      requires In(s) && Enabled(s, Lock(t, a))
      modifies this`clocks, this`waiter, this`refs, clocks.Values
      ensures In(Step(s, Lock(t, a))) && Grown(old(clocks.Values))
    {
      ShowsLive(View(), s, t);
      JoinFromMeta(Thr(t), Mutex(a), s);
    }

    method ProcessUnlock(t: Tid, a: Addr, ghost s: Sys)
      requires In(s) && Enabled(s, Unlock(t, a))
      modifies this`clocks, this`waiter, this`refs, clocks.Values
      ensures In(Step(s, Unlock(t, a))) && Grown(old(clocks.Values))
    {
      ShowsLive(View(), s, t);
      StoreAndTick(t, Mutex(a), s);
    }

    /** The waiters of condition `c`, in the order in which its wait table is visited. */
    method WaitTable(c: Addr, ghost s: Sys) returns (ws: seq<Tid>)
      requires Shows(View(), s)
      ensures ws == Waiters(s, c)
      ensures forall i :: 0 <= i < |ws| ==> CondWait(c, ws[i]) in clocks
    {
      assert WaitersIn(clocks.Keys, c) == WaitersIn(View().Keys, c);
      SameWaiters(View(), s, c);
      ws := InOrder(WaitersIn(clocks.Keys, c));
      SortedIsUnique(ws, Waiters(s, c));
      forall i | 0 <= i < |ws| ensures CondWait(c, ws[i]) in clocks {
        assert ws[i] in ws;
      }
    }

    method JoinWaitTable(t: Tid, c: Addr, ws: seq<Tid>, ghost s: Sys)
      requires Separate() && Shows(View(), s) && Thr(t) in clocks
      requires forall i :: 0 <= i < |ws| ==> CondWait(c, ws[i]) in clocks
      modifies clocks[Thr(t)]
      ensures Shows(View(), JoinWaiters(s, t, c, ws))
    {
      for i := 0 to |ws|
        invariant Shows(View(), JoinWaiters(s, t, c, ws[..i]))
      {
        JoinClock(Thr(t), CondWait(c, ws[i]), JoinWaiters(s, t, c, ws[..i]));
        assert ws[..i + 1][..i] == ws[..i];
      }
      assert ws[..|ws|] == ws;
    }

    method SignalNext(t: Tid, c: Addr, ws: seq<Tid>, i: nat, ghost s: Sys)
      requires i < |ws| && Separate() && Shows(View(), SignalWaiters(s, t, c, ws[..i])) && Thr(t) in clocks
      modifies this`clocks, clocks.Values
      ensures Separate() && Shows(View(), SignalWaiters(s, t, c, ws[..i + 1]))
      ensures Thr(t) in clocks && Grown(old(clocks.Values))
    {
      StoreClock(CondSig(c, ws[i]), Thr(t), SignalWaiters(s, t, c, ws[..i]));
      assert ws[..i + 1][..i] == ws[..i];
    }

    method UpdateSignalTable(t: Tid, c: Addr, ws: seq<Tid>, ghost s: Sys)
      requires Separate() && Shows(View(), s) && Thr(t) in clocks
      modifies this`clocks, clocks.Values
      ensures Separate() && Shows(View(), SignalWaiters(s, t, c, ws))
      ensures Thr(t) in clocks && Grown(old(clocks.Values))
    {
      ghost var before := clocks.Values;
      for i := 0 to |ws|
        invariant Separate() && Shows(View(), SignalWaiters(s, t, c, ws[..i]))
        invariant Thr(t) in clocks && Grown(before)
      {
        SignalNext(t, c, ws, i, s);
      }
      assert ws[..|ws|] == ws;
    }

    method NotifyAll(t: Tid, c: Addr, ws: seq<Tid>, ghost s: Sys)
      requires Separate() && Shows(View(), s) && Thr(t) in clocks
      requires forall i :: 0 <= i < |ws| ==> CondWait(c, ws[i]) in clocks
      modifies this`clocks, clocks.Values
      ensures Separate() && Grown(old(clocks.Values))
      ensures Shows(View(), Tick(SignalWaiters(JoinWaiters(s, t, c, ws), t, c, ws), t))
    {
      JoinWaitTable(t, c, ws, s);
      UpdateSignalTable(t, c, ws, JoinWaiters(s, t, c, ws));
      IncrementClock(t, SignalWaiters(JoinWaiters(s, t, c, ws), t, c, ws));
    }

    method NotifyWaiters(t: Tid, c: Addr, ghost s: Sys)
      requires Separate() && Shows(View(), s) && Thr(t) in clocks
      modifies this`clocks, clocks.Values
      ensures Separate() && Shows(View(), NotifyStep(s, t, c)) && Grown(old(clocks.Values))
    {
      var ws := WaitTable(c, s);
      NotifyAll(t, c, ws, s);
    }

    method ProcessNotify(t: Tid, c: Addr, ghost s: Sys)
      requires In(s) && Enabled(s, Notify(t, c))
      modifies this`clocks, this`waiter, this`refs, clocks.Values
      ensures In(Step(s, Notify(t, c))) && Grown(old(clocks.Values))
    {
      ShowsLive(View(), s, t);
      NotifyKeepsCounters(s, t, c);
      NotifyWaiters(t, c, s);
    }

    method ProcessPreWait(t: Tid, c: Addr, ghost s: Sys)
      requires In(s) && Enabled(s, PreWait(t, c))
      modifies this`clocks, this`waiter, this`refs, clocks.Values
      ensures In(Step(s, PreWait(t, c))) && Grown(old(clocks.Values))
    {
      ShowsLive(View(), s, t);
      StoreAndTick(t, CondWait(c, t), s);
    }

    /** Joins the clock signalled to `t`, if there is one, and erases it. */
    method JoinSignal(t: Tid, c: Addr, ghost s: Sys)
      requires Separate() && Shows(View(), s) && Thr(t) in clocks
      modifies this`clocks, clocks[Thr(t)]
      ensures Separate() && Shows(View(), Drop(JoinInto(s, Thr(t), CondSig(c, t)), CondSig(c, t)))
      ensures Grown(old(clocks.Values))
    {
      if CondSig(c, t) in clocks {
        JoinClock(Thr(t), CondSig(c, t), s);
        EraseClock(CondSig(c, t), JoinInto(s, Thr(t), CondSig(c, t)));
      } else {
        ShowsJoinNothing(View(), s, Thr(t), CondSig(c, t));
        ShowsDrop(View(), JoinInto(s, Thr(t), CondSig(c, t)), CondSig(c, t));
        assert View() - {CondSig(c, t)} == View();
      }
    }

    method TakeSignal(t: Tid, c: Addr, ghost s: Sys)
      requires Separate() && Shows(View(), s) && Thr(t) in clocks
      modifies this`clocks, clocks[Thr(t)]
      ensures Separate() && Shows(View(), PostWaitStep(s, t, c)) && Grown(old(clocks.Values))
    {
      EraseEarlier(s, t, c);
      EraseClock(CondWait(c, t), s);
      JoinSignal(t, c, Drop(s, CondWait(c, t)));
    }

    method ProcessPostWait(t: Tid, c: Addr, ghost s: Sys)
      requires In(s) && Enabled(s, PostWait(t, c))
      modifies this`clocks, this`waiter, this`refs, clocks.Values
      ensures In(Step(s, PostWait(t, c))) && Grown(old(clocks.Values))
    {
      ShowsLive(View(), s, t);
      TakeSignal(t, c, s);
    }

    method EnterBarrier(t: Tid, b: Addr, ghost s: Sys, ghost counts: map<Addr, int>)
      requires Separate() && Shows(View(), s) && Thr(t) in clocks
      modifies this`clocks, clocks.Values
      ensures Separate() && Shows(View(), JoinInto(s, Bar(b), Thr(t)).(waiter := counts)) && Grown(old(clocks.Values))
    {
      JoinInMeta(Bar(b), Thr(t), s);
      ShowsWaiter(View(), JoinInto(s, Bar(b), Thr(t)), counts);
    }

    method ProcessPreBarrier(t: Tid, b: Addr, ghost s: Sys)
      requires In(s) && Enabled(s, PreBarrier(t, b))
      modifies this`clocks, this`waiter, this`refs, clocks.Values
      ensures In(Step(s, PreBarrier(t, b))) && Grown(old(clocks.Values))
    {
      var counts := waiter[b := Count(waiter, b) + 1];
      ShowsLive(View(), s, t);
      BarrierBegins(s, t, b, counts);
      EnterBarrier(t, b, s, counts);
      waiter := counts;
    }

    /** The last thread to leave clears the barrier's clock. */
    method LeaveBarrier(t: Tid, b: Addr, last: bool, ghost s: Sys, ghost counts: map<Addr, int>)
      requires Separate() && Shows(View(), s) && Thr(t) in clocks
      modifies this`clocks, clocks.Values
      ensures Separate() && Grown(old(clocks.Values))
      ensures var s1 := Tick(JoinInto(s, Thr(t), Bar(b)), t).(waiter := counts);
              Shows(View(), if last then Drop(s1, Bar(b)) else s1)
    {
      ghost var s1 := Tick(JoinInto(s, Thr(t), Bar(b)), t);
      JoinAndTick(t, Bar(b), s);
      ShowsWaiter(View(), s1, counts);
      if last {
        ClearClock(Bar(b), s1.(waiter := counts));
      }
    }

    method FinishBarrier(t: Tid, b: Addr, counts: map<Addr, int>, ghost s: Sys)
      requires Separate() && Shows(View(), s) && Thr(t) in clocks && counts == s.waiter[b := Count(s.waiter, b) - 1]
      modifies this`clocks, clocks.Values
      ensures Separate() && Shows(View(), PostBarrierStep(s, t, b)) && Grown(old(clocks.Values))
    {
      BarrierEnds(s, t, b, counts);
      LeaveBarrier(t, b, Count(counts, b) == 0, s, counts);
    }

    method ProcessPostBarrier(t: Tid, b: Addr, ghost s: Sys)
      requires In(s) && Enabled(s, PostBarrier(t, b))
      modifies this`clocks, this`waiter, this`refs, clocks.Values
      ensures In(Step(s, PostBarrier(t, b))) && Grown(old(clocks.Values))
    {
      var counts := waiter[b := Count(waiter, b) - 1];
      ShowsLive(View(), s, t);
      FinishBarrier(t, b, counts, s);
      BarrierEnds(s, t, b, counts);
      SetWaiter(counts, PostBarrierStep(s, t, b));
    }

    method ProcessBeforeSemPost(t: Tid, a: Addr, ghost s: Sys)
      requires In(s) && Enabled(s, SemPost(t, a))
      modifies this`clocks, this`waiter, this`refs, clocks.Values
      ensures In(Step(s, SemPost(t, a))) && Grown(old(clocks.Values))
    {
      ShowsLive(View(), s, t);
      PublishAndTick(t, Sem(a), s);
    }

    method ProcessAfterSemWait(t: Tid, a: Addr, ghost s: Sys)
      requires In(s) && Enabled(s, SemWait(t, a))
      modifies this`clocks, this`waiter, this`refs, clocks.Values
      ensures In(Step(s, SemWait(t, a))) && Grown(old(clocks.Values))
    {
      ghost var s1 := Tick(JoinInto(s, Thr(t), Sem(a)), t);
      ShowsLive(View(), s, t);
      JoinAndTick(t, Sem(a), s);
      assert Step(s, SemWait(t, a)) == s1;
    }

    // ----- The read-write lock handlers of FastTrack

    method AcquireRwlock(t: Tid, a: Addr, ghost s: Sys, ghost counts: map<Addr, int>)
      requires Separate() && Shows(View(), s) && Thr(t) in clocks
      modifies this`clocks, clocks.Values
      ensures Separate() && Shows(View(), JoinInto(s, Thr(t), RwVc(a)).(refs := counts)) && Grown(old(clocks.Values))
    {
      JoinFromMeta(Thr(t), RwVc(a), s);
      ShowsRefs(View(), JoinInto(s, Thr(t), RwVc(a)), counts);
    }

    method AfterPthreadRwlockRdlock(t: Tid, a: Addr, ghost s: Sys)
      requires In(s) && Enabled(s, RdLock(t, a))
      modifies this`clocks, this`waiter, this`refs, clocks.Values
      ensures In(Step(s, RdLock(t, a))) && Grown(old(clocks.Values))
    {
      var counts := refs[a := Count(refs, a) + 1];
      ShowsLive(View(), s, t);
      AcquireEnds(s, t, a, counts);
      AcquireRwlock(t, a, s, counts);
      refs := counts;
    }

    /** The source asserts here that nobody holds the lock. */
    method AfterPthreadRwlockWrlock(t: Tid, a: Addr, ghost s: Sys)
      requires In(s) && Enabled(s, WrLock(t, a))
      modifies this`clocks, this`waiter, this`refs, clocks.Values
      ensures In(Step(s, WrLock(t, a))) && Grown(old(clocks.Values))
      ensures Count(old(refs), a) == 0
    {
      var counts := refs[a := Count(refs, a) + 1];
      ShowsLive(View(), s, t);
      AcquireEnds(s, t, a, counts);
      AcquireRwlock(t, a, s, counts);
      refs := counts;
    }

    method ReleaseRwlock(t: Tid, a: Addr, n: int, ghost s: Sys, ghost counts: map<Addr, int>)
      requires Separate() && Shows(View(), s) && Thr(t) in clocks
      modifies this`clocks, clocks.Values
      ensures Separate() && Grown(old(clocks.Values))
      ensures var s1 := JoinInto(s, RwWait(a), Thr(t)).(refs := counts);
              Shows(View(), Tick(if n == 0 then Drop(Copy(s1, RwVc(a), RwWait(a)), RwWait(a)) else s1, t))
    {
      JoinInMeta(RwWait(a), Thr(t), s);
      ShowsRefs(View(), JoinInto(s, RwWait(a), Thr(t)), counts);
      EndRelease(t, a, n, JoinInto(s, RwWait(a), Thr(t)).(refs := counts));
    }

    method EndRelease(t: Tid, a: Addr, n: int, ghost s: Sys)
      requires Separate() && Shows(View(), s) && Thr(t) in clocks && RwWait(a) in clocks
      modifies this`clocks, clocks.Values
      ensures Separate() && Grown(old(clocks.Values))
      ensures Shows(View(), Tick(if n == 0 then Drop(Copy(s, RwVc(a), RwWait(a)), RwWait(a)) else s, t))
    {
      if n == 0 {
        CloseSession(a, s);
        IncrementClock(t, Drop(Copy(s, RwVc(a), RwWait(a)), RwWait(a)));
      } else {
        IncrementClock(t, s);
      }
    }

    method CloseSession(a: Addr, ghost s: Sys)
      requires Separate() && Shows(View(), s) && RwWait(a) in clocks
      modifies this`clocks, clocks.Values
      ensures Separate() && Shows(View(), Drop(Copy(s, RwVc(a), RwWait(a)), RwWait(a)))
      ensures old(clocks).Keys <= clocks.Keys && Grown(old(clocks.Values))
    {
      StoreClock(RwVc(a), RwWait(a), s);
      ClearClock(RwWait(a), Copy(s, RwVc(a), RwWait(a)));
    }

    method FinishRelease(t: Tid, a: Addr, counts: map<Addr, int>, ghost s: Sys)
      requires Separate() && Shows(View(), s) && Thr(t) in clocks && counts == s.refs[a := Count(s.refs, a) - 1]
      modifies this`clocks, clocks.Values
      ensures Separate() && Shows(View(), RwUnlockStep(s, t, a)) && Grown(old(clocks.Values))
    {
      ReleaseEnds(s, t, a, counts);
      ReleaseRwlock(t, a, Count(counts, a), s, counts);
    }

    method BeforePthreadRwlockUnlock(t: Tid, a: Addr, ghost s: Sys)
      requires In(s) && Enabled(s, RwUnlock(t, a))
      modifies this`clocks, this`waiter, this`refs, clocks.Values
      ensures In(Step(s, RwUnlock(t, a))) && Grown(old(clocks.Values))
    {
      var counts := refs[a := Count(refs, a) - 1];
      ShowsLive(View(), s, t);
      FinishRelease(t, a, counts, s);
      ReleaseEnds(s, t, a, counts);
      SetRefs(counts, RwUnlockStep(s, t, a));
    }

    // ----- Dispatch

    /** Handles an event other than a memory access. */
    method Handle(e: Event)
      requires Valid() && Enabled(Run(run), e) && !e.Mem?
      modifies this, clocks.Values
      ensures Valid() && run == old(run) + [e] && Grown(old(clocks.Values))
    {
      ghost var s := Run(run);
      match e {
        case Start(t, parent) =>
          StartIsNew(run, t, parent);
          ThreadStart(t, parent, s);
        case Exit(t) =>
        case Join(t, child) => AfterPthreadJoin(t, child, s);
        case Lock(t, a) => ProcessLock(t, a, s);
        case Unlock(t, a) => ProcessUnlock(t, a, s);
        case RdLock(t, a) => AfterPthreadRwlockRdlock(t, a, s);
        case WrLock(t, a) => AfterPthreadRwlockWrlock(t, a, s);
        case RwUnlock(t, a) => BeforePthreadRwlockUnlock(t, a, s);
        case Notify(t, a) => ProcessNotify(t, a, s);
        case PreWait(t, a) => ProcessPreWait(t, a, s);
        case PostWait(t, a) => ProcessPostWait(t, a, s);
        case PreBarrier(t, a) => ProcessPreBarrier(t, a, s);
        case PostBarrier(t, a) => ProcessPostBarrier(t, a, s);
        case SemPost(t, a) => ProcessBeforeSemPost(t, a, s);
        case SemWait(t, a) => ProcessAfterSemWait(t, a, s);
      }
      Done(e);
    }

    method BeforePthreadCondWait(t: Tid, c: Addr, mutex: Addr)
      requires Valid() && Enabled(Run(run), Unlock(t, mutex))
      modifies this, clocks.Values
      ensures Valid() && run == old(run) + [Unlock(t, mutex)] + [PreWait(t, c)] && Grown(old(clocks.Values))
    {
      RunSnoc(run, Unlock(t, mutex));
      Handle(Unlock(t, mutex));
      Handle(PreWait(t, c));
    }

    method AfterPthreadCondWait(t: Tid, c: Addr, mutex: Addr)
      requires Valid() && Enabled(Run(run), PostWait(t, c))
      modifies this, clocks.Values
      ensures Valid() && run == old(run) + [PostWait(t, c)] + [Lock(t, mutex)] && Grown(old(clocks.Values))
    {
      RunSnoc(run, PostWait(t, c));
      Handle(PostWait(t, c));
      Handle(Lock(t, mutex));
    }

    /** The clock a memory access is checked with; the access itself changes no clock. */
    method CurrentClock(t: Tid) returns (vc: VectorClock)
      requires Valid() && Live(Run(run), t)
      ensures Thr(t) in clocks && vc == clocks[Thr(t)]
      ensures vc.clocks == At(Run(run), Thr(t)).vc
    {
      ShowsLive(View(), Run(run), t);
      vc := clocks[Thr(t)];
      assert ClockIn(View(), Thr(t)) == At(Run(run), Thr(t)).vc;
    }

    ghost method Accessed(t: Tid, x: Addr, write: bool)
      requires Valid() && Enabled(Run(run), Mem(t, x, write))
      modifies this`run
      ensures Valid() && run == old(run) + [Mem(t, x, write)]
    {
      ShowsRecord(View(), Run(run), t, x, write);
      Done(Mem(t, x, write));
    }
  }
}
