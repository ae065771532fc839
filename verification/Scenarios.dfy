/**
  Small runs, event by event, for the examples that show where a law stops holding.

  `Reached` describes the state after a run by its accesses and the clocks of its threads, and each
  lemma `Then...` adds one event: a start, an access, an exit or a join. An example is a chain of
  these lemmas, so that no proof has to compute a whole run at once.

  The constants below are the runs that most examples begin with: thread 1 starts threads 2 and 3,
  one after the other, and ticks each time. The child's clock is its parent's clock from before the
  tick, with a first frame of its own.
 */
module Scenarios {
  import opened Clocks
  import opened History
  import opened Machine
  import opened MachineProofs

  /** The run has made the accesses `h`, has these thread clocks, and has started threads up to `last`. */
  ghost predicate Reached(es: seq<Event>, last: Tid, clocks: map<Tid, Clock>, h: seq<Access>) {
    var s := Run(es);
    && WellFormed(es)
    && s.open == {}
    && (forall t :: t in s.started ==> t <= last)
    && (forall t :: t in clocks ==> t > 0 && Live(s, t) && s.know[Thr(t)].vc == clocks[t])
    && s.hist == h
  }

  lemma Forked(s: Sys, t: Tid, parent: Tid)
    requires Live(s, parent) && parent != t && parent != NO_THREAD && Thr(t) !in s.know
    ensures var s1 := StartStep(s, t, parent);
            && Live(s1, t) && s1.know[Thr(t)].vc == Joined(Ticked(map[], t), s.know[Thr(parent)].vc)
            && Live(s1, parent) && s1.know[Thr(parent)].vc == Ticked(s.know[Thr(parent)].vc, parent)
            && s1.open == s.open - {parent} && s1.started == s.started + {t} && s1.hist == s.hist
            && forall l :: l in s.know && l != Thr(parent) ==> l in s1.know && s1.know[l] == s.know[l]
  {
  }

  lemma ThenFork(es: seq<Event>, last: Tid, clocks: map<Tid, Clock>, h: seq<Access>, t: Tid, parent: Tid)
    requires Reached(es, last, clocks, h) && parent in clocks && t > last
    ensures Reached(es + [Start(t, parent)], t,
                    clocks[parent := Ticked(clocks[parent], parent)][t := Joined(Ticked(map[], t), clocks[parent])], h)
  {
    NotYetKnown(es, t);
    RunSnoc(es, Start(t, parent));
    Forked(Run(es), t, parent);
    assert Step(Run(es), Start(t, parent)) == StartStep(Run(es), t, parent);
  }

  lemma ThenAccess(es: seq<Event>, last: Tid, clocks: map<Tid, Clock>, h: seq<Access>, t: Tid, x: Addr, write: bool)
    requires Reached(es, last, clocks, h) && t in clocks
    ensures Reached(es + [Mem(t, x, write)], last, clocks, h + [Access(t, x, write, clocks[t])])
  {
  }

  lemma ThenTwoAccesses(es: seq<Event>, last: Tid, clocks: map<Tid, Clock>, h: seq<Access>, a: Access, b: Access)
    requires Reached(es, last, clocks, h) && a.t in clocks && b.t in clocks && a.vc == clocks[a.t] && b.vc == clocks[b.t]
    ensures Reached(es + [Mem(a.t, a.x, a.write)] + [Mem(b.t, b.x, b.write)], last, clocks, h + [a] + [b])
  {
    ThenAccess(es, last, clocks, h, a.t, a.x, a.write);
    ThenAccess(es + [Mem(a.t, a.x, a.write)], last, clocks, h + [a], b.t, b.x, b.write);
  }

  lemma ThenExit(es: seq<Event>, last: Tid, clocks: map<Tid, Clock>, h: seq<Access>, t: Tid)
    requires Reached(es, last, clocks, h) && t in clocks
    ensures Reached(es + [Exit(t)], last, clocks, h)
  {
  }

  lemma AfterJoin(s: Sys, t: Tid, child: Tid)
    requires Live(s, t) && Live(s, child) && t != child && s.open == {}
    ensures var s1 := JoinStep(s, t, child);
            && Live(s1, t) && s1.know[Thr(t)].vc == Ticked(Joined(s.know[Thr(t)].vc, s.know[Thr(child)].vc), t)
            && (forall u :: u != t && u != child && Live(s, u) ==> Live(s1, u) && s1.know[Thr(u)] == s.know[Thr(u)])
            && s1.open == {} && s1.started == s.started && s1.hist == s.hist
  {
  }

  lemma ThenJoin(es: seq<Event>, last: Tid, clocks: map<Tid, Clock>, h: seq<Access>, t: Tid, child: Tid)
    requires Reached(es, last, clocks, h) && t in clocks && child in clocks && t != child
    ensures Reached(es + [Join(t, child)], last, (clocks - {child})[t := Ticked(Joined(clocks[t], clocks[child]), t)], h)
  {
    RunSnoc(es, Join(t, child));
    AfterJoin(Run(es), t, child);
  }

  // ----- Runs with a lock

  /** The clock of mutex `a` is `mutex`. */
  ghost predicate LockReached(es: seq<Event>, last: Tid, clocks: map<Tid, Clock>, h: seq<Access>, a: Addr, mutex: Clock) {
    Reached(es, last, clocks, h) && At(Run(es), Mutex(a)).vc == mutex
  }

  lemma ThenLock(es: seq<Event>, last: Tid, clocks: map<Tid, Clock>, h: seq<Access>, a: Addr, mutex: Clock, t: Tid)
    requires LockReached(es, last, clocks, h, a, mutex) && t in clocks
    ensures LockReached(es + [Lock(t, a)], last, clocks[t := Joined(clocks[t], mutex)], h, a, mutex)
  {
    RunSnoc(es, Lock(t, a));
  }

  lemma ThenUnlock(es: seq<Event>, last: Tid, clocks: map<Tid, Clock>, h: seq<Access>, a: Addr, mutex: Clock, t: Tid)
    requires LockReached(es, last, clocks, h, a, mutex) && t in clocks
    ensures LockReached(es + [Unlock(t, a)], last, clocks[t := Ticked(clocks[t], t)], h, a, clocks[t])
  {
    RunSnoc(es, Unlock(t, a));
  }

  lemma ThenLockedAccess(es: seq<Event>, last: Tid, clocks: map<Tid, Clock>, h: seq<Access>, a: Addr, mutex: Clock,
                         t: Tid, x: Addr, write: bool)
    requires LockReached(es, last, clocks, h, a, mutex) && t in clocks
    ensures LockReached(es + [Mem(t, x, write)], last, clocks, h + [Access(t, x, write, clocks[t])], a, mutex)
  {
    ThenAccess(es, last, clocks, h, t, x, write);
    RunSnoc(es, Mem(t, x, write));
  }

  /** Rwlock `a` is held `n` times; its clock is `rw`, and `wait` has been released in the present session. */
  ghost predicate RwReached(es: seq<Event>, last: Tid, clocks: map<Tid, Clock>, h: seq<Access>,
          a: Addr, n: nat, rw: Clock, wait: Clock) {
    && Reached(es, last, clocks, h)
    && Count(Run(es).refs, a) == n && At(Run(es), RwVc(a)).vc == rw && At(Run(es), RwWait(a)).vc == wait
  }

  lemma ThenRdLock(es: seq<Event>, last: Tid, clocks: map<Tid, Clock>, h: seq<Access>,
          a: Addr, n: nat, rw: Clock, wait: Clock, t: Tid)
    requires RwReached(es, last, clocks, h, a, n, rw, wait) && t in clocks
    ensures RwReached(es + [RdLock(t, a)], last, clocks[t := Joined(clocks[t], rw)], h, a, n + 1, rw, wait)
  {
    RunSnoc(es, RdLock(t, a));
  }

  lemma ThenWrLock(es: seq<Event>, last: Tid, clocks: map<Tid, Clock>, h: seq<Access>, a: Addr, rw: Clock, wait: Clock, t: Tid)
    requires RwReached(es, last, clocks, h, a, 0, rw, wait) && t in clocks
    ensures RwReached(es + [WrLock(t, a)], last, clocks[t := Joined(clocks[t], rw)], h, a, 1, rw, wait)
  {
    RunSnoc(es, WrLock(t, a));
  }

  lemma AfterRelease(s: Sys, t: Tid, a: Addr)
    requires Live(s, t) && s.open == {} && Count(s.refs, a) > 0
    ensures var s1, gathered := RwUnlockStep(s, t, a), Joined(At(s, RwWait(a)).vc, s.know[Thr(t)].vc);
            && Live(s1, t) && s1.know[Thr(t)].vc == Ticked(s.know[Thr(t)].vc, t)
            && (forall u :: u != t && Live(s, u) ==> Live(s1, u) && s1.know[Thr(u)] == s.know[Thr(u)])
            && At(s1, RwVc(a)).vc == (if Count(s.refs, a) == 1 then gathered else At(s, RwVc(a)).vc)
            && At(s1, RwWait(a)).vc == (if Count(s.refs, a) == 1 then map[] else gathered)
            && Count(s1.refs, a) == Count(s.refs, a) - 1
            && s1.open == {} && s1.started == s.started && s1.hist == s.hist
  {
  }

  lemma ThenRwUnlock(es: seq<Event>, last: Tid, clocks: map<Tid, Clock>, h: seq<Access>,
          a: Addr, n: nat, rw: Clock, wait: Clock, t: Tid)
    requires RwReached(es, last, clocks, h, a, n, rw, wait) && t in clocks && n > 0
    ensures var gathered := Joined(wait, clocks[t]);
            RwReached(es + [RwUnlock(t, a)], last, clocks[t := Ticked(clocks[t], t)], h, a, n - 1,
                      if n == 1 then gathered else rw, if n == 1 then map[] else gathered)
  {
    RunSnoc(es, RwUnlock(t, a));
    AfterRelease(Run(es), t, a);
    assert Run(es + [RwUnlock(t, a)]) == RwUnlockStep(Run(es), t, a);
  }

  lemma ThenRwAccess(es: seq<Event>, last: Tid, clocks: map<Tid, Clock>, h: seq<Access>,
          a: Addr, n: nat, rw: Clock, wait: Clock, t: Tid, x: Addr, write: bool)
    requires RwReached(es, last, clocks, h, a, n, rw, wait) && t in clocks
    ensures RwReached(es + [Mem(t, x, write)], last, clocks, h + [Access(t, x, write, clocks[t])], a, n, rw, wait)
  {
    ThenAccess(es, last, clocks, h, t, x, write);
    RunSnoc(es, Mem(t, x, write));
  }

  // ----- Threads 2 and 3 started by thread 1

  const TWO_THREADS: seq<Event> := [] + [Start(1, 0)] + [Start(2, 1)]
  const TWO_CLOCKS: map<Tid, Clock> := map[1 := map[1 := 2], 2 := map[1 := 1, 2 := 1]]
  const THREE_THREADS: seq<Event> := TWO_THREADS + [Start(3, 1)]
  const THREE_CLOCKS: map<Tid, Clock> := map[1 := map[1 := 3], 2 := map[1 := 1, 2 := 1], 3 := map[1 := 2, 3 := 1]]

  lemma FirstForkClocks()
    ensures var c1: map<Tid, Clock> := map[1 := map[1 := 1]];
            c1[1 := Ticked(c1[1], 1)][2 := Joined(Ticked(map[], 2), c1[1])] == TWO_CLOCKS
  {
    var c: Clock := map[1 := 1];
    assert Ticked(map[], 2) == map[2 := 1] && Ticked(c, 1) == map[1 := 2];
    assert Joined(map[2 := 1], c) == map[1 := 1, 2 := 1];
  }

  lemma TwoThreads()
    ensures Reached(TWO_THREADS, 2, TWO_CLOCKS, [])
  {
    ThenFork([] + [Start(1, 0)], 1, map[1 := map[1 := 1]], [], 2, 1);
    FirstForkClocks();
  }

  lemma ThreeClocks()
    ensures TWO_CLOCKS[1 := Ticked(TWO_CLOCKS[1], 1)][3 := Joined(Ticked(map[], 3), TWO_CLOCKS[1])] == THREE_CLOCKS
  {
    var c1: Clock := map[1 := 2];
    assert Ticked(map[], 3) == map[3 := 1] && Ticked(c1, 1) == map[1 := 3];
    assert Joined(map[3 := 1], c1) == map[1 := 2, 3 := 1];
  }

  lemma ThreeThreads()
    ensures Reached(THREE_THREADS, 3, THREE_CLOCKS, [])
  {
    TwoThreads();
    ThenFork(TWO_THREADS, 2, TWO_CLOCKS, [], 3, 1);
    ThreeClocks();
  }
}
