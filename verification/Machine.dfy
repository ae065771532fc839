/**
  The clock machine that all happens-before detectors share: thread, mutex, rwlock, condition,
  barrier and semaphore clocks, and the steps that join, copy and increment them. Every clock
  travels with a `past`, the set of accesses it stands for: joined where the clocks are joined,
  overwritten where they are overwritten, and never touched by an increment.
 */
module Machine {
  import opened Clocks
  import opened History

  const NO_THREAD: Tid := 0

  /** `Exit` also stands for the events of a thread that change no clock, such as the call of `pthread_create` and its return. */
  datatype Event =
    | Start(t: Tid, parent: Tid)
    | Exit(t: Tid)
    | Join(t: Tid, child: Tid)
    | Mem(t: Tid, x: Addr, write: bool)
    | Lock(t: Tid, a: Addr)
    | Unlock(t: Tid, a: Addr)
    | RdLock(t: Tid, a: Addr)
    | WrLock(t: Tid, a: Addr)
    | RwUnlock(t: Tid, a: Addr)
    | Notify(t: Tid, a: Addr)
    | PreWait(t: Tid, a: Addr)
    | PostWait(t: Tid, a: Addr)
    | PreBarrier(t: Tid, a: Addr)
    | PostBarrier(t: Tid, a: Addr)
    | SemPost(t: Tid, a: Addr)
    | SemWait(t: Tid, a: Addr)

  /** Where a clock is kept. */
  datatype Loc =
    | Thr(t: Tid)
    | Mutex(a: Addr)
    | RwVc(a: Addr)
    | RwWait(a: Addr)
    | CondWait(a: Addr, t: Tid)
    | CondSig(a: Addr, t: Tid)
    | Bar(a: Addr)
    | Sem(a: Addr)

  /** A clock and the accesses, as positions in the history, that happen before it. */
  datatype Know = Know(vc: Clock, past: set<nat>)

  const NOTHING := Know(map[], {})

  function JoinKnow(a: Know, b: Know): Know {
    Know(Joined(a.vc, b.vc), a.past + b.past)
  }

  /**
    `open` holds the threads that have published their clock without incrementing it since: between
    events these wait at a barrier, and no child of theirs has started since they entered it. `before[i]` is the past of the
    thread that made access `hist[i]`, at that access.
   */
  datatype Sys = Sys(know: map<Loc, Know>, open: set<Tid>, started: set<Tid>,
                     waiter: map<Addr, int>, refs: map<Addr, int>,
                     hist: seq<Access>, before: seq<set<nat>>)

  const INITIAL := Sys(map[], {}, {}, map[], map[], [], [])

  function At(s: Sys, l: Loc): Know {
    if l in s.know then s.know[l] else NOTHING
  }

  predicate Live(s: Sys, t: Tid) {
    Thr(t) in s.know
  }

  function Own(s: Sys, t: Tid): nat {
    Get(At(s, Thr(t)).vc, t)
  }

  function Count(m: map<Addr, int>, a: Addr): int {
    if a in m then m[a] else 0
  }

  // ----- The primitive operations on the store

  function Publishes(src: Loc): set<Tid> {
    if src.Thr? then {src.t} else {}
  }

  function JoinInto(s: Sys, dst: Loc, src: Loc): Sys {
    s.(know := s.know[dst := JoinKnow(At(s, dst), At(s, src))], open := s.open + Publishes(src))
  }

  function Copy(s: Sys, dst: Loc, src: Loc): Sys {
    s.(know := s.know[dst := At(s, src)], open := s.open + Publishes(src))
  }

  function Drop(s: Sys, l: Loc): Sys {
    s.(know := s.know - {l}, open := s.open - Publishes(l))
  }

  function Tick(s: Sys, t: Tid): Sys {
    var k := At(s, Thr(t));
    s.(know := s.know[Thr(t) := k.(vc := Ticked(k.vc, t))], open := s.open - {t})
  }

  function Spawn(s: Sys, t: Tid): Sys {
    s.(know := s.know[Thr(t) := Know(Ticked(map[], t), {})], started := s.started + {t})
  }

  function Record(s: Sys, t: Tid, x: Addr, write: bool): Sys {
    var k := At(s, Thr(t));
    s.(know := s.know[Thr(t) := k.(past := k.past + {|s.hist|})],
       hist := s.hist + [Access(t, x, write, k.vc)],
       before := s.before + [k.past])
  }

  // ----- The steps

  function Waiters(s: Sys, c: Addr): seq<Tid> {
    SortedSeq(set l | l in s.know && l.CondWait? && l.a == c :: l.t)
  }

  function JoinWaiters(s: Sys, t: Tid, c: Addr, ws: seq<Tid>): Sys {
    if ws == [] then s
    else JoinInto(JoinWaiters(s, t, c, ws[..|ws| - 1]), Thr(t), CondWait(c, ws[|ws| - 1]))
  }

  function SignalWaiters(s: Sys, t: Tid, c: Addr, ws: seq<Tid>): Sys {
    if ws == [] then s
    else Copy(SignalWaiters(s, t, c, ws[..|ws| - 1]), CondSig(c, ws[|ws| - 1]), Thr(t))
  }

  function StartStep(s: Sys, t: Tid, parent: Tid): Sys {
    if parent == NO_THREAD then Spawn(s, t)
    else Tick(JoinInto(Spawn(s, t), Thr(t), Thr(parent)), parent)
  }

  function JoinStep(s: Sys, t: Tid, child: Tid): Sys {
    Drop(Tick(JoinInto(s, Thr(t), Thr(child)), t), Thr(child))
  }

  function NotifyStep(s: Sys, t: Tid, c: Addr): Sys {
    var ws := Waiters(s, c);
    Tick(SignalWaiters(JoinWaiters(s, t, c, ws), t, c, ws), t)
  }

  function PostWaitStep(s: Sys, t: Tid, c: Addr): Sys {
    Drop(Drop(JoinInto(s, Thr(t), CondSig(c, t)), CondWait(c, t)), CondSig(c, t))
  }

  function PreBarrierStep(s: Sys, t: Tid, b: Addr): Sys {
    JoinInto(s, Bar(b), Thr(t)).(waiter := s.waiter[b := Count(s.waiter, b) + 1])
  }

  function PostBarrierStep(s: Sys, t: Tid, b: Addr): Sys {
    var n := Count(s.waiter, b) - 1;
    var s1 := Tick(JoinInto(s, Thr(t), Bar(b)), t).(waiter := s.waiter[b := n]);
    if n == 0 then Drop(s1, Bar(b)) else s1
  }

  function RwLockStep(s: Sys, t: Tid, a: Addr): Sys {
    JoinInto(s, Thr(t), RwVc(a)).(refs := s.refs[a := Count(s.refs, a) + 1])
  }

  function RwUnlockStep(s: Sys, t: Tid, a: Addr): Sys {
    var n := Count(s.refs, a) - 1;
    var s1 := JoinInto(s, RwWait(a), Thr(t)).(refs := s.refs[a := n]);
    Tick(if n == 0 then Drop(Copy(s1, RwVc(a), RwWait(a)), RwWait(a)) else s1, t)
  }

  // ----- The counting steps, with the new counts named

  lemma BarrierBegins(s: Sys, t: Tid, b: Addr, counts: map<Addr, int>)
    requires counts == s.waiter[b := Count(s.waiter, b) + 1]
    ensures PreBarrierStep(s, t, b) == JoinInto(s, Bar(b), Thr(t)).(waiter := counts)
    ensures PreBarrierStep(s, t, b).refs == s.refs
  {
  }

  lemma BarrierEnds(s: Sys, t: Tid, b: Addr, counts: map<Addr, int>)
    requires counts == s.waiter[b := Count(s.waiter, b) - 1]
    ensures var s1 := Tick(JoinInto(s, Thr(t), Bar(b)), t).(waiter := counts);
            PostBarrierStep(s, t, b) == if Count(s.waiter, b) - 1 == 0 then Drop(s1, Bar(b)) else s1
    ensures PostBarrierStep(s, t, b).waiter == counts && PostBarrierStep(s, t, b).refs == s.refs
  {
  }

  lemma AcquireEnds(s: Sys, t: Tid, a: Addr, counts: map<Addr, int>)
    requires counts == s.refs[a := Count(s.refs, a) + 1]
    ensures RwLockStep(s, t, a) == JoinInto(s, Thr(t), RwVc(a)).(refs := counts)
    ensures RwLockStep(s, t, a).waiter == s.waiter
  {
  }

  lemma ReleaseEnds(s: Sys, t: Tid, a: Addr, refs: map<Addr, int>)
    requires refs == s.refs[a := Count(s.refs, a) - 1]
    ensures var s1 := JoinInto(s, RwWait(a), Thr(t)).(refs := refs);
            RwUnlockStep(s, t, a) ==
              Tick(if Count(refs, a) == 0 then Drop(Copy(s1, RwVc(a), RwWait(a)), RwWait(a)) else s1, t)
    ensures RwUnlockStep(s, t, a).refs == refs && RwUnlockStep(s, t, a).waiter == s.waiter
  {
  }

  function Step(s: Sys, e: Event): Sys {
    match e
    case Start(t, parent) => StartStep(s, t, parent)
    case Exit(t) => s
    case Join(t, child) => JoinStep(s, t, child)
    case Mem(t, x, write) => Record(s, t, x, write)
    case Lock(t, a) => JoinInto(s, Thr(t), Mutex(a))
    case Unlock(t, a) => Tick(Copy(s, Mutex(a), Thr(t)), t)
    case RdLock(t, a) => RwLockStep(s, t, a)
    case WrLock(t, a) => RwLockStep(s, t, a)
    case RwUnlock(t, a) => RwUnlockStep(s, t, a)
    case Notify(t, a) => NotifyStep(s, t, a)
    case PreWait(t, a) => Tick(Copy(s, CondWait(a, t), Thr(t)), t)
    case PostWait(t, a) => PostWaitStep(s, t, a)
    case PreBarrier(t, a) => PreBarrierStep(s, t, a)
    case PostBarrier(t, a) => PostBarrierStep(s, t, a)
    case SemPost(t, a) => Tick(JoinInto(s, Sem(a), Thr(t)), t)
    case SemWait(t, a) => Tick(JoinInto(s, Thr(t), Sem(a)), t)
  }

  /**
    What a program may do next: the source's assertions, plus fresh thread ids, and no event but
    leaving it of a thread that waits at a barrier. Its children may announce themselves meanwhile;
    what it may do after that is left free.
   */
  predicate Enabled(s: Sys, e: Event) {
    match e
    case Start(t, parent) =>
      t > 0 && t !in s.started && (parent == NO_THREAD || Live(s, parent))
    case PostBarrier(t, a) => Live(s, t)
    case Join(t, child) => Live(s, t) && t !in s.open && Live(s, child) && child != t
    case PostWait(t, a) => Live(s, t) && t !in s.open && CondWait(a, t) in s.know
    case WrLock(t, a) => Live(s, t) && t !in s.open && Count(s.refs, a) == 0
    case RwUnlock(t, a) => Live(s, t) && t !in s.open && Count(s.refs, a) > 0
    case _ => Live(s, e.t) && e.t !in s.open
  }

  function Run(es: seq<Event>): Sys {
    if es == [] then INITIAL else Step(Run(es[..|es| - 1]), es[|es| - 1])
  }

  predicate WellFormed(es: seq<Event>) {
    es == [] || (WellFormed(es[..|es| - 1]) && Enabled(Run(es[..|es| - 1]), es[|es| - 1]))
  }

  lemma RunSnoc(es: seq<Event>, e: Event)
    ensures Run(es + [e]) == Step(Run(es), e)
    ensures WellFormed(es + [e]) <==> WellFormed(es) && Enabled(Run(es), e)
  {
  }

  /** Access `i` of the run happens before access `j`. */
  predicate HB(s: Sys, i: nat, j: nat) {
    j < |s.before| && i in s.before[j]
  }
}
