/**
  Eraser looks at locks only. Each thread has a table of the locks that protect its reads and one
  of those that protect its writes, and each address narrows two candidate sets. Rwlocks are
  counted globally: only the release that ends a session removes the lock from the tables.
 */
module Eraser {
  import opened Clocks
  import opened Machine
  import opened RwSessions

  /** The lock tables; a thread without a table holds nothing. */
  datatype Tables = Tables(writers: map<Tid, set<Addr>>, readers: map<Tid, set<Addr>>, refs: map<Addr, int>)

  const NO_LOCKS := Tables(map[], map[], map[])

  function Of(table: map<Tid, set<Addr>>, t: Tid): set<Addr> {
    if t in table then table[t] else {}
  }

  function Added(s: Tables, t: Tid, a: Addr, write: bool): Tables {
    s.(readers := s.readers[t := Of(s.readers, t) + {a}],
       writers := s.writers[t := if write then Of(s.writers, t) + {a} else Of(s.writers, t)])
  }

  function Removed(s: Tables, t: Tid, a: Addr): Tables {
    s.(readers := s.readers[t := Of(s.readers, t) - {a}], writers := s.writers[t := Of(s.writers, t) - {a}])
  }

  function LockStep(s: Tables, e: Event): Tables {
    match e
    case Lock(t, a) => Added(s, t, a, true)
    case Unlock(t, a) => Removed(s, t, a)
    case RdLock(t, a) => Added(s, t, a, false).(refs := s.refs[a := Count(s.refs, a) + 1])
    case WrLock(t, a) => Added(s, t, a, true).(refs := s.refs[a := 1])
    case RwUnlock(t, a) =>
      (if Count(s.refs, a) == 1 then Removed(s, t, a) else s).(refs := s.refs[a := Count(s.refs, a) - 1])
    case _ => s
  }

  function TablesOf(es: seq<Event>): Tables {
    if es == [] then NO_LOCKS else LockStep(TablesOf(es[..|es| - 1]), es[|es| - 1])
  }

  // ----- Addresses

  datatype State = Unknown | Virgin | Exclusive | ReadShared | SharedModified

  datatype EraserMeta = EraserMeta(racy: bool, state: State, t: Tid, readers: set<Addr>, writers: set<Addr>)

  const NEW_META := EraserMeta(false, Unknown, NO_THREAD, {}, {})

  function UpdateMemoryState(m: EraserMeta, s: Tables, t: Tid, write: bool): EraserMeta {
    match m.state
    case Unknown =>
      EraserMeta(m.racy, if write then Exclusive else Virgin, t, Of(s.readers, t), Of(s.writers, t))
    case Virgin =>
      if t == m.t then (if write then m.(state := Exclusive) else m)
      else m.(state := if write then SharedModified else ReadShared)
    case Exclusive =>
      if t == m.t then m else m.(state := if write then SharedModified else ReadShared)
    case ReadShared => if write then m.(state := SharedModified) else m
    case SharedModified => m
  }

  predicate Shared(m: EraserMeta) {
    m.state == ReadShared || m.state == SharedModified
  }

  function ProcessRead(m: EraserMeta, s: Tables, t: Tid): EraserMeta {
    if m.racy then m
    else
      var m1 := UpdateMemoryState(m, s, t, false);
      if !Shared(m1) then m1
      else
        var m2 := m1.(readers := m1.readers * Of(s.readers, t), writers := m1.writers * Of(s.writers, t));
        m2.(racy := m2.state == SharedModified && m2.readers == {} && m2.writers == {}
                    && m2.readers !! Of(s.writers, t) && m2.writers !! Of(s.readers, t))
  }

  function ProcessWrite(m: EraserMeta, s: Tables, t: Tid): EraserMeta {
    if m.racy then m
    else
      var m1 := UpdateMemoryState(m, s, t, true);
      if !Shared(m1) then m1
      else
        var m2 := m1.(writers := (m1.writers + m1.readers) * Of(s.writers, t));
        m2.(racy := m2.state == SharedModified && m2.writers == {})
  }

  function MetaOf(es: seq<Event>, x: Addr): EraserMeta {
    if es == [] then NEW_META
    else
      var e, m, s := es[|es| - 1], MetaOf(es[..|es| - 1], x), TablesOf(es[..|es| - 1]);
      if e.Mem? && e.x == x then
        if e.write then ProcessWrite(m, s, e.t) else ProcessRead(m, s, e.t)
      else m
  }

  // ----- What the tables say

  datatype Mode = None | Reading | Writing

  /** By the discipline of rwlock `a`, thread `t` holds it. */
  predicate HoldsRw(es: seq<Event>, t: Tid, a: Addr) {
    WellFormed(es) && Disciplined(es, a) && t in Holders(es, a)
  }

  /**
    The mode in which `t` holds lock `a`, mutex or rwlock. A reader that has acquired a rwlock
    several times holds it until its last release; of a mutex locked several times, see `MutexTableIs`.
   */
  function Holding(es: seq<Event>, t: Tid, a: Addr): Mode {
    if es == [] then None
    else
      var e, before := es[|es| - 1], Holding(es[..|es| - 1], t, a);
      if (e.Lock? || e.WrLock?) && e.t == t && e.a == a then Writing
      else if e.RdLock? && e.t == t && e.a == a then Reading
      else if e.Unlock? && e.t == t && e.a == a then None
      else if e.RwUnlock? && e.t == t && e.a == a then (if HoldsRw(es, t, a) then before else None)
      else before
  }

  lemma ReferencesAfter(s: Tables, e: Event, a: Addr)
    ensures Count(LockStep(s, e).refs, a) ==
            if Acquires(e, a) then (if e.WrLock? then 1 else Count(s.refs, a) + 1)
            else if Releases(e, a) then Count(s.refs, a) - 1
            else Count(s.refs, a)
  {
  }

  lemma ReadersAfter(s: Tables, e: Event, t: Tid, a: Addr)
    ensures a in Of(LockStep(s, e).readers, t) <==>
            if e == Lock(t, a) || (Acquires(e, a) && e.t == t) then true
            else if e == Unlock(t, a) then false
            else a in Of(s.readers, t) && !(Releases(e, a) && e.t == t && Count(s.refs, a) == 1)
  {
  }

  lemma WritersAfter(s: Tables, e: Event, t: Tid, a: Addr)
    ensures a in Of(LockStep(s, e).writers, t) <==>
            if e == Lock(t, a) || e == WrLock(t, a) then true
            else if e == Unlock(t, a) then false
            else a in Of(s.writers, t) && !(Releases(e, a) && e.t == t && Count(s.refs, a) == 1)
  {
  }

  /** A release that leaves the lock held is not the last one by the count. */
  lemma InnerRelease(es: seq<Event>, t: Tid, a: Addr)
    requires es != [] && Releases(es[|es| - 1], a) && HoldsRw(es, t, a)
    ensures Count(TablesOf(es[..|es| - 1]).refs, a) != 1
  {
    CountsHolders(es[..|es| - 1], a);
    assert |Holders(es, a)| > 0;
  }

  /** The tables never miss a lock that is held. */
  lemma {:induction false} HeldIsTabled(es: seq<Event>, t: Tid, a: Addr)
    ensures Holding(es, t, a) != None ==> a in Of(TablesOf(es).readers, t)
    ensures Holding(es, t, a) == Writing ==> a in Of(TablesOf(es).writers, t)
  {
    if es != [] {
      var n := |es| - 1;
      HeldIsTabled(es[..n], t, a);
      ReadersAfter(TablesOf(es[..n]), es[n], t, a);
      WritersAfter(TablesOf(es[..n]), es[n], t, a);
      assert TablesOf(es) == LockStep(TablesOf(es[..n]), es[n]);
      if Releases(es[n], a) && HoldsRw(es, t, a) {
        InnerRelease(es, t, a);
      }
    }
  }

  /**
    The global count of a rwlock is the number of times it is held, so the source's assertion at a
    release, that the count is positive, never fails.
   */
  lemma {:induction false} CountsHolders(es: seq<Event>, a: Addr)
    requires WellFormed(es) && Disciplined(es, a)
    ensures Count(TablesOf(es).refs, a) == |Holders(es, a)|
  {
    if es != [] {
      var n := |es| - 1;
      CountsHolders(es[..n], a);
      HoldersAreCounted(es[..n], a);
      ReferencesAfter(TablesOf(es[..n]), es[n], a);
    }
  }

  /** The last thing that `t` did with rwlock `a` was to release it for good while others held it. */
  predicate ReleasedEarly(es: seq<Event>, t: Tid, a: Addr) {
    if es == [] then false
    else
      var n := |es| - 1;
      if Releases(es[n], a) && es[n].t == t then t !in Holders(es, a) && Holders(es, a) != multiset{}
      else if Acquires(es[n], a) && es[n].t == t then false
      else ReleasedEarly(es[..n], t, a)
  }

  predicate IsRwLock(es: seq<Event>, a: Addr) {
    forall e :: e in es && (e.Lock? || e.Unlock?) ==> e.a != a
  }

  lemma HoldersAfter(es: seq<Event>, t: Tid, a: Addr)
    requires es != [] && Disciplined(es, a)
    ensures var e, before := es[|es| - 1], Holders(es[..|es| - 1], a);
            && (Acquires(e, a) ==> e.t in Holders(es, a))
            && (Releases(e, a) ==> e.t in before && (Holders(es, a) == multiset{} <==> |before| == 1))
            && (e.t != t || !(Acquires(e, a) || Releases(e, a)) ==> (t in Holders(es, a) <==> t in before))
  {
    var e, before := es[|es| - 1], Holders(es[..|es| - 1], a);
    if Releases(e, a) {
      assert |before - multiset{e.t}| == |before| - 1;
    }
  }

  /**
    A thread's reader table holds a rwlock exactly while the thread holds it, and also after a last
    release that overlapped with other holders, until the thread uses the lock again.
   */
  lemma {:induction false} ReaderTableIs(es: seq<Event>, t: Tid, a: Addr)
    requires WellFormed(es) && Disciplined(es, a) && IsRwLock(es, a)
    ensures a in Of(TablesOf(es).readers, t) <==> t in Holders(es, a) || ReleasedEarly(es, t, a)
    ensures t in Holders(es, a) ==> !ReleasedEarly(es, t, a)
  {
    if es != [] {
      var n := |es| - 1;
      assert es[n] in es;
      ReaderTableIs(es[..n], t, a);
      CountsHolders(es[..n], a);
      ReadersAfter(TablesOf(es[..n]), es[n], t, a);
      assert TablesOf(es) == LockStep(TablesOf(es[..n]), es[n]);
      HoldersAfter(es, t, a);
    }
  }

  /** Thread `t` has acquired rwlock `a` to write, and has not since been the one to end a session of it. */
  predicate TookToWrite(es: seq<Event>, t: Tid, a: Addr) {
    if es == [] then false
    else
      var n := |es| - 1;
      if es[n] == WrLock(t, a) then true
      else if Releases(es[n], a) && es[n].t == t && Holders(es, a) == multiset{} then false
      else TookToWrite(es[..n], t, a)
  }

  /** A thread's writer table holds a rwlock from an acquisition to write until the thread ends a session. */
  lemma {:induction false} WriterTableIs(es: seq<Event>, t: Tid, a: Addr)
    requires WellFormed(es) && Disciplined(es, a) && IsRwLock(es, a)
    ensures a in Of(TablesOf(es).writers, t) <==> TookToWrite(es, t, a)
  {
    if es != [] {
      var n := |es| - 1;
      assert es[n] in es;
      WriterTableIs(es[..n], t, a);
      CountsHolders(es[..n], a);
      WritersAfter(TablesOf(es[..n]), es[n], t, a);
      assert TablesOf(es) == LockStep(TablesOf(es[..n]), es[n]);
      HoldersAfter(es, t, a);
    }
  }

  // ----- Mutexes that a thread locks several times

  predicate IsMutex(es: seq<Event>, a: Addr) {
    forall e :: e in es && (e.RdLock? || e.WrLock? || e.RwUnlock?) ==> e.a != a
  }

  /** How many times `t` has locked mutex `a` without unlocking it. */
  function Depth(es: seq<Event>, t: Tid, a: Addr): nat {
    if es == [] then 0
    else
      var e, before := es[|es| - 1], Depth(es[..|es| - 1], t, a);
      if e == Lock(t, a) then before + 1
      else if e == Unlock(t, a) && before > 0 then before - 1
      else before
  }

  /** The last thing that `t` did with mutex `a` was to unlock it, and it still holds it. */
  predicate UnlockedInside(es: seq<Event>, t: Tid, a: Addr) {
    if es == [] then false
    else
      var e := es[|es| - 1];
      if e == Lock(t, a) then false
      else if e == Unlock(t, a) then Depth(es, t, a) > 0
      else UnlockedInside(es[..|es| - 1], t, a)
  }

  /**
    The tables hold a mutex exactly while the thread holds it, except that the first unlock of a
    mutex locked several times removes it, until it is locked again.
   */
  lemma {:induction false} MutexTableIs(es: seq<Event>, t: Tid, a: Addr)
    requires IsMutex(es, a)
    ensures a in Of(TablesOf(es).readers, t) <==> Depth(es, t, a) > 0 && !UnlockedInside(es, t, a)
    ensures a in Of(TablesOf(es).writers, t) <==> Depth(es, t, a) > 0 && !UnlockedInside(es, t, a)
  {
    if es != [] {
      var n := |es| - 1;
      assert es[n] in es;
      MutexTableIs(es[..n], t, a);
      ReadersAfter(TablesOf(es[..n]), es[n], t, a);
      WritersAfter(TablesOf(es[..n]), es[n], t, a);
      assert TablesOf(es) == LockStep(TablesOf(es[..n]), es[n]);
    }
  }

  // ----- No alarm under consistent locking

  /** Every write to `x` is made holding lock `a` in write mode, and every read holding it in some mode. */
  predicate ConsistentlyLocked(es: seq<Event>, x: Addr, a: Addr) {
    es == []
    || (var n := |es| - 1;
        && ConsistentlyLocked(es[..n], x, a)
        && (es[n].Mem? && es[n].x == x ==>
             Holding(es[..n], es[n].t, a) == Writing || (!es[n].write && Holding(es[..n], es[n].t, a) == Reading)))
  }

  /**
    An address with one lock that protects all its accesses never becomes racy, on any run, with
    any overlap of readers. The read candidates keep the lock; the write candidates may lose it
    at a read and get it back at the next write.
   */
  lemma {:induction false} NoAlarmUnderConsistentLocking(es: seq<Event>, x: Addr, a: Addr)
    requires ConsistentlyLocked(es, x, a)
    ensures !MetaOf(es, x).racy
    ensures MetaOf(es, x).state != Unknown ==> a in MetaOf(es, x).readers
  {
    if es != [] {
      var n := |es| - 1;
      var e, m, s := es[n], MetaOf(es[..n], x), TablesOf(es[..n]);
      NoAlarmUnderConsistentLocking(es[..n], x, a);
      if e.Mem? && e.x == x {
        HeldIsTabled(es[..n], e.t, a);
        var m1 := MetaOf(es, x);
        if e.write {
          assert Shared(m1) ==> a in m1.writers;
        } else {
          assert a in m1.readers;
        }
      }
    }
  }

  // ----- The alarm does go off

  /** No lock is ever acquired. */
  predicate LockFree(es: seq<Event>) {
    forall e :: e in es ==> !e.Lock? && !e.RdLock? && !e.WrLock?
  }

  predicate Touches(e: Event, x: Addr) {
    e.Mem? && e.x == x
  }

  /** The thread that made the first access to `x`, if any access was made. */
  function Owner(es: seq<Event>, x: Addr): Tid {
    if es == [] then NO_THREAD
    else
      var n := |es| - 1;
      if Touched(es[..n], x) then Owner(es[..n], x) else if Touches(es[n], x) then es[n].t else NO_THREAD
  }

  predicate Touched(es: seq<Event>, x: Addr) {
    exists e :: e in es && Touches(e, x)
  }

  /** Some thread other than the owner has accessed `x`. */
  predicate SharedIn(es: seq<Event>, x: Addr) {
    exists e :: e in es && Touches(e, x) && e.t != Owner(es, x)
  }

  /** `x` was written at or after its first access by a thread other than the owner. */
  predicate WrittenWhileShared(es: seq<Event>, x: Addr) {
    es != []
    && (var n := |es| - 1;
        WrittenWhileShared(es[..n], x) || (Touches(es[n], x) && es[n].write && SharedIn(es, x)))
  }

  lemma {:induction false} LockFreeTables(es: seq<Event>, t: Tid)
    requires LockFree(es)
    ensures Of(TablesOf(es).readers, t) == {} && Of(TablesOf(es).writers, t) == {}
  {
    if es != [] {
      var n := |es| - 1;
      assert es[n] in es && forall e :: e in es[..n] ==> e in es;
      LockFreeTables(es[..n], t);
      LockFreeTables(es[..n], es[n].t);
    }
  }

  /** What the state of an address says about the accesses made to it without locks. */
  ghost predicate StateTells(m: EraserMeta, es: seq<Event>, x: Addr) {
    && (m.state == Unknown <==> !Touched(es, x))
    && (m.state != Unknown ==> m.t == Owner(es, x))
    && (Shared(m) <==> SharedIn(es, x))
    && (m.state == SharedModified <==> m.racy)
    && m.readers == {} && m.writers == {}
  }

  lemma TouchedSnoc(es: seq<Event>, e: Event, x: Addr)
    ensures Touched(es + [e], x) <==> Touched(es, x) || Touches(e, x)
    ensures Owner(es + [e], x) ==
            if Touched(es, x) then Owner(es, x) else if Touches(e, x) then e.t else NO_THREAD
  {
  }

  lemma SharedSnoc(es: seq<Event>, e: Event, x: Addr)
    ensures SharedIn(es + [e], x) <==>
            SharedIn(es, x) || (Touches(e, x) && Touched(es, x) && e.t != Owner(es, x))
  {
  }

  /**
    Without locks the flag is exact: it is set iff the address was written by someone while, or
    when, it was accessed by a thread other than the one that accessed it first.
   */
  lemma {:induction false} LockFreeVerdict(es: seq<Event>, x: Addr)
    requires LockFree(es)
    ensures MetaOf(es, x).racy <==> WrittenWhileShared(es, x)
    ensures StateTells(MetaOf(es, x), es, x)
  {
    if es != [] {
      var n := |es| - 1;
      var e := es[n];
      assert es == es[..n] + [e];
      assert forall f :: f in es[..n] ==> f in es;
      LockFreeVerdict(es[..n], x);
      TouchedSnoc(es[..n], e, x);
      SharedSnoc(es[..n], e, x);
      LockFreeTables(es[..n], e.t);
    }
  }
}
