/** Eraser's lock tables and metas as objects. */
module EraserDetectors {
  import opened Clocks
  import opened Machine
  import opened LockSets
  import opened RwSessions
  import opened Eraser
  import opened EraserVerdicts

  ghost function KeysAt(table: map<Tid, LockSet>, t: Tid): set<Addr>
    reads table.Values
  {
    if t in table then table[t].locks.Keys else {}
  }

  /** The lock sets of all threads, each made when its thread first needs it. */
  class LockTables {
    var writers: map<Tid, LockSet>
    var readers: map<Tid, LockSet>
    var refs: map<Addr, int>
    var version: nat
    ghost var run: seq<Event>

    ghost function Sets(): set<object>
      reads this`writers, this`readers
    {
      (set t | t in writers :: writers[t] as object) + (set t | t in readers :: readers[t] as object)
    }

    /** No two entries share a lock set. */
    ghost predicate Separate()
      reads this`writers, this`readers
    {
      && (forall t, u :: t in writers && u in writers && t != u ==> writers[t] != writers[u])
      && (forall t, u :: t in readers && u in readers && t != u ==> readers[t] != readers[u])
      && (forall t, u :: t in writers && u in readers ==> writers[t] != readers[u])
    }

    ghost predicate Shows(s: Tables)
      reads this, Sets()
    {
      && Separate() && refs == s.refs
      && (forall t :: KeysAt(writers, t) == Of(s.writers, t) && KeysAt(readers, t) == Of(s.readers, t))
    }

    ghost predicate Valid()
      reads this, Sets()
    {
      Shows(TablesOf(run))
    }

    /** Every set in the tables was there before or is new. */
    twostate predicate Grown(before: set<object>)
      reads this`writers, this`readers
    {
      forall o :: o in Sets() ==> o in before || fresh(o)
    }

    constructor ()
      ensures Valid() && run == [] && Sets() == {}
    {
      writers, readers, refs, version := map[], map[], map[], 0;
      run := [];
    }

    ghost method Done(e: Event)
      requires Shows(LockStep(TablesOf(run), e))
      modifies this`run
      ensures Valid() && run == old(run) + [e]
    {
      assert (run + [e])[..|run|] == run;
      run := run + [e];
    }

    method GetWriterLockSet(t: Tid, ghost s: Tables)
      requires Shows(s)
      modifies this`writers
      ensures Shows(s) && t in writers && Grown(old(Sets()))
    {
      if t !in writers {
        var ls := new LockSet();
        writers := writers[t := ls];
      }
    }

    method GetReaderLockSet(t: Tid, ghost s: Tables)
      requires Shows(s)
      modifies this`readers
      ensures Shows(s) && t in readers && Grown(old(Sets()))
    {
      if t !in readers {
        var ls := new LockSet();
        readers := readers[t := ls];
      }
    }

    static method AddTo(table: map<Tid, LockSet>, t: Tid, a: Addr, version: nat)
      requires t in table && forall u, v :: u in table && v in table && u != v ==> table[u] != table[v]
      modifies table[t]
      ensures forall u :: KeysAt(table, u) == if u == t then old(KeysAt(table, u)) + {a} else old(KeysAt(table, u))
    {
      table[t].Add(a, version);
    }

    static method TakeFrom(table: map<Tid, LockSet>, t: Tid, a: Addr)
      requires forall u, v :: u in table && v in table && u != v ==> table[u] != table[v]
      modifies if t in table then {table[t]} else {}
      ensures forall u :: KeysAt(table, u) == if u == t then old(KeysAt(table, u)) - {a} else old(KeysAt(table, u))
    {
      if t in table {
        table[t].Remove(a);
      }
    }

    method AddWriter(t: Tid, a: Addr, ghost s: Tables)
      requires Shows(s)
      modifies this`writers, this`version, Sets()
      ensures Shows(s.(writers := s.writers[t := Of(s.writers, t) + {a}])) && Grown(old(Sets()))
    {
      GetWriterLockSet(t, s);
      version := version + 1;
      label made:
      AddTo(writers, t, a, version);
      assert forall u :: KeysAt(readers, u) == old@made(KeysAt(readers, u));
    }

    method AddReader(t: Tid, a: Addr, ghost s: Tables)
      requires Shows(s)
      modifies this`readers, this`version, Sets()
      ensures Shows(s.(readers := s.readers[t := Of(s.readers, t) + {a}])) && Grown(old(Sets()))
    {
      GetReaderLockSet(t, s);
      version := version + 1;
      label made:
      AddTo(readers, t, a, version);
      assert forall u :: KeysAt(writers, u) == old@made(KeysAt(writers, u));
    }

    /** Takes a lock out of both sets of a thread. */
    method Take(t: Tid, a: Addr, ghost s: Tables)
      requires Shows(s)
      modifies Sets()
      ensures Shows(Removed(s, t, a))
    {
      TakeFrom(writers, t, a);
      label taken:
      assert forall u :: KeysAt(readers, u) == old(KeysAt(readers, u));
      TakeFrom(readers, t, a);
      assert forall u :: KeysAt(writers, u) == old@taken(KeysAt(writers, u));
    }

    method SetRefs(refs: map<Addr, int>, ghost s: Tables)
      requires Shows(s)
      modifies this`refs
      ensures Shows(s.(refs := refs))
    {
      this.refs := refs;
    }

    method Enter(t: Tid, a: Addr, ghost s: Tables)
      requires Shows(s)
      modifies this`writers, this`readers, this`version, Sets()
      ensures Shows(Added(s, t, a, true)) && Grown(old(Sets()))
    {
      AddReader(t, a, s);
      AddWriter(t, a, s.(readers := s.readers[t := Of(s.readers, t) + {a}]));
    }

    method AfterPthreadMutexLock(t: Tid, a: Addr)
      requires Valid()
      modifies this, Sets()
      ensures Valid() && run == old(run) + [Lock(t, a)] && Grown(old(Sets()))
    {
      Enter(t, a, TablesOf(run));
      Done(Lock(t, a));
    }

    method BeforePthreadMutexUnlock(t: Tid, a: Addr)
      requires Valid()
      modifies this`run, Sets()
      ensures Valid() && run == old(run) + [Unlock(t, a)] && Grown(old(Sets()))
    {
      Take(t, a, TablesOf(run));
      Done(Unlock(t, a));
    }

    method EnterToRead(t: Tid, a: Addr, ghost s: Tables)
      requires Shows(s)
      modifies this`writers, this`readers, this`version, Sets()
      ensures Shows(Added(s, t, a, false)) && Grown(old(Sets()))
    {
      GetWriterLockSet(t, s);
      AddReader(t, a, s);
    }

    method AfterPthreadRwlockRdlock(t: Tid, a: Addr)
      requires Valid()
      modifies this, Sets()
      ensures Valid() && run == old(run) + [RdLock(t, a)] && Grown(old(Sets()))
    {
      ghost var s := TablesOf(run);
      EnterToRead(t, a, s);
      SetRefs(refs[a := if a in refs then refs[a] + 1 else 1], Added(s, t, a, false));
      Done(RdLock(t, a));
    }

    method AfterPthreadRwlockWrlock(t: Tid, a: Addr)
      requires Valid()
      modifies this, Sets()
      ensures Valid() && run == old(run) + [WrLock(t, a)] && Grown(old(Sets()))
    {
      ghost var s := TablesOf(run);
      Enter(t, a, s);
      SetRefs(refs[a := 1], Added(s, t, a, true));
      Done(WrLock(t, a));
    }

    /** The source asserts that the count is positive; under lock discipline it always is. */
    method BeforePthreadRwlockUnlock(t: Tid, a: Addr)
      requires Valid()
      modifies this, Sets()
      ensures Valid() && run == old(run) + [RwUnlock(t, a)] && Grown(old(Sets()))
      ensures WellFormed(old(run)) && Disciplined(run, a) ==> Count(old(refs), a) > 0
    {
      ghost var s := TablesOf(run);
      if WellFormed(run) && Disciplined(run + [RwUnlock(t, a)], a) {
        CountIsPositive(run, t, a);
      }
      if Count(refs, a) == 1 {
        Take(t, a, s);
        SetRefs(refs[a := Count(refs, a) - 1], Removed(s, t, a));
      } else {
        SetRefs(refs[a := Count(refs, a) - 1], s);
      }
      Done(RwUnlock(t, a));
    }

    method Handle(e: Event)
      requires Valid()
      modifies this, Sets()
      ensures Valid() && run == old(run) + [e] && Grown(old(Sets()))
    {
      match e {
        case Lock(t, a) => AfterPthreadMutexLock(t, a);
        case Unlock(t, a) => BeforePthreadMutexUnlock(t, a);
        case RdLock(t, a) => AfterPthreadRwlockRdlock(t, a);
        case WrLock(t, a) => AfterPthreadRwlockWrlock(t, a);
        case RwUnlock(t, a) => BeforePthreadRwlockUnlock(t, a);
        case _ => Done(e);
      }
    }
  }

  lemma CountIsPositive(es: seq<Event>, t: Tid, a: Addr)
    requires WellFormed(es) && Disciplined(es + [RwUnlock(t, a)], a)
    ensures Count(TablesOf(es).refs, a) > 0
  {
    assert (es + [RwUnlock(t, a)])[..|es|] == es;
    CountsHolders(es, a);
    assert |Holders(es, a)| > 0;
  }

  class EraserMeta {
    var racy: bool
    var state: State
    var thread_id: Tid
    const reader_lock_set: LockSet
    const writer_lock_set: LockSet

    ghost function Value(): Eraser.EraserMeta
      reads this, reader_lock_set, writer_lock_set
    {
      Eraser.EraserMeta(racy, state, thread_id, reader_lock_set.locks.Keys, writer_lock_set.locks.Keys)
    }

    ghost predicate Valid()
      reads this, reader_lock_set, writer_lock_set
    {
      && reader_lock_set != writer_lock_set
      && (state == Unknown ==> reader_lock_set.locks.Keys == {} && writer_lock_set.locks.Keys == {})
    }

    constructor ()
      ensures Valid() && Value() == NEW_META
      ensures fresh(reader_lock_set) && fresh(writer_lock_set)
    {
      racy, state, thread_id := false, Unknown, NO_THREAD;
      reader_lock_set := new LockSet();
      writer_lock_set := new LockSet();
    }

    ghost predicate Apart(ls: LockSet?) {
      ls != reader_lock_set && ls != writer_lock_set
    }

    /** The lock sets, if they are not missing, are the current thread's entries of the tables `s`. */
    ghost predicate Current(s: Tables, t: Tid, readers: LockSet?, writers: LockSet?)
      reads readers, writers
    {
      && Apart(readers) && Apart(writers)
      && LocksOf(readers).Keys == Of(s.readers, t) && LocksOf(writers).Keys == Of(s.writers, t)
    }

    method UpdateMemoryState(t: Tid, write: bool, readers: LockSet?, writers: LockSet?, ghost s: Tables)
      requires Valid() && Current(s, t, readers, writers)
      modifies this, reader_lock_set, writer_lock_set
      ensures Valid() && Value() == Eraser.UpdateMemoryState(old(Value()), s, t, write)
    {
      match state {
        case Unknown =>
          if write {
            state := Exclusive;
          } else {
            state := Virgin;
          }
          thread_id := t;
          if writers != null {
            writer_lock_set.Assign(writers);
          }
          if readers != null {
            reader_lock_set.Assign(readers);
          }
        case Virgin =>
          if t == thread_id && write {
            state := Exclusive;
          } else if t != thread_id {
            if !write {
              state := ReadShared;
            } else {
              state := SharedModified;
            }
          }
        case Exclusive =>
          if t != thread_id {
            if write {
              state := SharedModified;
            } else {
              state := ReadShared;
            }
          }
        case ReadShared =>
          if write {
            state := SharedModified;
          }
        case SharedModified =>
      }
    }

    method NarrowCandidates(readers: LockSet?, writers: LockSet?)
      requires reader_lock_set != writer_lock_set && Apart(readers) && Apart(writers)
      modifies reader_lock_set, writer_lock_set
      ensures reader_lock_set.locks.Keys == old(reader_lock_set.locks.Keys) * LocksOf(readers).Keys
      ensures writer_lock_set.locks.Keys == old(writer_lock_set.locks.Keys) * LocksOf(writers).Keys
    {
      reader_lock_set.Merge(readers);
      writer_lock_set.Merge(writers);
    }

    method CheckRead(readers: LockSet?, writers: LockSet?)
      modifies this`racy
      ensures racy == (old(racy) || (state == SharedModified
                && reader_lock_set.locks.Keys == {} && writer_lock_set.locks.Keys == {}
                && reader_lock_set.locks.Keys !! LocksOf(writers).Keys && writer_lock_set.locks.Keys !! LocksOf(readers).Keys))
    {
      var noReaders := reader_lock_set.Empty();
      var noWriters := writer_lock_set.Empty();
      var apart := reader_lock_set.Disjoint(writers);
      var apart2 := writer_lock_set.Disjoint(readers);
      if state == SharedModified && noReaders && noWriters && apart && apart2 {
        racy := true;
      }
    }

    method ProcessRead(t: Tid, readers: LockSet?, writers: LockSet?, ghost s: Tables)
      requires Valid() && Current(s, t, readers, writers)
      modifies this, reader_lock_set, writer_lock_set
      ensures Valid() && Value() == Eraser.ProcessRead(old(Value()), s, t)
    {
      if racy {
        return;
      }
      UpdateMemoryState(t, false, readers, writers, s);
      if state == ReadShared || state == SharedModified {
        NarrowCandidates(readers, writers);
        CheckRead(readers, writers);
      }
    }

    method ProcessWrite(t: Tid, readers: LockSet?, writers: LockSet?, ghost s: Tables)
      requires Valid() && Current(s, t, readers, writers)
      modifies this, reader_lock_set, writer_lock_set
      ensures Valid() && Value() == Eraser.ProcessWrite(old(Value()), s, t)
    {
      if racy {
        return;
      }
      UpdateMemoryState(t, true, readers, writers, s);
      if state == ReadShared || state == SharedModified {
        writer_lock_set.JoinAndMerge(reader_lock_set, writers);
        var noWriters := writer_lock_set.Empty();
        if state == SharedModified && noWriters {
          racy := true;
        }
        var apart := writer_lock_set.Disjoint(readers);
        if noWriters && state == SharedModified && apart {
          racy := true;
        }
      }
    }
  }

  /** Looks up the thread's lock sets, either of which may be missing, and handles the access. */
  method Access(m: EraserMeta, tables: LockTables, t: Tid, write: bool)
    requires m.Valid() && tables.Valid() && {m.reader_lock_set, m.writer_lock_set} !! tables.Sets()
    modifies m, m.reader_lock_set, m.writer_lock_set
    ensures m.Valid()
    ensures var s := TablesOf(tables.run);
            m.Value() == if write then Eraser.ProcessWrite(old(m.Value()), s, t) else Eraser.ProcessRead(old(m.Value()), s, t)
  {
    ghost var s := TablesOf(tables.run);
    var readers: LockSet? := if t in tables.readers then tables.readers[t] else null;
    var writers: LockSet? := if t in tables.writers then tables.writers[t] else null;
    assert KeysAt(tables.readers, t) == Of(s.readers, t) && KeysAt(tables.writers, t) == Of(s.writers, t);
    if write {
      m.ProcessWrite(t, readers, writers, s);
    } else {
      m.ProcessRead(t, readers, writers, s);
    }
  }

  /** One event of a run: an access to `x` is checked against the tables, and any event updates them. */
  method Next(m: EraserMeta, tables: LockTables, e: Event, x: Addr)
    requires m.Valid() && tables.Valid() && m.Value() == MetaOf(tables.run, x)
    requires {m.reader_lock_set, m.writer_lock_set} !! tables.Sets()
    modifies m, m.reader_lock_set, m.writer_lock_set, tables, tables.Sets()
    ensures m.Valid() && tables.Valid() && m.Value() == MetaOf(tables.run, x)
    ensures tables.run == old(tables.run) + [e] && tables.Grown(old(tables.Sets()))
    ensures {m.reader_lock_set, m.writer_lock_set} !! tables.Sets()
  {
    assert (tables.run + [e])[..|tables.run|] == tables.run;
    if e.Mem? && e.x == x {
      Access(m, tables, e.t, e.write);
    }
    tables.Handle(e);
  }

  /**
    Eraser's meta of `x`, with the lock tables, fed a whole run: it is flagged iff some access made
    while `x` is shared is unprotected. So it is quiet if one lock protects every access to `x`, and
    without locks it is flagged iff `x` was written while shared.
   */
  method Detect(es: seq<Event>, x: Addr) returns (racy: bool)
    ensures forall a :: ConsistentlyLocked(es, x, a) ==> !racy
    ensures LockFree(es) ==> (racy <==> WrittenWhileShared(es, x))
    ensures racy <==> AnyUnprotected(es, x)
    ensures OnlyWritten(es, x) ==> (racy <==> exists f, q :: NoneInCommon(es, x, f, q))
  {
    var tables := new LockTables();
    var m := new EraserMeta();
    for i := 0 to |es|
      invariant tables.Valid() && tables.run == es[..i] && m.Valid() && m.Value() == MetaOf(es[..i], x)
      invariant fresh(m.reader_lock_set) && fresh(m.writer_lock_set) && forall o :: o in tables.Sets() ==> fresh(o)
      invariant {m.reader_lock_set, m.writer_lock_set} !! tables.Sets()
    {
      Next(m, tables, es[i], x);
      assert es[..i + 1] == es[..i] + [es[i]];
    }
    assert es[..|es|] == es;
    racy := m.racy;
    forall a | ConsistentlyLocked(es, x, a) ensures !racy {
      NoAlarmUnderConsistentLocking(es, x, a);
    }
    if LockFree(es) {
      LockFreeVerdict(es, x);
    }
    Verdict(es, x);
    if OnlyWritten(es, x) {
      WriteOnlyVerdict(es, x);
    }
  }
}
