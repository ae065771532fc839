/** Helgrind's meta as an object: a state machine that rewrites its fields in place. */
module HelgrindDetectors {
  import opened Clocks
  import opened VectorClocks
  import opened History
  import opened Helgrind
  import opened HelgrindLocks

  class HgMeta {
    var state: State
    const segment_vc: VectorClock
    var segment_thd: Tid
    var segment_write: bool
    var thread_set: set<Tid>
    var lock_set: set<Addr>
    var lastop_table: map<Tid, bool>
    var racy: bool

    ghost function Value(): Helgrind.HgMeta
      reads this, segment_vc
    {
      Helgrind.HgMeta(state, Segment(segment_vc.clocks, segment_thd, segment_write), thread_set, lock_set, lastop_table, racy)
    }

    constructor ()
      ensures Value() == NEW_META && fresh(segment_vc)
    {
      state, segment_thd, segment_write, racy := New, 0, false, false;
      thread_set, lock_set, lastop_table := {}, {}, map[];
      segment_vc := new VectorClock();
    }

    method UpdateSegment(k: Touch, curr: VectorClock)
      requires curr != segment_vc && curr.clocks == k.a.vc
      modifies this`segment_thd, this`segment_write, segment_vc
      ensures Value() == old(Value()).(segment := k.Seg())
    {
      segment_vc.Assign(curr);
      segment_thd, segment_write := k.a.t, k.a.write;
    }

    method ChangeStateNew(k: Touch, curr: VectorClock)
      requires curr != segment_vc && curr.clocks == k.a.vc && state == New
      modifies this, segment_vc
      ensures Value() == old(Value()).(state := if k.a.write then ExclusiveWrite else ExclusiveRead, segment := k.Seg())
    {
      if k.a.write {
        state := ExclusiveWrite;
      } else {
        state := ExclusiveRead;
      }
      UpdateSegment(k, curr);
    }

    method ChangeStateExclusiveRead(k: Touch, curr: VectorClock)
      requires curr != segment_vc && curr.clocks == k.a.vc && state == ExclusiveRead
      modifies this, segment_vc
      ensures Value() == FromExclusiveRead(old(Value()), k)
    {
      var after := segment_vc.HappensBefore(curr);
      if !k.a.write {
        if !after {
          if segment_thd == k.a.t {
            return;
          }
          thread_set := {segment_thd, k.a.t};
          state := SharedRead;
          lock_set := lock_set + k.held;
        } else {
          UpdateSegment(k, curr);
        }
      } else if after {
        if segment_thd == k.a.t {
          return;
        }
        UpdateSegment(k, curr);
        state := ExclusiveWrite;
      } else if k.writeHeld != {} {
        UpdateSegment(k, curr);
        state := SharedModified;
        lock_set := k.writeHeld;
        thread_set := {segment_thd};
        thread_set := thread_set + {k.a.t};
      } else {
        state := Race;
      }
    }

    method ChangeStateExclusiveWrite(k: Touch, curr: VectorClock)
      requires curr != segment_vc && curr.clocks == k.a.vc && state == ExclusiveWrite
      modifies this, segment_vc
      ensures Value() == FromExclusiveWrite(old(Value()), k)
    {
      var after := segment_vc.HappensBefore(curr);
      if after {
        if segment_thd == k.a.t {
          return;
        }
        UpdateSegment(k, curr);
        if !k.a.write {
          state := ExclusiveRead;
        }
      } else if k.Locks() != {} {
        UpdateSegment(k, curr);
        thread_set := {segment_thd};
        thread_set := thread_set + {k.a.t};
        state := SharedModified;
        if k.a.write {
          lock_set := k.writeHeld;
        } else {
          lock_set := lock_set + k.held;
        }
      } else {
        state := Race;
      }
    }

    method ChangeStateSharedRead(k: Touch, curr: VectorClock)
      requires curr != segment_vc && curr.clocks == k.a.vc && state == SharedRead
      modifies this
      ensures Value() == FromSharedRead(old(Value()), k)
    {
      lock_set := lock_set * k.Locks();
      if !k.a.write {
        thread_set := thread_set + {k.a.t};
        return;
      }
      var after := segment_vc.HappensBefore(curr);
      if lock_set != {} || after {
        state := SharedModified;
      } else if segment_thd != k.a.t {
        state := Race;
      }
    }

    method ChangeStateSharedModified(k: Touch, curr: VectorClock)
      requires curr != segment_vc && curr.clocks == k.a.vc && state == SharedModified
      modifies this, segment_vc
      ensures Value() == FromSharedModified(old(Value()), k)
    {
      lock_set := lock_set * k.Locks();
      if lock_set == {} {
        var after := segment_vc.HappensBefore(curr);
        if after {
          if k.a.write {
            state := ExclusiveWrite;
          } else {
            state := ExclusiveRead;
          }
          UpdateSegment(k, curr);
          lock_set, thread_set := {}, {};
        } else {
          state := Race;
        }
      }
    }

    method UpdateMemoryState(k: Touch, curr: VectorClock)
      requires curr != segment_vc && curr.clocks == k.a.vc
      modifies this, segment_vc
      ensures Value() == Helgrind.UpdateMemoryState(old(Value()), k)
    {
      lastop_table := lastop_table[k.a.t := k.a.write];
      match state {
        case New => ChangeStateNew(k, curr);
        case ExclusiveRead => ChangeStateExclusiveRead(k, curr);
        case ExclusiveWrite => ChangeStateExclusiveWrite(k, curr);
        case SharedRead => ChangeStateSharedRead(k, curr);
        case SharedModified => ChangeStateSharedModified(k, curr);
        case Race =>
      }
    }

    method ProcessAccess(k: Touch, curr: VectorClock)
      requires curr != segment_vc && curr.clocks == k.a.vc
      modifies this, segment_vc
      ensures Value() == Process(old(Value()), k)
    {
      if state == Race {
        return;
      }
      UpdateMemoryState(k, curr);
      if state == Race && (k.a.write || segment_write) && segment_thd != k.a.t {
        racy := true;
      }
    }

    method ForgetThread(child: Tid)
      modifies this
      ensures Value() == AfterJoin(old(Value()), child)
    {
      thread_set := thread_set - {child};
      lastop_table := lastop_table - {child};
      if |thread_set| == 1 {
        var t := Minimum(thread_set);
        if t in lastop_table {
          if lastop_table[t] {
            state := ExclusiveWrite;
          } else {
            state := ExclusiveRead;
          }
          lock_set, thread_set := {}, {};
          segment_thd, segment_write := t, lastop_table[t];
        }
      }
    }
  }

  /**
    Helgrind's meta of `x`, fed a whole history with its joins, stays quiet on ordered data and on data
    that one lock protects, and
    without locks and concurrent reads it is flagged iff two of the accesses it kept race.
   */
  method Detect(h: seq<HgEvent>, clocks: seq<VectorClock>, x: Addr) returns (racy: bool)
    requires |clocks| == |h| && forall i :: 0 <= i < |h| && h[i].Touched? ==> clocks[i].clocks == h[i].touch.a.vc
    requires Consistent(Accesses(h))
    ensures PairwiseOrdered(Accesses(h), x) ==> !racy
    ensures forall a :: ConsistentlyLocked(h, x, a) ==> !racy
    ensures LockFree(h) && ReadsOrdered(Kept(h, x), x) ==> (racy <==> HasRace(Kept(h, x), x))
  {
    var m := new HgMeta();
    for i := 0 to |h|
      invariant fresh(m.segment_vc) && m.Value() == MetaOf(h[..i], x)
    {
      assert h[..i + 1][..i] == h[..i];
      if h[i].Joined? {
        m.ForgetThread(h[i].child);
      } else if h[i].touch.a.x == x {
        m.ProcessAccess(h[i].touch, clocks[i]);
      }
    }
    assert h[..|h|] == h;
    racy := m.racy;
    forall a | ConsistentlyLocked(h, x, a) ensures !racy {
      NoAlarmUnderConsistentLocking(h, x, a);
    }
    if PairwiseOrdered(Accesses(h), x) {
      OrderedDataStaysExclusive(h, x);
    }
    if LockFree(h) && ReadsOrdered(Kept(h, x), x) {
      KeptRacesAreFlagged(h, x);
    }
  }
}
