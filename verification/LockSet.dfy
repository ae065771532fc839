/** Lock sets: sorted maps from lock addresses to the version at which each lock was acquired. */
module LockSets {
  import opened Clocks
  import opened VectorClocks

  type Locks = map<Addr, nat>

  /** `s` without those of its locks `done` that `other` lacks. */
  function Narrowed(s: Locks, other: set<Addr>, done: set<Addr>): Locks {
    map a | a in s && (a in done ==> a in other) :: s[a]
  }

  lemma NarrowStep(s: Locks, other: set<Addr>, ks: seq<Addr>, i: nat)
    requires Ascending(ks) && i < |ks| && forall a :: a in ks <==> a in s.Keys
    ensures Narrowed(s, other, KeysUpTo(ks, i + 1)) ==
            if ks[i] in other then Narrowed(s, other, KeysUpTo(ks, i)) else Narrowed(s, other, KeysUpTo(ks, i)) - {ks[i]}
  {
  }

  lemma NarrowDone(s: Locks, other: Locks)
    ensures Narrowed(s, other.Keys, {}) == s
    ensures Narrowed(s, other.Keys, s.Keys) == map a | a in s && a in other :: s[a]
  {
  }

  /** `s` with those of `other`'s locks `done` that it lacks. */
  function Widened(s: Locks, other: Locks, done: set<Addr>): Locks {
    (map a | a in other && a in done :: other[a]) + s
  }

  lemma WidenStep(s: Locks, other: Locks, ks: seq<Addr>, i: nat)
    requires Ascending(ks) && i < |ks| && forall a :: a in ks <==> a in other.Keys
    ensures ks[i] in other
    ensures Widened(s, other, KeysUpTo(ks, i + 1)) ==
            if ks[i] in Widened(s, other, KeysUpTo(ks, i)) then Widened(s, other, KeysUpTo(ks, i))
            else Widened(s, other, KeysUpTo(ks, i))[ks[i] := other[ks[i]]]
  {
    assert ks[i] in ks;
    NextIsNew(ks, i);
  }

  lemma WidenDone(s: Locks, other: Locks)
    ensures Widened(s, other, {}) == s && Widened(s, other, other.Keys) == other + s
  {
  }

  lemma SameSizeSubset(a: set<Addr>, b: set<Addr>)
    requires a <= b && |a| == |b|
    ensures a == b
  {
    assert b == a + (b - a);
    assert |b - a| == 0;
  }

  /** The locks of a set that may be missing: a thread without a table has none. */
  ghost function LocksOf(ls: LockSet?): Locks
    reads ls
  {
    if ls == null then map[] else ls.locks
  }

  class LockSet {
    var locks: Locks

    constructor ()
      ensures locks == map[]
    {
      locks := map[];
    }

    method Empty() returns (r: bool)
      ensures r <==> locks.Keys == {}
    {
      r := |locks| == 0;
    }

    method Assign(ls: LockSet)
      modifies this
      ensures locks == old(ls.locks)
    {
      locks := ls.locks;
    }

    method Add(a: Addr, version: nat)
      modifies this
      ensures locks == old(locks)[a := version]
    {
      locks := locks[a := version];
    }

    method Remove(a: Addr)
      modifies this
      ensures locks == old(locks) - {a}
    {
      if a in locks {
        locks := locks - {a};
      }
    }

    /** The same locks, whatever their versions; nothing matches a missing set. */
    method Match(ls: LockSet?) returns (r: bool)
      ensures r <==> ls != null && locks.Keys == ls.locks.Keys
    {
      if ls == null || |locks.Keys| != |ls.locks.Keys| {
        return false;
      }
      r := SubLockSet(ls);
      if r {
        SameSizeSubset(locks.Keys, ls.locks.Keys);
      }
    }

    method Disjoint(ls: LockSet?) returns (r: bool)
      ensures r <==> locks.Keys !! LocksOf(ls).Keys
    {
      if ls == null {
        return true;
      }
      var ks := InOrder(locks.Keys);
      for i := 0 to |ks|
        invariant KeysUpTo(ks, i) !! ls.locks.Keys
      {
        assert ks[i] in ks;
        if ks[i] in ls.locks {
          return false;
        }
      }
      AllKeys(ks, locks.Keys);
      return true;
    }

    /** No lock of the receiver is held by both others since the same acquisition. */
    method DisjointFromBoth(ls1: LockSet?, ls2: LockSet?) returns (r: bool)
      ensures r <==> forall a :: a in locks && a in LocksOf(ls1) && a in LocksOf(ls2) ==> LocksOf(ls1)[a] != LocksOf(ls2)[a]
    {
      if ls1 == null || ls2 == null {
        return true;
      }
      var ks := InOrder(locks.Keys);
      for i := 0 to |ks|
        invariant forall k :: 0 <= k < i && ks[k] in ls1.locks && ks[k] in ls2.locks ==> ls1.locks[ks[k]] != ls2.locks[ks[k]]
      {
        assert ks[i] in ks;
        if ks[i] in ls1.locks && ks[i] in ls2.locks && ls1.locks[ks[i]] == ls2.locks[ks[i]] {
          return false;
        }
      }
      forall a | a in locks && a in ls1.locks && a in ls2.locks ensures ls1.locks[a] != ls2.locks[a] {
        assert a in ks;
      }
      return true;
    }

    /** No set is a subset of a missing one, not even an empty one. */
    method SubLockSet(ls: LockSet?) returns (r: bool)
      ensures r <==> ls != null && locks.Keys <= ls.locks.Keys
    {
      if ls == null {
        return false;
      }
      var ks := InOrder(locks.Keys);
      for i := 0 to |ks|
        invariant KeysUpTo(ks, i) <= ls.locks.Keys
      {
        assert ks[i] in ks;
        if ks[i] !in ls.locks {
          return false;
        }
      }
      AllKeys(ks, locks.Keys);
      return true;
    }

    /** Intersection, in place; merging with a missing set clears the receiver. */
    method Merge(ls: LockSet?)
      modifies this
      ensures locks == map a | a in old(locks) && a in old(LocksOf(ls)) :: old(locks)[a]
    {
      if ls == null {
        locks := map[];
        return;
      }
      ghost var mine := locks;
      var theirs := ls.locks;
      var ks := InOrder(locks.Keys);
      NarrowDone(mine, theirs);
      for i := 0 to |ks|
        invariant locks == Narrowed(mine, theirs.Keys, KeysUpTo(ks, i))
      {
        NarrowStep(mine, theirs.Keys, ks, i);
        if ks[i] !in theirs {
          locks := locks - {ks[i]};
        }
      }
      AllKeys(ks, mine.Keys);
    }

    method AddMissing(a: Addr, version: nat)
      modifies this
      ensures locks == if a in old(locks) then old(locks) else old(locks)[a := version]
    {
      if a !in locks {
        locks := locks[a := version];
      }
    }

    /** Union, in place; locks already present keep their version. */
    method Join(ls: LockSet?)
      modifies this
      ensures locks == old(LocksOf(ls)) + old(locks)
    {
      if ls == null {
        return;
      }
      ghost var mine := locks;
      var theirs := ls.locks;
      var ks := InOrder(theirs.Keys);
      WidenDone(mine, theirs);
      for i := 0 to |ks|
        invariant locks == Widened(mine, theirs, KeysUpTo(ks, i))
      {
        WidenStep(mine, theirs, ks, i);
        AddMissing(ks[i], theirs[ks[i]]);
      }
      AllKeys(ks, theirs.Keys);
    }

    /** Joins the first set, then keeps only what the second one also has; own versions win over joined ones. */
    method JoinAndMerge(joint: LockSet?, ls: LockSet?)
      modifies this
      ensures var joined := old(LocksOf(joint)) + old(locks);
              locks == if ls == this then joined else map a | a in joined && a in old(LocksOf(ls)) :: joined[a]
    {
      Join(joint);
      Merge(ls);
    }
  }
}
