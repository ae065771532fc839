/** The vector clock object: a sorted map that is updated in place. */
module VectorClocks {
  import opened Clocks

  /** Below everywhere the receiver has an entry, and strictly below somewhere. */
  predicate PreciselyBefore(a: Clock, b: Clock) {
    HappensBefore(a, b) && exists t :: t in a && t in b && a[t] < b[t]
  }

  /** Above everywhere the receiver has an entry; entries that only `b` has are not looked at. */
  predicate EntriesAbove(a: Clock, b: Clock) {
    forall t :: t in a ==> t in b && b[t] <= a[t]
  }

  /**
    The source's "after" is the converse of its "before" exactly between clocks with entries for the
    same threads: on ordered clocks the two agree iff neither has a thread of its own.
   */
  lemma AfterIsConverse(a: Clock, b: Clock)
    ensures HappensBefore(a, b) ==> (EntriesAbove(b, a) <==> a.Keys == b.Keys)
    ensures a.Keys == b.Keys ==> (EntriesAbove(b, a) <==> HappensBefore(a, b))
  {
  }

  lemma AfterMissesNewThreads()
    ensures exists a: Clock, b: Clock :: HappensBefore(a, b) && !EntriesAbove(b, a) && a.Keys < b.Keys
  {
    var a, b: Clock := map[1 := 1], map[1 := 1, 2 := 1];
    assert 2 in b && 2 !in a;
    assert HappensBefore(a, b) && !EntriesAbove(b, a) && a.Keys < b.Keys;
  }

  /** Precisely before is before and not also above: the strict part of the order on the entries of the receiver. */
  lemma PreciselyBeforeIsStrict(a: Clock, b: Clock)
    ensures PreciselyBefore(a, b) <==> HappensBefore(a, b) && !EntriesAbove(a, b)
    ensures PreciselyBefore(a, b) ==> !HappensBefore(b, a)
    ensures a.Keys == b.Keys ==> (PreciselyBefore(a, b) <==> HappensBefore(a, b) && a != b)
  {
  }

  /** The keys of a clock in ascending order, as its iterator visits them. */
  method InOrder(s: set<Tid>) returns (q: seq<Tid>)
    ensures Ascending(q) && |q| == |s|
    ensures forall t :: t in q <==> t in s
  {
    q := SortedSeq(s);
  }

  predicate AllBelow(s: seq<Tid>, t: Tid) {
    forall m :: 0 <= m < |s| ==> s[m] < t
  }

  /** Moves an iterator over `vs` to the first key that is not below `t`. */
  method Seek(vs: seq<Tid>, j: nat, t: Tid) returns (k: nat)
    requires j <= |vs| && AllBelow(vs[..j], t)
    ensures j <= k <= |vs| && AllBelow(vs[..k], t)
    ensures k < |vs| ==> t <= vs[k]
  {
    k := j;
    while k < |vs| && vs[k] < t
      invariant j <= k <= |vs| && AllBelow(vs[..k], t)
    {
      k := k + 1;
    }
  }

  /** If the iterator stops beyond `t`, then `t` is no key. */
  lemma NotBetween(s: seq<Tid>, j: nat, t: Tid)
    requires Ascending(s) && j <= |s| && AllBelow(s[..j], t)
    requires j < |s| ==> t <= s[j]
    ensures t in s <==> j < |s| && s[j] == t
  {
  }

  lemma NextKey(ks: seq<Tid>, i: nat, vs: seq<Tid>, j: nat)
    requires Ascending(ks) && Ascending(vs)
    requires 0 < i <= |ks| && 0 < j <= |vs| && vs[j - 1] == ks[i - 1]
    ensures i < |ks| ==> AllBelow(vs[..j], ks[i])
  {
  }

  lemma TailKeys(p: seq<Tid>)
    requires Ascending(p) && p != []
    ensures forall t :: t in p[1..] <==> t in p && t != p[0]
  {
  }

  lemma {:induction false} SortedIsUnique(p: seq<Tid>, q: seq<Tid>)
    requires Ascending(p) && Ascending(q) && |p| == |q|
    requires forall t :: t in p <==> t in q
    ensures p == q
  {
    if p != [] {
      assert p[0] in q && q[0] in p;
      assert p[0] == q[0];
      TailKeys(p);
      TailKeys(q);
      SortedIsUnique(p[1..], q[1..]);
    }
  }

  predicate Agree(a: Clock, b: Clock, ks: seq<Tid>, vs: seq<Tid>, n: nat)
    requires n <= |ks| && n <= |vs|
  {
    forall k :: 0 <= k < n ==> ks[k] == vs[k] && Get(a, ks[k]) == Get(b, vs[k])
  }

  lemma SameEntries(a: Clock, b: Clock, ks: seq<Tid>, vs: seq<Tid>)
    requires |ks| == |vs| && Agree(a, b, ks, vs, |ks|)
    requires forall t :: t in ks <==> t in a.Keys
    requires forall t :: t in vs <==> t in b.Keys
    ensures a == b
  {
  }

  lemma Differ(a: Clock, b: Clock, ks: seq<Tid>, vs: seq<Tid>, i: nat)
    requires Ascending(ks) && Ascending(vs) && |ks| == |vs| && i < |ks|
    requires forall t :: t in ks <==> t in a.Keys
    requires forall t :: t in vs <==> t in b.Keys
    requires ks[i] != vs[i] || Get(a, ks[i]) != Get(b, vs[i])
    ensures a != b
  {
    if a == b {
      SortedIsUnique(ks, vs);
    }
  }

  ghost function KeysUpTo(ks: seq<Tid>, n: nat): set<Tid>
    requires n <= |ks|
  {
    if n == 0 then {} else KeysUpTo(ks, n - 1) + {ks[n - 1]}
  }

  lemma {:induction false} KeysUpToAre(ks: seq<Tid>, n: nat)
    requires n <= |ks|
    ensures forall t :: t in KeysUpTo(ks, n) <==> t in ks[..n]
  {
    if n > 0 {
      KeysUpToAre(ks, n - 1);
      assert ks[..n] == ks[..n - 1] + [ks[n - 1]];
    }
  }

  lemma NextIsNew(ks: seq<Tid>, n: nat)
    requires Ascending(ks) && n < |ks|
    ensures ks[n] !in KeysUpTo(ks, n)
    ensures forall t :: t in KeysUpTo(ks, n) ==> t in ks
  {
    KeysUpToAre(ks, n);
  }

  lemma AllKeys(ks: seq<Tid>, keys: set<Tid>)
    requires forall t :: t in ks <==> t in keys
    ensures KeysUpTo(ks, |ks|) == keys
  {
    KeysUpToAre(ks, |ks|);
    assert ks[..|ks|] == ks;
  }

  /** `b` has been joined into `a` for the threads `done`. */
  function PartlyJoined(a: Clock, b: Clock, done: set<Tid>): Clock {
    map t | t in a.Keys + done :: if t in done then Max(Get(a, t), Get(b, t)) else a[t]
  }

  lemma JoinNext(a: Clock, b: Clock, done: set<Tid>, t: Tid)
    requires t !in done
    ensures PartlyJoined(a, b, done + {t}) == PartlyJoined(a, b, done)[t := Max(Get(a, t), Get(b, t))]
  {
  }

  lemma JoinDone(a: Clock, b: Clock)
    ensures PartlyJoined(a, b, {}) == a && PartlyJoined(a, b, b.Keys) == Joined(a, b)
  {
  }

  lemma JoinNextKey(a: Clock, b: Clock, ks: seq<Tid>, i: nat)
    requires Ascending(ks) && i < |ks| && forall t :: t in ks <==> t in b.Keys
    ensures ks[i] in b
    ensures var before, t := PartlyJoined(a, b, KeysUpTo(ks, i)), ks[i];
            PartlyJoined(a, b, KeysUpTo(ks, i + 1)) == before[t := Max(Get(before, t), b[t])]
  {
    var done := KeysUpTo(ks, i);
    assert ks[i] in ks;
    NextIsNew(ks, i);
    JoinNext(a, b, done, ks[i]);
  }

  predicate BelowFor(a: Clock, b: Clock, ts: set<Tid>) {
    forall t :: t in ts ==> t in a && t in b && a[t] <= b[t]
  }

  predicate SomeBelow(a: Clock, b: Clock, ts: set<Tid>) {
    exists t :: t in ts && t in a && t in b && a[t] < b[t]
  }

  lemma NextBelow(a: Clock, b: Clock, ks: seq<Tid>, i: nat)
    requires i < |ks| && ks[i] in a && ks[i] in b && a[ks[i]] <= b[ks[i]]
    ensures BelowFor(a, b, KeysUpTo(ks, i)) ==> BelowFor(a, b, KeysUpTo(ks, i + 1))
    ensures SomeBelow(a, b, KeysUpTo(ks, i + 1)) <==> SomeBelow(a, b, KeysUpTo(ks, i)) || a[ks[i]] < b[ks[i]]
  {
  }

  /** All keys taken together decide. */
  lemma PreciseForAll(a: Clock, b: Clock)
    requires BelowFor(a, b, a.Keys)
    ensures PreciselyBefore(a, b) <==> SomeBelow(a, b, a.Keys)
  {
  }

  lemma NotBelowAt(a: Clock, b: Clock, t: Tid)
    requires t in a && !(t in b && a[t] <= b[t])
    ensures !HappensBefore(a, b)
  {
  }

  class VectorClock {
    var clocks: Clock

    constructor ()
      ensures clocks == map[]
    {
      clocks := map[];
    }

    method HappensBefore(vc: VectorClock) returns (r: bool)
      ensures r <==> Clocks.HappensBefore(clocks, vc.clocks)
    {
      var ks := InOrder(clocks.Keys);
      var vs := InOrder(vc.clocks.Keys);
      var i, j := 0, 0;
      while i < |ks|
        invariant 0 <= i <= |ks| && j <= |vs|
        invariant BelowFor(clocks, vc.clocks, KeysUpTo(ks, i))
        invariant i < |ks| ==> AllBelow(vs[..j], ks[i])
      {
        assert ks[i] in ks;
        j := Seek(vs, j, ks[i]);
        NotBetween(vs, j, ks[i]);
        if !(j < |vs| && vs[j] == ks[i] && clocks[ks[i]] <= vc.clocks[ks[i]]) {
          return false;
        }
        NextBelow(clocks, vc.clocks, ks, i);
        j := j + 1;
        i := i + 1;
        NextKey(ks, i, vs, j);
      }
      AllKeys(ks, clocks.Keys);
      return true;
    }

    method PreciseHappensBefore(vc: VectorClock) returns (r: bool)
      ensures r <==> PreciselyBefore(clocks, vc.clocks)
    {
      var ks := InOrder(clocks.Keys);
      var vs := InOrder(vc.clocks.Keys);
      var i, j := 0, 0;
      var precise := false;
      while i < |ks|
        invariant 0 <= i <= |ks| && j <= |vs|
        invariant BelowFor(clocks, vc.clocks, KeysUpTo(ks, i))
        invariant i < |ks| ==> AllBelow(vs[..j], ks[i])
        invariant precise <==> SomeBelow(clocks, vc.clocks, KeysUpTo(ks, i))
      {
        assert ks[i] in ks;
        j := Seek(vs, j, ks[i]);
        NotBetween(vs, j, ks[i]);
        if !(j < |vs| && vs[j] == ks[i] && clocks[ks[i]] <= vc.clocks[ks[i]]) {
          NotBelowAt(clocks, vc.clocks, ks[i]);
          return false;
        }
        NextBelow(clocks, vc.clocks, ks, i);
        if vc.clocks[vs[j]] > clocks[ks[i]] {
          precise := true;
        }
        j := j + 1;
        i := i + 1;
        NextKey(ks, i, vs, j);
      }
      AllKeys(ks, clocks.Keys);
      PreciseForAll(clocks, vc.clocks);
      return precise;
    }

    method HappensAfter(vc: VectorClock) returns (r: bool)
      ensures r <==> EntriesAbove(clocks, vc.clocks)
    {
      var ks := InOrder(clocks.Keys);
      var vs := InOrder(vc.clocks.Keys);
      var i, j := 0, 0;
      while i < |ks|
        invariant 0 <= i <= |ks| && j <= |vs|
        invariant forall k :: 0 <= k < i ==> ks[k] in vc.clocks && vc.clocks[ks[k]] <= clocks[ks[k]]
        invariant i < |ks| ==> AllBelow(vs[..j], ks[i])
      {
        assert ks[i] in ks;
        j := Seek(vs, j, ks[i]);
        if !(j < |vs| && vs[j] == ks[i] && vc.clocks[ks[i]] <= clocks[ks[i]]) {
          NotBetween(vs, j, ks[i]);
          return false;
        }
        j := j + 1;
        i := i + 1;
        NextKey(ks, i, vs, j);
      }
      forall t | t in clocks ensures t in vc.clocks && vc.clocks[t] <= clocks[t] {
        assert t in ks;
      }
      return true;
    }

    method JoinEntry(t: Tid, c: nat)
      modifies this
      ensures clocks == old(clocks)[t := Max(Get(old(clocks), t), c)]
    {
      if t !in clocks {
        clocks := clocks[t := c];
      } else {
        clocks := clocks[t := Max(c, clocks[t])];
      }
    }

    /** Joining a clock with itself is allowed and changes nothing. */
    method Join(vc: VectorClock)
      modifies this
      ensures clocks == Joined(old(clocks), old(vc.clocks))
    {
      ghost var mine := clocks;
      var theirs := vc.clocks;
      var ks := InOrder(theirs.Keys);
      JoinDone(mine, theirs);
      for i := 0 to |ks|
        invariant clocks == PartlyJoined(mine, theirs, KeysUpTo(ks, i))
      {
        JoinNextKey(mine, theirs, ks, i);
        JoinEntry(ks[i], theirs[ks[i]]);
      }
      AllKeys(ks, theirs.Keys);
    }

    method Increment(t: Tid)
      modifies this
      ensures clocks == Ticked(old(clocks), t)
    {
      if t !in clocks {
        clocks := clocks[t := 1];
      } else {
        clocks := clocks[t := clocks[t] + 1];
      }
    }

    method GetClock(t: Tid) returns (c: nat)
      ensures c == Get(clocks, t)
    {
      if t !in clocks {
        return 0;
      }
      return clocks[t];
    }

    method SetClock(t: Tid, c: nat)
      modifies this
      ensures clocks == old(clocks)[t := c]
    {
      clocks := clocks[t := c];
    }

    method Equal(vc: VectorClock) returns (r: bool)
      ensures r <==> clocks == vc.clocks
    {
      if |clocks| != |vc.clocks| {
        return false;
      }
      var ks := InOrder(clocks.Keys);
      var vs := InOrder(vc.clocks.Keys);
      ghost var a, b := clocks, vc.clocks;
      for i := 0 to |ks|
        invariant Agree(a, b, ks, vs, i)
      {
        assert ks[i] in ks && vs[i] in vs;
        if ks[i] != vs[i] || clocks[ks[i]] != vc.clocks[vs[i]] {
          Differ(a, b, ks, vs, i);
          return false;
        }
      }
      SameEntries(a, b, ks, vs);
      return true;
    }

    method Assign(vc: VectorClock)
      modifies this
      ensures clocks == old(vc.clocks)
    {
      clocks := vc.clocks;
    }

    method Erase(t: Tid)
      modifies this
      ensures clocks == old(clocks) - {t}
    {
      clocks := clocks - {t};
    }

    method Clear()
      modifies this
      ensures clocks == map[]
    {
      clocks := map[];
    }
  }
}
