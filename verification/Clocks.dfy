/**
  Vector clocks as values: the map that `VectorClock` keeps, and the laws of its
  operations. Thread identifiers are positive; 0 means "no thread".
 */
module Clocks {
  type Tid = nat
  type Addr = nat
  type Clock = map<Tid, nat>

  /** A missing entry counts as clock 0. */
  function Get(vc: Clock, t: Tid): nat {
    if t in vc then vc[t] else 0
  }

  function Max(a: nat, b: nat): nat {
    if a > b then a else b
  }

  function Joined(a: Clock, b: Clock): Clock {
    map t | t in a.Keys + b.Keys :: Max(Get(a, t), Get(b, t))
  }

  function Ticked(vc: Clock, t: Tid): Clock {
    vc[t := Get(vc, t) + 1]
  }

  /** The comparison the source makes: it ranges over the receiver's keys only. */
  predicate HappensBefore(a: Clock, b: Clock) {
    forall t :: t in a ==> t in b && a[t] <= b[t]
  }

  /** The pointwise order of clocks. */
  ghost predicate Leq(a: Clock, b: Clock) {
    forall t :: Get(a, t) <= Get(b, t)
  }

  predicate Positive(vc: Clock) {
    forall t :: t in vc ==> 1 <= vc[t]
  }

  lemma JoinedAt(a: Clock, b: Clock, t: Tid)
    ensures Get(Joined(a, b), t) == Max(Get(a, t), Get(b, t))
  {
  }

  /** The join is the least upper bound. */
  lemma JoinedIsLeastUpperBound(a: Clock, b: Clock, c: Clock)
    ensures Leq(a, Joined(a, b)) && Leq(b, Joined(a, b))
    ensures Leq(a, c) && Leq(b, c) ==> Leq(Joined(a, b), c)
  {
  }

  lemma LeqTransitive(a: Clock, b: Clock, c: Clock)
    requires Leq(a, b) && Leq(b, c)
    ensures Leq(a, c)
  {
  }

  /** On positive clocks the key-wise comparison is the pointwise order. */
  lemma HappensBeforeIsLeq(a: Clock, b: Clock)
    requires Positive(a)
    ensures HappensBefore(a, b) <==> Leq(a, b)
  {
    if HappensBefore(a, b) {
      forall t ensures Get(a, t) <= Get(b, t) {
      }
    }
    if Leq(a, b) {
      forall t | t in a ensures t in b && a[t] <= b[t] {
        assert Get(a, t) <= Get(b, t);
      }
    }
  }

  // ----- Iteration in key order, as `std::map` iterates

  predicate Ascending(s: seq<Tid>) {
    forall i, j :: 0 <= i < j < |s| ==> s[i] < s[j]
  }

  ghost predicate IsMinimum(m: Tid, s: set<Tid>) {
    m in s && forall k :: k in s ==> m <= k
  }

  lemma {:induction false} MinimumExists(s: set<Tid>) returns (m: Tid)
    requires s != {}
    ensures IsMinimum(m, s)
  {
    m :| m in s;
    if s != {m} {
      var n := MinimumExists(s - {m});
      assert s == (s - {m}) + {m};
      if n < m {
        m := n;
      }
    }
  }

  function Minimum(s: set<Tid>): (m: Tid)
    requires s != {}
    ensures m in s && forall k :: k in s ==> m <= k
  {
    assert exists m :: m in s && forall k :: k in s ==> m <= k by {
      var m := MinimumExists(s);
      assert IsMinimum(m, s);
    }
    var m :| m in s && forall k :: k in s ==> m <= k;
    m
  }

  lemma PrependMinimum(m: Tid, q: seq<Tid>)
    requires Ascending(q) && forall t :: t in q ==> m < t
    ensures Ascending([m] + q)
    ensures forall t :: t in [m] + q <==> t == m || t in q
  {
    var p := [m] + q;
    forall i, j | 0 <= i < j < |p| ensures p[i] < p[j] {
      assert p[j] == q[j - 1] && q[j - 1] in q;
    }
  }

  function SortedSeq(s: set<Tid>): (q: seq<Tid>)
    ensures forall t :: t in q <==> t in s
    ensures Ascending(q)
    ensures |q| == |s|
  {
    if s == {} then []
    else
      var m := Minimum(s);
      var rest := SortedSeq(s - {m});
      PrependMinimum(m, rest);
      [m] + rest
  }
}
