/** MultiLock-HB's meta as an object: vectors that are pushed to and erased from while iterating. */
module MultiLockHbDetectors {
  import opened Clocks
  import opened VectorClocks
  import opened MultiLockHb

  lemma PruneSnoc(es: Entries, k: nat, e: Entry)
    requires k < |es|
    ensures Prune(es[..k + 1], e) == Prune(es[..k], e) + if Superseded(es[k], e) then [] else [es[k]]
  {
    assert es[..k + 1][..k] == es[..k];
  }

  /** The vector while it is being pruned: its first `k` entries are done. */
  ghost function PartlyPruned(es: Entries, k: nat, e: Entry): Entries
    requires k <= |es|
  {
    Prune(es[..k], e) + es[k..]
  }

  ghost function Position(es: Entries, k: nat, e: Entry): nat
    requires k <= |es|
  {
    |Prune(es[..k], e)|
  }

  lemma NextEntry(es: Entries, k: nat, e: Entry)
    requires k < |es|
    ensures var v, i := PartlyPruned(es, k, e), Position(es, k, e);
            && i < |v| && v[i] == es[k]
            && (if Superseded(es[k], e)
                then PartlyPruned(es, k + 1, e) == v[..i] + v[i + 1..] && Position(es, k + 1, e) == i
                else PartlyPruned(es, k + 1, e) == v && Position(es, k + 1, e) == i + 1)
  {
    PruneSnoc(es, k, e);
    assert es[k..][1..] == es[k + 1..];
  }

  /** Erases the entry at `i` if it is superseded, and steps over it otherwise. */
  method EraseOrSkip(v: Entries, i: nat, e: Entry) returns (v1: Entries, i1: nat)
    requires i < |v|
    ensures if Superseded(v[i], e) then v1 == v[..i] + v[i + 1..] && i1 == i else v1 == v && i1 == i + 1
  {
    if v[i].c <= e.c && e.held <= v[i].held {
      v1, i1 := v[..i] + v[i + 1..], i;
    } else {
      v1, i1 := v, i + 1;
    }
  }

  lemma Remaining(es: Entries, k: nat, e: Entry)
    requires k <= |es|
    ensures |PartlyPruned(es, k, e)| == Position(es, k, e) + |es| - k
  {
  }

  method IsRedundant(es: Entries, e: Entry) returns (r: bool)
    ensures r <==> Redundant(es, e)
  {
    for i := 0 to |es|
      invariant forall k :: 0 <= k < i ==> !(es[k].c == e.c && es[k].held <= e.held)
    {
      if es[i].c == e.c && es[i].held <= e.held {
        return true;
      }
    }
    return false;
  }

  /** Erases, in place, the superseded ones of the first `n` entries; what follows them stays. */
  method EraseSuperseded(es: Entries, n: nat, e: Entry) returns (v: Entries)
    requires n <= |es|
    ensures v == Prune(es[..n], e) + es[n..]
  {
    v := es;
    var i := 0;
    ghost var k := 0;
    while i < |v| - (|es| - n)
      invariant k <= n && v == PartlyPruned(es, k, e) && i == Position(es, k, e)
      decreases n - k
    {
      Remaining(es, k, e);
      NextEntry(es, k, e);
      v, i := EraseOrSkip(v, i, e);
      k := k + 1;
    }
    Remaining(es, k, e);
  }

  lemma Ends(es: Entries, tail: Entries, e: Entry)
    ensures Prune((es + tail)[..|es|], e) + (es + tail)[|es|..] == Prune(es, e) + tail
    ensures tail == [] ==> Prune(es, e) + tail == Prune(es, e)
  {
  }

  class MlMeta {
    var readers: map<Tid, Entries>
    var writers: map<Tid, Entries>
    var racy: bool

    ghost function Value(): MultiLockHb.MlMeta
      reads this
    {
      MultiLockHb.MlMeta(readers, writers, racy)
    }

    constructor ()
      ensures Value() == NEW_META
    {
      readers, writers, racy := map[], map[], false;
    }

    method UpdateOnRead(t: Tid, e: Entry)
      modifies this`readers
      ensures Value() == MultiLockHb.UpdateOnRead(old(Value()), t, e)
    {
      var r, w := Of(readers, t), Of(writers, t);
      var redundant := IsRedundant(r, e);
      if redundant {
        return;
      }
      redundant := IsRedundant(w, e);
      if redundant {
        return;
      }
      var v := EraseSuperseded(r + [e], |r|, e);
      Ends(r, [e], e);
      readers := readers[t := v];
    }

    method UpdateOnWrite(t: Tid, e: Entry)
      modifies this`readers, this`writers
      ensures Value() == MultiLockHb.UpdateOnWrite(old(Value()), t, e)
    {
      var r, w := Of(readers, t), Of(writers, t);
      var redundant := IsRedundant(w, e);
      if redundant {
        return;
      }
      var v := EraseSuperseded(r + [], |r|, e);
      Ends(r, [], e);
      readers := readers[t := v];
      v := EraseSuperseded(w + [e], |w|, e);
      Ends(w, [e], e);
      writers := writers[t := v];
    }

    /** Looks through one thread's list for an entry that is newer than known and shares no lock. */
    static method CheckList(es: Entries, u: Tid, curr: VectorClock, held: set<Addr>) returns (found: bool)
      ensures found <==> Unprotected(es, u, curr.clocks, held)
    {
      found := false;
      var known := curr.GetClock(u);
      for i := 0 to |es|
        invariant found <==> exists k :: 0 <= k < i && es[k].c > known && es[k].held !! held
      {
        if es[i].c > known && es[i].held !! held {
          found := true;
        }
      }
    }

    static method Check(lists: map<Tid, Entries>, t: Tid, curr: VectorClock, held: set<Addr>) returns (found: bool)
      ensures found <==> SomeUnprotected(lists, t, curr.clocks, held)
    {
      found := false;
      var ks := InOrder(lists.Keys);
      for i := 0 to |ks|
        invariant found <==> exists k :: 0 <= k < i && ks[k] != t && Unprotected(Of(lists, ks[k]), ks[k], curr.clocks, held)
      {
        assert ks[i] in ks;
        if ks[i] != t {
          var f := CheckList(lists[ks[i]], ks[i], curr, held);
          if f {
            found := true;
          }
        }
      }
      if u :| u in lists && u != t && Unprotected(lists[u], u, curr.clocks, held) {
        assert u in ks;
        var k :| 0 <= k < |ks| && ks[k] == u;
      }
      if k :| 0 <= k < |ks| && ks[k] != t && Unprotected(Of(lists, ks[k]), ks[k], curr.clocks, held) {
        assert ks[k] in ks;
      }
    }

    method ProcessRead(l: Locked, curr: VectorClock)
      requires !l.a.write && l.a.vc == curr.clocks
      modifies this
      ensures Value() == Process(old(Value()), l)
    {
      var clk := curr.GetClock(l.a.t);
      UpdateOnRead(l.a.t, Entry(clk, l.held));
      var found := Check(writers, l.a.t, curr, l.held);
      racy := racy || found;
    }

    method ProcessWrite(l: Locked, curr: VectorClock)
      requires l.a.write && l.a.vc == curr.clocks
      modifies this
      ensures Value() == Process(old(Value()), l)
    {
      var clk := curr.GetClock(l.a.t);
      UpdateOnWrite(l.a.t, Entry(clk, l.held));
      var found := Check(writers, l.a.t, curr, l.held);
      racy := racy || found;
      found := Check(readers, l.a.t, curr, l.held);
      racy := racy || found;
    }
  }

  /** The meta of `x`, fed a whole history, is flagged iff two of the accesses to `x` are unordered and share no lock. */
  method Detect(h: seq<Locked>, clocks: seq<VectorClock>, x: Addr) returns (racy: bool)
    requires |clocks| == |h| && forall i :: 0 <= i < |h| ==> clocks[i].clocks == h[i].a.vc
    ensures racy <==> HasLockRace(h, x)
  {
    var m := new MlMeta();
    for i := 0 to |h|
      invariant m.Value() == MetaOf(h[..i], x)
    {
      assert h[..i + 1][..i] == h[..i];
      if h[i].a.x == x {
        if h[i].a.write {
          m.ProcessWrite(h[i], clocks[i]);
        } else {
          m.ProcessRead(h[i], clocks[i]);
        }
      }
    }
    assert h[..|h|] == h;
    PruningIsLossless(h, x);
    racy := m.racy;
  }
}
