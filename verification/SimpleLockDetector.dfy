/** SimpleLock's and SimpleLock+'s metas as objects. */
module SimpleLockDetectors {
  import opened Clocks
  import opened VectorClocks
  import opened History
  import SL = SimpleLock
  import SLP = SimpleLockPlus

  class SlMeta {
    var readers: map<Tid, seq<SL.Stamp>>
    var writers: map<Tid, seq<SL.Stamp>>
    var racy: bool
    const maxLen: nat

    ghost function Value(): SL.SlMeta
      reads this
    {
      SL.SlMeta(readers, writers, racy)
    }

    constructor (maxLen: nat)
      ensures Value() == SL.NEW_META && this.maxLen == maxLen
    {
      this.maxLen := maxLen;
      readers, writers, racy := map[], map[], false;
    }

    /** Pushes a stamp for a new frame, dropping the oldest if the list is full, or lowers the count of the current one. */
    static method Stamped(list: seq<SL.Stamp>, clk: nat, locks: nat, maxLen: nat) returns (l: seq<SL.Stamp>)
      ensures l == SL.Recorded(list, SL.Stamp(clk, locks), maxLen)
    {
      l := list;
      if |l| == 0 || l[|l| - 1].c != clk {
        l := l + [SL.Stamp(clk, locks)];
        if |l| > maxLen {
          l := l[1..];
        }
      } else if l[|l| - 1].c == clk && l[|l| - 1].locks > locks {
        l := l[|l| - 1 := SL.Stamp(clk, locks)];
      }
    }

    static method CheckList(list: seq<SL.Stamp>, u: Tid, curr: VectorClock, locks: nat) returns (found: bool)
      ensures found <==> exists i :: 0 <= i < |list| && SL.Exposed(list[i], u, curr.clocks, locks)
    {
      found := false;
      var known := curr.GetClock(u);
      for i := 0 to |list|
        invariant found <==> exists k :: 0 <= k < i && SL.Exposed(list[k], u, curr.clocks, locks)
      {
        if list[i].c > known && (list[i].locks == 0 || locks == 0) {
          found := true;
        }
      }
    }

    /** Looks through the lists of all other threads for a stamp that is exposed to the current access. */
    static method Check(lists: map<Tid, seq<SL.Stamp>>, t: Tid, curr: VectorClock, locks: nat) returns (found: bool)
      ensures found <==> SL.SomeExposed(lists, t, curr.clocks, locks)
    {
      found := false;
      var ks := InOrder(lists.Keys);
      for i := 0 to |ks|
        invariant found <==> exists k :: 0 <= k < i && !Quiet(lists, ks[k], t, curr.clocks, locks)
      {
        assert ks[i] in ks;
        if ks[i] != t {
          var f := CheckList(lists[ks[i]], ks[i], curr, locks);
          found := found || f;
        }
      }
      if SL.SomeExposed(lists, t, curr.clocks, locks) {
        var u, j :| u in lists && u != t && 0 <= j < |lists[u]| && SL.Exposed(lists[u][j], u, curr.clocks, locks);
        assert u in ks;
        var k :| 0 <= k < |ks| && ks[k] == u;
        assert !Quiet(lists, ks[k], t, curr.clocks, locks);
      }
    }

    static predicate Quiet(lists: map<Tid, seq<SL.Stamp>>, u: Tid, t: Tid, vc: Clock, locks: nat) {
      u in lists && u != t ==> forall i :: 0 <= i < |lists[u]| ==> !SL.Exposed(lists[u][i], u, vc, locks)
    }

    method ProcessRead(k: SL.Counted, curr: VectorClock)
      requires !k.a.write && k.a.vc == curr.clocks
      modifies this
      ensures Value() == SL.Process(old(Value()), k, maxLen)
    {
      var clk := curr.GetClock(k.a.t);
      var l := Stamped(SL.Of(readers, k.a.t), clk, k.locks, maxLen);
      readers := readers[k.a.t := l];
      var found := Check(writers, k.a.t, curr, k.locks);
      racy := racy || found;
    }

    method ProcessWrite(k: SL.Counted, curr: VectorClock)
      requires k.a.write && k.a.vc == curr.clocks
      modifies this
      ensures Value() == SL.Process(old(Value()), k, maxLen)
    {
      var clk := curr.GetClock(k.a.t);
      var l := Stamped(SL.Of(writers, k.a.t), clk, k.locks, maxLen);
      writers := writers[k.a.t := l];
      var found := Check(writers, k.a.t, curr, k.locks);
      racy := racy || found;
      found := Check(readers, k.a.t, curr, k.locks);
      racy := racy || found;
    }
  }

  class SlpMeta {
    var readers: map<Tid, SLP.Flag>
    var writers: map<Tid, SLP.Flag>
    var racy: bool

    ghost function Value(): SLP.SlpMeta
      reads this
    {
      SLP.SlpMeta(readers, writers, racy)
    }

    constructor ()
      ensures Value() == SLP.NEW_META
    {
      readers, writers, racy := map[], map[], false;
    }

    static predicate Quiet(flags: map<Tid, SLP.Flag>, u: Tid, t: Tid, vc: Clock, locks: nat) {
      u in flags && u != t ==> flags[u].c <= Get(vc, u) || !(flags[u].zero || locks == 0)
    }

    static method Check(flags: map<Tid, SLP.Flag>, t: Tid, curr: VectorClock, locks: nat) returns (found: bool)
      ensures found <==> SLP.SomeExposed(flags, t, curr.clocks, locks)
    {
      found := false;
      var ks := InOrder(flags.Keys);
      for i := 0 to |ks|
        invariant found <==> exists k :: 0 <= k < i && !Quiet(flags, ks[k], t, curr.clocks, locks)
      {
        assert ks[i] in ks;
        if ks[i] != t {
          var known := curr.GetClock(ks[i]);
          if flags[ks[i]].c > known && (flags[ks[i]].zero || locks == 0) {
            found := true;
          }
        }
      }
      if SLP.SomeExposed(flags, t, curr.clocks, locks) {
        var u :| u in flags && u != t && flags[u].c > Get(curr.clocks, u) && (flags[u].zero || locks == 0);
        assert u in ks;
        var k :| 0 <= k < |ks| && ks[k] == u;
        assert !Quiet(flags, ks[k], t, curr.clocks, locks);
      }
    }

    /** Updates a thread's entry, or finds that the access adds nothing to it. */
    static method Entered(flags: map<Tid, SLP.Flag>, t: Tid, clk: nat, locks: nat)
      returns (updated: map<Tid, SLP.Flag>, redundant: bool)
      ensures redundant <==> SLP.Redundant(SLP.Of(flags, t), clk, locks)
      ensures updated == flags[t := if redundant then SLP.Of(flags, t) else SLP.Flag(clk, locks == 0)]
    {
      updated := flags;
      if t !in updated {
        updated := updated[t := SLP.Flag(0, true)];
      }
      if updated[t].c == clk && updated[t].zero {
        return updated, true;
      }
      var iszero := locks == 0;
      if updated[t].c == clk && !iszero {
        return updated, true;
      }
      return updated[t := SLP.Flag(clk, iszero)], false;
    }

    method ProcessRead(k: SL.Counted, curr: VectorClock)
      requires !k.a.write && k.a.vc == curr.clocks
      modifies this
      ensures Value() == SLP.Process(old(Value()), k)
    {
      var clk := curr.GetClock(k.a.t);
      var redundant;
      readers, redundant := Entered(readers, k.a.t, clk, k.locks);
      if redundant {
        return;
      }
      var found := Check(writers, k.a.t, curr, k.locks);
      racy := racy || found;
    }

    method ProcessWrite(k: SL.Counted, curr: VectorClock)
      requires k.a.write && k.a.vc == curr.clocks
      modifies this
      ensures Value() == SLP.Process(old(Value()), k)
    {
      var clk := curr.GetClock(k.a.t);
      var redundant;
      writers, redundant := Entered(writers, k.a.t, clk, k.locks);
      if redundant {
        return;
      }
      var found := Check(writers, k.a.t, curr, k.locks);
      var found2 := Check(readers, k.a.t, curr, k.locks);
      racy := racy || found || found2;
    }
  }

  /**
    SimpleLock's meta of `x`, fed a whole history, is flagged iff two of the accesses to `x` are in
    an unlocked race and the first is in one of the last `maxLen` frames of its thread.
   */
  method Detect(h: seq<SL.Counted>, clocks: seq<VectorClock>, x: Addr, maxLen: nat) returns (racy: bool)
    requires |clocks| == |h| && forall i :: 0 <= i < |h| ==> clocks[i].clocks == h[i].a.vc
    ensures racy <==> SL.HasRecentRace(h, x, maxLen)
  {
    var m := new SlMeta(maxLen);
    for i := 0 to |h|
      invariant m.Value() == SL.MetaOf(h[..i], x, maxLen)
    {
      assert h[..i + 1][..i] == h[..i];
      if h[i].a.x == x {
        if h[i].a.write {
          m.ProcessWrite(h[i], clocks[i]);
        } else {
          m.ProcessRead(h[i], clocks[i]);
        }
      }
    }
    assert h[..|h|] == h;
    SL.BoundedListsVerdict(h, x, maxLen);
    racy := m.racy;
  }

  /** SimpleLock+'s meta flags what SimpleLock flags with lists of length 1. */
  method DetectPlus(h: seq<SL.Counted>, clocks: seq<VectorClock>, x: Addr) returns (racy: bool)
    requires |clocks| == |h| && forall i :: 0 <= i < |h| ==> clocks[i].clocks == h[i].a.vc
    requires Consistent(SLP.Accesses(h))
    ensures racy <==> SL.HasRecentRace(h, x, 1)
  {
    var m := new SlpMeta();
    for i := 0 to |h|
      invariant m.Value() == SLP.MetaOf(h[..i], x)
    {
      assert h[..i + 1][..i] == h[..i];
      if h[i].a.x == x {
        if h[i].a.write {
          m.ProcessWrite(h[i], clocks[i]);
        } else {
          m.ProcessRead(h[i], clocks[i]);
        }
      }
    }
    assert h[..|h|] == h;
    SLP.Agree(h, x);
    SL.BoundedListsVerdict(h, x, 1);
    racy := m.racy;
  }
}
