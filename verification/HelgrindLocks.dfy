/** What Helgrind does with locks: the shared states, told from the history of accesses and joins. */
module HelgrindLocks {
  import opened Clocks
  import opened History
  import opened Machine
  import opened Scenarios
  import opened Helgrind
  import Verdicts

  predicate IsShared(m: HgMeta) {
    m.state == SharedRead || m.state == SharedModified
  }

  predicate IsExclusive(m: HgMeta) {
    m.state == ExclusiveRead || m.state == ExclusiveWrite
  }

  // ----- No alarm under consistent locking

  /** One lock protects every access to `x`. */
  predicate ConsistentlyLocked(h: seq<HgEvent>, x: Addr, a: Addr) {
    forall i :: 0 <= i < |h| && Touches(h[i], x) ==> a in h[i].touch.Locks()
  }

  /**
    An address with one lock that protects all its accesses is never flagged, whatever the clocks
    are and whenever threads are joined.
   */
  lemma {:induction false} NoAlarmUnderConsistentLocking(h: seq<HgEvent>, x: Addr, a: Addr)
    requires ConsistentlyLocked(h, x, a)
    ensures !MetaOf(h, x).racy && MetaOf(h, x).state != Race
    ensures IsShared(MetaOf(h, x)) ==> a in MetaOf(h, x).locks
  {
    if h != [] {
      var n := |h| - 1;
      NoAlarmUnderConsistentLocking(h[..n], x, a);
      if Touches(h[n], x) {
        ProtectedAccess(MetaOf(h[..n], x), h[n].touch, a);
      }
    }
  }

  lemma ProtectedAccess(m: HgMeta, k: Touch, a: Addr)
    requires m.state != Race && !m.racy && (IsShared(m) ==> a in m.locks) && a in k.Locks()
    ensures var m1 := Process(m, k); m1.state != Race && !m1.racy && (IsShared(m1) ==> a in m1.locks)
  {
    assert IsShared(m) ==> a in m.locks * k.Locks();
  }

  // ----- Sharing, from the access that began it

  predicate SharedAt(h: seq<HgEvent>, x: Addr, i: nat)
    requires i <= |h|
  {
    IsShared(MetaOf(h[..i], x))
  }

  /** The address has been shared ever since event `p`, an access to it that found it exclusive. */
  ghost predicate SharedSince(h: seq<HgEvent>, x: Addr, p: nat) {
    && p < |h| && Touches(h[p], x) && IsExclusive(MetaOf(h[..p], x))
    && forall i :: p < i <= |h| ==> SharedAt(h, x, i)
  }

  /** Lock `a` protects every access since `p`. */
  ghost predicate Common(h: seq<HgEvent>, x: Addr, p: nat, a: Addr) {
    forall i :: p <= i < |h| && Touches(h[i], x) ==> a in h[i].touch.Locks()
  }

  /** The segment that sharing began with: that of a conflicting access `p`, or the one that `p` read after. */
  function FirstSegment(h: seq<HgEvent>, x: Addr, p: nat): Segment
    requires p < |h| && h[p].Touched?
  {
    if MetaOf(h[..p + 1], x).state == SharedRead then MetaOf(h[..p], x).segment else h[p].touch.Seg()
  }

  /**
    Event `i` adds thread `t` to those that share the address since `p`: the first two readers and
    later ones, or the thread of the access that conflicts with the segment.
   */
  predicate Adds(h: seq<HgEvent>, x: Addr, p: nat, i: nat, t: Tid)
    requires p <= i < |h|
  {
    && Touches(h[i], x)
    && if i == p then t == h[p].touch.a.t || (MetaOf(h[..p + 1], x).state == SharedRead && t == MetaOf(h[..p], x).segment.t)
       else MetaOf(h[..i], x).state == SharedRead && !h[i].touch.a.write && t == h[i].touch.a.t
  }

  predicate NotJoinedAfter(h: seq<HgEvent>, i: nat, t: Tid) {
    forall j :: i < j < |h| ==> h[j] != Joined(t)
  }

  ghost predicate Shares(h: seq<HgEvent>, x: Addr, p: nat, t: Tid) {
    exists i {:trigger Adds(h, x, p, i, t)} :: p <= i < |h| && Adds(h, x, p, i, t) && NotJoinedAfter(h, i, t)
  }

  /** What a shared meta says about the history since `p`. */
  ghost predicate Tells(m: HgMeta, h: seq<HgEvent>, x: Addr, p: nat) {
    && SharedSince(h, x, p)
    && m.segment == FirstSegment(h, x, p)
    && (forall a :: a in m.locks <==> Common(h, x, p, a))
    && (forall t :: t in m.threads <==> Shares(h, x, p, t))
  }

  lemma SharedAtSnoc(h: seq<HgEvent>, e: HgEvent, x: Addr, i: nat)
    requires i <= |h|
    ensures (h + [e])[..i] == h[..i] && (SharedAt(h + [e], x, i) <==> SharedAt(h, x, i))
  {
  }

  lemma SharedSinceSnoc(h: seq<HgEvent>, e: HgEvent, x: Addr, p: nat)
    requires p < |h|
    ensures SharedSince(h + [e], x, p) <==> SharedSince(h, x, p) && IsShared(MetaOf(h + [e], x))
  {
    var g := h + [e];
    SharedAtSnoc(h, e, x, p);
    assert SharedAt(g, x, |g|) <==> IsShared(MetaOf(g, x)) by {
      assert g[..|g|] == g;
    }
    forall i | p < i <= |h| ensures SharedAt(g, x, i) <==> SharedAt(h, x, i) {
      SharedAtSnoc(h, e, x, i);
    }
  }

  lemma FirstSegmentSnoc(h: seq<HgEvent>, e: HgEvent, x: Addr, p: nat)
    requires p < |h| && h[p].Touched?
    ensures FirstSegment(h + [e], x, p) == FirstSegment(h, x, p)
  {
    SharedAtSnoc(h, e, x, p);
    SharedAtSnoc(h, e, x, p + 1);
  }

  lemma CommonSnoc(h: seq<HgEvent>, e: HgEvent, x: Addr, p: nat, a: Addr)
    requires p <= |h|
    ensures Common(h + [e], x, p, a) <==> Common(h, x, p, a) && (Touches(e, x) ==> a in e.touch.Locks())
  {
    var g := h + [e];
    assert g[|h|] == e;
    if Common(g, x, p, a) {
      forall i | p <= i < |h| && Touches(h[i], x) ensures a in h[i].touch.Locks() {
        assert g[i] == h[i];
      }
    }
  }

  lemma AddsBefore(h: seq<HgEvent>, e: HgEvent, x: Addr, p: nat, i: nat, t: Tid)
    requires p <= i < |h|
    ensures Adds(h + [e], x, p, i, t) <==> Adds(h, x, p, i, t)
    ensures NotJoinedAfter(h + [e], i, t) <==> NotJoinedAfter(h, i, t) && e != Joined(t)
  {
    var g := h + [e];
    assert g[..p] == h[..p] && g[..p + 1] == h[..p + 1] && g[..i] == h[..i] && g[|h|] == e;
    forall j | i < j < |h| ensures g[j] == h[j] {
    }
  }

  lemma SharesSnoc(h: seq<HgEvent>, e: HgEvent, x: Addr, p: nat, t: Tid)
    requires p < |h|
    ensures Shares(h + [e], x, p, t) <==>
            (Shares(h, x, p, t) && e != Joined(t))
            || (Touches(e, x) && MetaOf(h, x).state == SharedRead && !e.touch.a.write && t == e.touch.a.t)
  {
    var g := h + [e];
    assert g[..|h|] == h && g[|h|] == e;
    assert Adds(g, x, p, |h|, t) <==>
           (Touches(e, x) && MetaOf(h, x).state == SharedRead && !e.touch.a.write && t == e.touch.a.t);
    assert NotJoinedAfter(g, |h|, t);
    if Shares(h, x, p, t) && e != Joined(t) {
      var i :| p <= i < |h| && Adds(h, x, p, i, t) && NotJoinedAfter(h, i, t);
      AddsBefore(h, e, x, p, i, t);
    }
    if Shares(g, x, p, t) {
      var i :| p <= i < |g| && Adds(g, x, p, i, t) && NotJoinedAfter(g, i, t);
      if i < |h| {
        AddsBefore(h, e, x, p, i, t);
      }
    }
  }

  // ----- The state of a shared address

  /** Locks and threads are kept only while they matter. */
  predicate Unburdened(m: HgMeta) {
    m.state == New || IsExclusive(m) ==> m.locks == {} && m.threads == {}
  }

  lemma AccessUnburdens(m: HgMeta, k: Touch)
    requires Unburdened(m)
    ensures Unburdened(Process(m, k)) && Process(m, k).state != New
  {
  }

  lemma {:induction false} ExclusiveHasNoLocks(h: seq<HgEvent>, x: Addr)
    ensures Unburdened(MetaOf(h, x))
  {
    if h != [] {
      var n := |h| - 1;
      ExclusiveHasNoLocks(h[..n], x);
      if Touches(h[n], x) {
        AccessUnburdens(MetaOf(h[..n], x), h[n].touch);
      }
    }
  }

  /** The access that makes an exclusive address shared. */
  lemma FirstSharing(m: HgMeta, k: Touch)
    requires IsExclusive(m) && Unburdened(m) && IsShared(Process(m, k))
    ensures var m1 := Process(m, k);
            && m1.locks == k.Locks()
            && m1.segment == (if m1.state == SharedRead then m.segment else k.Seg())
            && m1.threads == {k.a.t} + if m1.state == SharedRead then {m.segment.t} else {}
  {
  }

  lemma SharingBegins(h: seq<HgEvent>, k: Touch)
    requires IsExclusive(MetaOf(h, k.a.x)) && IsShared(MetaOf(h + [Touched(k)], k.a.x))
    ensures Tells(MetaOf(h + [Touched(k)], k.a.x), h + [Touched(k)], k.a.x, |h|)
  {
    var x, p, g := k.a.x, |h|, h + [Touched(k)];
    var m, m1 := MetaOf(h, x), MetaOf(g, x);
    ExclusiveHasNoLocks(h, x);
    FirstSharing(m, k);
    SharedAtSnoc(h, Touched(k), x, p);
    assert g[..p + 1] == g && g[p] == Touched(k);
    forall a ensures a in k.Locks() <==> Common(g, x, p, a) {
      assert g[p].touch == k;
    }
    forall t ensures t in m1.threads <==> Shares(g, x, p, t) {
      SharesAtOnce(g, x, p, t);
    }
  }

  lemma SharesAtOnce(h: seq<HgEvent>, x: Addr, p: nat, t: Tid)
    requires |h| == p + 1
    ensures Shares(h, x, p, t) <==> Adds(h, x, p, p, t)
  {
  }

  lemma SharedAccessTells(h: seq<HgEvent>, k: Touch, p: nat)
    requires IsShared(MetaOf(h, k.a.x)) && Tells(MetaOf(h, k.a.x), h, k.a.x, p)
    requires IsShared(MetaOf(h + [Touched(k)], k.a.x))
    ensures Tells(MetaOf(h + [Touched(k)], k.a.x), h + [Touched(k)], k.a.x, p)
  {
    var x, g := k.a.x, h + [Touched(k)];
    var m, m1 := MetaOf(h, x), MetaOf(g, x);
    SharedSinceSnoc(h, Touched(k), x, p);
    FirstSegmentSnoc(h, Touched(k), x, p);
    SharedAccess(m, k);
    forall a ensures a in m1.locks <==> Common(g, x, p, a) {
      CommonSnoc(h, Touched(k), x, p, a);
    }
    forall t ensures t in m1.threads <==> Shares(g, x, p, t) {
      SharesSnoc(h, Touched(k), x, p, t);
    }
  }

  /** What an access to a shared address does if the address stays shared. */
  lemma SharedAccess(m: HgMeta, k: Touch)
    requires IsShared(m) && IsShared(Process(m, k))
    ensures var m1 := Process(m, k);
            && m1.segment == m.segment && m1.locks == m.locks * k.Locks()
            && m1.threads == m.threads + if m.state == SharedRead && !k.a.write then {k.a.t} else {}
  {
  }

  lemma OtherEventTells(h: seq<HgEvent>, e: HgEvent, x: Addr, p: nat)
    requires IsShared(MetaOf(h, x)) && Tells(MetaOf(h, x), h, x, p)
    requires !Touches(e, x) && IsShared(MetaOf(h + [e], x))
    ensures Tells(MetaOf(h + [e], x), h + [e], x, p)
  {
    var m, g := MetaOf(h, x), h + [e];
    var m1 := MetaOf(g, x);
    SharedSinceSnoc(h, e, x, p);
    FirstSegmentSnoc(h, e, x, p);
    assert m1.segment == m.segment && m1.locks == m.locks;
    forall a ensures a in m1.locks <==> Common(g, x, p, a) {
      CommonSnoc(h, e, x, p, a);
    }
    forall t ensures t in m1.threads <==> Shares(g, x, p, t) {
      SharesSnoc(h, e, x, p, t);
    }
  }

  /**
    A shared address has been shared since the access that found its segment unordered. It keeps
    that segment, the locks common to all accesses since, and the threads that joined in and have
    not been joined themselves.
   */
  lemma {:induction false} SharedTells(h: seq<HgEvent>, x: Addr) returns (p: nat)
    requires IsShared(MetaOf(h, x))
    ensures Tells(MetaOf(h, x), h, x, p)
  {
    var n := |h| - 1;
    var e := h[n];
    assert h == h[..n] + [e];
    ExclusiveHasNoLocks(h[..n], x);
    if IsShared(MetaOf(h[..n], x)) {
      p := SharedTells(h[..n], x);
      if Touches(e, x) {
        SharedAccessTells(h[..n], e.touch, p);
      } else {
        OtherEventTells(h[..n], e, x, p);
      }
    } else {
      p := n;
      SharingBegins(h[..n], e.touch);
    }
  }

  // ----- When an exclusive address is flagged

  /**
    The access that decides about an exclusive address is the one that does not know its segment:
    between reads it begins sharing, between conflicting accesses it begins sharing under its
    locks, and without locks it is flagged. An access that knows the segment becomes the segment,
    unless the guard skips it.
   */
  lemma ExclusiveVerdict(h: seq<HgEvent>, k: Touch)
    requires IsExclusive(MetaOf(h, k.a.x))
    ensures var m, m1 := MetaOf(h, k.a.x), MetaOf(h + [Touched(k)], k.a.x);
            var known, same := HappensBefore(m.segment.vc, k.a.vc), m.segment.t == k.a.t;
            var meets := !known && (k.a.write || m.segment.write);
            && (m1.racy <==> m.racy || (meets && !same && k.Locks() == {}))
            && (m1.state == Race <==> meets && k.Locks() == {})
            && (m1.state == SharedModified <==> meets && k.Locks() != {})
            && (m1.state == SharedRead <==> !known && !meets && !same)
            && (IsExclusive(m1) ==> m1.segment == if known && !Skipped(m, k) then k.Seg() else m.segment)
  {
    SegmentKindKept(h, k.a.x);
  }

  // ----- When a shared address is flagged

  ghost predicate NoneCommon(h: seq<HgEvent>, x: Addr, p: nat) {
    forall a :: !Common(h, x, p, a)
  }

  lemma NarrowedAway(h: seq<HgEvent>, k: Touch, p: nat)
    requires Tells(MetaOf(h, k.a.x), h, k.a.x, p)
    ensures MetaOf(h, k.a.x).locks * k.Locks() == {} <==> NoneCommon(h + [Touched(k)], k.a.x, p)
  {
    var x, g := k.a.x, h + [Touched(k)];
    forall a ensures a in MetaOf(h, x).locks * k.Locks() <==> Common(g, x, p, a) {
      CommonSnoc(h, Touched(k), x, p, a);
    }
  }

  /**
    The access after which no lock is common to all accesses since sharing began decides: ordered
    after the segment it ends or keeps the sharing; otherwise it is flagged if it conflicts with the
    segment, or is a write to an address only read since. A read that only meets reads ends the
    watch on the address without a flag.
   */
  lemma SharedVerdict(h: seq<HgEvent>, k: Touch, p: nat)
    requires SharedSince(h, k.a.x, p)
    ensures var m, m1 := MetaOf(h, k.a.x), MetaOf(h + [Touched(k)], k.a.x);
            var none := NoneCommon(h + [Touched(k)], k.a.x, p);
            var known := HappensBefore(FirstSegment(h, k.a.x, p).vc, k.a.vc);
            var same := FirstSegment(h, k.a.x, p).t == k.a.t;
            && (m1.racy <==> m.racy || (none && !known && !same
                             && (k.a.write || (m.state == SharedModified && FirstSegment(h, k.a.x, p).write))))
            && (m1.state == SharedRead <==> m.state == SharedRead && (!k.a.write || (none && !known && same)))
            && (m1.state == SharedModified <==>
                  if m.state == SharedModified then !none else k.a.write && (!none || known))
            && (m1.state == Race <==> none && !known && (m.state == SharedModified || (k.a.write && !same)))
            && (IsExclusive(m1) ==> m1.segment == k.Seg())
  {
    var x := k.a.x;
    assert h[..|h|] == h;
    assert SharedAt(h, x, |h|);
    var q := SharedTells(h, x);
    SharingIsOnce(h, x, p, q);
    NarrowedAway(h, k, p);
  }

  lemma SharingIsOnce(h: seq<HgEvent>, x: Addr, p: nat, q: nat)
    requires SharedSince(h, x, p) && SharedSince(h, x, q)
    ensures p == q
  {
    assert p < q ==> SharedAt(h, x, q);
    assert q < p ==> SharedAt(h, x, p);
  }

  // ----- Joins

  /** Event `i` is the last that thread `t` did to `x` before it was last joined, and was watched. */
  ghost predicate LastOp(h: seq<HgEvent>, x: Addr, t: Tid, i: nat) {
    && Watches(h, x, t, i) && NotJoinedAfter(h, i, t)
    && forall j :: i < j < |h| ==> !Watches(h, x, t, j)
  }

  predicate Watches(h: seq<HgEvent>, x: Addr, t: Tid, i: nat) {
    i < |h| && Touches(h[i], x) && h[i].touch.a.t == t && MetaOf(h[..i], x).state != Race
  }

  lemma LastOpSnoc(h: seq<HgEvent>, e: HgEvent, x: Addr, t: Tid, i: nat)
    ensures LastOp(h + [e], x, t, i) <==>
            if Watches(h + [e], x, t, |h|) then i == |h| else LastOp(h, x, t, i) && e != Joined(t)
    ensures Watches(h + [e], x, t, |h|) <==> Touches(e, x) && e.touch.a.t == t && MetaOf(h, x).state != Race
  {
    var g := h + [e];
    assert g[..|h|] == h && g[|h|] == e;
    forall j | 0 <= j < |h| ensures Watches(g, x, t, j) <==> Watches(h, x, t, j) {
      assert g[..j] == h[..j] && g[j] == h[j];
    }
  }

  /** How an event changes the table of last operations, for thread `t`. */
  predicate OpsMove(m: HgMeta, ops: map<Tid, bool>, e: HgEvent, x: Addr, t: Tid) {
    var now := Touches(e, x) && e.touch.a.t == t && m.state != Race;
    && (t in ops <==> now || (t in m.lastOp && e != Joined(t)))
    && (t in ops ==> ops[t] == if now then e.touch.a.write else if t in m.lastOp then m.lastOp[t] else false)
  }

  lemma AccessMovesOps(m: HgMeta, k: Touch, t: Tid)
    ensures OpsMove(m, Process(m, k).lastOp, Touched(k), k.a.x, t)
  {
  }

  lemma OpAfter(m: HgMeta, e: HgEvent, x: Addr, t: Tid)
    ensures OpsMove(m, EventStep(m, e, x).lastOp, e, x, t)
  {
    if Touches(e, x) {
      AccessMovesOps(m, e.touch, t);
    }
  }

  /** The table of last operations holds, for every thread not joined since, the kind of its last access. */
  ghost predicate OpsTell(ops: map<Tid, bool>, h: seq<HgEvent>, x: Addr, t: Tid) {
    && (t in ops <==> exists i: nat :: LastOp(h, x, t, i))
    && (t in ops ==> forall i: nat :: LastOp(h, x, t, i) ==> ops[t] == h[i].touch.a.write)
  }

  lemma {:induction false} LastOpsAre(h: seq<HgEvent>, x: Addr, t: Tid)
    ensures OpsTell(MetaOf(h, x).lastOp, h, x, t)
  {
    if h != [] {
      var n := |h| - 1;
      assert h == h[..n] + [h[n]];
      LastOpsAre(h[..n], x, t);
      OpAfter(MetaOf(h[..n], x), h[n], x, t);
      LastOpNow(h[..n], h[n], MetaOf(h, x).lastOp, x, t);
    }
  }

  lemma LastOpNow(h: seq<HgEvent>, e: HgEvent, ops: map<Tid, bool>, x: Addr, t: Tid)
    requires OpsTell(MetaOf(h, x).lastOp, h, x, t) && OpsMove(MetaOf(h, x), ops, e, x, t)
    ensures OpsTell(ops, h + [e], x, t)
  {
    var g := h + [e];
    forall i: nat ensures LastOp(g, x, t, i) <==>
                     if Watches(g, x, t, |h|) then i == |h| else LastOp(h, x, t, i) && e != Joined(t) {
      LastOpSnoc(h, e, x, t, i);
    }
    LastOpSnoc(h, e, x, t, |h|);
    assert LastOp(g, x, t, |h|) <==> Watches(g, x, t, |h|);
    forall i: nat | LastOp(h, x, t, i) ensures g[i] == h[i] {
    }
  }

  /** Once `child` is joined, `u` is the only thread left that shares the address, and event `i` was its last access. */
  ghost predicate LeftTo(h: seq<HgEvent>, x: Addr, p: nat, child: Tid, u: Tid, i: nat) {
    (forall t :: Shares(h, x, p, t) && t != child <==> t == u) && LastOp(h, x, u, i)
  }

  lemma OneLeft(s: set<Tid>)
    requires |s| == 1
    ensures s == {Minimum(s)}
  {
    var u := Minimum(s);
    assert s == {u} + (s - {u}) && |s - {u}| == 0;
  }

  /**
    A join returns a shared address to the exclusive state iff one thread is left that shares it and
    has accessed it; that thread then owns the segment, at the clock where sharing began.
   */
  lemma JoinEndsSharing(h: seq<HgEvent>, x: Addr, p: nat, child: Tid)
    requires SharedSince(h, x, p)
    ensures var m, m1 := MetaOf(h, x), MetaOf(h + [Joined(child)], x);
            && (IsExclusive(m1) <==> exists u: Tid, i: nat :: LeftTo(h, x, p, child, u, i))
            && (forall u: Tid, i: nat :: LeftTo(h, x, p, child, u, i) ==>
                  && m1.segment == Segment(FirstSegment(h, x, p).vc, u, h[i].touch.a.write)
                  && m1.state == if h[i].touch.a.write then ExclusiveWrite else ExclusiveRead)
            && (!IsExclusive(m1) ==> m1.state == m.state && m1.racy == m.racy)
  {
    var m := MetaOf(h, x);
    var left := m.threads - {child};
    assert h[..|h|] == h && SharedAt(h, x, |h|);
    var q := SharedTells(h, x);
    SharingIsOnce(h, x, p, q);
    forall u: Tid, i: nat | LeftTo(h, x, p, child, u, i)
      ensures left == {u} && u in m.lastOp && m.lastOp[u] == h[i].touch.a.write
    {
      LastOpsAre(h, x, u);
      assert forall t :: t in left <==> Shares(h, x, p, t) && t != child;
    }
    if |left| == 1 {
      var u := Minimum(left);
      OneLeft(left);
      LastOpsAre(h, x, u);
      if u in m.lastOp {
        JoinFindsLast(h, x, p, child, u);
      }
    }
  }

  lemma JoinFindsLast(h: seq<HgEvent>, x: Addr, p: nat, child: Tid, u: Tid)
    requires Tells(MetaOf(h, x), h, x, p) && MetaOf(h, x).threads - {child} == {u}
    requires exists i: nat :: LastOp(h, x, u, i)
    ensures exists i: nat :: LeftTo(h, x, p, child, u, i)
  {
    var i: nat :| LastOp(h, x, u, i);
    assert forall t :: Shares(h, x, p, t) && t != child <==> t in MetaOf(h, x).threads - {child};
    assert LeftTo(h, x, p, child, u, i);
  }

  // ----- A run on which a read ends the watch on an address

  const L: Addr := 5
  const C2: Clock := map[1 := 1, 2 := 1]
  const C3: Clock := map[1 := 2, 3 := 1]
  const READ1 := Touch(Access(1, 7, false, map[1 := 3]), {}, {})
  const READ2 := Touch(Access(2, 7, false, C2), {L}, {L})
  const WRITE2 := Touch(Access(2, 7, true, C2), {L}, {L})
  const READ3 := Touch(Access(3, 7, false, C3), {}, {})
  const WRITE3 := Touch(Access(3, 7, true, C3), {}, {})

  /** Thread 2 reads and writes under a lock what thread 1 has read; thread 3 reads and writes it under none. */
  const SILENCED := [] + [Touched(READ1)] + [Touched(READ2)] + [Touched(WRITE2)] + [Touched(READ3)] + [Touched(WRITE3)]
  const SILENCED_RUN :=
    THREE_THREADS + [Mem(1, 7, false)] + [Mem(2, 7, false)] + [Mem(2, 7, true)] + [Mem(3, 7, false)] + [Mem(3, 7, true)]

  lemma TouchSnoc(h: seq<HgEvent>, k: Touch)
    ensures MetaOf(h + [Touched(k)], k.a.x) == Process(MetaOf(h, k.a.x), k)
    ensures Accesses(h + [Touched(k)]) == Accesses(h) + [k.a]
  {
  }

  lemma SharedByReads(m: HgMeta)
    requires m == Process(NEW_META, READ1)
    ensures var m1 := Process(m, READ2); m1.state == SharedRead && m1.segment == READ1.Seg() && m1.locks == {L} && !m1.racy
  {
    assert 1 in READ1.a.vc && READ1.a.vc[1] > C2[1];
    assert {} + READ2.held == {L};
  }

  lemma ThenSilenced(m: HgMeta)
    requires m.state == SharedRead && m.segment == READ1.Seg() && m.locks == {L} && !m.racy
    ensures var m1 := Process(Process(m, WRITE2), READ3); m1.state == Race && !m1.racy && Process(m1, WRITE3) == m1
  {
    assert {L} * WRITE2.writeHeld == {L} && {L} * READ3.held == {};
    assert 1 in READ1.a.vc && READ1.a.vc[1] > C3[1];
  }

  lemma SilencedMeta()
    ensures !MetaOf(SILENCED, 7).racy
    ensures Accesses(SILENCED) == [] + [READ1.a] + [READ2.a] + [WRITE2.a] + [READ3.a] + [WRITE3.a]
  {
    var h0: seq<HgEvent> := [];
    var h1 := h0 + [Touched(READ1)];
    var h2 := h1 + [Touched(READ2)];
    TouchSnoc(h0, READ1);
    TouchSnoc(h1, READ2);
    TouchSnoc(h2, WRITE2);
    TouchSnoc(h2 + [Touched(WRITE2)], READ3);
    TouchSnoc(h2 + [Touched(WRITE2)] + [Touched(READ3)], WRITE3);
    SharedByReads(MetaOf(h1, 7));
    ThenSilenced(MetaOf(h2, 7));
  }

  lemma SilencedReached(es: seq<Event>)
    requires Reached(es, 3, THREE_CLOCKS, [])
    ensures Reached(es + [Mem(1, 7, false)] + [Mem(2, 7, false)] + [Mem(2, 7, true)] + [Mem(3, 7, false)] + [Mem(3, 7, true)], 3,
                    THREE_CLOCKS, [] + [READ1.a] + [READ2.a] + [WRITE2.a] + [READ3.a] + [WRITE3.a])
  {
    var e2 := es + [Mem(1, 7, false)] + [Mem(2, 7, false)];
    ThenTwoAccesses(es, 3, THREE_CLOCKS, [], READ1.a, READ2.a);
    ThenTwoAccesses(e2, 3, THREE_CLOCKS, [] + [READ1.a] + [READ2.a], WRITE2.a, READ3.a);
    ThenAccess(e2 + [Mem(2, 7, true)] + [Mem(3, 7, false)], 3, THREE_CLOCKS,
               [] + [READ1.a] + [READ2.a] + [WRITE2.a] + [READ3.a], 3, 7, true);
  }

  lemma RaceUnseen(es: seq<Event>)
    requires WellFormed(es) && Run(es).hist == [] + [READ1.a] + [READ2.a] + [WRITE2.a] + [READ3.a] + [WRITE3.a]
    ensures Verdicts.DataRace(es, 7)
  {
    var h := Run(es).hist;
    assert h[2] == WRITE2.a && h[4] == WRITE3.a;
    RaceAmong(h, 7, WRITE2.a, WRITE3.a);
    Verdicts.RacesAreDataRaces(es, 7);
  }

  /**
    A read under no lock, after reads and a write that share one, ends the watch on the address
    without a flag; the data races that follow are not seen.
   */
  lemma ReadSilencesRaces()
    ensures WellFormed(SILENCED_RUN) && Run(SILENCED_RUN).hist == Accesses(SILENCED)
    ensures Verdicts.DataRace(SILENCED_RUN, 7) && !MetaOf(SILENCED, 7).racy
  {
    ThreeThreads();
    SilencedReached(THREE_THREADS);
    SilencedMeta();
    RaceUnseen(SILENCED_RUN);
  }
}
