/**
  SimpleLock keeps, per address and thread, a bounded list of clocks with the number of locks
  held. It flags exactly the unlocked races whose first access is recent enough for the lists.
 */
module SimpleLock {
  import opened Clocks
  import opened History
  import opened Scenarios
  import Machine
  import Verdicts

  /** The locks held by the thread at each access are only counted. */
  datatype Counted = Counted(a: Access, locks: nat)

  datatype Stamp = Stamp(c: nat, locks: nat)

  datatype SlMeta = SlMeta(readers: map<Tid, seq<Stamp>>, writers: map<Tid, seq<Stamp>>, racy: bool)

  const NEW_META := SlMeta(map[], map[], false)

  function Of(lists: map<Tid, seq<Stamp>>, t: Tid): seq<Stamp> {
    if t in lists then lists[t] else []
  }

  /** A new frame is pushed, and the oldest frame dropped when the list is too long; within a frame the smaller count counts. */
  function Recorded(list: seq<Stamp>, s: Stamp, maxLen: nat): seq<Stamp> {
    var n := |list|;
    if n == 0 || list[n - 1].c != s.c then
      var l := list + [s];
      if |l| > maxLen then l[1..] else l
    else if list[n - 1].locks > s.locks then list[n - 1 := s]
    else list
  }

  /** A stamp that `vc` does not know, with no lock held on one of the two sides. */
  predicate Exposed(s: Stamp, t: Tid, vc: Clock, locks: nat) {
    s.c > Get(vc, t) && (s.locks == 0 || locks == 0)
  }

  predicate SomeExposed(lists: map<Tid, seq<Stamp>>, t: Tid, vc: Clock, locks: nat) {
    exists u, i :: u in lists && u != t && 0 <= i < |lists[u]| && Exposed(lists[u][i], u, vc, locks)
  }

  function Process(m: SlMeta, k: Counted, maxLen: nat): SlMeta {
    var t, vc, s := k.a.t, k.a.vc, Stamp(k.a.Clk(), k.locks);
    if k.a.write then
      var m1 := m.(writers := m.writers[t := Recorded(Of(m.writers, t), s, maxLen)]);
      m1.(racy := m.racy || SomeExposed(m1.writers, t, vc, k.locks) || SomeExposed(m1.readers, t, vc, k.locks))
    else
      var m1 := m.(readers := m.readers[t := Recorded(Of(m.readers, t), s, maxLen)]);
      m1.(racy := m.racy || SomeExposed(m1.writers, t, vc, k.locks))
  }

  function MetaOf(h: seq<Counted>, x: Addr, maxLen: nat): SlMeta {
    if h == [] then NEW_META
    else
      var k, m := h[|h| - 1], MetaOf(h[..|h| - 1], x, maxLen);
      if k.a.x == x then Process(m, k, maxLen) else m
  }

  // ----- What the flag means

  /** The later access `b` conflicts with `a`, does not know it, and one of the two holds no lock. */
  predicate UnlockedRace(a: Counted, b: Counted) {
    Conflict(a.a, b.a) && !Ordered(a.a, b.a) && (a.locks == 0 || b.locks == 0)
  }

  ghost predicate HasUnlockedRace(h: seq<Counted>, x: Addr) {
    exists i, j :: 0 <= i < j < |h| && h[i].a.x == x && UnlockedRace(h[i], h[j])
  }

  predicate IsFor(k: Counted, x: Addr, t: Tid, write: bool) {
    k.a.x == x && k.a.t == t && k.a.write == write
  }

  /** The clock of the last access of this kind, or -1. */
  function LatestClk(h: seq<Counted>, x: Addr, t: Tid, write: bool): int {
    if h == [] then -1
    else
      var k := h[|h| - 1];
      if IsFor(k, x, t, write) then k.a.Clk() else LatestClk(h[..|h| - 1], x, t, write)
  }

  /** Access `k` is the first of its kind in its frame. */
  predicate OpensFrame(h: seq<Counted>, k: Counted) {
    LatestClk(h, k.a.x, k.a.t, k.a.write) != k.a.Clk()
  }

  /** The number of frames that the thread of access `i` has opened since by accesses of the same kind. */
  function FramesAfter(h: seq<Counted>, i: nat): nat
    requires i < |h|
  {
    if i == |h| - 1 then 0
    else
      var pre, k := h[..|h| - 1], h[|h| - 1];
      FramesAfter(pre, i) + if IsFor(k, h[i].a.x, h[i].a.t, h[i].a.write) && OpensFrame(pre, k) then 1 else 0
  }

  predicate IsAt(h: seq<Counted>, i: nat, x: Addr, t: Tid, write: bool) {
    i < |h| && IsFor(h[i], x, t, write)
  }

  /** A stamp stands for the access: same frame, and no more locks. */
  predicate StandsFor(s: Stamp, k: Counted) {
    s.c == k.a.Clk() && s.locks <= k.locks
  }

  /** The stamp at `p`, counted from the end, is that of an access as many frames back. */
  ghost predicate StampOf(list: seq<Stamp>, p: nat, h: seq<Counted>, x: Addr, t: Tid, write: bool)
    requires p < |list|
  {
    exists i: nat :: IsAt(h, i, x, t, write) && FramesAfter(h, i) == |list| - 1 - p
                     && list[p] == Stamp(h[i].a.Clk(), h[i].locks)
  }

  /** The list holds exactly the last `maxLen` frames of this thread and kind. */
  ghost predicate ListIs(list: seq<Stamp>, h: seq<Counted>, x: Addr, t: Tid, write: bool, maxLen: nat) {
    && |list| <= maxLen
    && (|list| == 0 ==> maxLen == 0 || LatestClk(h, x, t, write) == -1)
    && (|list| > 0 ==> list[|list| - 1].c == LatestClk(h, x, t, write))
    && (forall p :: 0 <= p < |list| ==> StampOf(list, p, h, x, t, write))
    && (forall i: nat :: IsAt(h, i, x, t, write) && FramesAfter(h, i) < maxLen ==>
          FramesAfter(h, i) < |list| && StandsFor(list[|list| - 1 - FramesAfter(h, i)], h[i]))
  }

  ghost predicate ListsAre(m: SlMeta, h: seq<Counted>, x: Addr, maxLen: nat) {
    forall t :: ListIs(Of(m.readers, t), h, x, t, false, maxLen) && ListIs(Of(m.writers, t), h, x, t, true, maxLen)
  }

  lemma StampStays(list: seq<Stamp>, p: nat, h: seq<Counted>, k: Counted, x: Addr, t: Tid, write: bool,
                   list1: seq<Stamp>, p1: nat)
    requires p < |list| && StampOf(list, p, h, x, t, write) && p1 < |list1| && list1[p1] == list[p]
    requires |list1| - p1 == |list| - p + if IsFor(k, x, t, write) && OpensFrame(h, k) then 1 else 0
    ensures StampOf(list1, p1, h + [k], x, t, write)
  {
    var i: nat :| IsAt(h, i, x, t, write) && FramesAfter(h, i) == |list| - 1 - p && list[p] == Stamp(h[i].a.Clk(), h[i].locks);
    assert (h + [k])[i] == h[i];
    assert IsAt(h + [k], i, x, t, write);
  }

  lemma NewStamp(list: seq<Stamp>, h: seq<Counted>, k: Counted)
    requires |list| > 0 && list[|list| - 1] == Stamp(k.a.Clk(), k.locks)
    ensures StampOf(list, |list| - 1, h + [k], k.a.x, k.a.t, k.a.write)
  {
    assert IsAt(h + [k], |h|, k.a.x, k.a.t, k.a.write) && FramesAfter(h + [k], |h|) == 0;
  }

  /** An access of another kind leaves the list as it is. */
  lemma OtherKeepsList(list: seq<Stamp>, h: seq<Counted>, k: Counted, x: Addr, t: Tid, write: bool, maxLen: nat)
    requires ListIs(list, h, x, t, write, maxLen) && !IsFor(k, x, t, write)
    ensures ListIs(list, h + [k], x, t, write, maxLen)
  {
    forall p | 0 <= p < |list| ensures StampOf(list, p, h + [k], x, t, write) {
      StampStays(list, p, h, k, x, t, write, list, p);
    }
    forall i: nat | IsAt(h + [k], i, x, t, write) && FramesAfter(h + [k], i) < maxLen
      ensures FramesAfter(h + [k], i) < |list| && StandsFor(list[|list| - 1 - FramesAfter(h + [k], i)], (h + [k])[i])
    {
      assert i < |h| && IsAt(h, i, x, t, write);
    }
  }

  /** A new frame is pushed; the oldest is dropped from a full list. */
  lemma NewFrameKeepsList(list: seq<Stamp>, h: seq<Counted>, k: Counted, maxLen: nat)
    requires ListIs(list, h, k.a.x, k.a.t, k.a.write, maxLen) && (|list| == 0 || list[|list| - 1].c != k.a.Clk()) && maxLen > 0
    ensures ListIs(Recorded(list, Stamp(k.a.Clk(), k.locks), maxLen), h + [k], k.a.x, k.a.t, k.a.write, maxLen)
  {
    var x, t, write, g := k.a.x, k.a.t, k.a.write, h + [k];
    var r := Recorded(list, Stamp(k.a.Clk(), k.locks), maxLen);
    var dropped := if |list| == maxLen then 1 else 0;
    assert OpensFrame(h, k);
    NewStamp(r, h, k);
    forall p | 0 <= p < |r| ensures StampOf(r, p, g, x, t, write) {
      if p < |r| - 1 {
        StampStays(list, p + dropped, h, k, x, t, write, r, p);
      }
    }
    forall i: nat | IsAt(g, i, x, t, write) && FramesAfter(g, i) < maxLen
      ensures FramesAfter(g, i) < |r| && StandsFor(r[|r| - 1 - FramesAfter(g, i)], g[i])
    {
      if i < |h| {
        assert IsAt(h, i, x, t, write);
      }
    }
  }

  /** Within a frame the smaller lock count stays. */
  lemma SameFrameKeepsList(list: seq<Stamp>, h: seq<Counted>, k: Counted, maxLen: nat)
    requires ListIs(list, h, k.a.x, k.a.t, k.a.write, maxLen) && |list| > 0 && list[|list| - 1].c == k.a.Clk()
    ensures ListIs(Recorded(list, Stamp(k.a.Clk(), k.locks), maxLen), h + [k], k.a.x, k.a.t, k.a.write, maxLen)
  {
    var x, t, write, g, n := k.a.x, k.a.t, k.a.write, h + [k], |list|;
    var r := Recorded(list, Stamp(k.a.Clk(), k.locks), maxLen);
    forall p | 0 <= p < n ensures StampOf(r, p, g, x, t, write) {
      if r[p] == list[p] {
        StampStays(list, p, h, k, x, t, write, r, p);
      } else {
        NewStamp(r, h, k);
      }
    }
    forall i: nat | IsAt(g, i, x, t, write) && FramesAfter(g, i) < maxLen
      ensures FramesAfter(g, i) < |r| && StandsFor(r[|r| - 1 - FramesAfter(g, i)], g[i])
    {
      if i < |h| {
        assert IsAt(h, i, x, t, write);
      }
    }
  }

  lemma RecordedList(list: seq<Stamp>, h: seq<Counted>, k: Counted, maxLen: nat)
    requires ListIs(list, h, k.a.x, k.a.t, k.a.write, maxLen)
    ensures ListIs(Recorded(list, Stamp(k.a.Clk(), k.locks), maxLen), h + [k], k.a.x, k.a.t, k.a.write, maxLen)
  {
    if |list| > 0 && list[|list| - 1].c == k.a.Clk() {
      SameFrameKeepsList(list, h, k, maxLen);
    } else if maxLen > 0 {
      NewFrameKeepsList(list, h, k, maxLen);
    }
  }

  lemma OthersKept(m: SlMeta, k: Counted, maxLen: nat, u: Tid)
    requires u != k.a.t
    ensures Of(Process(m, k, maxLen).readers, u) == Of(m.readers, u)
    ensures Of(Process(m, k, maxLen).writers, u) == Of(m.writers, u)
  {
  }

  lemma ProcessKeepsLists(m: SlMeta, h: seq<Counted>, k: Counted, maxLen: nat)
    requires ListsAre(m, h, k.a.x, maxLen)
    ensures ListsAre(Process(m, k, maxLen), h + [k], k.a.x, maxLen)
  {
    var m1, g := Process(m, k, maxLen), h + [k];
    forall t
      ensures ListIs(Of(m1.readers, t), g, k.a.x, t, false, maxLen) && ListIs(Of(m1.writers, t), g, k.a.x, t, true, maxLen)
    {
      if t != k.a.t {
        OthersKept(m, k, maxLen, t);
        OtherKeepsList(Of(m.readers, t), h, k, k.a.x, t, false, maxLen);
        OtherKeepsList(Of(m.writers, t), h, k, k.a.x, t, true, maxLen);
      } else {
        RecordedList(Of(if k.a.write then m.writers else m.readers, t), h, k, maxLen);
        OtherKeepsList(Of(if k.a.write then m.readers else m.writers, t), h, k, k.a.x, t, !k.a.write, maxLen);
      }
    }
  }

  lemma ElsewhereKeepsLists(m: SlMeta, h: seq<Counted>, k: Counted, x: Addr, maxLen: nat)
    requires ListsAre(m, h, x, maxLen) && k.a.x != x
    ensures ListsAre(m, h + [k], x, maxLen)
  {
    forall t
      ensures ListIs(Of(m.readers, t), h + [k], x, t, false, maxLen) && ListIs(Of(m.writers, t), h + [k], x, t, true, maxLen)
    {
      OtherKeepsList(Of(m.readers, t), h, k, x, t, false, maxLen);
      OtherKeepsList(Of(m.writers, t), h, k, x, t, true, maxLen);
    }
  }

  lemma {:induction false} ListsAreFrames(h: seq<Counted>, x: Addr, maxLen: nat)
    ensures ListsAre(MetaOf(h, x, maxLen), h, x, maxLen)
  {
    if h != [] {
      var n := |h| - 1;
      assert h == h[..n] + [h[n]];
      ListsAreFrames(h[..n], x, maxLen);
      if h[n].a.x == x {
        ProcessKeepsLists(MetaOf(h[..n], x, maxLen), h[..n], h[n], maxLen);
      } else {
        ElsewhereKeepsLists(MetaOf(h[..n], x, maxLen), h[..n], h[n], x, maxLen);
      }
    }
  }

  // ----- Which races are flagged

  /** Access `k` is in an unlocked race with access `i`, since which its thread has opened few enough frames. */
  predicate Hits(h: seq<Counted>, i: nat, k: Counted, maxLen: nat) {
    i < |h| && h[i].a.x == k.a.x && UnlockedRace(h[i], k) && FramesAfter(h, i) < maxLen
  }

  lemma ExposedStampHits(list: seq<Stamp>, p: nat, h: seq<Counted>, k: Counted, u: Tid, write: bool, maxLen: nat)
    requires ListIs(list, h, k.a.x, u, write, maxLen) && p < |list| && Exposed(list[p], u, k.a.vc, k.locks)
    requires u != k.a.t && (write || k.a.write)
    ensures exists i: nat :: Hits(h, i, k, maxLen)
  {
    assert StampOf(list, p, h, k.a.x, u, write);
    var i: nat :| IsAt(h, i, k.a.x, u, write) && FramesAfter(h, i) == |list| - 1 - p
                  && list[p] == Stamp(h[i].a.Clk(), h[i].locks);
    assert Hits(h, i, k, maxLen);
  }

  lemma HitIsExposed(lists: map<Tid, seq<Stamp>>, h: seq<Counted>, i: nat, k: Counted, maxLen: nat)
    requires Hits(h, i, k, maxLen) && ListIs(Of(lists, h[i].a.t), h, k.a.x, h[i].a.t, h[i].a.write, maxLen)
    ensures SomeExposed(lists, k.a.t, k.a.vc, k.locks)
  {
  }

  /** An access raises the alarm exactly if it hits an earlier one. */
  lemma AlarmIsHit(m: SlMeta, h: seq<Counted>, k: Counted, maxLen: nat)
    requires ListsAre(m, h, k.a.x, maxLen) && !m.racy
    ensures Process(m, k, maxLen).racy <==> exists i: nat :: Hits(h, i, k, maxLen)
  {
    var m1 := Process(m, k, maxLen);
    if m1.racy {
      var write := SomeExposed(m1.writers, k.a.t, k.a.vc, k.locks);
      var lists := if write then m1.writers else m1.readers;
      var u, p :| u in lists && u != k.a.t && 0 <= p < |lists[u]| && Exposed(lists[u][p], u, k.a.vc, k.locks);
      OthersKept(m, k, maxLen, u);
      ExposedStampHits(lists[u], p, h, k, u, write, maxLen);
    }
    if i: nat :| Hits(h, i, k, maxLen) {
      OthersKept(m, k, maxLen, h[i].a.t);
      HitIsExposed(if h[i].a.write then m.writers else m.readers, h, i, k, maxLen);
      SameOthersExposed(m, k, maxLen);
    }
  }

  lemma SameOthersExposed(m: SlMeta, k: Counted, maxLen: nat)
    ensures var m1 := Process(m, k, maxLen);
            && (SomeExposed(m.writers, k.a.t, k.a.vc, k.locks) ==> SomeExposed(m1.writers, k.a.t, k.a.vc, k.locks))
            && (SomeExposed(m.readers, k.a.t, k.a.vc, k.locks) ==> SomeExposed(m1.readers, k.a.t, k.a.vc, k.locks))
  {
    var m1 := Process(m, k, maxLen);
    if u, i :| u in m.writers && u != k.a.t && 0 <= i < |m.writers[u]| && Exposed(m.writers[u][i], u, k.a.vc, k.locks) {
      assert m1.writers[u] == m.writers[u];
    }
    if u, i :| u in m.readers && u != k.a.t && 0 <= i < |m.readers[u]| && Exposed(m.readers[u][i], u, k.a.vc, k.locks) {
      assert m1.readers[u] == m.readers[u];
    }
  }

  /** Two accesses to `x` are in an unlocked race, with fewer than `maxLen` frames opened between by the first one's thread. */
  ghost predicate HasRecentRace(h: seq<Counted>, x: Addr, maxLen: nat) {
    exists i: nat, j: nat :: j < |h| && h[j].a.x == x && Hits(h[..j], i, h[j], maxLen)
  }

  lemma NewRecentRace(h: seq<Counted>, k: Counted, x: Addr, maxLen: nat)
    ensures HasRecentRace(h + [k], x, maxLen) <==>
            HasRecentRace(h, x, maxLen) || (k.a.x == x && exists i: nat :: Hits(h, i, k, maxLen))
  {
    var g := h + [k];
    assert g[..|h|] == h;
    if HasRecentRace(g, x, maxLen) {
      var i: nat, j: nat :| j < |g| && g[j].a.x == x && Hits(g[..j], i, g[j], maxLen);
      assert j < |h| ==> g[..j] == h[..j] && g[j] == h[j];
    }
    if HasRecentRace(h, x, maxLen) {
      var i: nat, j: nat :| j < |h| && h[j].a.x == x && Hits(h[..j], i, h[j], maxLen);
      assert g[..j] == h[..j] && g[j] == h[j];
    }
    if k.a.x == x {
      if i: nat :| Hits(h, i, k, maxLen) {
        assert Hits(g[..|h|], i, g[|h|], maxLen);
      }
    }
  }

  /**
    What SimpleLock flags, with lists of any length: the unlocked races whose first access is in
    one of the last `maxLen` frames in which its thread made such an access.
   */
  lemma {:induction false} BoundedListsVerdict(h: seq<Counted>, x: Addr, maxLen: nat)
    ensures MetaOf(h, x, maxLen).racy <==> HasRecentRace(h, x, maxLen)
  {
    if h != [] {
      var g, k := h[..|h| - 1], h[|h| - 1];
      assert h == g + [k];
      BoundedListsVerdict(g, x, maxLen);
      NewRecentRace(g, k, x, maxLen);
      ListsAreFrames(g, x, maxLen);
      if k.a.x == x && !MetaOf(g, x, maxLen).racy {
        AlarmIsHit(MetaOf(g, x, maxLen), g, k, maxLen);
      }
    }
  }

  /** With lists of any length, a flag means that two accesses conflict, unordered, one without a lock. */
  lemma FlagIsUnlockedRace(h: seq<Counted>, x: Addr, maxLen: nat)
    ensures MetaOf(h, x, maxLen).racy ==> HasUnlockedRace(h, x)
  {
    BoundedListsVerdict(h, x, maxLen);
    if HasRecentRace(h, x, maxLen) {
      var i: nat, j: nat :| j < |h| && h[j].a.x == x && Hits(h[..j], i, h[j], maxLen);
      assert h[..j][i] == h[i] && UnlockedRace(h[i], h[j]);
    }
  }

  /** The number of frames in which `t` reads, or writes, `x`. */
  function Frames(h: seq<Counted>, x: Addr, t: Tid, write: bool): nat {
    if h == [] then 0
    else
      var pre, k := h[..|h| - 1], h[|h| - 1];
      Frames(pre, x, t, write) + if IsFor(k, x, t, write) && OpensFrame(pre, k) then 1 else 0
  }

  lemma {:induction false} FramesGrow(h: seq<Counted>, j: nat, x: Addr, t: Tid, write: bool)
    requires j <= |h|
    ensures Frames(h[..j], x, t, write) <= Frames(h, x, t, write)
  {
    if j == |h| {
      assert h[..j] == h;
    } else {
      var n := |h| - 1;
      assert h[..n][..j] == h[..j];
      FramesGrow(h[..n], j, x, t, write);
    }
  }

  lemma {:induction false} SomeFrame(h: seq<Counted>, x: Addr, t: Tid, write: bool)
    ensures LatestClk(h, x, t, write) != -1 ==> Frames(h, x, t, write) >= 1
  {
    if h != [] {
      SomeFrame(h[..|h| - 1], x, t, write);
    }
  }

  /** The frame of an access and those after it are among all frames. */
  lemma {:induction false} FramesAfterAreFewer(h: seq<Counted>, i: nat)
    requires i < |h|
    ensures FramesAfter(h, i) < Frames(h, h[i].a.x, h[i].a.t, h[i].a.write)
  {
    var n := |h| - 1;
    if i == n {
      SomeFrame(h, h[i].a.x, h[i].a.t, h[i].a.write);
    } else {
      assert h[..n][i] == h[i];
      FramesAfterAreFewer(h[..n], i);
    }
  }

  /** Where no thread reads, or writes, the address in more frames than a list holds, SimpleLock is exact. */
  lemma LongListsAreExact(h: seq<Counted>, x: Addr, maxLen: nat)
    requires forall t, write :: Frames(h, x, t, write) <= maxLen
    ensures MetaOf(h, x, maxLen).racy <==> HasUnlockedRace(h, x)
  {
    FlagIsUnlockedRace(h, x, maxLen);
    BoundedListsVerdict(h, x, maxLen);
    if HasUnlockedRace(h, x) {
      var i, j :| 0 <= i < j < |h| && h[i].a.x == x && UnlockedRace(h[i], h[j]);
      assert h[..j][i] == h[i];
      FramesAfterAreFewer(h[..j], i);
      FramesGrow(h, j, x, h[i].a.t, h[i].a.write);
      assert Hits(h[..j], i, h[j], maxLen);
    }
  }

  /** On every run of the clock machine, what SimpleLock flags is a data race of the run. */
  lemma AlarmsAreDataRaces(es: seq<Machine.Event>, h: seq<Counted>, x: Addr, maxLen: nat)
    requires Machine.WellFormed(es) && |h| == |Machine.Run(es).hist|
    requires forall i :: 0 <= i < |h| ==> h[i].a == Machine.Run(es).hist[i]
    ensures MetaOf(h, x, maxLen).racy ==> Verdicts.DataRace(es, x)
  {
    var g := Machine.Run(es).hist;
    FlagIsUnlockedRace(h, x, maxLen);
    Verdicts.RacesAreDataRaces(es, x);
    if HasUnlockedRace(h, x) {
      var i, j :| 0 <= i < j < |h| && h[i].a.x == x && UnlockedRace(h[i], h[j]);
      assert Sequenced(g[i], g[j]);
      RaceAmong(g, x, g[i], g[j]);
    }
  }

  // ----- A run on which a short list loses a race

  const BARE_WRITE := Counted(Access(1, 0, true, map[1 := 2]), 0)
  const LOCKED_WRITE := Counted(Access(1, 0, true, map[1 := 3]), 1)
  const OTHER_WRITE := Counted(Access(2, 0, true, map[1 := 1, 2 := 1]), 1)

  /** Thread 1 writes without a lock and, in its next frame, with one; thread 2 knows neither and writes with a lock. */
  const FORGOTTEN: seq<Counted> := [BARE_WRITE, LOCKED_WRITE, OTHER_WRITE]

  const FORGOTTEN_RUN: seq<Machine.Event> :=
    TWO_THREADS + [Machine.Mem(1, 0, true)] + [Machine.Start(3, 1)] + [Machine.Mem(1, 0, true)] + [Machine.Mem(2, 0, true)]

  lemma WriteThenFork()
    ensures Reached(TWO_THREADS + [Machine.Mem(1, 0, true)] + [Machine.Start(3, 1)], 3, THREE_CLOCKS, [] + [BARE_WRITE.a])
  {
    TwoThreads();
    ThenAccess(TWO_THREADS, 2, TWO_CLOCKS, [], 1, 0, true);
    ThreeClocks();
    ThenFork(TWO_THREADS + [Machine.Mem(1, 0, true)], 2, TWO_CLOCKS, [] + [BARE_WRITE.a], 3, 1);
  }

  lemma ForgottenRun()
    ensures Machine.WellFormed(FORGOTTEN_RUN)
    ensures Machine.Run(FORGOTTEN_RUN).hist == [BARE_WRITE.a, LOCKED_WRITE.a, OTHER_WRITE.a]
  {
    var es := TWO_THREADS + [Machine.Mem(1, 0, true)] + [Machine.Start(3, 1)];
    WriteThenFork();
    ThenTwoAccesses(es, 3, THREE_CLOCKS, [] + [BARE_WRITE.a], LOCKED_WRITE.a, OTHER_WRITE.a);
    assert [] + [BARE_WRITE.a] + [LOCKED_WRITE.a] + [OTHER_WRITE.a] == [BARE_WRITE.a, LOCKED_WRITE.a, OTHER_WRITE.a];
  }

  lemma ForgottenFrames()
    ensures FORGOTTEN[..2] == [BARE_WRITE, LOCKED_WRITE] && FramesAfter(FORGOTTEN[..2], 0) == 1
  {
  }

  /** With lists of length 1 the unlocked race of the first and the last write goes unseen. */
  lemma ShortListsMissARace()
    ensures Machine.WellFormed(FORGOTTEN_RUN)
    ensures Machine.Run(FORGOTTEN_RUN).hist == [BARE_WRITE.a, LOCKED_WRITE.a, OTHER_WRITE.a]
    ensures HasUnlockedRace(FORGOTTEN, 0) && !MetaOf(FORGOTTEN, 0, 1).racy
  {
    ForgottenRun();
    ForgottenFrames();
    BoundedListsVerdict(FORGOTTEN, 0, 1);
    assert FORGOTTEN[0].a.x == 0 && UnlockedRace(FORGOTTEN[0], FORGOTTEN[2]);
    forall i: nat, j: nat | j < 3 ensures !Hits(FORGOTTEN[..j], i, FORGOTTEN[j], 1) {
      assert i < j ==> FORGOTTEN[..j][i] == FORGOTTEN[i];
    }
  }
}
