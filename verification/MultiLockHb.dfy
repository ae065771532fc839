/**
  MultiLock-HB keeps, per address and thread, pruned lists of clock and lockset pairs. The
  theorems hold for every history of accesses with any clocks and any locksets: the detector's
  own clock machine, whose locks update locksets instead of clocks, produces some of them.
 */
module MultiLockHb {
  import opened Clocks
  import opened History
  import opened Machine
  import opened MachineProofs
  import EventGraph = HappensBefore
  import Verdicts

  /** An access and the locks that count for it: all held locks for a read, write-mode locks for a write. */
  datatype Locked = Locked(a: Access, held: set<Addr>)

  datatype Entry = Entry(c: nat, held: set<Addr>)

  type Entries = seq<Entry>

  datatype MlMeta = MlMeta(readers: map<Tid, Entries>, writers: map<Tid, Entries>, racy: bool)

  const NEW_META := MlMeta(map[], map[], false)

  function Of(lists: map<Tid, Entries>, t: Tid): Entries {
    if t in lists then lists[t] else []
  }

  /** An entry of the same time frame whose locks are all held makes the access redundant. */
  predicate Redundant(es: Entries, e: Entry) {
    exists f :: f in es && f.c == e.c && f.held <= e.held
  }

  /** Old entries whose locks include those of the new one are superseded by it. */
  predicate Superseded(old1: Entry, e: Entry) {
    old1.c <= e.c && e.held <= old1.held
  }

  function Prune(es: Entries, e: Entry): Entries {
    if es == [] then []
    else Prune(es[..|es| - 1], e) + if Superseded(es[|es| - 1], e) then [] else [es[|es| - 1]]
  }

  function UpdateOnRead(m: MlMeta, t: Tid, e: Entry): MlMeta {
    var r, w := Of(m.readers, t), Of(m.writers, t);
    if Redundant(r, e) || Redundant(w, e) then m
    else m.(readers := m.readers[t := Prune(r, e) + [e]])
  }

  function UpdateOnWrite(m: MlMeta, t: Tid, e: Entry): MlMeta {
    var r, w := Of(m.readers, t), Of(m.writers, t);
    if Redundant(w, e) then m
    else m.(readers := m.readers[t := Prune(r, e)], writers := m.writers[t := Prune(w, e) + [e]])
  }

  /** Some entry of thread `t` is newer than `vc` knows and shares no lock with `held`. */
  predicate Unprotected(es: Entries, t: Tid, vc: Clock, held: set<Addr>) {
    exists f :: f in es && f.c > Get(vc, t) && f.held !! held
  }

  predicate SomeUnprotected(lists: map<Tid, Entries>, t: Tid, vc: Clock, held: set<Addr>) {
    exists u :: u in lists && u != t && Unprotected(lists[u], u, vc, held)
  }

  function Process(m: MlMeta, l: Locked): MlMeta {
    var t, vc, e := l.a.t, l.a.vc, Entry(l.a.Clk(), l.held);
    if l.a.write then
      var m1 := UpdateOnWrite(m, t, e);
      m1.(racy := m.racy || SomeUnprotected(m1.writers, t, vc, l.held) || SomeUnprotected(m1.readers, t, vc, l.held))
    else
      var m1 := UpdateOnRead(m, t, e);
      m1.(racy := m.racy || SomeUnprotected(m1.writers, t, vc, l.held))
  }

  function MetaOf(h: seq<Locked>, x: Addr): MlMeta {
    if h == [] then NEW_META
    else
      var l, m := h[|h| - 1], MetaOf(h[..|h| - 1], x);
      if l.a.x == x then Process(m, l) else m
  }

  // ----- The complete history as the reference

  /** The later access `b` is unordered with `a`, conflicts with it, and no lock is common to both. */
  predicate LockRace(a: Locked, b: Locked) {
    Conflict(a.a, b.a) && !Ordered(a.a, b.a) && a.held !! b.held
  }

  ghost predicate HasLockRace(h: seq<Locked>, x: Addr) {
    exists i, j :: 0 <= i < j < |h| && h[i].a.x == x && LockRace(h[i], h[j])
  }

  predicate IsFor(l: Locked, x: Addr, t: Tid, write: bool) {
    l.a.x == x && l.a.t == t && l.a.write == write
  }

  predicate Recorded(e: Entry, h: seq<Locked>, x: Addr, t: Tid, write: bool) {
    exists k :: 0 <= k < |h| && IsFor(h[k], x, t, write) && e == Entry(h[k].a.Clk(), h[k].held)
  }

  /** Every entry is an access of the history. */
  ghost predicate Genuine(es: Entries, h: seq<Locked>, x: Addr, t: Tid, write: bool) {
    forall e :: e in es ==> Recorded(e, h, x, t, write)
  }

  /** Some entry races with everything that `l` races with. */
  predicate Covers(es: Entries, l: Locked) {
    exists e :: e in es && l.a.Clk() <= e.c && e.held <= l.held
  }

  ghost predicate CoveredBy(m: MlMeta, g: Locked) {
    Covers(Of(m.writers, g.a.t), g) || (!g.a.write && Covers(Of(m.readers, g.a.t), g))
  }

  ghost predicate Lossless(m: MlMeta, h: seq<Locked>, x: Addr) {
    && (forall t :: Genuine(Of(m.readers, t), h, x, t, false))
    && (forall t :: Genuine(Of(m.writers, t), h, x, t, true))
    && (forall k :: 0 <= k < |h| && h[k].a.x == x ==> CoveredBy(m, h[k]))
  }

  lemma {:induction false} PruneKeeps(es: Entries, e: Entry)
    ensures forall f :: f in Prune(es, e) <==> f in es && !Superseded(f, e)
  {
    if es != [] {
      PruneKeeps(es[..|es| - 1], e);
      assert es == es[..|es| - 1] + [es[|es| - 1]];
    }
  }

  /** Replacing superseded entries by the new one keeps everything covered. */
  lemma PruneCovers(es: Entries, e: Entry, l: Locked)
    ensures Covers(es, l) ==> Covers(Prune(es, e), l) || (l.a.Clk() <= e.c && e.held <= l.held)
  {
  }

  lemma RecordedExtended(e: Entry, h: seq<Locked>, l: Locked, x: Addr, t: Tid, write: bool)
    requires Recorded(e, h, x, t, write)
    ensures Recorded(e, h + [l], x, t, write)
  {
    var k :| 0 <= k < |h| && IsFor(h[k], x, t, write) && e == Entry(h[k].a.Clk(), h[k].held);
    assert (h + [l])[k] == h[k];
  }

  lemma GenuineExtended(es: Entries, h: seq<Locked>, l: Locked, x: Addr, t: Tid, write: bool)
    requires Genuine(es, h, x, t, write)
    ensures Genuine(es, h + [l], x, t, write)
  {
    forall e | e in es ensures Recorded(e, h + [l], x, t, write) {
      RecordedExtended(e, h, l, x, t, write);
    }
  }

  lemma NewestRecorded(h: seq<Locked>, l: Locked)
    ensures Recorded(Entry(l.a.Clk(), l.held), h + [l], l.a.x, l.a.t, l.a.write)
  {
    assert (h + [l])[|h|] == l;
  }

  // ----- Detection against one thread is what the complete history says

  /** Some access of thread `t` in the history, a write unless `readsToo`, races with `b`. */
  ghost predicate RacesWithThread(h: seq<Locked>, b: Locked, t: Tid, readsToo: bool) {
    exists k :: 0 <= k < |h| && h[k].a.x == b.a.x && h[k].a.t == t && (h[k].a.write || readsToo)
                && !Ordered(h[k].a, b.a) && h[k].held !! b.held
  }

  /**
    The pruned lists of a thread yield a race with an access iff the thread's complete history
    does; for writes the read list and the write list are searched, and a read may be found
    through the recorded write that covers it.
   */
  lemma ListsDecide(m: MlMeta, h: seq<Locked>, b: Locked, t: Tid)
    requires Lossless(m, h, b.a.x)
    ensures Unprotected(Of(m.writers, t), t, b.a.vc, b.held) <==> RacesWithThread(h, b, t, false)
    ensures Unprotected(Of(m.writers, t), t, b.a.vc, b.held) || Unprotected(Of(m.readers, t), t, b.a.vc, b.held)
            <==> RacesWithThread(h, b, t, true)
  {
  }

  lemma NewLockRace(h: seq<Locked>, l: Locked, x: Addr)
    ensures HasLockRace(h + [l], x) <==>
            HasLockRace(h, x)
            || (l.a.x == x && exists t :: t != l.a.t && RacesWithThread(h, l, t, l.a.write))
  {
    var g := h + [l];
    if HasLockRace(g, x) {
      var i, j :| 0 <= i < j < |g| && g[i].a.x == x && LockRace(g[i], g[j]);
      if j < |h| {
        assert h[i] == g[i] && h[j] == g[j];
      } else {
        assert h[i] == g[i] && l == g[j];
        assert RacesWithThread(h, l, h[i].a.t, l.a.write);
      }
    }
    if HasLockRace(h, x) {
      var i, j :| 0 <= i < j < |h| && h[i].a.x == x && LockRace(h[i], h[j]);
      assert g[i] == h[i] && g[j] == h[j];
    }
    if l.a.x == x {
      if t :| t != l.a.t && RacesWithThread(h, l, t, l.a.write) {
        var k :| 0 <= k < |h| && h[k].a.x == l.a.x && h[k].a.t == t && (h[k].a.write || l.a.write)
                 && !Ordered(h[k].a, l.a) && h[k].held !! l.held;
        assert g[k] == h[k] && g[|h|] == l;
        assert LockRace(g[k], g[|h|]);
      }
    }
  }

  lemma ProcessDetects(m: MlMeta, h: seq<Locked>, l: Locked)
    requires Lossless(m, h, l.a.x)
    ensures Process(m, l).racy <==> m.racy || exists t :: t != l.a.t && RacesWithThread(h, l, t, l.a.write)
  {
    var t0, vc, e := l.a.t, l.a.vc, Entry(l.a.Clk(), l.held);
    var m1 := if l.a.write then UpdateOnWrite(m, t0, e) else UpdateOnRead(m, t0, e);
    forall t | t != t0
      ensures Of(m1.writers, t) == Of(m.writers, t) && Of(m1.readers, t) == Of(m.readers, t)
    {
    }
    forall t ensures t != t0 ==> (RacesWithThread(h, l, t, l.a.write) <==>
                       Unprotected(Of(m1.writers, t), t, vc, l.held)
                       || (l.a.write && Unprotected(Of(m1.readers, t), t, vc, l.held)))
    {
      ListsDecide(m, h, l, t);
    }
    SomeUnprotectedIs(m1.writers, t0, vc, l.held);
    SomeUnprotectedIs(m1.readers, t0, vc, l.held);
  }

  lemma SomeUnprotectedIs(lists: map<Tid, Entries>, t: Tid, vc: Clock, held: set<Addr>)
    ensures SomeUnprotected(lists, t, vc, held) <==>
            exists u :: u != t && Unprotected(Of(lists, u), u, vc, held)
  {
    if u :| u in lists && u != t && Unprotected(lists[u], u, vc, held) {
      assert Unprotected(Of(lists, u), u, vc, held);
    }
    if u :| u != t && Unprotected(Of(lists, u), u, vc, held) {
      assert u in lists;
    }
  }

  /** What holds of the two lists of the accessing thread after an access to the address. */
  lemma UpdatedListsCover(m: MlMeta, l: Locked, g: Locked)
    requires g.a.t == l.a.t
    requires g == l || CoveredBy(m, g)
    ensures CoveredBy(Process(m, l), g)
  {
    var e := Entry(l.a.Clk(), l.held);
    var r, w := Of(m.readers, l.a.t), Of(m.writers, l.a.t);
    PruneCovers(r, e, g);
    PruneCovers(w, e, g);
    if Redundant(w, e) {
      var f :| f in w && f.c == e.c && f.held <= e.held;
    }
    if Redundant(r, e) {
      var f :| f in r && f.c == e.c && f.held <= e.held;
    }
  }

  lemma UpdatedReadsGenuine(m: MlMeta, h: seq<Locked>, l: Locked, t: Tid)
    requires Lossless(m, h, l.a.x)
    ensures Genuine(Of(Process(m, l).readers, t), h + [l], l.a.x, t, false)
  {
    var r := Of(m.readers, t);
    GenuineExtended(r, h, l, l.a.x, t, false);
    PruneKeeps(r, Entry(l.a.Clk(), l.held));
    NewestRecorded(h, l);
  }

  lemma UpdatedWritesGenuine(m: MlMeta, h: seq<Locked>, l: Locked, t: Tid)
    requires Lossless(m, h, l.a.x)
    ensures Genuine(Of(Process(m, l).writers, t), h + [l], l.a.x, t, true)
  {
    var w := Of(m.writers, t);
    GenuineExtended(w, h, l, l.a.x, t, true);
    PruneKeeps(w, Entry(l.a.Clk(), l.held));
    NewestRecorded(h, l);
  }

  lemma OthersKept(m: MlMeta, l: Locked, t: Tid)
    requires t != l.a.t
    ensures Of(Process(m, l).writers, t) == Of(m.writers, t)
    ensures Of(Process(m, l).readers, t) == Of(m.readers, t)
  {
  }

  lemma ProcessIsLossless(m: MlMeta, h: seq<Locked>, l: Locked)
    requires Lossless(m, h, l.a.x)
    ensures Lossless(Process(m, l), h + [l], l.a.x)
  {
    var m1, g := Process(m, l), h + [l];
    forall t
      ensures Genuine(Of(m1.readers, t), g, l.a.x, t, false)
      ensures Genuine(Of(m1.writers, t), g, l.a.x, t, true)
    {
      UpdatedReadsGenuine(m, h, l, t);
      UpdatedWritesGenuine(m, h, l, t);
    }
    forall k | 0 <= k < |g| && g[k].a.x == l.a.x ensures CoveredBy(m1, g[k]) {
      assert g[k] == l || (k < |h| && g[k] == h[k] && CoveredBy(m, h[k]));
      if g[k].a.t == l.a.t {
        UpdatedListsCover(m, l, g[k]);
      } else {
        OthersKept(m, l, g[k].a.t);
      }
    }
  }

  lemma ElsewhereIsLossless(m: MlMeta, h: seq<Locked>, l: Locked, x: Addr)
    requires Lossless(m, h, x) && l.a.x != x
    ensures Lossless(m, h + [l], x)
  {
    var g := h + [l];
    forall t
      ensures Genuine(Of(m.readers, t), g, x, t, false)
      ensures Genuine(Of(m.writers, t), g, x, t, true)
    {
      GenuineExtended(Of(m.readers, t), h, l, x, t, false);
      GenuineExtended(Of(m.writers, t), h, l, x, t, true);
    }
    forall k | 0 <= k < |g| && g[k].a.x == x
      ensures CoveredBy(m, g[k])
    {
      assert g[k] == h[k];
    }
  }

  /**
    Pruning is lossless: after any history, the flag of an address is set iff among all accesses
    made to it some pair conflicts, is unordered and has no lock in common.
   */
  lemma {:induction false} PruningIsLossless(h: seq<Locked>, x: Addr)
    ensures Lossless(MetaOf(h, x), h, x)
    ensures MetaOf(h, x).racy <==> HasLockRace(h, x)
  {
    if h != [] {
      var g, l := h[..|h| - 1], h[|h| - 1];
      var m := MetaOf(g, x);
      assert h == g + [l];
      PruningIsLossless(g, x);
      NewLockRace(g, l, x);
      if l.a.x == x {
        ProcessDetects(m, g, l);
        ProcessIsLossless(m, g, l);
      } else {
        ElsewhereIsLossless(m, g, l, x);
      }
    }
  }

  // ----- The lists stay sorted antichains

  /** `f` was recorded after `e`: it is no older, and neither makes the other superfluous. */
  predicate Apart(e: Entry, f: Entry) {
    e.c <= f.c && !(f.held <= e.held) && !(e.c == f.c && e.held <= f.held)
  }

  /** Sorted by clock, and no entry has both a later-or-equal clock and a subset of another's locks. */
  ghost predicate Antichain(es: Entries) {
    forall i, j :: 0 <= i < j < |es| ==> Apart(es[i], es[j])
  }

  lemma {:induction false} PrunedAntichain(es: Entries, e: Entry)
    requires Antichain(es)
    ensures Antichain(Prune(es, e))
  {
    if es != [] {
      var n := |es| - 1;
      PrunedAntichain(es[..n], e);
      PruneKeeps(es[..n], e);
      forall f | f in Prune(es[..n], e) ensures Apart(f, es[n]) {
        var i :| 0 <= i < n && es[..n][i] == f;
        assert es[i] == f;
      }
    }
  }

  lemma AppendedAntichain(es: Entries, e: Entry)
    requires Antichain(es) && !Redundant(es, e)
    requires forall f :: f in es ==> f.c <= e.c
    ensures Antichain(Prune(es, e) + [e])
  {
    PrunedAntichain(es, e);
    PruneKeeps(es, e);
    var fs := Prune(es, e);
    forall i | 0 <= i < |fs| ensures Apart(fs[i], e) {
      assert fs[i] in es;
    }
  }

  ghost predicate Monotone(h: seq<Locked>) {
    forall i, j :: 0 <= i < j < |h| && h[i].a.t == h[j].a.t ==> h[i].a.Clk() <= h[j].a.Clk()
  }

  /** No write entry makes a read entry superfluous. */
  ghost predicate NoneSuperseded(readers: Entries, writers: Entries) {
    forall e, f :: e in readers && f in writers ==> !Superseded(e, f)
  }

  ghost predicate AllAntichains(m: MlMeta) {
    forall t :: Antichain(Of(m.readers, t)) && Antichain(Of(m.writers, t)) && NoneSuperseded(Of(m.readers, t), Of(m.writers, t))
  }

  lemma ReadIsNeeded(r: Entries, w: Entries, e: Entry)
    requires NoneSuperseded(r, w) && !Redundant(w, e) && forall f :: f in w ==> f.c <= e.c
    ensures NoneSuperseded(Prune(r, e) + [e], w)
  {
    PruneKeeps(r, e);
  }

  lemma WriteSupersedes(r: Entries, w: Entries, e: Entry)
    requires NoneSuperseded(r, w)
    ensures NoneSuperseded(Prune(r, e), Prune(w, e) + [e])
  {
    PruneKeeps(r, e);
    PruneKeeps(w, e);
  }

  lemma ProcessKeepsAntichains(m: MlMeta, h: seq<Locked>, l: Locked)
    requires Lossless(m, h, l.a.x) && AllAntichains(m) && Monotone(h + [l])
    ensures AllAntichains(Process(m, l))
  {
    var t, e := l.a.t, Entry(l.a.Clk(), l.held);
    var r, w := Of(m.readers, t), Of(m.writers, t);
    forall f | f in r || f in w ensures f.c <= e.c {
      var write := f in w;
      assert Recorded(f, h, l.a.x, t, write);
      var k :| 0 <= k < |h| && IsFor(h[k], l.a.x, t, write) && f == Entry(h[k].a.Clk(), h[k].held);
      assert (h + [l])[k] == h[k] && (h + [l])[|h|] == l;
    }
    PrunedAntichain(r, e);
    if !Redundant(r, e) {
      AppendedAntichain(r, e);
    }
    if !Redundant(w, e) {
      AppendedAntichain(w, e);
      ReadIsNeeded(r, w, e);
    }
    WriteSupersedes(r, w, e);
    forall u | u != t
      ensures Antichain(Of(Process(m, l).readers, u)) && Antichain(Of(Process(m, l).writers, u))
      ensures NoneSuperseded(Of(Process(m, l).readers, u), Of(Process(m, l).writers, u))
    {
      OthersKept(m, l, u);
    }
  }

  /**
    With clocks that never go back, each thread's read list and write list is a sorted antichain, and
    no write entry makes a read entry superfluous.
   */
  lemma {:induction false} ListsAreAntichains(h: seq<Locked>, x: Addr)
    requires Monotone(h)
    ensures AllAntichains(MetaOf(h, x))
  {
    if h != [] {
      var g, l := h[..|h| - 1], h[|h| - 1];
      assert h == g + [l];
      ListsAreAntichains(g, x);
      PruningIsLossless(g, x);
      if l.a.x == x {
        ProcessKeepsAntichains(MetaOf(g, x), g, l);
      }
    }
  }

  // ----- Runs of the clock machine

  /** The accesses of the run, each with the locks that count for it. */
  ghost predicate LockedRun(es: seq<Event>, h: seq<Locked>) {
    WellFormed(es) && |h| == |Run(es).hist| && forall i :: 0 <= i < |h| ==> h[i].a == Run(es).hist[i]
  }

  /** Two conflicting accesses of the run have no path between them and no lock in common. */
  ghost predicate UnprotectedRace(es: seq<Event>, h: seq<Locked>, x: Addr)
    requires LockedRun(es, h) && |EventGraph.Positions(es)| == |h|
    requires forall i :: 0 <= i < |h| ==> EventGraph.Positions(es)[i] < |es|
  {
    exists i, j :: 0 <= i < j < |h| && h[i].held !! h[j].held
                   && Verdicts.ConflictingEvents(es[EventGraph.Positions(es)[i]], es[EventGraph.Positions(es)[j]], x)
                   && !EventGraph.Reaches(es, EventGraph.Positions(es)[i], EventGraph.Positions(es)[j])
  }

  lemma LockRaceIsUnprotected(es: seq<Event>, h: seq<Locked>, i: nat, j: nat, x: Addr)
    requires LockedRun(es, h) && i < j < |h|
    ensures |EventGraph.Positions(es)| == |h|
    ensures forall k :: 0 <= k < |h| ==> EventGraph.Positions(es)[k] < |es|
    ensures h[i].a.x == x && LockRace(h[i], h[j]) <==>
            h[i].held !! h[j].held
            && Verdicts.ConflictingEvents(es[EventGraph.Positions(es)[i]], es[EventGraph.Positions(es)[j]], x)
            && !EventGraph.Reaches(es, EventGraph.Positions(es)[i], EventGraph.Positions(es)[j])
  {
    EventGraph.PositionsAre(es);
    Verdicts.PairRaces(es, i, j, x);
    RunKeepsInv(es);
    assert Sequenced(Run(es).hist[i], Run(es).hist[j]);
  }

  /** On every run, the flag is set iff two conflicting accesses have no path between them and no lock in common. */
  lemma RunVerdict(es: seq<Event>, h: seq<Locked>, x: Addr)
    requires LockedRun(es, h)
    ensures |EventGraph.Positions(es)| == |h|
    ensures forall k :: 0 <= k < |h| ==> EventGraph.Positions(es)[k] < |es|
    ensures MetaOf(h, x).racy <==> UnprotectedRace(es, h, x)
  {
    PruningIsLossless(h, x);
    EventGraph.PositionsAre(es);
    forall i, j | 0 <= i < j < |h|
      ensures h[i].a.x == x && LockRace(h[i], h[j]) <==>
              h[i].held !! h[j].held
              && Verdicts.ConflictingEvents(es[EventGraph.Positions(es)[i]], es[EventGraph.Positions(es)[j]], x)
              && !EventGraph.Reaches(es, EventGraph.Positions(es)[i], EventGraph.Positions(es)[j])
    {
      LockRaceIsUnprotected(es, h, i, j, x);
    }
  }

  /** The clocks of a run never go back, so its lists are sorted antichains. */
  lemma RunListsAreAntichains(es: seq<Event>, h: seq<Locked>, x: Addr)
    requires LockedRun(es, h)
    ensures AllAntichains(MetaOf(h, x))
  {
    RunKeepsInv(es);
    forall i, j | 0 <= i < j < |h| && h[i].a.t == h[j].a.t ensures h[i].a.Clk() <= h[j].a.Clk() {
      assert Sequenced(Run(es).hist[i], Run(es).hist[j]);
    }
    ListsAreAntichains(h, x);
  }
}
