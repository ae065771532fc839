/** SimpleLock+ keeps one clock and one bit where SimpleLock keeps a list; with lists of length 1 the two agree. */
module SimpleLockPlus {
  import opened Clocks
  import opened History
  import SL = SimpleLock

  type Counted = SL.Counted

  /** `zero` records that some access of the frame was made without a lock. */
  datatype Flag = Flag(c: nat, zero: bool)

  datatype SlpMeta = SlpMeta(readers: map<Tid, Flag>, writers: map<Tid, Flag>, racy: bool)

  const NEW_META := SlpMeta(map[], map[], false)

  function Of(flags: map<Tid, Flag>, t: Tid): Flag {
    if t in flags then flags[t] else Flag(0, true)
  }

  /** The frame is already recorded and the access adds nothing to it. */
  predicate Redundant(f: Flag, c: nat, locks: nat) {
    f.c == c && (f.zero || locks != 0)
  }

  predicate SomeExposed(flags: map<Tid, Flag>, t: Tid, vc: Clock, locks: nat) {
    exists u :: u in flags && u != t && flags[u].c > Get(vc, u) && (flags[u].zero || locks == 0)
  }

  function Process(m: SlpMeta, k: Counted): SlpMeta {
    var t, vc, c := k.a.t, k.a.vc, k.a.Clk();
    var own := Of(if k.a.write then m.writers else m.readers, t);
    if k.a.write then
      if Redundant(own, c, k.locks) then m.(writers := m.writers[t := own])
      else
        var m1 := m.(writers := m.writers[t := Flag(c, k.locks == 0)]);
        m1.(racy := m.racy || SomeExposed(m1.writers, t, vc, k.locks) || SomeExposed(m1.readers, t, vc, k.locks))
    else
      if Redundant(own, c, k.locks) then m.(readers := m.readers[t := own])
      else
        var m1 := m.(readers := m.readers[t := Flag(c, k.locks == 0)]);
        m1.(racy := m.racy || SomeExposed(m1.writers, t, vc, k.locks))
  }

  function MetaOf(h: seq<Counted>, x: Addr): SlpMeta {
    if h == [] then NEW_META
    else
      var k, m := h[|h| - 1], MetaOf(h[..|h| - 1], x);
      if k.a.x == x then Process(m, k) else m
  }

  // ----- SimpleLock with lists of length 1

  /** The accesses without their lock counts. */
  function Accesses(h: seq<Counted>): seq<Access> {
    if h == [] then [] else Accesses(h[..|h| - 1]) + [h[|h| - 1].a]
  }

  /** A flag is what is left of a single stamp. */
  ghost predicate SameEntries(flags: map<Tid, Flag>, lists: map<Tid, seq<SL.Stamp>>) {
    && flags.Keys == lists.Keys
    && forall t :: t in flags ==> |lists[t]| == 1 && flags[t] == Flag(lists[t][0].c, lists[t][0].locks == 0)
                                  && flags[t].c >= 1
  }

  ghost predicate SameMeta(m: SlpMeta, s: SL.SlMeta) {
    SameEntries(m.readers, s.readers) && SameEntries(m.writers, s.writers) && m.racy == s.racy
  }

  /** Some access of `u` at its clock `c2` knew clock `c` of thread `t`. */
  ghost predicate KnewAt(h: seq<Access>, u: Tid, c2: nat, t: Tid, c: nat) {
    exists k :: 0 <= k < |h| && h[k].t == u && h[k].Clk() == c2 && c <= Get(h[k].vc, t)
  }

  /** While no race has been found, entries of two threads that are exposed to each other are ordered one way or the other. */
  ghost predicate Settled(flags: map<Tid, Flag>, flags2: map<Tid, Flag>, h: seq<Access>) {
    forall t, u :: t in flags && u in flags2 && t != u && (flags[t].zero || flags2[u].zero) ==>
      KnewAt(h, u, flags2[u].c, t, flags[t].c) || KnewAt(h, t, flags[t].c, u, flags2[u].c)
  }

  ghost predicate AllSettled(m: SlpMeta, h: seq<Access>) {
    Settled(m.writers, m.writers, h) && Settled(m.writers, m.readers, h)
  }

  lemma KnewExtended(h: seq<Access>, a: Access, u: Tid, c2: nat, t: Tid, c: nat)
    requires KnewAt(h, u, c2, t, c)
    ensures KnewAt(h + [a], u, c2, t, c)
  {
    var k :| 0 <= k < |h| && h[k].t == u && h[k].Clk() == c2 && c <= Get(h[k].vc, t);
    assert (h + [a])[k] == h[k];
  }

  lemma SettledExtended(flags: map<Tid, Flag>, flags2: map<Tid, Flag>, h: seq<Access>, a: Access)
    requires Settled(flags, flags2, h)
    ensures Settled(flags, flags2, h + [a])
  {
    forall t, u | t in flags && u in flags2 && t != u && (flags[t].zero || flags2[u].zero)
      ensures KnewAt(h + [a], u, flags2[u].c, t, flags[t].c) || KnewAt(h + [a], t, flags[t].c, u, flags2[u].c)
    {
      if KnewAt(h, u, flags2[u].c, t, flags[t].c) {
        KnewExtended(h, a, u, flags2[u].c, t, flags[t].c);
      } else {
        KnewExtended(h, a, t, flags[t].c, u, flags2[u].c);
      }
    }
  }

  /** No earlier access knew the current frame of another thread. */
  lemma CurrentFrameUnknown(h: seq<Access>, a: Access, t: Tid, c: nat)
    requires Consistent(h + [a]) && t != a.t
    ensures !KnewAt(h, t, c, a.t, a.Clk())
  {
    ConsistentPrefix(h, a);
    forall k | 0 <= k < |h| && h[k].t == t ensures Get(h[k].vc, a.t) < a.Clk() {
      assert Sequenced(h[k], a);
    }
  }

  /** An entry ordered with an entry of the current frame is known to the current access. */
  lemma OrderedIsKnown(h: seq<Access>, a: Access, t: Tid, c: nat)
    requires Consistent(h + [a]) && t != a.t
    ensures KnewAt(h, a.t, a.Clk(), t, c) || KnewAt(h, t, c, a.t, a.Clk()) ==> c <= Get(a.vc, t)
  {
    CurrentFrameUnknown(h, a, t, c);
    ConsistentPrefix(h, a);
    if KnewAt(h, a.t, a.Clk(), t, c) {
      var k :| 0 <= k < |h| && h[k].t == a.t && h[k].Clk() == a.Clk() && c <= Get(h[k].vc, t);
      assert Sequenced(h[k], a);
      assert Get(h[k].vc, t) <= Get(a.vc, t);
    }
  }

  /** The checks that SimpleLock+ skips would have found nothing. */
  lemma SkippedCheckIsQuiet(flags: map<Tid, Flag>, own: map<Tid, Flag>, h: seq<Access>, k: Counted)
    requires Consistent(h + [k.a]) && (Settled(flags, own, h) || Settled(own, flags, h))
    requires k.a.t in own && Redundant(own[k.a.t], k.a.Clk(), k.locks)
    ensures !SomeExposed(flags, k.a.t, k.a.vc, k.locks)
  {
    forall t | t in flags && t != k.a.t && (flags[t].zero || k.locks == 0) ensures flags[t].c <= Get(k.a.vc, t) {
      assert flags[t].zero || own[k.a.t].zero;
      OrderedIsKnown(h, k.a, t, flags[t].c);
    }
  }

  /** A new entry whose check found nothing is settled with all entries it was checked against. */
  lemma CheckedIsSettled(flags: map<Tid, Flag>, own: map<Tid, Flag>, h: seq<Access>, k: Counted)
    requires Settled(flags, own, h) && !SomeExposed(flags, k.a.t, k.a.vc, k.locks)
    ensures Settled(flags, own[k.a.t := Flag(k.a.Clk(), k.locks == 0)], h + [k.a])
  {
    var own1, g := own[k.a.t := Flag(k.a.Clk(), k.locks == 0)], h + [k.a];
    SettledExtended(flags, own, h, k.a);
    forall t | t in flags && t != k.a.t && (flags[t].zero || k.locks == 0)
      ensures KnewAt(g, k.a.t, k.a.Clk(), t, flags[t].c)
    {
      assert g[|h|] == k.a;
    }
  }

  lemma CheckedIsSettledBack(flags: map<Tid, Flag>, own: map<Tid, Flag>, h: seq<Access>, k: Counted)
    requires Settled(own, flags, h) && !SomeExposed(flags, k.a.t, k.a.vc, k.locks)
    ensures Settled(own[k.a.t := Flag(k.a.Clk(), k.locks == 0)], flags, h + [k.a])
  {
    var own1, g := own[k.a.t := Flag(k.a.Clk(), k.locks == 0)], h + [k.a];
    SettledExtended(own, flags, h, k.a);
    forall t | t in flags && t != k.a.t && (flags[t].zero || k.locks == 0)
      ensures KnewAt(g, k.a.t, k.a.Clk(), t, flags[t].c)
    {
      assert g[|h|] == k.a;
    }
  }

  lemma SameExposed(flags: map<Tid, Flag>, lists: map<Tid, seq<SL.Stamp>>, t: Tid, vc: Clock, locks: nat)
    requires SameEntries(flags, lists)
    ensures SomeExposed(flags, t, vc, locks) <==> SL.SomeExposed(lists, t, vc, locks)
  {
    if u :| u in flags && u != t && flags[u].c > Get(vc, u) && (flags[u].zero || locks == 0) {
      assert SL.Exposed(lists[u][0], u, vc, locks);
    }
  }

  /** What the access leaves in its own entry is the same on both sides. */
  lemma OwnEntrySame(flags: map<Tid, Flag>, lists: map<Tid, seq<SL.Stamp>>, k: Counted)
    requires SameEntries(flags, lists) && k.a.Clk() >= 1
    ensures var t, c := k.a.t, k.a.Clk();
            var own := Of(flags, t);
            var flag := if Redundant(own, c, k.locks) then own else Flag(c, k.locks == 0);
            && SameEntries(flags[t := flag], lists[t := SL.Recorded(SL.Of(lists, t), SL.Stamp(c, k.locks), 1)])
            && (Redundant(own, c, k.locks) ==> t in flags)
  {
  }

  lemma ReadAgrees(m: SlpMeta, s: SL.SlMeta, h: seq<Access>, k: Counted)
    requires Consistent(h + [k.a]) && SameMeta(m, s) && (!m.racy ==> AllSettled(m, h)) && !k.a.write
    ensures SameMeta(Process(m, k), SL.Process(s, k, 1))
    ensures !Process(m, k).racy ==> AllSettled(Process(m, k), h + [k.a])
  {
    ConsistentPrefix(h, k.a);
    OwnEntrySame(m.readers, s.readers, k);
    SameExposed(m.writers, s.writers, k.a.t, k.a.vc, k.locks);
    if !m.racy {
      if Redundant(Of(m.readers, k.a.t), k.a.Clk(), k.locks) {
        SkippedCheckIsQuiet(m.writers, m.readers, h, k);
        SettledExtended(m.writers, m.writers, h, k.a);
        SettledExtended(m.writers, m.readers, h, k.a);
      } else if !Process(m, k).racy {
        SettledExtended(m.writers, m.writers, h, k.a);
        CheckedIsSettled(m.writers, m.readers, h, k);
      }
    }
  }

  /** A writer's new entry against all writers' entries, its own new one included. */
  lemma WritersSettled(writers: map<Tid, Flag>, h: seq<Access>, k: Counted)
    requires Settled(writers, writers, h) && !SomeExposed(writers, k.a.t, k.a.vc, k.locks)
    ensures var w := writers[k.a.t := Flag(k.a.Clk(), k.locks == 0)]; Settled(w, w, h + [k.a])
  {
    var w, g := writers[k.a.t := Flag(k.a.Clk(), k.locks == 0)], h + [k.a];
    CheckedIsSettled(writers, writers, h, k);
    CheckedIsSettledBack(writers, writers, h, k);
    forall t, u | t in w && u in w && t != u && (w[t].zero || w[u].zero)
      ensures KnewAt(g, u, w[u].c, t, w[t].c) || KnewAt(g, t, w[t].c, u, w[u].c)
    {
      if t == k.a.t {
        assert u in writers;
      } else {
        assert t in writers;
      }
    }
  }

  lemma WriteSettles(m: SlpMeta, h: seq<Access>, k: Counted)
    requires Consistent(h + [k.a]) && AllSettled(m, h) && k.a.write && !Process(m, k).racy
    requires !Redundant(Of(m.writers, k.a.t), k.a.Clk(), k.locks)
    ensures AllSettled(Process(m, k), h + [k.a])
  {
    var m1 := Process(m, k);
    assert !SomeExposed(m.writers, k.a.t, k.a.vc, k.locks) by {
      assert !SomeExposed(m1.writers, k.a.t, k.a.vc, k.locks);
    }
    WritersSettled(m.writers, h, k);
    CheckedIsSettledBack(m.readers, m.writers, h, k);
  }

  lemma SkippedWriteSettles(m: SlpMeta, h: seq<Access>, k: Counted)
    requires Consistent(h + [k.a]) && AllSettled(m, h) && k.a.write && k.a.t in m.writers
    requires Redundant(m.writers[k.a.t], k.a.Clk(), k.locks)
    ensures Process(m, k) == m && AllSettled(m, h + [k.a])
    ensures !SomeExposed(m.writers, k.a.t, k.a.vc, k.locks) && !SomeExposed(m.readers, k.a.t, k.a.vc, k.locks)
  {
    SkippedCheckIsQuiet(m.writers, m.writers, h, k);
    SkippedCheckIsQuiet(m.readers, m.writers, h, k);
    assert m.writers[k.a.t := m.writers[k.a.t]] == m.writers;
    SettledExtended(m.writers, m.writers, h, k.a);
    SettledExtended(m.writers, m.readers, h, k.a);
  }

  lemma WriteAgrees(m: SlpMeta, s: SL.SlMeta, h: seq<Access>, k: Counted)
    requires Consistent(h + [k.a]) && SameMeta(m, s) && (!m.racy ==> AllSettled(m, h)) && k.a.write
    ensures SameMeta(Process(m, k), SL.Process(s, k, 1))
    ensures !Process(m, k).racy ==> AllSettled(Process(m, k), h + [k.a])
  {
    ConsistentPrefix(h, k.a);
    OwnEntrySame(m.writers, s.writers, k);
    var m1, s1 := Process(m, k), SL.Process(s, k, 1);
    SameExposed(m1.writers, s1.writers, k.a.t, k.a.vc, k.locks);
    SameExposed(m.readers, s.readers, k.a.t, k.a.vc, k.locks);
    if !m.racy {
      if Redundant(Of(m.writers, k.a.t), k.a.Clk(), k.locks) {
        SkippedWriteSettles(m, h, k);
      } else if !m1.racy {
        WriteSettles(m, h, k);
      }
    }
  }

  /**
    SimpleLock+ agrees with SimpleLock on every address of every history that the clock machine
    can produce, whatever the lock counts are.
   */
  lemma {:induction false} Agree(h: seq<Counted>, x: Addr)
    requires Consistent(Accesses(h))
    ensures SameMeta(MetaOf(h, x), SL.MetaOf(h, x, 1))
    ensures !MetaOf(h, x).racy ==> AllSettled(MetaOf(h, x), Accesses(h))
  {
    if h != [] {
      var g, k := h[..|h| - 1], h[|h| - 1];
      var m := MetaOf(g, x);
      ConsistentPrefix(Accesses(g), k.a);
      Agree(g, x);
      if k.a.x != x {
        if !m.racy {
          SettledExtended(m.writers, m.writers, Accesses(g), k.a);
          SettledExtended(m.writers, m.readers, Accesses(g), k.a);
        }
      } else if k.a.write {
        WriteAgrees(m, SL.MetaOf(g, x, 1), Accesses(g), k);
      } else {
        ReadAgrees(m, SL.MetaOf(g, x, 1), Accesses(g), k);
      }
    }
  }

  /** So a flag of SimpleLock+ also means an unordered conflict in which one side holds no lock. */
  lemma FlagIsUnlockedRace(h: seq<Counted>, x: Addr)
    requires Consistent(Accesses(h))
    ensures MetaOf(h, x).racy ==> SL.HasUnlockedRace(h, x)
  {
    Agree(h, x);
    SL.FlagIsUnlockedRace(h, x, 1);
  }
}
