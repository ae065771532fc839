/** Eraser's exact verdict on every run: which locks are still candidates, and which accesses are flagged. */
module EraserVerdicts {
  import opened Clocks
  import opened Machine
  import opened Eraser

  // ----- What protects an address

  /** Event `p` is the first access to `x`. */
  ghost predicate FirstTouch(es: seq<Event>, x: Addr, p: nat) {
    p < |es| && Touches(es[p], x) && !Touched(es[..p], x)
  }

  /** Event `p` is an access to `x` at or after its first access by a thread other than the owner. */
  ghost predicate WhileShared(es: seq<Event>, x: Addr, p: nat) {
    p < |es| && Touches(es[p], x) && SharedIn(es[..p + 1], x)
  }

  /** Lock `a` was in the reader table of whoever made the first access, or read `x` while it was shared. */
  ghost predicate Protects(es: seq<Event>, x: Addr, a: Addr) {
    forall p :: 0 <= p < |es| && (FirstTouch(es, x, p) || (WhileShared(es, x, p) && !es[p].write)) ==>
      a in Of(TablesOf(es[..p]).readers, es[p].t)
  }

  ghost predicate NothingProtects(es: seq<Event>, x: Addr) {
    forall a :: !Protects(es, x, a)
  }

  /**
    Event `q` accesses `x` while it is shared, and no lock that has protected `x` so far is in the
    writer table of the writer; or, if `q` is a read after such a write, no lock protects `x` any more.
   */
  ghost predicate Unprotected(es: seq<Event>, x: Addr, q: nat) {
    && WhileShared(es, x, q)
    && if es[q].write then forall a :: a in Of(TablesOf(es[..q]).writers, es[q].t) ==> !Protects(es[..q], x, a)
       else WrittenWhileShared(es[..q], x) && NothingProtects(es[..q + 1], x)
  }

  ghost predicate AnyUnprotected(es: seq<Event>, x: Addr) {
    exists q :: 0 <= q < |es| && Unprotected(es, x, q)
  }

  /** Write locks protect reads too. */
  lemma {:induction false} WritersAreReaders(es: seq<Event>, t: Tid)
    ensures Of(TablesOf(es).writers, t) <= Of(TablesOf(es).readers, t)
  {
    if es != [] {
      WritersAreReaders(es[..|es| - 1], t);
      WritersAreReaders(es[..|es| - 1], es[|es| - 1].t);
    }
  }

  lemma EventsSnoc(es: seq<Event>, e: Event, p: nat)
    requires p <= |es|
    ensures (es + [e])[..p] == es[..p] && (p < |es| ==> (es + [e])[p] == es[p])
  {
  }

  lemma SharedNow(es: seq<Event>, e: Event, x: Addr)
    ensures FirstTouch(es + [e], x, |es|) <==> Touches(e, x) && !Touched(es, x)
    ensures WhileShared(es + [e], x, |es|) <==> Touches(e, x) && SharedIn(es + [e], x)
    ensures forall p :: 0 <= p < |es| ==> (FirstTouch(es + [e], x, p) <==> FirstTouch(es, x, p))
    ensures forall p :: 0 <= p < |es| ==> (WhileShared(es + [e], x, p) <==> WhileShared(es, x, p))
  {
    assert (es + [e])[..|es|] == es && (es + [e])[..|es| + 1] == es + [e];
    forall p | 0 <= p < |es|
      ensures FirstTouch(es + [e], x, p) <==> FirstTouch(es, x, p)
      ensures WhileShared(es + [e], x, p) <==> WhileShared(es, x, p)
    {
      EventsSnoc(es, e, p);
      EventsSnoc(es, e, p + 1);
    }
  }

  lemma ProtectsSnoc(es: seq<Event>, e: Event, x: Addr, a: Addr)
    ensures Protects(es + [e], x, a) <==>
            Protects(es, x, a)
            && (Touches(e, x) && (!Touched(es, x) || (SharedIn(es + [e], x) && !e.write)) ==>
                  a in Of(TablesOf(es).readers, e.t))
  {
    var g := es + [e];
    SharedNow(es, e, x);
    EventsSnoc(es, e, |es|);
    forall p | 0 <= p < |es| ensures g[..p] == es[..p] && g[p] == es[p] {
      EventsSnoc(es, e, p);
    }
  }

  lemma WrittenSnoc(es: seq<Event>, e: Event, x: Addr)
    ensures WrittenWhileShared(es + [e], x) <==>
            WrittenWhileShared(es, x) || (Touches(e, x) && e.write && SharedIn(es + [e], x))
  {
  }

  /** The new access is unprotected, in terms of what came before it. */
  ghost predicate UnprotectedNow(es: seq<Event>, e: Event, x: Addr) {
    && Touches(e, x) && SharedIn(es + [e], x)
    && if e.write then forall a :: a in Of(TablesOf(es).writers, e.t) ==> !Protects(es, x, a)
       else WrittenWhileShared(es, x) && NothingProtects(es + [e], x)
  }

  lemma UnprotectedSnoc(es: seq<Event>, e: Event, x: Addr)
    ensures AnyUnprotected(es + [e], x) <==> AnyUnprotected(es, x) || UnprotectedNow(es, e, x)
  {
    var g := es + [e];
    SharedNow(es, e, x);
    forall q | 0 <= q < |es| ensures Unprotected(g, x, q) <==> Unprotected(es, x, q) {
      EventsSnoc(es, e, q);
      EventsSnoc(es, e, q + 1);
    }
    EventsSnoc(es, e, |es|);
    assert g[|es|] == e && g[..|es| + 1] == g;
    assert Unprotected(g, x, |es|) <==> UnprotectedNow(es, e, x);
  }

  /** What the meta of an address that is not flagged says about the run. */
  ghost predicate Reflects(m: EraserMeta, es: seq<Event>, x: Addr) {
    && (m.state == Unknown <==> !Touched(es, x))
    && (m.state != Unknown ==> m.t == Owner(es, x))
    && (Shared(m) <==> SharedIn(es, x))
    && (m.state == SharedModified <==> WrittenWhileShared(es, x))
    && (forall a :: a in m.readers <==> Touched(es, x) && Protects(es, x, a))
    && m.writers <= m.readers
  }

  lemma FirstReflects(m: EraserMeta, es: seq<Event>, e: Event, x: Addr)
    requires Reflects(m, es, x) && !m.racy && Touches(e, x) && !Touched(es, x)
    ensures var m1 := if e.write then ProcessWrite(m, TablesOf(es), e.t) else ProcessRead(m, TablesOf(es), e.t);
            !m1.racy && !UnprotectedNow(es, e, x) && Reflects(m1, es + [e], x)
  {
    NothingYet(es, x);
    TouchedSnoc(es, e, x);
    SharedSnoc(es, e, x);
    WrittenSnoc(es, e, x);
    WritersAreReaders(es, e.t);
    forall a ensures Protects(es + [e], x, a) <==> a in Of(TablesOf(es).readers, e.t) {
      ProtectsSnoc(es, e, x, a);
    }
  }

  /** What a later access does to a meta that is not flagged: it is shared as `shared` says, and keeps these readers. */
  ghost predicate Narrows(m: EraserMeta, m1: EraserMeta, shared: bool, modified: bool, readers: set<Addr>) {
    && m1.state != Unknown && m1.t == m.t
    && (Shared(m1) <==> shared) && (m1.state == SharedModified <==> modified)
    && m1.readers == readers && m1.writers <= m1.readers
  }

  lemma WriteNarrows(m: EraserMeta, s: Tables, t: Tid)
    requires !m.racy && m.state != Unknown && m.writers <= m.readers
    ensures var m1, shared := ProcessWrite(m, s, t), Shared(m) || t != m.t;
            && Narrows(m, m1, shared, shared, m.readers)
            && (m1.racy <==> shared && m.readers !! Of(s.writers, t))
  {
    var both := m.writers + m.readers;
    assert both == m.readers;
    forall a | both * Of(s.writers, t) == {} && a in both ensures a !in Of(s.writers, t) {
      assert a !in both * Of(s.writers, t);
    }
  }

  lemma ReadNarrows(m: EraserMeta, s: Tables, t: Tid)
    requires !m.racy && m.state != Unknown && m.writers <= m.readers && Of(s.writers, t) <= Of(s.readers, t)
    ensures var m1, shared := ProcessRead(m, s, t), Shared(m) || t != m.t;
            && Narrows(m, m1, shared, m.state == SharedModified, if shared then m.readers * Of(s.readers, t) else m.readers)
            && (m1.racy <==> m.state == SharedModified && m.readers !! Of(s.readers, t))
  {
  }

  lemma WriteReflects(m: EraserMeta, m1: EraserMeta, es: seq<Event>, e: Event, x: Addr)
    requires Reflects(m, es, x) && Touches(e, x) && Touched(es, x) && e.write
    requires var shared := Shared(m) || e.t != m.t;
             && Narrows(m, m1, shared, shared, m.readers)
             && (m1.racy <==> shared && m.readers !! Of(TablesOf(es).writers, e.t))
    ensures (m1.racy <==> UnprotectedNow(es, e, x)) && Reflects(m1, es + [e], x)
  {
    TouchedSnoc(es, e, x);
    SharedSnoc(es, e, x);
    WrittenSnoc(es, e, x);
    forall a ensures Protects(es + [e], x, a) <==> Protects(es, x, a) {
      ProtectsSnoc(es, e, x, a);
    }
  }

  lemma ReadReflects(m: EraserMeta, m1: EraserMeta, es: seq<Event>, e: Event, x: Addr)
    requires Reflects(m, es, x) && Touches(e, x) && Touched(es, x) && !e.write
    requires var shared, table := Shared(m) || e.t != m.t, Of(TablesOf(es).readers, e.t);
             && Narrows(m, m1, shared, m.state == SharedModified, if shared then m.readers * table else m.readers)
             && (m1.racy <==> m.state == SharedModified && m.readers !! table)
    ensures (m1.racy <==> UnprotectedNow(es, e, x)) && Reflects(m1, es + [e], x)
  {
    TouchedSnoc(es, e, x);
    SharedSnoc(es, e, x);
    WrittenSnoc(es, e, x);
    forall a
      ensures Protects(es + [e], x, a) <==>
              (Protects(es, x, a) && (SharedIn(es + [e], x) ==> a in Of(TablesOf(es).readers, e.t)))
    {
      ProtectsSnoc(es, e, x, a);
    }
  }

  lemma NothingYet(es: seq<Event>, x: Addr)
    requires !Touched(es, x)
    ensures !WrittenWhileShared(es, x) && forall a :: Protects(es, x, a)
  {
  }

  lemma OtherReflects(m: EraserMeta, es: seq<Event>, e: Event, x: Addr)
    requires Reflects(m, es, x) && !Touches(e, x)
    ensures Reflects(m, es + [e], x)
  {
    TouchedSnoc(es, e, x);
    SharedSnoc(es, e, x);
    WrittenSnoc(es, e, x);
    forall a ensures Protects(es + [e], x, a) <==> Protects(es, x, a) {
      ProtectsSnoc(es, e, x, a);
    }
  }

  /**
    The exact verdict, on every run: an address is flagged iff it was accessed while shared by a
    write under no lock of the writer table that had protected it so far, or by a read after which
    nothing protects it, although it had been written while shared.
   */
  lemma {:induction false} Verdict(es: seq<Event>, x: Addr)
    ensures MetaOf(es, x).racy <==> AnyUnprotected(es, x)
    ensures !MetaOf(es, x).racy ==> Reflects(MetaOf(es, x), es, x)
  {
    if es == [] {
      NothingYet(es, x);
    } else {
      var n := |es| - 1;
      assert es == es[..n] + [es[n]];
      Verdict(es[..n], x);
      UnprotectedSnoc(es[..n], es[n], x);
      if !MetaOf(es[..n], x).racy {
        if Touches(es[n], x) && !Touched(es[..n], x) {
          FirstReflects(MetaOf(es[..n], x), es[..n], es[n], x);
        } else if Touches(es[n], x) && es[n].write {
          WriteNarrows(MetaOf(es[..n], x), TablesOf(es[..n]), es[n].t);
          WriteReflects(MetaOf(es[..n], x), MetaOf(es, x), es[..n], es[n], x);
        } else if Touches(es[n], x) {
          WritersAreReaders(es[..n], es[n].t);
          ReadNarrows(MetaOf(es[..n], x), TablesOf(es[..n]), es[n].t);
          ReadReflects(MetaOf(es[..n], x), MetaOf(es, x), es[..n], es[n], x);
        } else {
          OtherReflects(MetaOf(es[..n], x), es[..n], es[n], x);
        }
      }
    }
  }

  predicate WrittenIn(es: seq<Event>, x: Addr) {
    exists e :: e in es && Touches(e, x) && e.write
  }

  lemma WrittenInSnoc(es: seq<Event>, e: Event, x: Addr)
    ensures WrittenIn(es + [e], x) <==> WrittenIn(es, x) || (Touches(e, x) && e.write)
  {
  }

  /** Of the addresses that one thread alone has accessed, those that it has written are exclusive. */
  lemma {:induction false} ExclusiveIsWritten(es: seq<Event>, x: Addr)
    ensures MetaOf(es, x).state == Virgin ==> !WrittenIn(es, x)
    ensures MetaOf(es, x).state == Exclusive ==> WrittenIn(es, x)
    ensures MetaOf(es, x).state == Unknown ==> !WrittenIn(es, x)
    ensures MetaOf(es, x).racy ==> MetaOf(es, x).state == SharedModified
  {
    if es != [] {
      var n := |es| - 1;
      assert es == es[..n] + [es[n]];
      ExclusiveIsWritten(es[..n], x);
      WrittenInSnoc(es[..n], es[n], x);
    }
  }

  /** Lock `a` is tabled to write at event `p`, the first access, or a write while shared that `a` has protected so far. */
  ghost predicate Anchors(es: seq<Event>, x: Addr, p: nat, a: Addr) {
    && p < |es| && a in Of(TablesOf(es[..p]).writers, es[p].t)
    && (FirstTouch(es, x, p) || (WhileShared(es, x, p) && es[p].write && Protects(es[..p], x, a)))
  }

  /** If `r` is an access while shared, it is a read with lock `a` tabled to write. */
  ghost predicate KeepsAt(es: seq<Event>, x: Addr, r: nat, a: Addr) {
    WhileShared(es, x, r) ==> !es[r].write && a in Of(TablesOf(es[..r]).writers, es[r].t)
  }

  /** Since `p`, lock `a` was tabled to write at every read while shared, and there was no write while shared. */
  ghost predicate KeptSince(es: seq<Event>, x: Addr, p: nat, a: Addr) {
    forall r :: p < r < |es| ==> KeepsAt(es, x, r, a)
  }

  /** Lock `a` has protected the writes since the last one made while shared, or since the first access. */
  ghost predicate ProtectsWrites(es: seq<Event>, x: Addr, a: Addr) {
    exists p: nat {:trigger Anchors(es, x, p, a)} :: Anchors(es, x, p, a) && KeptSince(es, x, p, a)
  }

  lemma AnchorsSnoc(es: seq<Event>, e: Event, x: Addr, p: nat, a: Addr)
    ensures p < |es| ==> (Anchors(es + [e], x, p, a) <==> Anchors(es, x, p, a))
    ensures Anchors(es + [e], x, |es|, a) <==>
            && Touches(e, x) && a in Of(TablesOf(es).writers, e.t)
            && (!Touched(es, x) || (SharedIn(es + [e], x) && e.write && Protects(es, x, a)))
  {
    SharedNow(es, e, x);
    EventsSnoc(es, e, |es|);
    assert (es + [e])[|es|] == e;
    if p < |es| {
      EventsSnoc(es, e, p);
    }
  }

  lemma KeepsAtSnoc(es: seq<Event>, e: Event, x: Addr, r: nat, a: Addr)
    requires r <= |es|
    ensures r < |es| ==> (KeepsAt(es + [e], x, r, a) <==> KeepsAt(es, x, r, a))
    ensures r == |es| ==>
              (KeepsAt(es + [e], x, r, a) <==>
                 (Touches(e, x) && SharedIn(es + [e], x) ==> !e.write && a in Of(TablesOf(es).writers, e.t)))
  {
    SharedNow(es, e, x);
    EventsSnoc(es, e, r);
    assert (es + [e])[|es|] == e && (es + [e])[..|es|] == es;
  }

  lemma KeptSnoc(es: seq<Event>, e: Event, x: Addr, p: nat, a: Addr)
    requires p < |es|
    ensures KeptSince(es + [e], x, p, a) <==> KeptSince(es, x, p, a) && KeepsAt(es + [e], x, |es|, a)
  {
    forall r | p < r < |es| ensures KeepsAt(es + [e], x, r, a) <==> KeepsAt(es, x, r, a) {
      KeepsAtSnoc(es, e, x, r, a);
    }
  }

  lemma ProtectsWritesSnoc(es: seq<Event>, e: Event, x: Addr, a: Addr)
    ensures ProtectsWrites(es + [e], x, a) <==>
            var tabled, shared := a in Of(TablesOf(es).writers, e.t), SharedIn(es + [e], x);
            if !Touches(e, x) then ProtectsWrites(es, x, a)
            else if !Touched(es, x) then tabled || ProtectsWrites(es, x, a)
            else if !shared then ProtectsWrites(es, x, a)
            else tabled && if e.write then Protects(es, x, a) else ProtectsWrites(es, x, a)
  {
    var g := es + [e];
    AnchorsSnoc(es, e, x, |es|, a);
    KeepsAtSnoc(es, e, x, |es|, a);
    SharedSnoc(es, e, x);
    if p: nat :| Anchors(g, x, p, a) && KeptSince(g, x, p, a) {
      if p < |es| {
        AnchorsSnoc(es, e, x, p, a);
        KeptSnoc(es, e, x, p, a);
      }
    }
    if p: nat :| Anchors(es, x, p, a) && KeptSince(es, x, p, a) {
      AnchorsSnoc(es, e, x, p, a);
      KeptSnoc(es, e, x, p, a);
    }
    assert KeptSince(g, x, |es|, a);
  }

  /** The write candidates of an address that is not flagged: the locks that have protected its writes. */
  lemma {:induction false} WriteCandidatesAre(es: seq<Event>, x: Addr)
    ensures !MetaOf(es, x).racy ==> forall a :: a in MetaOf(es, x).writers <==> ProtectsWrites(es, x, a)
  {
    if es != [] {
      var n := |es| - 1;
      assert es == es[..n] + [es[n]];
      Verdict(es[..n], x);
      WriteCandidatesAre(es[..n], x);
      if !MetaOf(es, x).racy {
        if Touches(es[n], x) {
          WritersMove(MetaOf(es[..n], x), TablesOf(es[..n]), es[n].t, es[n].write);
        }
        SharedSnoc(es[..n], es[n], x);
        forall a ensures a in MetaOf(es, x).writers <==> ProtectsWrites(es, x, a) {
          ProtectsWritesSnoc(es[..n], es[n], x, a);
        }
      }
    }
  }

  lemma WritersMove(m: EraserMeta, s: Tables, t: Tid, write: bool)
    requires !m.racy && m.writers <= m.readers
    ensures var m1 := if write then ProcessWrite(m, s, t) else ProcessRead(m, s, t);
            m1.writers == if m.state == Unknown then Of(s.writers, t)
                          else if !Shared(m) && t == m.t then m.writers
                          else (if write then m.readers else m.writers) * Of(s.writers, t)
  {
  }

  /** A write by a thread other than the owner that holds no lock to write is always flagged. */
  lemma BareWriteIsFlagged(es: seq<Event>, t: Tid, x: Addr)
    requires Touched(es, x) && t != Owner(es, x) && Of(TablesOf(es).writers, t) == {}
    ensures MetaOf(es + [Mem(t, x, true)], x).racy
  {
    var e := Mem(t, x, true);
    Verdict(es + [e], x);
    SharedSnoc(es, e, x);
    UnprotectedSnoc(es, e, x);
  }

  ghost predicate OnlyWritten(es: seq<Event>, x: Addr) {
    forall p :: 0 <= p < |es| && Touches(es[p], x) ==> es[p].write
  }

  /** The first access, at `f`, and the later write at `q` have no lock in common. */
  ghost predicate NoneInCommon(es: seq<Event>, x: Addr, f: nat, q: nat) {
    && f < q < |es| && FirstTouch(es, x, f) && WhileShared(es, x, q)
    && Of(TablesOf(es[..f]).readers, es[f].t) !! Of(TablesOf(es[..q]).writers, es[q].t)
  }

  lemma {:induction false} FirstIs(es: seq<Event>, x: Addr) returns (f: nat)
    requires Touched(es, x)
    ensures FirstTouch(es, x, f) && es[f].t == Owner(es, x)
  {
    var n := |es| - 1;
    assert es == es[..n] + [es[n]];
    TouchedSnoc(es[..n], es[n], x);
    SharedNow(es[..n], es[n], x);
    if Touched(es[..n], x) {
      f := FirstIs(es[..n], x);
    } else {
      f := n;
    }
  }

  lemma OnlyFirst(es: seq<Event>, x: Addr, f: nat, p: nat)
    requires FirstTouch(es, x, f) && FirstTouch(es, x, p)
    ensures f == p
  {
  }

  /** Where the run has no reads of `x`, its first writer's locks are what protects it. */
  lemma WritesProtect(es: seq<Event>, x: Addr, f: nat, q: nat, a: Addr)
    requires OnlyWritten(es, x) && f < q < |es| && FirstTouch(es, x, f)
    ensures Protects(es[..q], x, a) <==> a in Of(TablesOf(es[..f]).readers, es[f].t)
  {
    var g := es[..q];
    forall p | 0 <= p < q ensures g[..p] == es[..p] && g[p] == es[p] {
    }
    assert FirstTouch(g, x, f);
    forall p | 0 <= p < q && FirstTouch(g, x, p) ensures p == f {
      OnlyFirst(g, x, f, p);
    }
  }

  /**
    An address that is only written is flagged iff some write made while it is shared is under no
    lock that its first writer had.
   */
  lemma WriteOnlyVerdict(es: seq<Event>, x: Addr)
    requires OnlyWritten(es, x)
    ensures MetaOf(es, x).racy <==> exists f, q :: NoneInCommon(es, x, f, q)
  {
    Verdict(es, x);
    forall q | 0 <= q < |es| && WhileShared(es, x, q)
      ensures Unprotected(es, x, q) <==> exists f :: NoneInCommon(es, x, f, q)
    {
      var f := FirstBefore(es, x, q);
      forall a ensures Protects(es[..q], x, a) <==> a in Of(TablesOf(es[..f]).readers, es[f].t) {
        WritesProtect(es, x, f, q, a);
      }
      forall p | NoneInCommon(es, x, p, q) ensures p == f {
        OnlyFirst(es, x, f, p);
      }
      assert Unprotected(es, x, q) <==> NoneInCommon(es, x, f, q);
    }
  }

  lemma FirstBefore(es: seq<Event>, x: Addr, q: nat) returns (f: nat)
    requires WhileShared(es, x, q)
    ensures f < q && FirstTouch(es, x, f)
  {
    var g := es[..q + 1];
    assert g == es[..q] + [es[q]];
    TouchedSnoc(es[..q], es[q], x);
    SharedSnoc(es[..q], es[q], x);
    assert Touched(es[..q], x);
    f := FirstIs(es[..q], x);
    assert es[..q][..f] == es[..f];
  }
}
