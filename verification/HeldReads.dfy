/**
  The read state of FastTrack with join pruning, in terms of events: which reads it holds, and so
  which races it flags, without epochs and clocks.
 */
module HeldReads {
  import opened Clocks
  import opened History
  import opened Machine
  import opened FastTrack
  import opened JoinPruning
  import opened PrunedReads
  import opened Frames
  import opened EventGraph = HappensBefore
  import Verdicts

  // ----- The reads and writes that are remembered

  /** Two accesses of one thread with no event in between that opens a frame of it. */
  predicate SameFrame(es: seq<Event>, p: nat, q: nat) {
    && p < |es| && q < |es| && es[p].t == es[q].t
    && FramesOf(es[..p], es[p].t) == FramesOf(es[..q], es[q].t)
  }

  predicate WritesAt(es: seq<Event>, r: nat, x: Addr) {
    r < |es| && es[r].Mem? && es[r].x == x && es[r].write
  }

  datatype Position = Nowhere | Place(p: nat)

  /** The last read made while reads were ordered, and the reads kept apart, one for each thread. */
  datatype Reads = Reads(last: Position, apart: map<Tid, nat>, shared: bool)

  const NO_READS := Reads(Nowhere, map[], false)

  predicate Repeats(es: seq<Event>, w: Position, n: nat) {
    w.Place? && SameFrame(es, w.p, n)
  }

  /** The last write to `x` before event `n` that does not repeat another. */
  function LastWrite(es: seq<Event>, n: nat, x: Addr): Position
    requires n <= |es|
  {
    if n == 0 then Nowhere
    else
      var w := LastWrite(es, n - 1, x);
      if WritesAt(es, n - 1, x) && !Repeats(es, w, n - 1) then Place(n - 1) else w
  }

  /** A read replaces the last one if it knows it; otherwise the two are kept apart. */
  ghost function NextRead(es: seq<Event>, r: Reads, n: nat): Reads
    requires n < |es|
  {
    if Repeats(es, r.last, n) then r
    else if r.shared then r.(apart := r.apart[es[n].t := n])
    else if r.last.Nowhere? || Reaches(es, r.last.p, n) || r.last.p >= |es| then r.(last := Place(n))
    else r.(apart := r.apart[es[n].t := n][es[r.last.p].t := r.last.p], shared := true)
  }

  function WithoutChild(r: Reads, child: Tid): Reads {
    if child !in r.apart then r
    else r.(apart := r.apart - {child}, shared := r.shared && |r.apart - {child}| > 1)
  }

  ghost function ReadsOf(es: seq<Event>, n: nat, x: Addr): Reads
    requires n <= |es|
  {
    if n == 0 then NO_READS
    else
      var r, e := ReadsOf(es, n - 1, x), es[n - 1];
      if ReadsAt(es, n - 1, x) then NextRead(es, r, n - 1)
      else if WritesAt(es, n - 1, x) then (if !Repeats(es, LastWrite(es, n - 1, x), n - 1) && r.shared then NO_READS else r)
      else if e.Join? then WithoutChild(r, e.child)
      else r
  }

  /** Read `p`, or one of its frame, is among those kept before event `n`. */
  ghost predicate IsHeld(es: seq<Event>, p: nat, n: nat, x: Addr)
    requires p < |es| && n <= |es|
  {
    var r := ReadsOf(es, n, x);
    if r.shared then es[p].t in r.apart && SameFrame(es, r.apart[es[p].t], p)
    else r.last.Place? && SameFrame(es, r.last.p, p)
  }

  // ----- The epochs stand for them

  lemma FrameOfAccess(es: seq<Event>, p: nat)
    requires WellFormed(es) && p < |es| && es[p].Mem?
    ensures AccessAt(es, p).Clk() == 1 + FramesOf(es[..p], es[p].t)
  {
    WellFormedPrefix(es, p);
    NextEvent(es, p);
    FramesAreCounted(es[..p], es[p].t);
  }

  lemma EpochsAreFrames(es: seq<Event>, p: nat, q: nat)
    requires WellFormed(es) && p < |es| && q < |es| && es[p].Mem? && es[q].Mem?
    ensures EpochAt(es, p) == EpochAt(es, q) <==> SameFrame(es, p, q)
  {
    FrameOfAccess(es, p);
    FrameOfAccess(es, q);
  }

  /** The epoch is that of the event at this position. */
  ghost predicate StandsFor(e: Epoch, w: Position, es: seq<Event>, n: nat, x: Addr, write: bool) {
    if w.Nowhere? then e == NO_EPOCH
    else w.p < n && (if write then WritesAt(es, w.p, x) else ReadsAt(es, w.p, x)) && e == EpochAt(es, w.p)
  }

  ghost predicate Matches(m: FtMeta, r: Reads, es: seq<Event>, n: nat, x: Addr) {
    && StandsFor(m.reader_epoch, r.last, es, n, x, false)
    && m.shared == r.shared && m.reader_vc.Keys == r.apart.Keys
    && forall t :: t in r.apart ==> StandsFor(Epoch(t, m.reader_vc[t]), Place(r.apart[t]), es, n, x, false)
  }

  lemma RepeatsIsSkip(e: Epoch, w: Position, es: seq<Event>, n: nat, k: nat, x: Addr, write: bool)
    requires WellFormed(es) && StandsFor(e, w, es, n, x, write) && k < |es| && es[k].Mem?
    ensures Repeats(es, w, k) <==> e == EpochAt(es, k)
  {
    IsWellTimed(es, k);
    if w.Place? {
      EpochsAreFrames(es, w.p, k);
    }
  }

  lemma WithinLonger(m: FtMeta, r: Reads, es: seq<Event>, n: nat, x: Addr)
    requires Matches(m, r, es, n, x)
    ensures Matches(m, r, es, n + 1, x)
  {
  }

  /** The new read is kept for its thread, beside the others. */
  lemma AddedMatches(m: FtMeta, r: Reads, es: seq<Event>, n: nat, x: Addr)
    requires Matches(m, r, es, n + 1, x) && ReadsAt(es, n, x)
    ensures var a := AccessAt(es, n);
            Matches(m.(reader_vc := m.reader_vc[a.t := a.Clk()]), r.(apart := r.apart[es[n].t := n]), es, n + 1, x)
  {
  }

  /** So is the last read, when the two are kept apart. */
  lemma PartedMatches(m: FtMeta, r: Reads, es: seq<Event>, n: nat, x: Addr)
    requires Matches(m, r, es, n + 1, x) && ReadsAt(es, n, x) && r.last.Place?
    ensures var a, e := AccessAt(es, n), m.reader_epoch;
            Matches(m.(reader_vc := m.reader_vc[a.t := a.Clk()][e.t := e.c], shared := true),
                    r.(apart := r.apart[es[n].t := n][es[r.last.p].t := r.last.p], shared := true), es, n + 1, x)
  {
  }

  lemma ReadMatches(m: FtMeta, r: Reads, es: seq<Event>, n: nat, x: Addr)
    requires WellFormed(es) && ReadsAt(es, n, x) && Matches(m, r, es, n, x)
    ensures Matches(Process(m, AccessAt(es, n)), NextRead(es, r, n), es, n + 1, x)
  {
    var a, racy := AccessAt(es, n), Process(m, AccessAt(es, n)).racy;
    RepeatsIsSkip(m.reader_epoch, r.last, es, n, n, x, false);
    WithinLonger(m, r, es, n, x);
    IsWellTimed(es, n);
    if !Repeats(es, r.last, n) {
      if r.shared {
        AddedMatches(m.(racy := racy), r, es, n, x);
      } else if r.last.Place? {
        AccessesInTurn(es, r.last.p, n);
        LastIsBehind(es, r.last.p, n);
        PartedMatches(m.(racy := racy), r, es, n, x);
      }
    }
  }

  /** A read of the same thread that is not of the same frame is behind. */
  lemma LastIsBehind(es: seq<Event>, p: nat, n: nat)
    requires WellFormed(es) && p < n < |es| && es[p].Mem? && es[n].Mem?
    ensures es[p].t == es[n].t ==> Reaches(es, p, n) && EpochAt(es, p).c <= EpochAt(es, n).c
  {
    AccessesInTurn(es, p, n);
    if es[p].t == es[n].t {
      assert Get(AccessAt(es, p).vc, es[p].t) <= Get(AccessAt(es, n).vc, es[p].t);
    }
  }

  lemma JoinMatches(m: FtMeta, r: Reads, es: seq<Event>, n: nat, x: Addr, child: Tid)
    requires Matches(m, r, es, n, x)
    ensures Matches(Prune(m, child), WithoutChild(r, child), es, n + 1, x)
  {
    if child in r.apart {
      SameSize(m.reader_vc - {child}, r.apart - {child});
      ErasedMatches(m.reader_vc, r.apart, es, n, x, child);
    } else {
      WithinLonger(m, r, es, n, x);
    }
  }

  lemma ErasedMatches(readers: Clock, apart: map<Tid, nat>, es: seq<Event>, n: nat, x: Addr, child: Tid)
    requires readers.Keys == apart.Keys
    requires forall t :: t in apart ==> StandsFor(Epoch(t, readers[t]), Place(apart[t]), es, n, x, false)
    ensures (readers - {child}).Keys == (apart - {child}).Keys
    ensures forall t :: t in apart - {child} ==>
              StandsFor(Epoch(t, (readers - {child})[t]), Place((apart - {child})[t]), es, n + 1, x, false)
  {
  }

  lemma SameSize<V, W>(a: map<Tid, V>, b: map<Tid, W>)
    requires a.Keys == b.Keys
    ensures |a| == |b|
  {
  }

  lemma WriteMatches(m: FtMeta, r: Reads, w: Position, es: seq<Event>, n: nat, x: Addr)
    requires WellFormed(es) && WritesAt(es, n, x)
    requires Matches(m, r, es, n, x) && StandsFor(m.writer_epoch, w, es, n, x, true)
    ensures Matches(Process(m, AccessAt(es, n)), if !Repeats(es, w, n) && r.shared then NO_READS else r, es, n + 1, x)
    ensures StandsFor(Process(m, AccessAt(es, n)).writer_epoch, if Repeats(es, w, n) then w else Place(n), es, n + 1, x, true)
  {
    RepeatsIsSkip(m.writer_epoch, w, es, n, n, x, true);
    WithinLonger(m, r, es, n, x);
  }

  /** The state before event `n`, by epochs and by events. */
  ghost predicate Stands(es: seq<Event>, n: nat, x: Addr)
    requires n <= |es|
  {
    && Matches(PrunedMeta(es[..n], x), ReadsOf(es, n, x), es, n, x)
    && StandsFor(PrunedMeta(es[..n], x).writer_epoch, LastWrite(es, n, x), es, n, x, true)
  }

  lemma ReadStands(es: seq<Event>, n: nat, x: Addr)
    requires WellFormed(es) && ReadsAt(es, n, x) && Stands(es, n, x)
    ensures Stands(es, n + 1, x)
  {
    MetaNext(es, n, x);
    ReadMatches(PrunedMeta(es[..n], x), ReadsOf(es, n, x), es, n, x);
  }

  lemma WriteStands(es: seq<Event>, n: nat, x: Addr)
    requires WellFormed(es) && WritesAt(es, n, x) && Stands(es, n, x)
    ensures Stands(es, n + 1, x)
  {
    MetaNext(es, n, x);
    WriteMatches(PrunedMeta(es[..n], x), ReadsOf(es, n, x), LastWrite(es, n, x), es, n, x);
  }

  lemma OtherStands(es: seq<Event>, n: nat, x: Addr)
    requires n < |es| && !(es[n].Mem? && es[n].x == x) && Stands(es, n, x)
    ensures Stands(es, n + 1, x)
  {
    MetaNext(es, n, x);
    if es[n].Join? {
      JoinMatches(PrunedMeta(es[..n], x), ReadsOf(es, n, x), es, n, x, es[n].child);
    } else {
      WithinLonger(PrunedMeta(es[..n], x), ReadsOf(es, n, x), es, n, x);
    }
  }

  /** The epochs of the meta stand for the last write and the reads that are kept. */
  lemma {:induction false} EpochsStandForEvents(es: seq<Event>, n: nat, x: Addr)
    requires WellFormed(es) && n <= |es|
    ensures Stands(es, n, x)
  {
    if n > 0 {
      EpochsStandForEvents(es, n - 1, x);
      if ReadsAt(es, n - 1, x) {
        ReadStands(es, n - 1, x);
      } else if WritesAt(es, n - 1, x) {
        WriteStands(es, n - 1, x);
      } else {
        OtherStands(es, n - 1, x);
      }
    }
  }

  // ----- The verdict

  lemma HeldIsHeld(es: seq<Event>, p: nat, n: nat, x: Addr)
    requires WellFormed(es) && p < n <= |es| && ReadsAt(es, p, x)
    ensures HoldsRead(PrunedMeta(es[..n], x), EpochAt(es, p)) <==> IsHeld(es, p, n, x)
  {
    var m, r := PrunedMeta(es[..n], x), ReadsOf(es, n, x);
    EpochsStandForEvents(es, n, x);
    IsWellTimed(es, p);
    if r.shared {
      if es[p].t in r.apart {
        EpochsAreFrames(es, r.apart[es[p].t], p);
      }
    } else if r.last.Place? {
      EpochsAreFrames(es, r.last.p, p);
    }
  }

  /**
    Events `p` and `q` are a data race that starts with a write, or with a read that is still kept
    when `q`, a write that does not repeat another, comes.
   */
  ghost predicate SeenRace(es: seq<Event>, p: nat, q: nat, x: Addr) {
    && p < q < |es| && Verdicts.ConflictingEvents(es[p], es[q], x) && !Reaches(es, p, q)
    && (es[p].write || (IsHeld(es, p, q, x) && !Repeats(es, LastWrite(es, q, x), q)))
  }

  lemma SeenIsCaught(es: seq<Event>, p: nat, q: nat, x: Addr)
    requires WellFormed(es)
    ensures SeenRace(es, p, q, x) <==> Caught(es, p, q, x)
  {
    if p < q < |es| && Verdicts.ConflictingEvents(es[p], es[q], x) && !es[p].write {
      HeldIsHeld(es, p, q, x);
      EpochsStandForEvents(es, q, x);
      RepeatsIsSkip(PrunedMeta(es[..q], x).writer_epoch, LastWrite(es, q, x), es, q, q, x, true);
    }
  }

  /** What FastTrack flags as it stands, on every run, told from the events alone. */
  lemma EventVerdict(es: seq<Event>, x: Addr)
    requires WellFormed(es)
    ensures PrunedMeta(es, x).racy <==> exists p: nat, q: nat :: SeenRace(es, p, q, x)
  {
    PrunedVerdict(es, x);
    forall p: nat, q: nat ensures SeenRace(es, p, q, x) <==> Caught(es, p, q, x) {
      SeenIsCaught(es, p, q, x);
    }
  }
}
