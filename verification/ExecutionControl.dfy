/** The distribution of events to parallel detectors: rings that are drained into queues. */
module ExecutionControls {
  import opened Clocks
  import opened Machine
  import opened Parallel
  import opened EventBuffers
  import EventGraph = HappensBefore
  import Verdicts
  import DjitDetectors

  /** What one detector receives: its queue, and a ring for each application thread. */
  class DetectionQueue {
    var buffers: map<Tid, EventBuffer>
    var queue: seq<Event>

    ghost predicate Valid()
      reads this, buffers.Values, set b | b in buffers.Values :: b.vec
    {
      && (forall t :: t in buffers ==> buffers[t].Valid())
      && (forall t, u :: t in buffers && u in buffers && t != u ==>
           buffers[t] != buffers[u] && buffers[t].vec != buffers[u].vec)
    }

    ghost function RingAt(t: Tid): seq<Event>
      reads this, buffers.Values
    {
      if t in buffers then buffers[t].Contents else []
    }

    /** The rings and the queue are those of `p`. */
    ghost predicate Shows(p: Pipe)
      reads this, buffers.Values
    {
      queue == p.queue && forall t :: RingAt(t) == Ring(p, t)
    }

    constructor ()
      ensures Valid() && buffers == map[] && Shows(Pipe(map[], []))
    {
      buffers, queue := map[], [];
    }

    /** Finds a thread's ring, creating it at first use. */
    method GetBuffer(t: Tid, ghost p: Pipe) returns (b: EventBuffer)
      requires Valid() && Shows(p)
      modifies this`buffers
      ensures Valid() && Shows(p)
      ensures t in buffers && b == buffers[t]
      ensures if t in old(buffers) then buffers == old(buffers)
              else buffers == old(buffers)[t := b] && fresh(b) && fresh(b.vec)
    {
      if t !in buffers {
        b := new EventBuffer();
        buffers := buffers[t := b];
      } else {
        b := buffers[t];
      }
    }

    static method Drain(buff: EventBuffer) returns (out: seq<Event>)
      requires buff.Valid()
      modifies buff, buff.vec
      ensures buff.Valid() && buff.Contents == [] && out == old(buff.Contents)
    {
      out := [];
      while !buff.Empty()
        invariant buff.Valid()
        invariant out + buff.Contents == old(buff.Contents)
        decreases |buff.Contents|
      {
        var e := buff.Pop();
        out := out + [e];
      }
    }

    /** Moves everything from a thread's ring to the end of the queue. */
    method PushEventBufferToDetectionDeque(t: Tid, ghost p: Pipe)
      requires Valid() && Shows(p) && t in buffers
      modifies this`queue, buffers[t], buffers[t].vec
      ensures Valid() && Shows(Flushed(p, t))
    {
      assert RingAt(t) == Ring(p, t);
      var out := Drain(buffers[t]);
      queue := queue + out;
      forall u ensures RingAt(u) == Ring(Flushed(p, t), u) {
      }
    }

    method PushEvent(e: Event, ghost p: Pipe)
      requires Valid() && Shows(p) && e.t in buffers && |Ring(p, e.t)| < RING_CAPACITY
      modifies buffers[e.t], buffers[e.t].vec
      ensures Valid() && Shows(Pushed(p, e))
    {
      assert RingAt(e.t) == Ring(p, e.t);
      buffers[e.t].Push(e);
      forall u ensures RingAt(u) == Ring(Pushed(p, e), u) {
        assert u != e.t ==> RingAt(u) == old(RingAt(u)) == Ring(p, u);
      }
    }

    /** Every ring was there before or is new. */
    twostate predicate Grown(before: set<EventBuffer>)
      reads this`buffers
    {
      forall b :: b in buffers.Values ==> b in before || (fresh(b) && fresh(b.vec))
    }

    method FlushAndPush(e: Event, ghost p: Pipe)
      requires Valid() && Shows(p) && e.t in buffers
      modifies this`queue, buffers[e.t], buffers[e.t].vec
      ensures Valid() && Shows(Pushed(Flushed(p, e.t), e))
    {
      PushEventBufferToDetectionDeque(e.t, p);
      PushEvent(e, Flushed(p, e.t));
    }

    /** A full ring is flushed before the event is put into it. */
    method DistributeMemoryEvent(e: Event, ghost p: Pipe)
      requires Valid() && Shows(p) && |Ring(p, e.t)| <= RING_CAPACITY
      modifies this, buffers.Values, set b | b in buffers.Values :: b.vec
      ensures Valid() && Shows(DistributeMemory(p, e)) && Grown(old(buffers.Values))
    {
      var buff := GetBuffer(e.t, p);
      assert RingAt(e.t) == Ring(p, e.t);
      if buff.Full() {
        FlushAndPush(e, p);
      } else {
        PushEvent(e, p);
      }
    }

    method FlushThread(t: Tid, ghost p: Pipe)
      requires Valid() && Shows(p)
      modifies this`queue, buffers.Values, set b | b in buffers.Values :: b.vec
      ensures Valid() && Shows(Flushed(p, t))
    {
      assert RingAt(t) == Ring(p, t);
      if t in buffers && !buffers[t].Empty() {
        PushEventBufferToDetectionDeque(t, p);
      } else {
        assert queue + [] == queue;
        forall u ensures RingAt(u) == Ring(Flushed(p, t), u) {
          assert RingAt(u) == Ring(p, u);
        }
      }
    }

    /** Any other event flushes its thread's ring and follows it into the queue. */
    method DistributeNonmemEvent(e: Event, ghost p: Pipe)
      requires Valid() && Shows(p)
      modifies this`queue, buffers.Values, set b | b in buffers.Values :: b.vec
      ensures Valid() && Shows(DistributeOther(p, e))
    {
      FlushThread(e.t, p);
      queue := queue + [e];
      forall u ensures RingAt(u) == Ring(DistributeOther(p, e), u) {
        assert RingAt(u) == Ring(Flushed(p, e.t), u);
      }
    }

    method Distribute(e: Event, d: nat, n: nat, ghost p: Pipe)
      requires n > 0 && Valid() && Shows(p) && |Ring(p, e.t)| <= RING_CAPACITY
      modifies this, buffers.Values, set b | b in buffers.Values :: b.vec
      ensures Valid() && Shows(PipeStep(p, e, d, n)) && Grown(old(buffers.Values))
    {
      if !e.Mem? {
        DistributeNonmemEvent(e, p);
      } else if e.x % n == d {
        DistributeMemoryEvent(e, p);
      }
    }
  }

  /** Runs the program's events through the rings to detector `d`, and returns the detector's queue. */
  method QueueOf(es: seq<Event>, d: nat, n: nat) returns (q: seq<Event>)
    requires n > 0
    ensures q == PipeRun(es, d, n).queue
  {
    var dq := new DetectionQueue();
    for i := 0 to |es|
      invariant dq.Valid() && dq.Shows(PipeRun(es[..i], d, n))
      invariant fresh(dq) && forall b :: b in dq.buffers.Values ==> fresh(b) && fresh(b.vec)
    {
      PipeIsFifo(es[..i], es[i].t, d, n);
      dq.Distribute(es[i], d, n, PipeRun(es[..i], d, n));
      assert es[..i + 1][..i] == es[..i];
    }
    assert es[..|es|] == es;
    q := dq.queue;
  }

  /**
    Parallel detection end to end: the events of a run whose threads exit before they are joined
    go through the rings to the detector responsible for `x`, which runs Djit on its queue. It
    flags `x` iff two recorded accesses race or a start that overtook one of them misleads it. It
    flags every data race once all threads are settled, and nothing else if parents are settled
    when their children start.
   */
  method ParallelDetect(es: seq<Event>, x: Addr, n: nat) returns (racy: bool)
    requires n > 0 && WellFormed(es) && CalmJoins(es)
    ensures var ds := Deliveries(es, x % n, n); racy <==> RaceArrived(ds, x) || Misled(ds, x)
    ensures (forall t :: Settled(es, t)) && Verdicts.DataRace(es, x) ==> racy
    ensures CalmRun(es) && racy ==> Verdicts.DataRace(es, x)
  {
    CalmParallelVerdict(es, x, n);
    var q := QueueOf(es, x % n, n);
    var found := DjitDetectors.Detect(q, [x]);
    racy := x in found;
  }
}
