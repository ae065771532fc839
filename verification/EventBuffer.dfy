/** The ring buffer that holds a thread's memory events on their way to one detector. */
module EventBuffers {
  import opened Machine
  import opened Parallel

  datatype Slot = Null | Held(e: Event)

  const SLOTS := RING_CAPACITY + 1

  /** The slot `i` places after `bgn`, around the end of the vector. */
  function Around(bgn: nat, i: nat): (k: nat)
    requires bgn < SLOTS && i <= RING_CAPACITY
    ensures k < SLOTS && k == (bgn + i) % SLOTS
  {
    if bgn + i < SLOTS then bgn + i else bgn + i - SLOTS
  }

  lemma AroundNext(bgn: nat, i: nat)
    requires bgn < SLOTS && i < RING_CAPACITY
    ensures Around((bgn + 1) % SLOTS, i) == Around(bgn, i + 1) && Around(bgn, i + 1) != bgn
  {
  }

  class EventBuffer {
    const vec: array<Slot>
    var bgn: nat
    var end: nat
    ghost var Contents: seq<Event>

    ghost predicate Valid()
      reads this, vec
    {
      && vec.Length == SLOTS
      && bgn < SLOTS && end < SLOTS
      && |Contents| <= RING_CAPACITY
      && end == Around(bgn, |Contents|)
      && forall i :: 0 <= i < |Contents| ==> vec[Around(bgn, i)] == Held(Contents[i])
    }

    constructor ()
      ensures Valid() && Contents == [] && fresh(vec)
    {
      vec := new Slot[SLOTS](_ => Null);
      bgn, end := 0, 0;
      Contents := [];
    }

    /** Pushing into a full ring makes the indices meet: everything in it is lost. The callers check first. */
    method Push(e: Event)
      requires Valid()
      modifies this, vec
      ensures Valid()
      ensures Contents == if |old(Contents)| < RING_CAPACITY then old(Contents) + [e] else []
    {
      vec[end] := Held(e);
      end := (end + 1) % SLOTS;
      if |Contents| < RING_CAPACITY {
        Contents := Contents + [e];
      } else {
        Contents := [];
      }
    }

    /** The caller checks that the ring is not empty. */
    method Pop() returns (e: Event)
      requires Valid() && Contents != []
      modifies this, vec
      ensures Valid() && old(Contents) == [e] + Contents
    {
      assert vec[Around(bgn, 0)] == Held(Contents[0]);
      e := vec[bgn].e;
      vec[bgn] := Null;
      var next := (bgn + 1) % SLOTS;
      forall i | 0 <= i < |Contents| ensures Around(next, i) == Around(bgn, i + 1) && Around(next, i) != bgn {
        AroundNext(bgn, i);
      }
      bgn := next;
      Contents := Contents[1..];
    }

    predicate Empty()
      requires Valid()
      reads this, vec
      ensures Empty() <==> Contents == []
    {
      bgn == end
    }

    predicate Full()
      requires Valid()
      reads this, vec
      ensures Full() <==> |Contents| == RING_CAPACITY
    {
      if bgn < end then end - bgn == RING_CAPACITY else end - bgn + 1 == 0
    }
  }
}
