/**
  Access histories: what a detector sees of a run at the memory level. Each access carries
  the full clock its thread had when it was made.
 */
module History {
  import opened Clocks

  datatype Access = Access(t: Tid, x: Addr, write: bool, vc: Clock) {
    /** The thread's own clock at the access: with `t` this is its epoch. */
    function Clk(): nat {
      Get(vc, t)
    }
  }

  /** The clock of `b` covers the epoch of `a`. */
  predicate Ordered(a: Access, b: Access) {
    a.Clk() <= Get(b.vc, a.t)
  }

  predicate Conflict(a: Access, b: Access) {
    a.x == b.x && a.t != b.t && (a.write || b.write)
  }

  predicate Racing(a: Access, b: Access) {
    Conflict(a, b) && !Ordered(a, b) && !Ordered(b, a)
  }

  /** The history holds two racing accesses to `x`; the order of the history plays no part. */
  ghost predicate HasRace(h: seq<Access>, x: Addr) {
    exists i, j :: 0 <= i < |h| && 0 <= j < |h| && h[i].x == x && Racing(h[i], h[j])
  }

  lemma RaceAmong(h: seq<Access>, x: Addr, a: Access, b: Access)
    requires a in h && b in h && a.x == x && Racing(a, b)
    ensures HasRace(h, x)
  {
  }

  /** A race among some of the accesses is a race of all of them. */
  lemma RaceOfPart(part: seq<Access>, h: seq<Access>, x: Addr)
    requires forall a :: a in part ==> a in h
    ensures HasRace(part, x) ==> HasRace(h, x)
  {
    if HasRace(part, x) {
      var i, j :| 0 <= i < |part| && 0 <= j < |part| && part[i].x == x && Racing(part[i], part[j]);
      RaceAmong(h, x, part[i], part[j]);
    }
  }

  predicate WellTimed(a: Access) {
    a.t > 0 && a.Clk() >= 1 && Positive(a.vc)
  }

  /** What the clock machine guarantees of an access `a` and any later access `b`. */
  ghost predicate Sequenced(a: Access, b: Access) {
    && (Ordered(a, b) ==> Leq(a.vc, b.vc))
    && (a.t != b.t ==> !Ordered(b, a))
    && (a.t == b.t ==> Leq(a.vc, b.vc))
  }

  ghost predicate Consistent(h: seq<Access>) {
    && (forall i :: 0 <= i < |h| ==> WellTimed(h[i]))
    && (forall i, j :: 0 <= i < j < |h| ==> Sequenced(h[i], h[j]))
  }

  lemma ConsistentPrefix(h: seq<Access>, a: Access)
    requires Consistent(h + [a])
    ensures Consistent(h) && WellTimed(a)
    ensures forall i :: 0 <= i < |h| ==> Sequenced(h[i], a)
  {
    var g := h + [a];
    forall i | 0 <= i < |h| ensures WellTimed(h[i]) && Sequenced(h[i], a) {
      assert h[i] == g[i] && a == g[|h|];
    }
    forall i, j | 0 <= i < j < |h| ensures Sequenced(h[i], h[j]) {
      assert h[i] == g[i] && h[j] == g[j];
    }
    assert a == g[|h|];
  }

  /** A new access adds a race exactly when it races with an access already there. */
  lemma RaceOfNewAccess(h: seq<Access>, a: Access, x: Addr)
    ensures HasRace(h + [a], x) <==> HasRace(h, x) || (a.x == x && exists i :: 0 <= i < |h| && Racing(h[i], a))
  {
    var g := h + [a];
    if HasRace(g, x) {
      var i, j :| 0 <= i < |g| && 0 <= j < |g| && g[i].x == x && Racing(g[i], g[j]);
      if i < |h| && j < |h| {
        assert h[i].x == x && Racing(h[i], h[j]);
      } else if i < |h| {
        assert Racing(h[i], a);
      } else {
        assert Racing(h[j], a);
      }
    }
    if HasRace(h, x) {
      var i, j :| 0 <= i < |h| && 0 <= j < |h| && h[i].x == x && Racing(h[i], h[j]);
      assert g[i].x == x && Racing(g[i], g[j]);
    }
    if a.x == x && exists i :: 0 <= i < |h| && Racing(h[i], a) {
      var i :| 0 <= i < |h| && Racing(h[i], a);
      assert g[i].x == x && Racing(g[i], g[|h|]);
    }
  }

  /**
    A repeated access of the same kind in the same time frame adds no race: whatever races
    with it already races with the access it repeats.
   */
  lemma RepeatedAccessAddsNoRace(h: seq<Access>, a: Access, k: nat)
    requires Consistent(h + [a]) && k < |h|
    requires h[k].t == a.t && h[k].x == a.x && h[k].write == a.write && h[k].Clk() == a.Clk()
    ensures forall x :: HasRace(h + [a], x) <==> HasRace(h, x)
  {
    ConsistentPrefix(h, a);
    forall x ensures HasRace(h + [a], x) <==> HasRace(h, x) {
      RaceOfNewAccess(h, a, x);
      if a.x == x && exists i :: 0 <= i < |h| && Racing(h[i], a) {
        var i :| 0 <= i < |h| && Racing(h[i], a);
        assert Sequenced(h[k], a);
        assert Get(h[k].vc, h[i].t) <= Get(a.vc, h[i].t);
        assert Racing(h[i], h[k]);
        assert h[i].x == x;
      }
    }
  }
}
