/**
  LiteRace runs Djit on a sample of the accesses to each address. Its counters cut the accesses
  of an address into cycles: `ncount` accesses are skipped, 99 are sampled, and one more ends the
  cycle and sets the length of the next.
 */
module LiteRace {
  import opened Clocks
  import opened History
  import opened Machine
  import Verdicts
  import Djit

  /** The sampling mode: a fixed rate, or one that is divided by a parameter after every cycle. */
  datatype Sampling = Fixed | Adaptive(param: nat)

  datatype LrMeta = LrMeta(djit: Djit.DjitMeta, ncount: int, scount: int, rate: int)

  const BURST := 100
  const NEW_META := LrMeta(Djit.NEW_META, 0, BURST, 1000)

  predicate Sane(sampling: Sampling) {
    sampling.Adaptive? ==> sampling.param > 0
  }

  function UpdateRate(m: LrMeta, sampling: Sampling): LrMeta
    requires Sane(sampling) && 1 <= m.rate
  {
    var lower := if sampling.Adaptive? then m.rate / sampling.param else m.rate;
    var rate := if lower < 1 then 1 else lower;
    LrMeta(m.djit, BURST * (1000 - rate) / rate, BURST, rate)
  }

  /** The rate of the next cycle: a fixed one stays, an adaptive one is divided, but not below 1. */
  function Slower(rate: int, sampling: Sampling): int
    requires Sane(sampling)
  {
    if sampling.Fixed? then rate else if rate < sampling.param then 1 else rate / sampling.param
  }

  /** Whether the next access is one that Djit sees. */
  predicate Samples(m: LrMeta) {
    m.ncount == 0 && m.scount > 1
  }

  function Process(m: LrMeta, a: Access, sampling: Sampling): LrMeta
    requires Sane(sampling) && 1 <= m.rate
  {
    var m1 := if m.ncount == 0 then m.(scount := m.scount - 1) else m;
    if m.ncount == 0 && m1.scount > 0 then m1.(djit := Djit.Process(m.djit, a))
    else if m1.scount == 0 then UpdateRate(m1, sampling)
    else m1.(ncount := m.ncount - 1)
  }

  /** No counter has gone below zero, and skipping comes before sampling. */
  predicate InCycle(m: LrMeta) {
    && 0 <= m.ncount
    && 1 <= m.scount <= BURST
    && 1 <= m.rate <= 1000
    && (m.ncount > 0 ==> m.scount == BURST)
  }

  /** At the start of a cycle, `ncount` is what the rate prescribes. */
  predicate CycleStart(m: LrMeta) {
    1 <= m.rate <= 1000 && m.scount == BURST && m.ncount == BURST * (1000 - m.rate) / m.rate
  }

  lemma RateStaysInRange(rate: int, param: nat)
    requires 1 <= rate <= 1000 && param > 0
    ensures 0 <= rate / param <= rate
  {
  }

  lemma LengthIsNatural(rate: int)
    requires 1 <= rate <= 1000
    ensures 0 <= BURST * (1000 - rate) / rate
  {
  }

  lemma UpdateRateStartsCycle(m: LrMeta, sampling: Sampling)
    requires Sane(sampling) && 1 <= m.rate <= 1000
    ensures CycleStart(UpdateRate(m, sampling)) && InCycle(UpdateRate(m, sampling))
    ensures UpdateRate(m, sampling).rate == Slower(m.rate, sampling) <= m.rate
  {
    if sampling.Adaptive? {
      RateStaysInRange(m.rate, sampling.param);
    }
    LengthIsNatural(UpdateRate(m, sampling).rate);
  }

  lemma {:induction false} TimesAtLeastOne(b: nat, q: nat)
    requires b > 0
    ensures q <= b * q
  {
  }

  lemma ProcessKeepsCycle(m: LrMeta, a: Access, sampling: Sampling)
    requires Sane(sampling) && InCycle(m)
    ensures InCycle(Process(m, a, sampling))
  {
    if m.ncount == 0 && m.scount == 1 {
      UpdateRateStartsCycle(m.(scount := 0), sampling);
    }
  }

  /** The meta of an address after the accesses `touched`, all made to it. */
  ghost function After(m: LrMeta, touched: seq<Access>, sampling: Sampling): (m1: LrMeta)
    requires Sane(sampling) && InCycle(m)
    ensures InCycle(m1)
  {
    if touched == [] then m
    else
      var n := |touched| - 1;
      ProcessKeepsCycle(After(m, touched[..n], sampling), touched[n], sampling);
      Process(After(m, touched[..n], sampling), touched[n], sampling)
  }

  /** The accesses among `touched` that Djit sees. */
  ghost function Sampled(m: LrMeta, touched: seq<Access>, sampling: Sampling): seq<Access>
    requires Sane(sampling) && InCycle(m)
  {
    if touched == [] then []
    else
      var n := |touched| - 1;
      Sampled(m, touched[..n], sampling) + if Samples(After(m, touched[..n], sampling)) then [touched[n]] else []
  }

  /** One access before the end of a cycle: it is skipped, or sampled once nothing is left to skip. */
  lemma OneAccess(m: LrMeta, a: Access, sampling: Sampling)
    requires Sane(sampling) && InCycle(m) && (m.ncount > 0 || m.scount > 1)
    ensures var m1 := Process(m, a, sampling);
            && m1.rate == m.rate && (Samples(m) <==> m.ncount == 0)
            && (if m.ncount > 0 then m1.ncount == m.ncount - 1 && m1.scount == m.scount
                else m1.ncount == 0 && m1.scount == m.scount - 1)
  {
  }

  /** Where a cycle stands after `k` of its accesses. */
  lemma {:induction false} WithinCycle(m: LrMeta, touched: seq<Access>, sampling: Sampling)
    requires Sane(sampling) && InCycle(m) && CycleStart(m) && |touched| <= m.ncount + BURST - 1
    ensures var k, m1 := |touched|, After(m, touched, sampling);
            && m1.rate == m.rate
            && (k <= m.ncount ==> m1.ncount == m.ncount - k && m1.scount == BURST && Sampled(m, touched, sampling) == [])
            && (k >= m.ncount ==> m1.ncount == 0 && m1.scount == BURST - (k - m.ncount)
                                  && Sampled(m, touched, sampling) == touched[m.ncount..])
  {
    if touched != [] {
      var n := |touched| - 1;
      WithinCycle(m, touched[..n], sampling);
      OneAccess(After(m, touched[..n], sampling), touched[n], sampling);
      if n >= m.ncount {
        assert touched[m.ncount..] == touched[..n][m.ncount..] + [touched[n]];
      }
    }
  }

  lemma NextMultiple(d: nat, p: int, q: int)
    requires p < q
    ensures p * d + d <= q * d
  {
    TimesAtLeastOne(q - p, d);
    assert q * d == p * d + (q - p) * d;
  }

  lemma NotBelow(n: int, d: nat, p: int, q: int)
    requires q * d <= n < p * d + d
    ensures q <= p
  {
    if q > p {
      NextMultiple(d, p, q);
      assert false;
    }
  }

  lemma QuotientIs(n: int, d: nat, q: int)
    requires d > 0 && q * d <= n < q * d + d
    ensures n / d == q
  {
    var p := n / d;
    assert n == p * d + n % d;
    NotBelow(n, d, p, q);
    NotBelow(n, d, q, p);
  }

  lemma CycleLength(rate: int)
    requires 1 <= rate <= 1000
    ensures BURST * (1000 - rate) / rate + BURST == 100_000 / rate
  {
    var n := BURST * (1000 - rate);
    var q := n / rate;
    assert n == rate * q + n % rate;
    QuotientIs(100_000, rate, q + BURST);
  }

  /**
    Every cycle is 100000 / rate accesses long: it skips the first `ncount`, samples the next 99
    and ends with one more that starts the next cycle.
   */
  lemma CycleSamples99(m: LrMeta, touched: seq<Access>, sampling: Sampling)
    requires Sane(sampling) && InCycle(m) && CycleStart(m) && |touched| == m.ncount + BURST
    ensures |touched| == 100_000 / m.rate
    ensures Sampled(m, touched, sampling) == touched[m.ncount..m.ncount + 99]
    ensures CycleStart(After(m, touched, sampling)) && After(m, touched, sampling).rate == Slower(m.rate, sampling)
  {
    var n := |touched| - 1;
    CycleLength(m.rate);
    WithinCycle(m, touched[..n], sampling);
    assert touched[..n][m.ncount..] == touched[m.ncount..m.ncount + 99];
    var m1 := After(m, touched[..n], sampling);
    assert m1.scount == 1 && m1.ncount == 0;
    UpdateRateStartsCycle(m1.(scount := 0), sampling);
  }

  // ----- Which accesses are sampled, in closed form

  function Power(b: nat, k: nat): nat {
    if k == 0 then 1 else b * Power(b, k - 1)
  }

  /** The rate of cycle `k`, counted from 0. */
  function RateOf(k: nat, sampling: Sampling): int
    requires Sane(sampling)
  {
    if sampling.Fixed? then 1000
    else
      PowerIsPositive(sampling.param, k);
      if 1000 < Power(sampling.param, k) then 1 else 1000 / Power(sampling.param, k)
  }

  lemma {:induction false} PowerIsPositive(b: nat, k: nat)
    requires b > 0
    ensures Power(b, k) > 0
  {
    if k > 0 {
      PowerIsPositive(b, k - 1);
      TimesAtLeastOne(b, Power(b, k - 1));
    }
  }

  lemma Regrouped(p: nat, b: nat, r: nat, a: nat)
    ensures (p * b + r) * a == p * (b * a) + r * a
  {
    assert (p * b) * a == p * (b * a);
  }

  /** Dividing twice divides by the product. */
  lemma QuotientOfQuotient(n: nat, a: nat, b: nat)
    requires a > 0 && b > 0
    ensures b * a > 0 && n / a / b == n / (b * a)
  {
    var d, q := b * a, n / a;
    var p, r := q / b, q % b;
    TimesAtLeastOne(b, a);
    DivisionIs(n, a);
    DivisionIs(q, b);
    Regrouped(p, b, r, a);
    NextMultiple(a, r, b);
    InRange(n, d, p, r * a + n % a);
  }

  lemma DivisionIs(n: nat, d: nat)
    requires d > 0
    ensures n == (n / d) * d + n % d && 0 <= n % d < d
  {
  }

  lemma InRange(n: nat, d: nat, q: int, r: nat)
    requires n == q * d + r && r < d
    ensures n / d == q
  {
    QuotientIs(n, d, q);
  }

  lemma RateIsPositive(k: nat, sampling: Sampling)
    requires Sane(sampling)
    ensures 1 <= RateOf(k, sampling) <= 1000
  {
    if sampling.Adaptive? {
      var w := Power(sampling.param, k);
      PowerIsPositive(sampling.param, k);
      if w <= 1000 {
        RateStaysInRange(1000, w);
        AtLeastOne(1000, w);
      }
    }
  }

  lemma AtLeastOne(n: nat, d: nat)
    requires 0 < d <= n
    ensures 1 <= n / d
  {
  }

  lemma NextRate(k: nat, sampling: Sampling)
    requires Sane(sampling)
    ensures RateOf(k + 1, sampling) == Slower(RateOf(k, sampling), sampling)
  {
    if sampling.Adaptive? {
      var b, w := sampling.param, Power(sampling.param, k);
      PowerIsPositive(b, k);
      QuotientOfQuotient(1000, w, b);
      TimesAtLeastOne(b, w);
      if w <= 1000 {
        NextQuotient(1000, w, b);
      } else {
        assert b != 1 || w == 1 by { OneStaysOne(k); }
      }
    }
  }

  lemma {:induction false} OneStaysOne(k: nat)
    ensures Power(1, k) == 1
  {
    if k > 0 {
      OneStaysOne(k - 1);
    }
  }

  /** The quotient is below `b` exactly if `b` times the divisor is above `n`. */
  lemma NextQuotient(n: nat, a: nat, b: nat)
    requires 0 < a && 0 < b
    ensures n / a < b <==> n < b * a
  {
    var q := n / a;
    assert n == q * a + n % a;
    if q < b {
      NextMultiple(a, q, b);
    } else if b < q {
      NextMultiple(a, b, q);
    }
  }

  /** Cycle `k` is this long. */
  function Length(k: nat, sampling: Sampling): int
    requires Sane(sampling)
  {
    RateIsPositive(k, sampling);
    100_000 / RateOf(k, sampling)
  }

  /** The position, among the accesses to the address, at which cycle `k` begins. */
  function Begins(k: nat, sampling: Sampling): int
    requires Sane(sampling)
  {
    if k == 0 then 0 else Begins(k - 1, sampling) + Length(k - 1, sampling)
  }

  /** Of the last 100 positions of a cycle all but the very last are sampled. */
  ghost predicate SampledIn(i: nat, k: nat, sampling: Sampling)
    requires Sane(sampling)
  {
    Begins(k + 1, sampling) - 100 <= i < Begins(k + 1, sampling) - 1
  }

  ghost predicate InSample(i: nat, sampling: Sampling)
    requires Sane(sampling)
  {
    exists k :: SampledIn(i, k, sampling)
  }

  lemma CycleIsLong(k: nat, sampling: Sampling)
    requires Sane(sampling)
    ensures RateOf(k, sampling) > 0
    ensures Length(k, sampling) == BURST * (1000 - RateOf(k, sampling)) / RateOf(k, sampling) + BURST
    ensures Length(k, sampling) >= BURST
  {
    RateIsPositive(k, sampling);
    CycleLength(RateOf(k, sampling));
    LengthIsNatural(RateOf(k, sampling));
  }

  lemma NextBegins(k: nat, sampling: Sampling)
    requires Sane(sampling)
    ensures Begins(k + 1, sampling) == Begins(k, sampling) + Length(k, sampling) >= Begins(k, sampling) + 100
  {
    CycleIsLong(k, sampling);
  }

  lemma {:induction false} CyclesFollow(k: nat, j: nat, sampling: Sampling)
    requires Sane(sampling) && k <= j
    ensures Begins(k, sampling) <= Begins(j, sampling)
  {
    if k < j {
      NextBegins(j - 1, sampling);
      CyclesFollow(k, j - 1, sampling);
    }
  }

  lemma {:induction false} AfterBoth(m: LrMeta, first: seq<Access>, rest: seq<Access>, sampling: Sampling)
    requires Sane(sampling) && InCycle(m)
    ensures After(m, first + rest, sampling) == After(After(m, first, sampling), rest, sampling)
  {
    if rest == [] {
      assert first + rest == first;
    } else {
      var n := |rest| - 1;
      assert (first + rest)[..|first| + n] == first + rest[..n] && (first + rest)[|first| + n] == rest[n];
      AfterBoth(m, first, rest[..n], sampling);
    }
  }

  /** Where cycle `k` begins, the counters are those of a new cycle at the rate in closed form. */
  lemma {:induction false} CycleBegins(touched: seq<Access>, k: nat, sampling: Sampling)
    requires Sane(sampling) && |touched| == Begins(k, sampling)
    ensures CycleStart(After(NEW_META, touched, sampling))
    ensures After(NEW_META, touched, sampling).rate == RateOf(k, sampling)
  {
    if k > 0 {
      CyclesFollow(0, k - 1, sampling);
      CycleIsLong(k - 1, sampling);
      NextRate(k - 1, sampling);
      var n := Begins(k - 1, sampling);
      CycleBegins(touched[..n], k - 1, sampling);
      AfterBoth(NEW_META, touched[..n], touched[n..], sampling);
      assert touched[..n] + touched[n..] == touched;
      CycleSamples99(After(NEW_META, touched[..n], sampling), touched[n..], sampling);
    }
  }

  /** The cycle that position `i` falls into. */
  lemma {:induction false} CycleOf(i: nat, sampling: Sampling) returns (k: nat)
    requires Sane(sampling)
    ensures 0 <= Begins(k, sampling) <= i < Begins(k + 1, sampling)
  {
    if i == 0 {
      k := 0;
    } else {
      k := CycleOf(i - 1, sampling);
      if i == Begins(k + 1, sampling) {
        k := k + 1;
      }
    }
    NextBegins(k, sampling);
  }

  lemma OneCycle(i: nat, k: nat, j: nat, sampling: Sampling)
    requires Sane(sampling) && Begins(k, sampling) <= i < Begins(k + 1, sampling) && SampledIn(i, j, sampling)
    ensures j == k
  {
    NextBegins(j, sampling);
    if k < j {
      CyclesFollow(k + 1, j, sampling);
    } else if j < k {
      CyclesFollow(j + 1, k, sampling);
    }
  }

  lemma SamplesWithin(touched: seq<Access>, k: nat, sampling: Sampling)
    requires Sane(sampling) && 0 <= Begins(k, sampling) <= |touched| < Begins(k + 1, sampling)
    ensures Samples(After(NEW_META, touched, sampling)) <==> SampledIn(|touched|, k, sampling)
  {
    var n := Begins(k, sampling);
    var m := After(NEW_META, touched[..n], sampling);
    CycleBegins(touched[..n], k, sampling);
    CycleIsLong(k, sampling);
    NextBegins(k, sampling);
    AfterBoth(NEW_META, touched[..n], touched[n..], sampling);
    assert touched[..n] + touched[n..] == touched;
    WithinCycle(m, touched[n..], sampling);
  }

  /** The next access is sampled iff its position is among the 99 before the last one of its cycle. */
  lemma SamplesByPosition(touched: seq<Access>, sampling: Sampling)
    requires Sane(sampling)
    ensures Samples(After(NEW_META, touched, sampling)) <==> InSample(|touched|, sampling)
  {
    var k := CycleOf(|touched|, sampling);
    SamplesWithin(touched, k, sampling);
    forall j | SampledIn(|touched|, j, sampling) ensures j == k {
      OneCycle(|touched|, k, j, sampling);
    }
  }

  /** The accesses of `touched` at the positions that are sampled. */
  ghost function Picked(touched: seq<Access>, sampling: Sampling): seq<Access>
    requires Sane(sampling)
  {
    if touched == [] then []
    else
      var n := |touched| - 1;
      Picked(touched[..n], sampling) + if InSample(n, sampling) then [touched[n]] else []
  }

  lemma {:induction false} SampledIsPicked(touched: seq<Access>, sampling: Sampling)
    requires Sane(sampling)
    ensures Sampled(NEW_META, touched, sampling) == Picked(touched, sampling)
  {
    if touched != [] {
      var n := |touched| - 1;
      SampledIsPicked(touched[..n], sampling);
      SamplesByPosition(touched[..n], sampling);
    }
  }

  lemma {:induction false} PowerGrows(b: nat, k: nat)
    requires b >= 2
    ensures Power(b, k) > k && (k >= 10 ==> Power(b, k) > 1000)
  {
    if k > 0 {
      PowerGrows(b, k - 1);
      assert Power(b, k) >= 2 * Power(b, k - 1) by {
        TwiceIsLess(b, Power(b, k - 1));
      }
      if k == 10 {
        EarlyPowers(b);
      }
    }
  }

  lemma TwiceIsLess(b: nat, w: nat)
    requires b >= 2
    ensures 2 * w <= b * w
  {
    assert b * w == 2 * w + (b - 2) * w;
  }

  lemma EarlyPowers(b: nat)
    requires b >= 2
    ensures Power(b, 9) >= 512
  {
    for i := 0 to 9
      invariant Power(b, i) >= Power(2, i)
    {
      TwiceIsLess(b, Power(b, i));
    }
    assert Power(2, 9) == 512;
  }

  lemma TimesTen(b: nat, w: nat, v: nat)
    requires b >= 10 && w >= v
    ensures b * w >= 10 * v
  {
    assert b * w == 10 * w + (b - 10) * w;
  }

  lemma {:induction false} PowerOfTen(b: nat, k: nat)
    requires b >= 10 && k >= 3
    ensures Power(b, k) >= 1000
  {
    if k > 3 {
      PowerOfTen(b, k - 1);
      TimesTen(b, Power(b, k - 1), 1000);
    } else {
      TimesTen(b, Power(b, 0), 1);
      TimesTen(b, Power(b, 1), 10);
      TimesTen(b, Power(b, 2), 100);
    }
  }

  /**
    A fixed rate samples 99 accesses of every 100. An adaptive rate is 1 from cycle 10 on with a
    parameter of 2 or more, and from cycle 3 on with one of 10 or more: of 100000 accesses the first
    99900 are skipped.
   */
  lemma AdaptiveSettles(k: nat, sampling: Sampling)
    requires Sane(sampling)
    ensures sampling.Fixed? ==> RateOf(k, sampling) == 1000 && Length(k, sampling) == 100
    ensures sampling.Adaptive? && ((sampling.param >= 2 && k >= 10) || (sampling.param >= 10 && k >= 3)) ==>
              RateOf(k, sampling) == 1 && Length(k, sampling) == 100_000
  {
    if sampling.Adaptive? && sampling.param >= 2 {
      PowerGrows(sampling.param, k);
    }
    if sampling.Adaptive? && sampling.param >= 10 && k >= 3 {
      PowerOfTen(sampling.param, k);
    }
  }

  // ----- What is reported

  /** The accesses of `h` made to `x`. */
  function To(h: seq<Access>, x: Addr): seq<Access> {
    if h == [] then []
    else To(h[..|h| - 1], x) + if h[|h| - 1].x == x then [h[|h| - 1]] else []
  }

  ghost function MetaOf(h: seq<Access>, x: Addr, sampling: Sampling): LrMeta
    requires Sane(sampling)
  {
    After(NEW_META, To(h, x), sampling)
  }

  lemma MetaNext(h: seq<Access>, a: Access, x: Addr, sampling: Sampling)
    requires Sane(sampling)
    ensures InCycle(MetaOf(h, x, sampling))
    ensures MetaOf(h + [a], x, sampling) ==
            if a.x == x then Process(MetaOf(h, x, sampling), a, sampling) else MetaOf(h, x, sampling)
  {
    assert (h + [a])[..|h|] == h;
    var touched := To(h + [a], x);
    if a.x == x {
      assert touched[..|touched| - 1] == To(h, x);
    } else {
      assert touched == To(h, x);
    }
  }

  /** The accesses to `x` at the sampled positions. */
  ghost function SampleOf(h: seq<Access>, x: Addr, sampling: Sampling): seq<Access>
    requires Sane(sampling)
  {
    Picked(To(h, x), sampling)
  }

  ghost predicate AllTo(h: seq<Access>, x: Addr) {
    forall i :: 0 <= i < |h| ==> h[i].x == x
  }

  lemma {:induction false} DjitOnSample(m: LrMeta, touched: seq<Access>, x: Addr, sampling: Sampling)
    requires Sane(sampling) && InCycle(m) && m.djit == Djit.NEW_META && AllTo(touched, x)
    ensures After(m, touched, sampling).djit == Djit.MetaOf(Sampled(m, touched, sampling), x)
    ensures forall a :: a in Sampled(m, touched, sampling) ==> a in touched
  {
    if touched != [] {
      var n := |touched| - 1;
      var s := Sampled(m, touched[..n], sampling);
      DjitOnSample(m, touched[..n], x, sampling);
      var m1 := After(m, touched[..n], sampling);
      if Samples(m1) {
        var s1 := s + [touched[n]];
        assert s1[..|s1| - 1] == s;
        assert Djit.MetaOf(s1, x) == Djit.Process(m1.djit, touched[n]);
      } else {
        assert Sampled(m, touched, sampling) == s;
      }
    }
  }

  lemma ConsistentSnoc(h: seq<Access>, a: Access)
    requires Consistent(h) && WellTimed(a) && forall b :: b in h ==> Sequenced(b, a)
    ensures Consistent(h + [a])
  {
  }

  lemma {:induction false} SampleIsConsistent(m: LrMeta, touched: seq<Access>, sampling: Sampling)
    requires Sane(sampling) && InCycle(m) && Consistent(touched)
    ensures Consistent(Sampled(m, touched, sampling))
    ensures forall a :: a in Sampled(m, touched, sampling) ==> a in touched
  {
    if touched != [] {
      var n := |touched| - 1;
      assert touched == touched[..n] + [touched[n]];
      ConsistentPrefix(touched[..n], touched[n]);
      SampleIsConsistent(m, touched[..n], sampling);
      ConsistentSnoc(Sampled(m, touched[..n], sampling), touched[n]);
    }
  }

  lemma {:induction false} ToIsConsistent(h: seq<Access>, x: Addr)
    requires Consistent(h)
    ensures Consistent(To(h, x))
    ensures forall a :: a in To(h, x) <==> a in h && a.x == x
  {
    if h != [] {
      var n := |h| - 1;
      assert h == h[..n] + [h[n]];
      ConsistentPrefix(h[..n], h[n]);
      ToIsConsistent(h[..n], x);
      ConsistentSnoc(To(h[..n], x), h[n]);
    }
  }

  lemma SampleOfRun(h: seq<Access>, x: Addr, sampling: Sampling)
    requires Sane(sampling) && Consistent(h)
    ensures MetaOf(h, x, sampling).djit == Djit.MetaOf(SampleOf(h, x, sampling), x)
    ensures Consistent(SampleOf(h, x, sampling))
    ensures forall a :: a in SampleOf(h, x, sampling) ==> a in h
  {
    SampledIsPicked(To(h, x), sampling);
    ToIsConsistent(h, x);
    SampleIsConsistent(NEW_META, To(h, x), sampling);
    forall i | 0 <= i < |To(h, x)| ensures To(h, x)[i].x == x {
      assert To(h, x)[i] in To(h, x);
    }
    DjitOnSample(NEW_META, To(h, x), x, sampling);
  }

  /**
    LiteRace flags an address exactly when two of the sampled accesses race; every such race is a
    race of the full history.
   */
  lemma ReportsSampledRaces(h: seq<Access>, x: Addr, sampling: Sampling)
    requires Sane(sampling) && Consistent(h)
    ensures MetaOf(h, x, sampling).djit.racy <==> HasRace(SampleOf(h, x, sampling), x)
    ensures MetaOf(h, x, sampling).djit.racy ==> HasRace(h, x)
  {
    SampleOfRun(h, x, sampling);
    Djit.MetaIsExact(SampleOf(h, x, sampling), x);
    RaceOfPart(SampleOf(h, x, sampling), h, x);
  }

  /** On every run of the clock machine, what LiteRace flags is a data race of the run. */
  lemma AlarmsAreDataRaces(es: seq<Event>, x: Addr, sampling: Sampling)
    requires Sane(sampling) && WellFormed(es)
    ensures MetaOf(Run(es).hist, x, sampling).djit.racy <==> HasRace(SampleOf(Run(es).hist, x, sampling), x)
    ensures MetaOf(Run(es).hist, x, sampling).djit.racy ==> Verdicts.DataRace(es, x)
  {
    Verdicts.RacesAreDataRaces(es, x);
    ReportsSampledRaces(Run(es).hist, x, sampling);
  }
}
