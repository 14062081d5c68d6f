/** Boundary calibration of the tier classifier: pick the score below which a
    chosen share of the training scores lies. */
module Calibration {
  import opened Options
  import opened Sorting

  datatype Boundaries = Boundaries(simpleMedium: real, mediumComplex: real, complexReasoning: real)

  const MAX_BOUNDARY := 0.99

  // ----- scores -----

  /** The expected tier index of four class probabilities, scaled to [0, 1]. */
  function ExpectedScore(p: seq<real>): real
    requires |p| == 4
  {
    p[0] * 0.0 / 3.0 + p[1] * 1.0 / 3.0 + p[2] * 2.0 / 3.0 + p[3] * 3.0 / 3.0
  }

  ghost predicate Distribution(p: seq<real>) {
    |p| == 4 && (forall i :: 0 <= i < 4 ==> p[i] >= 0.0) && p[0] + p[1] + p[2] + p[3] == 1.0
  }

  lemma ExpectedScoreRange(p: seq<real>)
    requires Distribution(p)
    ensures 0.0 <= ExpectedScore(p) <= 1.0
    ensures ExpectedScore(p) == 0.0 <==> p[0] == 1.0
    ensures ExpectedScore(p) == 1.0 <==> p[3] == 1.0
  {
    assert p[0] * 0.0 / 3.0 == 0.0;
    assert p[1] >= 0.0 && p[2] >= 0.0 && p[3] >= 0.0 && p[0] >= 0.0;
  }

  /** The expected score is the mean of the three chances of being at least in tier
      one, two and three; so moving chance to higher tiers raises it. */
  lemma ScoreIsMeanTail(p: seq<real>, q: seq<real>)
    requires Distribution(p) && Distribution(q)
    ensures ExpectedScore(p) * 3.0 == (p[1] + p[2] + p[3]) + (p[2] + p[3]) + p[3]
    ensures p[1] + p[2] + p[3] <= q[1] + q[2] + q[3] && p[2] + p[3] <= q[2] + q[3] && p[3] <= q[3] ==>
      ExpectedScore(p) <= ExpectedScore(q)
  {
    ScoreTimesThree(p);
    ScoreTimesThree(q);
  }

  lemma ScoreTimesThree(p: seq<real>)
    requires |p| == 4
    ensures ExpectedScore(p) * 3.0 == p[1] + 2.0 * p[2] + 3.0 * p[3]
  {
  }

  // ----- the quantile pick -----

  predicate AtMost(x: real, y: real) { x <= y }

  function Min(x: real, y: real): real { if x <= y then x else y }

  function Clamp01(x: real): real {
    if x < 0.0 then 0.0 else if x > 1.0 then 1.0 else x
  }

  /** Where the boundary sits among n sorted scores. */
  function PickIndex(n: nat, pct: real): (idx: nat)
    requires n > 0
    ensures idx < n
  {
    var q := Clamp01(1.0 - pct / 100.0);
    var at := (q * n as real).Floor;
    assert q * n as real >= 0.0;
    if at < n - 1 then at else n - 1
  }

  function Pick(scores: seq<real>, pct: real): real
    requires scores != []
  {
    Sort(scores, AtMost)[PickIndex(|scores|, pct)]
  }

  /** The calibrated boundaries, before rounding to four decimals. */
  function Calibrate(scores: seq<real>, strongPct: Option<real>, defaults: Boundaries): Boundaries
    requires defaults.mediumComplex != 0.0
  {
    if strongPct.None? || strongPct.value == 0.0 || scores == [] then defaults
    else
      var pick := Pick(scores, strongPct.value);
      Boundaries(
        pick * (defaults.simpleMedium / defaults.mediumComplex),
        pick,
        Min(MAX_BOUNDARY, pick * (defaults.complexReasoning / defaults.mediumComplex)))
  }

  /** pct percent of n. */
  function Share(n: nat, pct: real): real { n as real * pct / 100.0 }

  /** The least integer not below x. */
  function Ceil(x: real): int { -((-x).Floor) }

  lemma IndexIsComplement(n: nat, pct: real)
    requires n > 0 && 0.0 < pct <= 100.0
    ensures n - PickIndex(n, pct) == Ceil(Share(n, pct))
  {
    var v := n as real * pct / 100.0;
    var q := 1.0 - pct / 100.0;
    assert Clamp01(q) == q;
    assert q * n as real == n as real - v by {
      assert (pct / 100.0) * n as real == v;
    }
    assert v > 0.0;
    FloorShift(n, v);
  }

  lemma FloorShift(n: int, v: real)
    ensures (n as real - v).Floor == n + (-v).Floor
  {
    var f := (-v).Floor;
    assert f as real <= -v < f as real + 1.0;
    assert (n + f) as real <= n as real - v < (n + f) as real + 1.0;
  }

  lemma AtMostIsOrder()
    ensures TotalPreorder(AtMost) && Antisymmetric(AtMost)
  {
  }

  function AtLeast(x: real): real -> bool { y => y >= x }

  function Above(x: real): real -> bool { y => y > x }

  lemma SortedCounts(s: seq<real>, idx: nat)
    requires idx < |s| && Sorted(s, AtMost)
    ensures Count(s, AtLeast(s[idx])) >= |s| - idx
    ensures Count(s, Above(s[idx])) < |s| - idx
    ensures Distinct(s) ==> Count(s, AtLeast(s[idx])) == |s| - idx
  {
    hide Count;
    var x := s[idx];
    forall i | idx <= i < |s| ensures AtLeast(x)(s[i]) {
      if i > idx { assert AtMost(s[idx], s[i]); }
    }
    CountFrom(s, AtLeast(x), idx);
    forall i | 0 <= i < idx + 1 ensures !Above(x)(s[i]) {
      if i < idx { assert AtMost(s[i], s[idx]); }
    }
    CountNoneBefore(s, Above(x), idx + 1);
    if Distinct(s) {
      forall i | 0 <= i < idx ensures !AtLeast(x)(s[i]) {
        assert AtMost(s[i], s[idx]) && s[i] != s[idx];
      }
      CountNoneBefore(s, AtLeast(x), idx);
    }
  }

  lemma PickCounts(scores: seq<real>, idx: nat)
    requires idx < |scores|
    ensures var x := Sort(scores, AtMost)[idx];
      && Count(scores, AtLeast(x)) >= |scores| - idx
      && Count(scores, Above(x)) < |scores| - idx
      && (Distinct(scores) ==> Count(scores, AtLeast(x)) == |scores| - idx)
  {
    hide Count, Sort;
    var s := Sort(scores, AtMost);
    AtMostIsOrder();
    SortSorts(scores, AtMost);
    SortedCounts(s, idx);
    CountSort(scores, AtMost, AtLeast(s[idx]));
    CountSort(scores, AtMost, Above(s[idx]));
    if Distinct(scores) { SortKeepsDistinct(scores, AtMost); }
  }

  lemma CeilBounds(v: real)
    ensures Ceil(v) as real >= v && (Ceil(v) - 1) as real < v
  {
  }

  /** The pick is the quantile it should be: at least pct percent of the scores
      lie at or above it and fewer than that lie strictly above; when scores are
      distinct the share at or above is exact. */
  lemma PickIsQuantile(scores: seq<real>, pct: real)
    requires scores != [] && 0.0 < pct <= 100.0
    ensures var x, v := Pick(scores, pct), Share(|scores|, pct);
      && Count(scores, AtLeast(x)) as real >= v
      && (Count(scores, Above(x)) as real) < v
      && (Distinct(scores) ==> Count(scores, AtLeast(x)) == Ceil(v))
  {
    hide Count, Sort, Share, Ceil, PickIndex;
    PickCounts(scores, PickIndex(|scores|, pct));
    IndexIsComplement(|scores|, pct);
    CeilBounds(Share(|scores|, pct));
  }

  /** A share outside 0 to 100 picks an end: the least score for more than all of
      them, the greatest for less than none. */
  lemma PickOutside(scores: seq<real>, pct: real)
    requires scores != []
    ensures pct >= 100.0 ==> forall x :: x in scores ==> Pick(scores, pct) <= x
    ensures pct <= 0.0 ==> forall x :: x in scores ==> x <= Pick(scores, pct)
  {
    hide Sort;
    var s := Sort(scores, AtMost);
    AtMostIsOrder();
    SortSorts(scores, AtMost);
    IndexOutside(|scores|, pct);
    forall x | x in scores ensures AtMost(s[0], x) && AtMost(x, s[|s| - 1]) {
      assert x in multiset(s);
      var i :| 0 <= i < |s| && s[i] == x;
      if i > 0 { assert AtMost(s[0], s[i]); }
      if i < |s| - 1 { assert AtMost(s[i], s[|s| - 1]); }
    }
  }

  lemma IndexOutside(n: nat, pct: real)
    requires n > 0
    ensures pct >= 100.0 ==> PickIndex(n, pct) == 0
    ensures pct <= 0.0 ==> PickIndex(n, pct) == n - 1
  {
    assert pct >= 100.0 ==> pct / 100.0 >= 1.0;
    assert pct <= 0.0 ==> pct / 100.0 <= 0.0;
    assert 0.0 * n as real == 0.0 && 1.0 * n as real == n as real;
  }

  /** Without a share or scores the defaults stay. Otherwise the middle boundary is the
      pick and the others keep the defaults' proportions to it, the upper one up to its cap. */
  lemma CalibratedSpacing(scores: seq<real>, strongPct: Option<real>, defaults: Boundaries)
    requires defaults.mediumComplex > 0.0
    ensures var b := Calibrate(scores, strongPct, defaults);
      && (strongPct.None? || strongPct == Some(0.0) || scores == [] ==> b == defaults)
      && (strongPct.Some? && strongPct != Some(0.0) && scores != [] ==>
            && b.mediumComplex == Pick(scores, strongPct.value)
            && b.simpleMedium * defaults.mediumComplex == b.mediumComplex * defaults.simpleMedium
            && b.complexReasoning <= 0.99
            && b.complexReasoning * defaults.mediumComplex <= b.mediumComplex * defaults.complexReasoning
            && (b.complexReasoning < 0.99 ==>
                  b.complexReasoning * defaults.mediumComplex == b.mediumComplex * defaults.complexReasoning))
  {
    hide Sort, PickIndex;
    if strongPct.Some? && strongPct.value != 0.0 && scores != [] {
      var pick, m := Pick(scores, strongPct.value), defaults.mediumComplex;
      Proportion(pick, defaults.simpleMedium, m);
      Proportion(pick, defaults.complexReasoning, m);
      Smaller(MAX_BOUNDARY, pick * (defaults.complexReasoning / m), m);
    }
  }

  lemma Proportion(pick: real, x: real, m: real)
    requires m > 0.0
    ensures pick * (x / m) * m == pick * x
  {
    assert (x / m) * m == x;
  }

  lemma Smaller(cap: real, x: real, m: real)
    requires m > 0.0
    ensures Min(cap, x) * m <= x * m
  {
    assert cap <= x ==> (x - cap) * m >= 0.0;
  }

  predicate Ordered(b: Boundaries) {
    b.simpleMedium <= b.mediumComplex <= b.complexReasoning
  }

  /** From strictly increasing positive defaults, the calibrated boundaries are
      in order exactly when the pick lies in [0, 0.99]. */
  lemma CalibratedOrder(scores: seq<real>, pct: real, defaults: Boundaries)
    requires scores != [] && pct != 0.0
    requires 0.0 < defaults.simpleMedium < defaults.mediumComplex < defaults.complexReasoning
    ensures Ordered(Calibrate(scores, Some(pct), defaults)) <==> 0.0 <= Pick(scores, pct) <= MAX_BOUNDARY
  {
    var pick := Pick(scores, pct);
    var low, high := defaults.simpleMedium / defaults.mediumComplex, defaults.complexReasoning / defaults.mediumComplex;
    RatioBounds(defaults.simpleMedium, defaults.mediumComplex);
    RatioBounds(defaults.complexReasoning, defaults.mediumComplex);
    ScaleOrder(pick, low);
    ScaleOrder(pick, high);
  }

  lemma RatioBounds(x: real, y: real)
    requires x > 0.0 && y > 0.0
    ensures x / y > 0.0
    ensures x < y ==> x / y < 1.0
    ensures x > y ==> x / y > 1.0
  {
    var r := x / y;
    assert r * y == x;
    assert r >= 1.0 ==> (r - 1.0) * y >= 0.0;
    assert r <= 1.0 ==> (1.0 - r) * y >= 0.0;
  }

  lemma ScaleOrder(p: real, r: real)
    requires r > 0.0
    ensures r < 1.0 ==> (p * r <= p <==> p >= 0.0)
    ensures r > 1.0 ==> (p <= p * r <==> p >= 0.0)
  {
    assert p * r - p == p * (r - 1.0);
    if p > 0.0 {
      assert r > 1.0 ==> p * (r - 1.0) > 0.0;
      assert r < 1.0 ==> p * (1.0 - r) > 0.0;
    } else if p < 0.0 {
      assert r > 1.0 ==> -p * (r - 1.0) > 0.0;
      assert r < 1.0 ==> -p * (1.0 - r) > 0.0;
    } else {
      assert 0.0 * (r - 1.0) == 0.0;
    }
  }
}
