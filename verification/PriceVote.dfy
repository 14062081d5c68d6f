/** One price from several observations of the same model: the value a strict
    majority agrees on, else the median. Prices are integers in units of 1e-6. */
module PriceVote {
  import opened Options
  import opened Sorting

  predicate AtMost(x: int, y: int) { x <= y }

  /** The observations that are there at all. */
  function Usable(values: seq<Option<int>>): seq<int> {
    if values == [] then []
    else (if values[0].Some? then [values[0].value] else []) + Usable(values[1..])
  }

  /** The mean of two grid values on the grid, halves away from zero. */
  function RoundedMean(a: int, b: int): int {
    if (a + b) % 2 == 0 then (a + b) / 2
    else if a + b > 0 then (a + b + 1) / 2
    else (a + b - 1) / 2
  }

  function MiddleOf(s: seq<int>): int
    requires s != []
  {
    var mid := |s| / 2;
    if |s| % 2 == 1 then s[mid] else RoundedMean(s[mid - 1], s[mid])
  }

  function Median(vs: seq<int>): int
    requires vs != []
  {
    MiddleOf(Sort(vs, AtMost))
  }

  ghost predicate IsMajority(vs: seq<int>, v: int) {
    multiset(vs)[v] * 2 > |vs|
  }

  /** What the vote decides, among observations that are all there. */
  ghost predicate ListDecides(vs: seq<int>, r: Option<int>) {
    if vs == [] then r == None
    else r.Some? && (IsMajority(vs, r.value) || ((forall v :: !IsMajority(vs, v)) && r.value == Median(vs)))
  }

  function Within(lo: int, hi: int): int -> bool { v => lo <= v <= hi }

  // ----- what the vote decides, in terms of the values as they come -----

  /** How many values are there. */
  ghost function Present(values: seq<Option<int>>): int {
    |values| - multiset(values)[None]
  }

  /** How many of them satisfy p. */
  ghost function Tallied(values: seq<Option<int>>, p: int -> bool): nat {
    if values == [] then 0
    else (if values[0].Some? && p(values[0].value) then 1 else 0) + Tallied(values[1..], p)
  }

  function LessThan(v: int): int -> bool { x => x < v }

  ghost predicate Majority(values: seq<Option<int>>, v: int) {
    multiset(values)[Some(v)] * 2 > Present(values)
  }

  ghost predicate NoneHasMajority(values: seq<Option<int>>) {
    forall v :: !Majority(values, v)
  }

  /** In ascending order v stands at place k, counted from zero. */
  ghost predicate HasRank(values: seq<Option<int>>, v: int, k: int) {
    Tallied(values, LessThan(v)) <= k < Tallied(values, LessThan(v)) + multiset(values)[Some(v)]
  }

  /** r is half of sum, or the one of its two neighbours that is further from zero. */
  predicate HalfOf(sum: int, r: int) {
    2 * r == sum || (sum > 0 && 2 * r == sum + 1) || (sum < 0 && 2 * r == sum - 1)
  }

  ghost predicate Middles(values: seq<Option<int>>, lo: int, hi: int) {
    HasRank(values, lo, (Present(values) - 1) / 2) && HasRank(values, hi, Present(values) / 2)
  }

  /** The mean of the two values in the middle, which are one if their number is odd. */
  ghost predicate IsMedian(values: seq<Option<int>>, r: int) {
    exists lo, hi :: Middles(values, lo, hi) && HalfOf(lo + hi, r)
  }

  ghost predicate Decides(values: seq<Option<int>>, r: Option<int>) {
    if Present(values) == 0 then r == None
    else r.Some? && (Majority(values, r.value) || (NoneHasMajority(values) && IsMedian(values, r.value)))
  }

  // ----- the vote is a function of the multiset of observations -----

  lemma AtMostIsOrder()
    ensures TotalPreorder(AtMost) && Antisymmetric(AtMost)
  {
  }

  lemma {:induction false} TwoValues(vs: seq<int>, v: int, p: int -> bool)
    requires !p(v)
    ensures multiset(vs)[v] + Count(vs, p) <= |vs|
  {
    if vs != [] {
      assert vs == [vs[0]] + vs[1..];
      TwoValues(vs[1..], v, p);
    }
  }

  lemma {:induction false} OccurrencesAreCount(vs: seq<int>, v: int)
    ensures multiset(vs)[v] == Count(vs, Within(v, v))
  {
    if vs != [] {
      assert vs == [vs[0]] + vs[1..];
      OccurrencesAreCount(vs[1..], v);
    }
  }

  lemma MajorityIsUnique(vs: seq<int>, u: int, v: int)
    requires IsMajority(vs, u) && IsMajority(vs, v)
    ensures u == v
  {
    OccurrencesAreCount(vs, v);
    if u != v { TwoValues(vs, u, Within(v, v)); }
  }

  lemma ListIgnoresOrder(vs: seq<int>, ws: seq<int>, r: Option<int>, t: Option<int>)
    requires multiset(vs) == multiset(ws)
    requires ListDecides(vs, r) && ListDecides(ws, t)
    ensures r == t
  {
    hide Sort, Median, Count;
    assert |vs| == |multiset(vs)| == |multiset(ws)| == |ws|;
    assert forall v :: IsMajority(vs, v) <==> IsMajority(ws, v);
    if vs != [] {
      if IsMajority(vs, r.value) {
        MajorityIsUnique(vs, r.value, t.value);
      } else {
        MedianIgnoresOrder(vs, ws);
      }
    }
  }

  lemma MedianIgnoresOrder(vs: seq<int>, ws: seq<int>)
    requires vs != [] && ws != [] && multiset(vs) == multiset(ws)
    ensures Median(vs) == Median(ws)
  {
    hide Sort, MiddleOf;
    AtMostIsOrder();
    SortSorts(vs, AtMost);
    SortSorts(ws, AtMost);
    SortedIsUnique(Sort(vs, AtMost), Sort(ws, AtMost), AtMost);
  }

  // ----- outliers cannot move the result -----

  lemma MiddleBounds(s: seq<int>, lo: int, hi: int)
    requires s != [] && Sorted(s, AtMost)
    requires lo <= s[(|s| - 1) / 2] && s[|s| / 2] <= hi
    ensures lo <= MiddleOf(s) <= hi
  {
    var n := |s|;
    if n % 2 == 1 {
      assert (n - 1) / 2 == n / 2;
    } else {
      assert (n - 1) / 2 == n / 2 - 1;
      assert AtMost(s[n / 2 - 1], s[n / 2]);
    }
  }

  lemma LowMiddle(s: seq<int>, lo: int, hi: int)
    requires s != [] && Sorted(s, AtMost) && Count(s, Within(lo, hi)) * 2 > |s|
    ensures lo <= s[(|s| - 1) / 2]
  {
    hide Count;
    var k := (|s| - 1) / 2;
    if s[k] < lo {
      forall i | 0 <= i < k + 1 ensures !Within(lo, hi)(s[i]) {
        if i < k { assert AtMost(s[i], s[k]); }
      }
      CountNoneBefore(s, Within(lo, hi), k + 1);
    }
  }

  lemma HighMiddle(s: seq<int>, lo: int, hi: int)
    requires s != [] && Sorted(s, AtMost) && Count(s, Within(lo, hi)) * 2 > |s|
    ensures s[|s| / 2] <= hi
  {
    hide Count;
    var k := |s| / 2;
    if s[k] > hi {
      forall i | k <= i < |s| ensures !Within(lo, hi)(s[i]) {
        if i > k { assert AtMost(s[k], s[i]); }
      }
      CountNoneFrom(s, Within(lo, hi), k);
    }
  }

  lemma MedianResists(vs: seq<int>, lo: int, hi: int)
    requires vs != [] && Count(vs, Within(lo, hi)) * 2 > |vs|
    ensures lo <= Median(vs) <= hi
  {
    hide Count, Sort, MiddleOf;
    var s := Sort(vs, AtMost);
    AtMostIsOrder();
    SortSorts(vs, AtMost);
    CountSort(vs, AtMost, Within(lo, hi));
    LowMiddle(s, lo, hi);
    HighMiddle(s, lo, hi);
    MiddleBounds(s, lo, hi);
  }

  lemma ListResists(vs: seq<int>, r: Option<int>, lo: int, hi: int)
    requires ListDecides(vs, r) && Count(vs, Within(lo, hi)) * 2 > |vs|
    ensures r.Some? && lo <= r.value <= hi
  {
    if vs != [] {
      if IsMajority(vs, r.value) {
        if !(lo <= r.value <= hi) { TwoValues(vs, r.value, Within(lo, hi)); }
      } else {
        MedianResists(vs, lo, hi);
      }
    }
  }

  // ----- missing values take no part -----

  /** Each value is among the usable ones as often as it was given. */
  lemma {:induction false} UsableCounts(values: seq<Option<int>>)
    ensures forall v :: multiset(Usable(values))[v] == multiset(values)[Some(v)]
    ensures |Usable(values)| == Present(values)
  {
    if values != [] {
      UsableCounts(values[1..]);
      assert values == [values[0]] + values[1..];
    }
  }

  lemma {:induction false} TalliedIsCount(values: seq<Option<int>>, p: int -> bool)
    ensures Tallied(values, p) == Count(Usable(values), p)
  {
    if values != [] {
      TalliedIsCount(values[1..], p);
      if values[0].Some? { assert Usable(values)[1..] == Usable(values[1..]); } else { assert Usable(values) == Usable(values[1..]); }
    }
  }

  /** Nothing is present exactly when every value is missing. */
  lemma {:induction false} NothingPresent(values: seq<Option<int>>)
    ensures Present(values) >= 0
    ensures Present(values) == 0 <==> forall i :: 0 <= i < |values| ==> values[i].None?
  {
    if values != [] {
      assert values == [values[0]] + values[1..];
      NothingPresent(values[1..]);
      if values[0].None? && forall i :: 0 <= i < |values[1..]| ==> values[1..][i].None? {
        forall i | 0 <= i < |values| ensures values[i].None? {
          if i > 0 { assert values[1..][i - 1].None?; }
        }
      }
      if forall i :: 0 <= i < |values| ==> values[i].None? {
        forall i | 0 <= i < |values[1..]| ensures values[1..][i].None? { assert values[i + 1].None?; }
      }
    }
  }

  // ----- the median by rank -----

  /** In a sorted list the values below x come first, then x. */
  lemma {:induction false} RankIn(s: seq<int>, x: int, k: nat)
    requires Sorted(s, AtMost) && k < |s|
    ensures s[k] == x <==> Count(s, LessThan(x)) <= k < Count(s, LessThan(x)) + multiset(s)[x]
  {
    var t := s[1..];
    assert s == [s[0]] + t;
    assert forall j :: 0 <= j < |t| ==> AtMost(s[0], t[j]);
    if s[0] > x {
      NoneBelow(t, x, s[0]);
      assert AtMost(s[0], s[k]) by { if k > 0 { assert AtMost(s[0], s[k]); } }
    } else if s[0] == x {
      NoneLess(t, x, s[0]);
      if k > 0 { RankIn(t, x, k - 1); }
    } else if k > 0 {
      RankIn(t, x, k - 1);
    }
  }

  lemma {:induction false} NoneLess(t: seq<int>, x: int, least: int)
    requires least >= x && forall j :: 0 <= j < |t| ==> AtMost(least, t[j])
    ensures Count(t, LessThan(x)) == 0
  {
    if t != [] {
      assert AtMost(least, t[0]);
      NoneLess(t[1..], x, least);
    }
  }

  lemma NoneBelow(t: seq<int>, x: int, least: int)
    requires least > x && forall j :: 0 <= j < |t| ==> AtMost(least, t[j])
    ensures Count(t, LessThan(x)) == 0 && multiset(t)[x] == 0
  {
    NoneLess(t, x, least);
    assert forall j :: 0 <= j < |t| ==> AtMost(least, t[j]) && t[j] != x;
    assert x !in t;
  }

  lemma RankIsPlace(values: seq<Option<int>>, x: int, k: nat)
    requires k < |Usable(values)|
    ensures HasRank(values, x, k) <==> Sort(Usable(values), AtMost)[k] == x
  {
    hide Sort, Usable, Count, Tallied;
    var vs := Usable(values);
    AtMostIsOrder();
    SortSorts(vs, AtMost);
    UsableCounts(values);
    TalliedIsCount(values, LessThan(x));
    CountSort(vs, AtMost, LessThan(x));
    RankIn(Sort(vs, AtMost), x, k);
  }

  lemma HalfIsRounded(a: int, b: int, r: int)
    ensures HalfOf(a + b, r) <==> r == RoundedMean(a, b)
  {
  }

  lemma MedianIff(values: seq<Option<int>>, r: int)
    requires Usable(values) != []
    ensures IsMedian(values, r) <==> r == Median(Usable(values))
  {
    hide Sort, Usable, RoundedMean, HalfOf, HasRank;
    UsableCounts(values);
    var s := Sort(Usable(values), AtMost);
    var n := |s|;
    var a, b := s[(n - 1) / 2], s[n / 2];
    forall lo, hi ensures Middles(values, lo, hi) <==> lo == a && hi == b {
      RankIsPlace(values, lo, (n - 1) / 2);
      RankIsPlace(values, hi, n / 2);
    }
    HalfIsRounded(a, b, r);
    assert Middles(values, a, b);
    if n % 2 == 1 { HalfOfTwice(a); HalfIsRounded(a, a, r); }
  }

  lemma HalfOfTwice(a: int)
    ensures RoundedMean(a, a) == a
  {
  }

  lemma DecidesIff(values: seq<Option<int>>, r: Option<int>)
    ensures Decides(values, r) <==> ListDecides(Usable(values), r)
  {
    hide Usable, Median, IsMedian;
    UsableCounts(values);
    var vs := Usable(values);
    assert forall v :: IsMajority(vs, v) <==> Majority(values, v);
    if vs != [] && r.Some? { MedianIff(values, r.value); }
  }

  // ----- the laws of the vote -----

  /** The order in which the values come cannot change the outcome, nor can a tie. */
  lemma VoteIgnoresOrder(values: seq<Option<int>>, others: seq<Option<int>>, r: Option<int>, t: Option<int>)
    requires multiset(values) == multiset(others)
    requires Decides(values, r) && Decides(others, t)
    ensures r == t
  {
    hide Decides, ListDecides, Usable;
    DecidesIff(values, r);
    DecidesIff(others, t);
    UsableCounts(values);
    UsableCounts(others);
    var vs, ws := Usable(values), Usable(others);
    forall v ensures multiset(vs)[v] == multiset(ws)[v] {
      assert multiset(values)[Some(v)] == multiset(others)[Some(v)];
    }
    assert multiset(vs) == multiset(ws);
    ListIgnoresOrder(Usable(values), Usable(others), r, t);
  }

  /** When strictly more than half of the values that are there lie in [lo, hi], so
      does the result, however it was reached. */
  lemma VoteResistsOutliers(values: seq<Option<int>>, r: Option<int>, lo: int, hi: int)
    requires Decides(values, r) && Tallied(values, Within(lo, hi)) * 2 > Present(values)
    ensures r.Some? && lo <= r.value <= hi
  {
    hide Decides, ListDecides, Usable, Count, Tallied;
    DecidesIff(values, r);
    UsableCounts(values);
    TalliedIsCount(values, Within(lo, hi));
    ListResists(Usable(values), r, lo, hi);
  }

  // ----- the counting loops -----

  /** Occurrence counts, with the values in first-seen order. */
  method Tally(vs: seq<int>) returns (counts: map<int, nat>, order: seq<int>)
    ensures forall v :: v in counts <==> v in vs
    ensures forall v :: v in counts ==> counts[v] == multiset(vs)[v]
    ensures forall v :: v in order <==> v in counts
    ensures vs != [] ==> order != []
  {
    counts, order := map[], [];
    for i := 0 to |vs|
      invariant forall v :: v in counts <==> v in vs[..i]
      invariant forall v :: v in counts ==> counts[v] == multiset(vs[..i])[v]
      invariant forall v :: v in order <==> v in counts
      invariant i > 0 ==> order != []
    {
      var v := vs[i];
      assert vs[..i + 1] == vs[..i] + [v];
      assert v !in counts ==> multiset(vs[..i])[v] == 0;
      if v !in counts { order := order + [v]; }
      counts := counts[v := (if v in counts then counts[v] else 0) + 1];
    }
    assert vs[..|vs|] == vs;
  }

  method MajorityOrMedian(values: seq<Option<int>>) returns (r: Option<int>)
    ensures Decides(values, r)
    ensures r.None? <==> forall i :: 0 <= i < |values| ==> values[i].None?
  {
    hide Sort, Usable, MiddleOf, Decides;
    NothingPresent(values);
    r := DecideList(Usable(values));
    DecidesIff(values, r);
    DecidedIsPresent(values, r);
  }

  lemma DecidedIsPresent(values: seq<Option<int>>, r: Option<int>)
    requires Decides(values, r)
    ensures r.None? <==> Present(values) == 0
  {
  }

  method DecideList(vs: seq<int>) returns (r: Option<int>)
    ensures ListDecides(vs, r)
  {
    hide Sort, MiddleOf;
    if vs == [] { return None; }
    var counts, order := Tally(vs);
    var best, bestN := MostFrequent(vs, counts, order);
    if bestN * 2 > |vs| { return Some(best); }
    return Some(MiddleOf(Sort(vs, AtMost)));
  }

  /** The first value, in first-seen order, with the highest count. */
  method MostFrequent(vs: seq<int>, counts: map<int, nat>, order: seq<int>) returns (best: int, bestN: nat)
    requires vs != []
    requires forall v :: v in counts <==> v in vs
    requires forall v :: v in counts ==> counts[v] == multiset(vs)[v]
    requires forall v :: v in order <==> v in counts
    ensures bestN > 0 ==> bestN == multiset(vs)[best]
    ensures forall v :: multiset(vs)[v] <= bestN
  {
    best, bestN := vs[0], 0;
    for i := 0 to |order|
      invariant bestN > 0 ==> bestN == multiset(vs)[best]
      invariant forall j :: 0 <= j < i ==> multiset(vs)[order[j]] <= bestN
    {
      var v := order[i];
      assert v in order;
      var n := counts[v];
      if n > bestN { best, bestN := v, n; }
    }
    forall v ensures multiset(vs)[v] <= bestN {
      if v in order {
        var j :| 0 <= j < |order| && order[j] == v;
      } else {
        assert v !in vs;
      }
    }
  }
}
