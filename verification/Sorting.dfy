/** The stable sort every `sorted`, `Array.sort` and `ORDER BY` of the sources
    amounts to, and what it guarantees. */
module Sorting {
  ghost predicate TotalPreorder<T(!new)>(leq: (T, T) -> bool) {
    && (forall x, y :: leq(x, y) || leq(y, x))
    && (forall x, y, z :: leq(x, y) && leq(y, z) ==> leq(x, z))
  }

  ghost predicate Antisymmetric<T(!new)>(leq: (T, T) -> bool) {
    forall x, y :: leq(x, y) && leq(y, x) ==> x == y
  }

  ghost predicate Sorted<T>(s: seq<T>, leq: (T, T) -> bool) {
    forall i, j :: 0 <= i < j < |s| ==> leq(s[i], s[j])
  }

  /** x goes in front of the first element that does not precede it. */
  function Insert<T>(x: T, s: seq<T>, leq: (T, T) -> bool): (r: seq<T>)
    ensures |r| == |s| + 1
    ensures multiset(r) == multiset{x} + multiset(s)
  {
    if s == [] then [x]
    else if leq(x, s[0]) then [x] + s
    else
      assert s == [s[0]] + s[1..];
      [s[0]] + Insert(x, s[1..], leq)
  }

  function Sort<T>(s: seq<T>, leq: (T, T) -> bool): (r: seq<T>)
    ensures |r| == |s|
    ensures multiset(r) == multiset(s)
  {
    if s == [] then [] else
      assert s == [s[0]] + s[1..];
      Insert(s[0], Sort(s[1..], leq), leq)
  }

  lemma {:induction false} InsertSorts<T(!new)>(x: T, s: seq<T>, leq: (T, T) -> bool)
    requires TotalPreorder(leq) && Sorted(s, leq)
    ensures Sorted(Insert(x, s, leq), leq)
  {
    if s != [] && !leq(x, s[0]) {
      InsertSorts(x, s[1..], leq);
      var t := Insert(x, s[1..], leq);
      forall j | 0 <= j < |t| ensures leq(s[0], t[j]) {
        assert t[j] in multiset(t);
        if t[j] != x {
          assert t[j] in multiset(s[1..]);
          assert t[j] in s[1..];
        }
      }
    } else if s != [] {
      forall j | 0 <= j < |s| ensures leq(x, s[j]) {
        if j > 0 { assert leq(s[0], s[j]); }
      }
    }
  }

  lemma {:induction false} SortSorts<T(!new)>(s: seq<T>, leq: (T, T) -> bool)
    requires TotalPreorder(leq)
    ensures Sorted(Sort(s, leq), leq)
  {
    if s != [] {
      SortSorts(s[1..], leq);
      InsertSorts(s[0], Sort(s[1..], leq), leq);
    }
  }

  /** With an antisymmetric order there is one sorted arrangement only. */
  lemma {:induction false} SortedIsUnique<T(!new)>(s: seq<T>, t: seq<T>, leq: (T, T) -> bool)
    requires TotalPreorder(leq) && Antisymmetric(leq)
    requires Sorted(s, leq) && Sorted(t, leq) && multiset(s) == multiset(t)
    ensures s == t
  {
    hide TotalPreorder, Antisymmetric;
    assert |s| == |multiset(s)| == |t|;
    if s != [] {
      HeadIsLeast(s, t[0], leq);
      HeadIsLeast(t, s[0], leq);
      SameHead(s[0], t[0], leq);
      SameTail(s, t);
      TailSorted(s, leq);
      TailSorted(t, leq);
      SortedIsUnique(s[1..], t[1..], leq);
    }
  }

  lemma HeadIsLeast<T(!new)>(s: seq<T>, x: T, leq: (T, T) -> bool)
    requires TotalPreorder(leq) && Sorted(s, leq) && s != []
    ensures x in multiset(s) ==> leq(s[0], x)
    ensures s[0] in multiset(s)
  {
    assert s[0] in s && leq(s[0], s[0]);
  }

  lemma SameHead<T(!new)>(x: T, y: T, leq: (T, T) -> bool)
    requires Antisymmetric(leq) && leq(x, y) && leq(y, x)
    ensures x == y
  {
  }

  lemma SameTail<T>(s: seq<T>, t: seq<T>)
    requires s != [] && t != [] && s[0] == t[0] && multiset(s) == multiset(t)
    ensures multiset(s[1..]) == multiset(t[1..])
  {
    assert s == [s[0]] + s[1..] && t == [t[0]] + t[1..];
    assert multiset(s[1..]) == multiset(s) - multiset{s[0]};
    assert multiset(t[1..]) == multiset(t) - multiset{t[0]};
  }

  lemma TailSorted<T>(s: seq<T>, leq: (T, T) -> bool)
    requires Sorted(s, leq) && s != []
    ensures Sorted(s[1..], leq)
  {
  }

  /** How many elements satisfy p. */
  function Count<T>(s: seq<T>, p: T -> bool): (n: nat)
    ensures n <= |s|
  {
    if s == [] then 0 else (if p(s[0]) then 1 else 0) + Count(s[1..], p)
  }

  lemma {:induction false} CountAppend<T>(s: seq<T>, x: T, p: T -> bool)
    ensures Count(s + [x], p) == Count(s, p) + (if p(x) then 1 else 0)
  {
    if s == [] {
      assert s + [x] == [x];
    } else {
      CountAppend(s[1..], x, p);
      assert (s + [x])[1..] == s[1..] + [x];
    }
  }

  lemma {:induction false} CountInsert<T>(x: T, s: seq<T>, leq: (T, T) -> bool, p: T -> bool)
    ensures Count(Insert(x, s, leq), p) == (if p(x) then 1 else 0) + Count(s, p)
  {
    if s != [] && !leq(x, s[0]) { CountInsert(x, s[1..], leq, p); }
  }

  lemma {:induction false} CountSort<T>(s: seq<T>, leq: (T, T) -> bool, p: T -> bool)
    ensures Count(Sort(s, leq), p) == Count(s, p)
  {
    if s != [] {
      CountSort(s[1..], leq, p);
      CountInsert(s[0], Sort(s[1..], leq), leq, p);
    }
  }

  /** At least the elements from k on. */
  lemma {:induction false} CountFrom<T>(s: seq<T>, p: T -> bool, k: nat)
    requires k <= |s| && forall i :: k <= i < |s| ==> p(s[i])
    ensures Count(s, p) >= |s| - k
  {
    if s != [] { CountFrom(s[1..], p, if k > 0 then k - 1 else 0); }
  }

  /** At most the elements from k on. */
  lemma {:induction false} CountNoneBefore<T>(s: seq<T>, p: T -> bool, k: nat)
    requires k <= |s| && forall i :: 0 <= i < k ==> !p(s[i])
    ensures Count(s, p) <= |s| - k
  {
    if k > 0 { CountNoneBefore(s[1..], p, k - 1); }
  }

  /** At most the elements before k. */
  lemma {:induction false} CountNoneFrom<T>(s: seq<T>, p: T -> bool, k: nat)
    requires k <= |s| && forall i :: k <= i < |s| ==> !p(s[i])
    ensures Count(s, p) <= k
  {
    if s != [] { CountNoneFrom(s[1..], p, if k > 0 then k - 1 else 0); }
  }

  predicate Distinct<T(==)>(s: seq<T>) {
    forall i, j :: 0 <= i < j < |s| ==> s[i] != s[j]
  }

  lemma TwoOccurrences<T>(s: seq<T>, i: nat, j: nat)
    requires i < j < |s| && s[i] == s[j]
    ensures multiset(s)[s[i]] >= 2
  {
    assert s == s[..j] + [s[j]] + s[j + 1..];
    assert s[..j][i] in multiset(s[..j]);
  }

  lemma {:induction false} DistinctMultiset<T>(s: seq<T>)
    requires Distinct(s)
    ensures forall x :: multiset(s)[x] <= 1
  {
    if s != [] {
      assert s == [s[0]] + s[1..];
      DistinctMultiset(s[1..]);
      assert s[0] !in s[1..];
    }
  }

  lemma SortKeepsDistinct<T>(s: seq<T>, leq: (T, T) -> bool)
    requires Distinct(s)
    ensures Distinct(Sort(s, leq))
  {
    DistinctMultiset(s);
    var r := Sort(s, leq);
    forall i, j | 0 <= i < j < |r| ensures r[i] != r[j] {
      if r[i] == r[j] { TwoOccurrences(r, i, j); }
    }
  }

  // ----- a sort commutes with a filter -----

  function Keep<T>(s: seq<T>, p: T -> bool): seq<T> {
    if s == [] then []
    else if p(s[0]) then [s[0]] + Keep(s[1..], p)
    else Keep(s[1..], p)
  }

  lemma {:induction false} KeepMembers<T(!new)>(s: seq<T>, p: T -> bool)
    ensures forall x :: x in Keep(s, p) <==> x in s && p(x)
  {
    if s != [] {
      assert s == [s[0]] + s[1..];
      KeepMembers(s[1..], p);
    }
  }

  lemma {:induction false} KeepInsert<T(!new)>(x: T, s: seq<T>, leq: (T, T) -> bool, p: T -> bool)
    requires TotalPreorder(leq) && Sorted(s, leq)
    ensures Keep(Insert(x, s, leq), p) == if p(x) then Insert(x, Keep(s, p), leq) else Keep(s, p)
  {
    if s == [] {
    } else if leq(x, s[0]) {
      var t := Keep(s, p);
      assert ([x] + s)[1..] == s;
      if t != [] {
        KeepMembers(s, p);
        assert t[0] in t && t[0] in s;
        var i :| 0 <= i < |s| && s[i] == t[0];
        assert i > 0 ==> leq(s[0], s[i]);
        assert leq(x, t[0]);
      }
    } else {
      KeepInsert(x, s[1..], leq, p);
      var r := Insert(x, s[1..], leq);
      assert ([s[0]] + r)[1..] == r;
      if p(s[0]) {
        assert Keep(s, p)[1..] == Keep(s[1..], p);
      }
    }
  }

  lemma {:induction false} KeepSort<T(!new)>(s: seq<T>, leq: (T, T) -> bool, p: T -> bool)
    requires TotalPreorder(leq)
    ensures Keep(Sort(s, leq), p) == Sort(Keep(s, p), leq)
  {
    if s != [] {
      KeepSort(s[1..], leq, p);
      SortSorts(s[1..], leq);
      KeepInsert(s[0], Sort(s[1..], leq), leq, p);
      if p(s[0]) {
        assert Keep(s, p)[1..] == Keep(s[1..], p);
      }
    }
  }

  /** Elements that the order does not tell apart keep the order they came in. */
  lemma SortIsStable<T(!new)>(s: seq<T>, leq: (T, T) -> bool, p: T -> bool)
    requires TotalPreorder(leq)
    requires forall x, y :: p(x) && p(y) ==> leq(x, y)
    ensures Keep(Sort(s, leq), p) == Keep(s, p)
  {
    KeepSort(s, leq, p);
    KeepMembers(s, p);
    SortTied(Keep(s, p), leq);
  }

  lemma {:induction false} SortTied<T(!new)>(s: seq<T>, leq: (T, T) -> bool)
    requires forall x, y :: x in s && y in s ==> leq(x, y)
    ensures Sort(s, leq) == s
  {
    if s != [] {
      assert forall x :: x in s[1..] ==> x in s;
      SortTied(s[1..], leq);
      assert s[0] in s && (|s| > 1 ==> s[1] in s && leq(s[0], s[1]));
      assert s == [s[0]] + s[1..];
    }
  }
}
