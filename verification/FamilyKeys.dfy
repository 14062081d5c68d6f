/** Model families: which keys a row can be matched on, and the partition of
    rows into connected components of "shares a key". */
module FamilyKeys {

  /** A model id or display name, with its family key worked out: `family` is
      what is left once dates, brands and spelling are dropped, `versioned`
      says whether the text contains a digit. */
  datatype Label = Label(text: string, family: string, versioned: bool)

  /** Ids only ever match ids and names only names. */
  datatype Key = IdKey(family: string) | NameKey(family: string)

  function KeysOf(id: Label, name: Label): (ks: seq<Key>)
    ensures IdKey(id.family) in ks
    ensures forall k :: k in ks ==> k == IdKey(id.family) || (name.versioned && k == NameKey(name.family))
    ensures name.versioned ==> NameKey(name.family) in ks
  {
    [IdKey(id.family)] + (if name.versioned then [NameKey(name.family)] else [])
  }

  ghost predicate Overlap(a: seq<Key>, b: seq<Key>) {
    exists k :: k in a && k in b
  }

  /** Rows i and j have a key in common. */
  ghost predicate Shares(ks: seq<seq<Key>>, i: nat, j: nat)
    requires i < |ks| && j < |ks|
  {
    Overlap(ks[i], ks[j])
  }

  // ----- chains of shared keys -----

  ghost predicate IsChain(ks: seq<seq<Key>>, p: seq<nat>) {
    && p != []
    && (forall t :: 0 <= t < |p| ==> p[t] < |ks|)
    && (forall t :: 0 <= t < |p| - 1 ==> Shares(ks, p[t], p[t + 1]))
  }

  ghost predicate Connects(ks: seq<seq<Key>>, p: seq<nat>, i: nat, j: nat) {
    IsChain(ks, p) && p[0] == i && p[|p| - 1] == j
  }

  ghost predicate Linked(ks: seq<seq<Key>>, i: nat, j: nat) {
    exists p: seq<nat> :: Connects(ks, p, i, j)
  }

  lemma LinkedSelf(ks: seq<seq<Key>>, i: nat)
    requires i < |ks|
    ensures Linked(ks, i, i)
  {
    assert Connects(ks, [i], i, i);
  }

  lemma LinkedShare(ks: seq<seq<Key>>, i: nat, j: nat)
    requires i < |ks| && j < |ks| && Shares(ks, i, j)
    ensures Linked(ks, i, j)
  {
    assert Connects(ks, [i, j], i, j);
  }

  lemma LinkedTrans(ks: seq<seq<Key>>, i: nat, j: nat, k: nat)
    requires Linked(ks, i, j) && Linked(ks, j, k)
    ensures Linked(ks, i, k)
  {
    var p: seq<nat> :| Connects(ks, p, i, j);
    var q: seq<nat> :| Connects(ks, q, j, k);
    var r := p + q[1..];
    forall t | 0 <= t < |r| - 1 ensures Shares(ks, r[t], r[t + 1]) {
      if t < |p| - 1 {
        assert r[t] == p[t] && r[t + 1] == p[t + 1];
      } else {
        assert r[t] == q[t - (|p| - 1)] && r[t + 1] == q[t + 1 - (|p| - 1)];
      }
    }
    assert Connects(ks, r, i, k);
  }

  lemma ChainTail(ks: seq<seq<Key>>, p: seq<nat>)
    requires IsChain(ks, p) && |p| > 1
    ensures IsChain(ks, p[1..]) && Shares(ks, p[0], p[1])
  {
    var q := p[1..];
    assert Shares(ks, p[0], p[0 + 1]);
    forall t | 0 <= t < |q| - 1 ensures Shares(ks, q[t], q[t + 1]) {
      var u := t + 1;
      assert q[t] == p[u] && q[t + 1] == p[u + 1];
    }
  }

  lemma {:induction false} LinkedReverse(ks: seq<seq<Key>>, p: seq<nat>, i: nat, j: nat)
    requires Connects(ks, p, i, j)
    ensures Linked(ks, j, i)
    decreases |p|
  {
    if |p| == 1 {
      LinkedSelf(ks, i);
    } else {
      var q := p[1..];
      ChainTail(ks, p);
      assert Connects(ks, q, p[1], j);
      LinkedReverse(ks, q, p[1], j);
      LinkedShare(ks, p[1], i);
      LinkedTrans(ks, j, p[1], i);
    }
  }

  lemma LinkedSym(ks: seq<seq<Key>>, i: nat, j: nat)
    requires Linked(ks, i, j)
    ensures Linked(ks, j, i)
  {
    var p: seq<nat> :| Connects(ks, p, i, j);
    LinkedReverse(ks, p, i, j);
  }

  // ----- components and families -----

  /** The smallest row linked to i, searching from j. */
  ghost function FirstLinked(ks: seq<seq<Key>>, i: nat, j: nat): (c: nat)
    requires j <= i < |ks| && forall t :: 0 <= t < j ==> !Linked(ks, i, t)
    ensures c <= i && Linked(ks, i, c) && forall t :: 0 <= t < c ==> !Linked(ks, i, t)
    decreases i - j
  {
    LinkedSelf(ks, i);
    if Linked(ks, i, j) then j else FirstLinked(ks, i, j + 1)
  }

  /** The representative of i's component: its smallest row. */
  ghost function Component(ks: seq<seq<Key>>, i: nat): (c: nat)
    requires i < |ks|
    ensures c <= i && Linked(ks, i, c) && forall t :: 0 <= t < c ==> !Linked(ks, i, t)
  {
    FirstLinked(ks, i, 0)
  }

  /** Being linked is having the same representative. */
  lemma SameComponent(ks: seq<seq<Key>>, i: nat, j: nat)
    requires i < |ks| && j < |ks|
    ensures Component(ks, i) == Component(ks, j) <==> Linked(ks, i, j)
  {
    var a, b := Component(ks, i), Component(ks, j);
    if a == b {
      LinkedSym(ks, j, b);
      LinkedTrans(ks, i, a, j);
    }
    if Linked(ks, i, j) {
      LinkedSym(ks, i, j);
      LinkedTrans(ks, i, j, b);
      LinkedTrans(ks, j, i, a);
    }
  }

  lemma RepresentativeOfItself(ks: seq<seq<Key>>, i: nat)
    requires i < |ks|
    ensures Component(ks, Component(ks, i)) == Component(ks, i)
  {
    SameComponent(ks, i, Component(ks, i));
  }

  /** The rows below m whose representative is r, in input order. */
  ghost function Members(ks: seq<seq<Key>>, r: nat, m: nat): (f: seq<nat>)
    requires m <= |ks|
    ensures forall x: nat :: x in f <==> x < m && Component(ks, x) == r
    ensures forall s, t :: 0 <= s < t < |f| ==> f[s] < f[t]
  {
    if m == 0 then []
    else
      var f0 := Members(ks, r, m - 1);
      assert forall s :: 0 <= s < |f0| ==> f0[s] in f0;
      f0 + (if Component(ks, m - 1) == r then [m - 1] else [])
  }

  /** The representatives below m, in input order. */
  ghost function Heads(ks: seq<seq<Key>>, m: nat): (h: seq<nat>)
    requires m <= |ks|
    ensures forall x: nat :: x in h <==> x < m && Component(ks, x) == x
    ensures forall s, t :: 0 <= s < t < |h| ==> h[s] < h[t]
  {
    if m == 0 then []
    else
      var h0 := Heads(ks, m - 1);
      assert forall s :: 0 <= s < |h0| ==> h0[s] in h0;
      h0 + (if Component(ks, m - 1) == m - 1 then [m - 1] else [])
  }

  /** The families, as lists of row numbers. */
  ghost function Families(ks: seq<seq<Key>>): (fs: seq<seq<nat>>)
    ensures |fs| == |Heads(ks, |ks|)|
  {
    var h := Heads(ks, |ks|);
    seq(|h|, g requires 0 <= g < |h| => Members(ks, h[g], |ks|))
  }

  // ----- what the families are -----

  ghost predicate InSome(fs: seq<seq<nat>>, i: nat) {
    exists g :: 0 <= g < |fs| && i in fs[g]
  }

  /** Every row is in a family, and in one only. */
  ghost predicate Partitions(fs: seq<seq<nat>>, n: nat) {
    && (forall i: nat :: i < n ==> InSome(fs, i))
    && (forall g, h, i :: 0 <= g < |fs| && 0 <= h < |fs| && i in fs[g] && i in fs[h] ==> g == h)
    && (forall g, i :: 0 <= g < |fs| && i in fs[g] ==> i < n)
  }

  /** A family holds exactly the rows that a chain of shared keys links. */
  ghost predicate FollowsChains(fs: seq<seq<nat>>, ks: seq<seq<Key>>) {
    forall g, i, j: nat :: 0 <= g < |fs| && i in fs[g] && j < |ks| ==> (j in fs[g] <==> Linked(ks, i, j))
  }

  /** Families are non-empty and in input order, and so are their leaders. */
  ghost predicate InInputOrder(fs: seq<seq<nat>>) {
    && (forall g :: 0 <= g < |fs| ==> fs[g] != [])
    && (forall g, s, t :: 0 <= g < |fs| && 0 <= s < t < |fs[g]| ==> fs[g][s] < fs[g][t])
    && (forall g, h :: 0 <= g < h < |fs| ==> fs[g][0] < fs[h][0])
  }

  lemma FamilyLeader(ks: seq<seq<Key>>, g: nat)
    requires g < |Families(ks)|
    ensures var f, r := Families(ks)[g], Heads(ks, |ks|)[g];
      f == Members(ks, r, |ks|) && f != [] && f[0] == r && r < |ks| && Component(ks, r) == r
  {
    var f, r := Families(ks)[g], Heads(ks, |ks|)[g];
    assert r in Heads(ks, |ks|);
    assert r in f;
    assert f[0] in f;
  }

  lemma FamiliesFollowChains(ks: seq<seq<Key>>)
    ensures FollowsChains(Families(ks), ks)
  {
    var fs := Families(ks);
    forall g, i, j: nat | 0 <= g < |fs| && i in fs[g] && j < |ks| ensures j in fs[g] <==> Linked(ks, i, j) {
      FamilyLeader(ks, g);
      SameComponent(ks, i, j);
    }
  }

  lemma FamiliesInOrder(ks: seq<seq<Key>>)
    ensures InInputOrder(Families(ks))
  {
    var fs := Families(ks);
    forall g | 0 <= g < |fs| ensures fs[g] != [] && fs[g][0] == Heads(ks, |ks|)[g] {
      FamilyLeader(ks, g);
    }
    forall g, s, t | 0 <= g < |fs| && 0 <= s < t < |fs[g]| ensures fs[g][s] < fs[g][t] {
      FamilyLeader(ks, g);
    }
  }

  lemma FamiliesCover(ks: seq<seq<Key>>, i: nat)
    requires i < |ks|
    ensures InSome(Families(ks), i)
  {
    var r, h := Component(ks, i), Heads(ks, |ks|);
    RepresentativeOfItself(ks, i);
    assert r in h;
    var g :| 0 <= g < |h| && h[g] == r;
    FamilyLeader(ks, g);
    assert i in Families(ks)[g];
  }

  /** `groupByFamily`'s families are the connected components of "shares a key". */
  lemma FamiliesAreComponents(ks: seq<seq<Key>>)
    ensures Partitions(Families(ks), |ks|)
    ensures FollowsChains(Families(ks), ks)
    ensures InInputOrder(Families(ks))
  {
    var fs, hs := Families(ks), Heads(ks, |ks|);
    forall i: nat | i < |ks| ensures InSome(fs, i) { FamiliesCover(ks, i); }
    forall g, h, i | 0 <= g < |fs| && 0 <= h < |fs| && i in fs[g] && i in fs[h] ensures g == h {
      FamilyLeader(ks, g);
      FamilyLeader(ks, h);
      assert hs[g] == hs[h];
    }
    forall g, i | 0 <= g < |fs| && i in fs[g] ensures i < |ks| { FamilyLeader(ks, g); }
    FamiliesFollowChains(ks);
    FamiliesInOrder(ks);
  }
}
