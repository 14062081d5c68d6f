/** `groupByFamily`: union-find with path halving over the rows' family keys. */
module UnionFind {
  import opened FamilyKeys

  // ----- the forest held in the parent array -----

  ghost predicate Forest(p: seq<nat>) {
    forall i :: 0 <= i < |p| ==> p[i] <= i
  }

  ghost function Root(p: seq<nat>, i: nat): (r: nat)
    requires Forest(p) && i < |p|
    ensures r <= i && p[r] == r
  {
    if p[i] == i then i else Root(p, p[i])
  }

  ghost predicate SameRoots(p: seq<nat>, q: seq<nat>) {
    Forest(p) && Forest(q) && |p| == |q| && forall j :: 0 <= j < |p| ==> Root(p, j) == Root(q, j)
  }

  lemma {:induction false} HalvingRoot(p: seq<nat>, i: nat, j: nat)
    requires Forest(p) && i < |p| && j < |p|
    ensures Forest(p[i := p[p[i]]])
    ensures Root(p[i := p[p[i]]], j) == Root(p, j)
    decreases j
  {
    var q := p[i := p[p[i]]];
    if q[j] != j {
      HalvingRoot(p, i, q[j]);
    }
  }

  /** Path halving changes no root. */
  lemma HalvingKeepsRoots(p: seq<nat>, i: nat)
    requires Forest(p) && i < |p|
    ensures SameRoots(p, p[i := p[p[i]]])
  {
    forall j | 0 <= j < |p|
      ensures Forest(p[i := p[p[i]]]) && Root(p[i := p[p[i]]], j) == Root(p, j)
    {
      HalvingRoot(p, i, j);
    }
    HalvingRoot(p, i, i);
  }

  /** Hanging root b under the smaller root a redirects exactly b's tree. */
  lemma {:induction false} UnionRoot(p: seq<nat>, a: nat, b: nat, j: nat)
    requires Forest(p) && a < b < |p| && p[a] == a && p[b] == b && j < |p|
    ensures Forest(p[b := a])
    ensures Root(p[b := a], j) == if Root(p, j) == b then a else Root(p, j)
    decreases j
  {
    if p[j] != j { UnionRoot(p, a, b, p[j]); }
  }

  lemma RootIdempotent(p: seq<nat>, i: nat)
    requires Forest(p) && i < |p|
    ensures Root(p, Root(p, i)) == Root(p, i)
  {
  }

  /** Follow parents to the root, halving the path on the way. */
  method Find(parent: array<nat>, start: nat) returns (r: nat)
    requires Forest(parent[..]) && start < parent.Length
    modifies parent
    ensures SameRoots(old(parent[..]), parent[..])
    ensures r == Root(parent[..], start)
  {
    var i: nat := start;
    while parent[i] != i
      invariant i < parent.Length
      invariant SameRoots(old(parent[..]), parent[..])
      invariant Root(parent[..], i) == Root(parent[..], start)
      decreases i
    {
      ghost var p := parent[..];
      HalvingKeepsRoots(p, i);
      parent[i] := parent[parent[i]];
      assert parent[..] == p[i := p[p[i]]];
      i := parent[i];
    }
    r := i;
  }

  // ----- processing keys -----

  /** Each row is linked to its root, and every key seen so far leads to a row
      with that key whose root all other rows with the key share. */
  ghost predicate Tracks(ks: seq<seq<Key>>, p: seq<nat>, byKey: map<Key, nat>, m: nat, t: nat) {
    && Forest(p) && |p| == |ks| && m <= |ks|
    && (forall i :: 0 <= i < |ks| ==> Linked(ks, i, Root(p, i)))
    && (forall k :: k in byKey ==> byKey[k] < |ks| && k in ks[byKey[k]])
    && (forall i, k :: 0 <= i < m && k in ks[i] ==> k in byKey && Root(p, i) == Root(p, byKey[k]))
    && (m < |ks| && t <= |ks[m]| && forall u :: 0 <= u < t ==>
          ks[m][u] in byKey && Root(p, m) == Root(p, byKey[ks[m][u]]))
  }

  ghost predicate TracksAll(ks: seq<seq<Key>>, p: seq<nat>, byKey: map<Key, nat>, m: nat) {
    && Forest(p) && |p| == |ks| && m <= |ks|
    && (forall i :: 0 <= i < |ks| ==> Linked(ks, i, Root(p, i)))
    && (forall k :: k in byKey ==> byKey[k] < |ks| && k in ks[byKey[k]])
    && (forall i, k :: 0 <= i < m && k in ks[i] ==> k in byKey && Root(p, i) == Root(p, byKey[k]))
  }

  lemma UnionLinks(ks: seq<seq<Key>>, i: nat, j: nat, a: nat, b: nat)
    requires i < |ks| && j < |ks| && Shares(ks, i, j) && Linked(ks, i, a) && Linked(ks, j, b)
    ensures Linked(ks, a, b) && Linked(ks, b, a)
  {
    LinkedShare(ks, i, j);
    LinkedSym(ks, i, a);
    LinkedTrans(ks, a, i, j);
    LinkedTrans(ks, a, j, b);
    LinkedSym(ks, a, b);
  }

  /** Joining the trees of rows m and j, which share a key. */
  lemma JoinLinks(ks: seq<seq<Key>>, p: seq<nat>, q: seq<nat>, m: nat, j: nat, lo: nat, hi: nat)
    requires Forest(p) && |p| == |ks| && m < |ks| && j < |ks| && Shares(ks, m, j)
    requires forall i :: 0 <= i < |ks| ==> Linked(ks, i, Root(p, i))
    requires lo < hi < |ks|
    requires (Root(p, m) == lo && Root(p, j) == hi) || (Root(p, m) == hi && Root(p, j) == lo)
    requires q == p[hi := lo]
    ensures Forest(q)
    ensures forall i :: 0 <= i < |ks| ==> Root(q, i) == (if Root(p, i) == hi then lo else Root(p, i))
    ensures forall i :: 0 <= i < |ks| ==> Linked(ks, i, Root(q, i))
  {
    RootIdempotent(p, m);
    RootIdempotent(p, j);
    UnionLinks(ks, m, j, Root(p, m), Root(p, j));
    UnionRoot(p, lo, hi, 0);
    forall i | 0 <= i < |ks|
      ensures Root(q, i) == (if Root(p, i) == hi then lo else Root(p, i)) && Linked(ks, i, Root(q, i))
    {
      UnionRoot(p, lo, hi, i);
      if Root(p, i) == hi { LinkedTrans(ks, i, hi, lo); }
    }
  }

  /** Making one tree of two keeps everything tracked, and brings the trees of
      row m and of the holder of its t-th key together. */
  lemma UnionTracks(ks: seq<seq<Key>>, p: seq<nat>, byKey: map<Key, nat>, m: nat, t: nat, lo: nat, hi: nat)
    requires Tracks(ks, p, byKey, m, t) && t < |ks[m]| && ks[m][t] in byKey
    requires lo < hi < |ks|
    requires var a, b := Root(p, m), Root(p, byKey[ks[m][t]]); (a == lo && b == hi) || (a == hi && b == lo)
    ensures Tracks(ks, p[hi := lo], byKey, m, t + 1)
  {
    var q := p[hi := lo];
    var j := byKey[ks[m][t]];
    assert ks[m][t] in ks[m] && ks[m][t] in ks[j];
    JoinLinks(ks, p, q, m, j, lo, hi);
    forall i, k | 0 <= i < m && k in ks[i] ensures k in byKey && Root(q, i) == Root(q, byKey[k]) {
      assert Root(p, i) == Root(p, byKey[k]);
    }
    forall u | 0 <= u < t + 1 ensures ks[m][u] in byKey && Root(q, m) == Root(q, byKey[ks[m][u]]) {
      if u < t { assert Root(p, m) == Root(p, byKey[ks[m][u]]); }
    }
  }

  lemma SameRootsTrack(ks: seq<seq<Key>>, p: seq<nat>, q: seq<nat>, byKey: map<Key, nat>, m: nat, t: nat)
    requires Tracks(ks, p, byKey, m, t) && SameRoots(p, q)
    ensures Tracks(ks, q, byKey, m, t)
  {
  }

  /** Merge row m with the first holder of each of its keys. */
  method AddRow(parent: array<nat>, keys: seq<Key>, byKey0: map<Key, nat>, m: nat, ghost ks: seq<seq<Key>>)
    returns (byKey: map<Key, nat>)
    requires m < |ks| && keys == ks[m] && TracksAll(ks, parent[..], byKey0, m)
    modifies parent
    ensures TracksAll(ks, parent[..], byKey, m + 1)
  {
    hide Linked, Root;
    byKey := byKey0;
    for t := 0 to |keys|
      invariant Tracks(ks, parent[..], byKey, m, t)
    {
      var k := keys[t];
      if k !in byKey {
        byKey := byKey[k := m];
      } else {
        ghost var p0 := parent[..];
        var a := Find(parent, m);
        var b := Find(parent, byKey[k]);
        ghost var p1 := parent[..];
        SameRootsTrack(ks, p0, p1, byKey, m, t);
        if a != b {
          var hi, lo := if a > b then a else b, if a > b then b else a;
          UnionTracks(ks, p1, byKey, m, t, lo, hi);
          parent[hi] := lo;
          assert parent[..] == p1[hi := lo];
        }
      }
    }
  }

  lemma {:induction false} ChainSharesRoot(ks: seq<seq<Key>>, p: seq<nat>, byKey: map<Key, nat>, c: seq<nat>)
    requires TracksAll(ks, p, byKey, |ks|) && IsChain(ks, c)
    ensures Root(p, c[0]) == Root(p, c[|c| - 1])
    decreases |c|
  {
    if |c| > 1 {
      var d := c[1..];
      ChainTail(ks, c);
      ChainSharesRoot(ks, p, byKey, d);
      var k :| k in ks[c[0]] && k in ks[c[1]];
      assert Root(p, c[0]) == Root(p, byKey[k]) == Root(p, c[1]);
      assert d[|d| - 1] == c[|c| - 1];
    }
  }

  /** Once every row is in, the roots are the components' representatives. */
  lemma RootsAreComponents(ks: seq<seq<Key>>, p: seq<nat>, byKey: map<Key, nat>, i: nat)
    requires TracksAll(ks, p, byKey, |ks|) && i < |ks|
    ensures Root(p, i) == Component(ks, i)
  {
    var c := Component(ks, i);
    var path: seq<nat> :| Connects(ks, path, i, c);
    ChainSharesRoot(ks, p, byKey, path);
    assert Root(p, c) <= c;
  }

  // ----- collecting the groups -----

  ghost function Gather<T>(rows: seq<T>, f: seq<nat>): (g: seq<T>)
    requires forall i :: i in f ==> i < |rows|
    ensures |g| == |f|
  {
    seq(|f|, t requires 0 <= t < |f| => assert f[t] in f; rows[f[t]])
  }

  ghost function KeysOfRows<T>(rows: seq<T>, keys: T -> seq<Key>): (ks: seq<seq<Key>>)
    ensures |ks| == |rows|
  {
    seq(|rows|, i requires 0 <= i < |rows| => keys(rows[i]))
  }

  /** The families of rows, each in input order, led by its first row. */
  ghost function FamiliesOf<T>(rows: seq<T>, keys: T -> seq<Key>): (fs: seq<seq<T>>)
  {
    var h := Heads(KeysOfRows(rows, keys), |rows|);
    seq(|h|, g requires 0 <= g < |h| => Gather(rows, Members(KeysOfRows(rows, keys), h[g], |rows|)))
  }

  method Partitioned<T>(rows: seq<T>, keys: T -> seq<Key>) returns (parent: array<nat>)
    ensures fresh(parent) && parent.Length == |rows| && Forest(parent[..])
    ensures forall i :: 0 <= i < |rows| ==> Root(parent[..], i) == Component(KeysOfRows(rows, keys), i)
  {
    ghost var ks := KeysOfRows(rows, keys);
    parent := new nat[|rows|](i => i);
    var byKey: map<Key, nat> := map[];
    forall i | 0 <= i < |rows| ensures Linked(ks, i, Root(parent[..], i)) {
      LinkedSelf(ks, i);
    }
    for m := 0 to |rows|
      invariant TracksAll(ks, parent[..], byKey, m)
    {
      byKey := AddRow(parent, keys(rows[m]), byKey, m, ks);
    }
    forall i | 0 <= i < |rows| ensures Root(parent[..], i) == Component(ks, i) {
      RootsAreComponents(ks, parent[..], byKey, i);
    }
  }

  lemma GatherStep<T>(rows: seq<T>, ks: seq<seq<Key>>, r: nat, i: nat)
    requires |ks| == |rows| && i < |rows|
    ensures Gather(rows, Members(ks, r, i + 1))
         == Gather(rows, Members(ks, r, i)) + (if Component(ks, i) == r then [rows[i]] else [])
  {
    var f, g := Members(ks, r, i), Members(ks, r, i + 1);
    assert g == f + (if Component(ks, i) == r then [i] else []);
  }

  /** Partition rows into families. */
  method GroupByFamily<T>(rows: seq<T>, keys: T -> seq<Key>) returns (result: seq<seq<T>>)
    ensures result == FamiliesOf(rows, keys)
  {
    hide Members, Heads, Component, Gather, Collected;
    ghost var ks := KeysOfRows(rows, keys);
    var parent := Partitioned(rows, keys);
    var groups: map<nat, seq<T>>, order: seq<nat> := map[], [];
    CollectNothing(rows, ks);
    for i := 0 to |rows|
      invariant Forest(parent[..]) && parent.Length == |rows|
      invariant forall j :: 0 <= j < |rows| ==> Root(parent[..], j) == Component(ks, j)
      invariant Collected(rows, ks, groups, order, i)
    {
      var root := Find(parent, i);
      if root in groups {
        CollectInto(rows, ks, groups, order, i, root);
        groups := groups[root := groups[root] + [rows[i]]];
      } else {
        CollectNew(rows, ks, groups, order, i, root);
        order := order + [root];
        groups := groups[root := [rows[i]]];
      }
    }
    CollectedAll(rows, keys, groups, order);
    result := seq(|order|, g requires 0 <= g < |order| && order[g] in groups => groups[order[g]]);
  }

  /** The groups after the first i rows, in order of first appearance. */
  ghost predicate Collected<T>(rows: seq<T>, ks: seq<seq<Key>>, groups: map<nat, seq<T>>, order: seq<nat>, i: nat)
    requires |ks| == |rows| && i <= |rows|
  {
    && order == Heads(ks, i)
    && (forall r :: r in groups <==> r in order)
    && (forall r :: r in groups ==> groups[r] == Gather(rows, Members(ks, r, i)))
  }

  lemma CollectNothing<T>(rows: seq<T>, ks: seq<seq<Key>>)
    requires |ks| == |rows|
    ensures Collected(rows, ks, map[], [], 0)
  {
  }

  lemma CollectInto<T>(rows: seq<T>, ks: seq<seq<Key>>, groups: map<nat, seq<T>>, order: seq<nat>, i: nat, root: nat)
    requires |ks| == |rows| && i < |rows| && Collected(rows, ks, groups, order, i)
    requires root == Component(ks, i) && root in groups
    ensures Collected(rows, ks, groups[root := groups[root] + [rows[i]]], order, i + 1)
  {
    hide Component, Gather, Members;
    var groups' := groups[root := groups[root] + [rows[i]]];
    assert root < i;
    assert order == Heads(ks, i + 1);
    forall r | r in groups' ensures groups'[r] == Gather(rows, Members(ks, r, i + 1)) {
      GatherStep(rows, ks, r, i);
    }
  }

  lemma {:induction false} NoMembersBefore(ks: seq<seq<Key>>, r: nat, m: nat)
    requires m <= r && m <= |ks|
    ensures Members(ks, r, m) == []
  {
    hide Component, Linked;
    if m > 0 { NoMembersBefore(ks, r, m - 1); }
  }

  lemma CollectNew<T>(rows: seq<T>, ks: seq<seq<Key>>, groups: map<nat, seq<T>>, order: seq<nat>, i: nat, root: nat)
    requires |ks| == |rows| && i < |rows| && Collected(rows, ks, groups, order, i)
    requires root == Component(ks, i) && root !in groups
    ensures Collected(rows, ks, groups[root := [rows[i]]], order + [root], i + 1)
  {
    hide Component, Members;
    RepresentativeOfItself(ks, i);
    var groups' := groups[root := [rows[i]]];
    assert root == i;
    assert order + [root] == Heads(ks, i + 1);
    NoMembersBefore(ks, i, i);
    forall r | r in groups' ensures groups'[r] == Gather(rows, Members(ks, r, i + 1)) {
      GatherStep(rows, ks, r, i);
    }
  }

  lemma CollectedAll<T>(rows: seq<T>, keys: T -> seq<Key>, groups: map<nat, seq<T>>, order: seq<nat>)
    requires Collected(rows, KeysOfRows(rows, keys), groups, order, |rows|)
    ensures forall g :: 0 <= g < |order| ==> order[g] in groups
    ensures FamiliesOf(rows, keys) == seq(|order|, g requires 0 <= g < |order| && order[g] in groups => groups[order[g]])
  {
    hide Component, Members, Heads, Gather;
    assert forall g :: 0 <= g < |order| ==> order[g] in order;
  }
}
