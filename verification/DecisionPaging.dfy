/** Keyset paging over routing decisions: one page is a filter, a sort and a
    take; a client walks the pages by handing back the last row's key. */
module DecisionPaging {
  import opened Options
  import opened Sorting

  /** A decision joined with its one request log and its one outcome. */
  datatype Decision = Decision(createdAt: int, id: int, synthetic: bool, classifiedTier: string, tier: string,
    status: Option<string>)

  datatype Key = Key(createdAt: int, id: int)

  datatype Synthetic = Exclude | Only | Include

  /** rest stands for the filters that compare one more column each. */
  datatype Filter = Filter(from: Option<int>, to: Option<int>, before: Option<Key>, synthetic: Synthetic,
    tierChanged: Option<bool>, status: Option<string>, rest: Decision -> bool)

  function KeyOf(d: Decision): Key { Key(d.createdAt, d.id) }

  /** Row comparison (a.created_at, a.id) < (b.created_at, b.id). */
  predicate Before(a: Key, b: Key) {
    a.createdAt < b.createdAt || (a.createdAt == b.createdAt && a.id < b.id)
  }

  predicate Matches(f: Filter, d: Decision) {
    && (match f.synthetic case Exclude => !d.synthetic case Only => d.synthetic case Include => true)
    && (f.from.Some? ==> d.createdAt >= f.from.value)
    && (f.to.Some? ==> d.createdAt < f.to.value)
    && (f.before.Some? ==> Before(KeyOf(d), f.before.value))
    && (f.tierChanged.Some? ==> (f.tierChanged.value <==> d.classifiedTier != d.tier))
    && (match f.status
        case None => true
        case Some(s) => if s == "pending" then d.status.None? else d.status == Some(s))
    && f.rest(d)
  }

  function Matching(f: Filter): Decision -> bool { d => Matches(f, d) }

  function OlderThan(k: Key): Decision -> bool { d => Before(KeyOf(d), k) }

  function Take<T>(s: seq<T>, n: nat): seq<T> { if |s| <= n then s else s[..n] }

  function NewestFirst(): (Decision, Decision) -> bool { (a, b) => !Before(KeyOf(a), KeyOf(b)) }

  /** ORDER BY created_at DESC, id DESC. */
  function Ordered(table: seq<Decision>, f: Filter): seq<Decision> {
    Sort(Keep(table, Matching(f)), NewestFirst())
  }

  function List(table: seq<Decision>, f: Filter, limit: nat): seq<Decision> {
    Take(Ordered(table, f), limit)
  }

  datatype Page = Page(decisions: seq<Decision>, next: Option<Key>)

  /** The endpoint asks for one row more than it shows. */
  function ListPage(table: seq<Decision>, f: Filter, limit: nat): Page
    requires limit >= 1
  {
    var rows := List(table, f, limit + 1);
    if |rows| > limit then Page(rows[..limit], Some(KeyOf(rows[limit - 1]))) else Page(rows, None)
  }

  // ----- filters -----

  lemma {:induction false} KeepAnd<T>(s: seq<T>, p: T -> bool, q: T -> bool, pq: T -> bool)
    requires forall x :: x in s ==> (pq(x) <==> p(x) && q(x))
    ensures Keep(s, pq) == Keep(Keep(s, p), q)
  {
    if s != [] {
      assert s[0] in s && forall x :: x in s[1..] ==> x in s;
      KeepAnd(s[1..], p, q, pq);
      if p(s[0]) {
        assert Keep(s, p)[1..] == Keep(s[1..], p);
      }
    }
  }

  lemma {:induction false} KeepAppend<T>(s: seq<T>, t: seq<T>, p: T -> bool)
    ensures Keep(s + t, p) == Keep(s, p) + Keep(t, p)
  {
    if s == [] {
      assert s + t == t;
    } else {
      KeepAppend(s[1..], t, p);
      assert (s + t)[0] == s[0] && (s + t)[1..] == s[1..] + t;
    }
  }

  lemma {:induction false} KeepNone<T>(s: seq<T>, p: T -> bool)
    requires forall x :: x in s ==> !p(x)
    ensures Keep(s, p) == []
  {
    if s != [] {
      var h := s[0];
      assert h in s && !p(h) && forall x :: x in s[1..] ==> x in s;
      KeepNone(s[1..], p);
    }
  }

  lemma {:induction false} KeepAll<T>(s: seq<T>, p: T -> bool)
    requires forall x :: x in s ==> p(x)
    ensures Keep(s, p) == s
  {
    if s != [] {
      var h := s[0];
      assert h in s && p(h) && forall x :: x in s[1..] ==> x in s;
      KeepAll(s[1..], p);
    }
  }

  lemma {:induction false} KeepDistinct(s: seq<Decision>, p: Decision -> bool)
    requires UniqueIds(s)
    ensures UniqueIds(Keep(s, p))
  {
    if s != [] {
      KeepDistinct(s[1..], p);
      KeepMembers(s[1..], p);
      var t := Keep(s[1..], p);
      forall x | x in t ensures x.id != s[0].id {
        var i :| 0 <= i < |s[1..]| && s[1..][i] == x;
        assert s[i + 1] == x;
      }
    }
  }

  // ----- one page after another -----

  ghost predicate UniqueIds(s: seq<Decision>) {
    forall i, j :: 0 <= i < j < |s| ==> s[i].id != s[j].id
  }

  ghost predicate StrictlyNewestFirst(s: seq<Decision>) {
    forall i, j :: 0 <= i < j < |s| ==> Before(KeyOf(s[j]), KeyOf(s[i]))
  }

  lemma {:induction false} InsertUnique(x: Decision, s: seq<Decision>)
    requires UniqueIds(s) && forall d :: d in s ==> d.id != x.id
    ensures UniqueIds(Insert(x, s, NewestFirst()))
  {
    if s != [] && !NewestFirst()(x, s[0]) {
      InsertUnique(x, s[1..]);
      var t := Insert(x, s[1..], NewestFirst());
      forall j | 0 <= j < |t| ensures t[j].id != s[0].id {
        assert t[j] in multiset(t);
        if t[j] != x { assert t[j] in multiset(s[1..]) && t[j] in s[1..]; }
      }
    }
  }

  lemma {:induction false} SortUnique(s: seq<Decision>)
    requires UniqueIds(s)
    ensures UniqueIds(Sort(s, NewestFirst()))
  {
    if s != [] {
      SortUnique(s[1..]);
      var t := Sort(s[1..], NewestFirst());
      forall d | d in t ensures d.id != s[0].id {
        assert d in multiset(t) && d in multiset(s[1..]) && d in s[1..];
      }
      InsertUnique(s[0], t);
    }
  }

  lemma NewestFirstIsPreorder()
    ensures TotalPreorder(NewestFirst())
  {
  }

  /** Every page source is in strict order, and holds each matching row once. */
  lemma OrderedIsStrict(table: seq<Decision>, f: Filter)
    requires UniqueIds(table)
    ensures StrictlyNewestFirst(Ordered(table, f))
    ensures multiset(Ordered(table, f)) == multiset(Keep(table, Matching(f)))
  {
    NewestFirstIsPreorder();
    var rows := Keep(table, Matching(f));
    KeepDistinct(table, Matching(f));
    SortSorts(rows, NewestFirst());
    SortUnique(rows);
    var s := Ordered(table, f);
    forall i, j | 0 <= i < j < |s| ensures Before(KeyOf(s[j]), KeyOf(s[i])) {
      assert NewestFirst()(s[i], s[j]);
    }
  }

  lemma StrictOrder(table: seq<Decision>, f: Filter, i: nat, j: nat)
    requires UniqueIds(table) && i < j < |Ordered(table, f)|
    ensures Before(KeyOf(Ordered(table, f)[j]), KeyOf(Ordered(table, f)[i]))
  {
    OrderedIsStrict(table, f);
  }

  lemma KeepOlder(s: seq<Decision>, n: nat)
    requires StrictlyNewestFirst(s) && 0 < n <= |s|
    ensures Keep(s, OlderThan(KeyOf(s[n - 1]))) == s[n..]
  {
    hide Keep, StrictlyNewestFirst;
    var p := OlderThan(KeyOf(s[n - 1]));
    assert s == s[..n] + s[n..];
    KeepAppend(s[..n], s[n..], p);
    NoneOlder(s, n);
    AllOlder(s, n);
    KeepNone(s[..n], p);
    KeepAll(s[n..], p);
  }

  lemma NoneOlder(s: seq<Decision>, n: nat)
    requires StrictlyNewestFirst(s) && 0 < n <= |s|
    ensures forall d :: d in s[..n] ==> !OlderThan(KeyOf(s[n - 1]))(d)
  {
    forall d | d in s[..n] ensures !Before(KeyOf(d), KeyOf(s[n - 1])) {
      var i :| 0 <= i < n && s[i] == d;
    }
  }

  lemma AllOlder(s: seq<Decision>, n: nat)
    requires StrictlyNewestFirst(s) && 0 < n <= |s|
    ensures forall d :: d in s[n..] ==> OlderThan(KeyOf(s[n - 1]))(d)
  {
    forall d | d in s[n..] ensures Before(KeyOf(d), KeyOf(s[n - 1])) {
      var i :| n <= i < |s| && s[i] == d;
    }
  }

  /** Key k is no newer than the cursor of f, if it has one. */
  predicate Within(f: Filter, k: Key) {
    f.before.Some? ==> k == f.before.value || Before(k, f.before.value)
  }

  lemma OrderedBelow(table: seq<Decision>, f: Filter, k: Key)
    requires Within(f, k)
    ensures Keep(table, Matching(f.(before := Some(k)))) == Keep(Keep(table, Matching(f)), OlderThan(k))
    ensures Ordered(table, f.(before := Some(k))) == Keep(Ordered(table, f), OlderThan(k))
  {
    NewestFirstIsPreorder();
    KeepAnd(table, Matching(f), OlderThan(k), Matching(f.(before := Some(k))));
    KeepSort(Keep(table, Matching(f)), NewestFirst(), OlderThan(k));
  }

  lemma OrderedMatches(table: seq<Decision>, f: Filter, d: Decision)
    requires UniqueIds(table) && d in Ordered(table, f)
    ensures Matches(f, d) && Within(f, KeyOf(d))
  {
    hide Keep, Sort;
    OrderedIsStrict(table, f);
    KeepMembers(table, Matching(f));
    assert d in multiset(Ordered(table, f)) && d in multiset(Keep(table, Matching(f)));
    assert Matching(f)(d);
  }

  /** On any page, after n rows the cursor of the n-th leaves exactly the others. */
  lemma CursorSplits(table: seq<Decision>, f: Filter, n: nat)
    requires UniqueIds(table) && 0 < n <= |Ordered(table, f)|
    ensures var s := Ordered(table, f);
      Ordered(table, f.(before := Some(KeyOf(s[n - 1])))) == s[n..]
  {
    hide Keep, Sort, Matches, Ordered;
    var s := Ordered(table, f);
    OrderedIsStrict(table, f);
    OrderedMatches(table, f, s[n - 1]);
    OrderedBelow(table, f, KeyOf(s[n - 1]));
    KeepOlder(s, n);
  }

  // ----- what each filter does to the rows shown -----

  lemma OrderedMembers(table: seq<Decision>, f: Filter, d: Decision)
    ensures d in Ordered(table, f) <==> d in table && Matches(f, d)
  {
    hide Keep, Sort, Matches;
    KeepMembers(table, Matching(f));
    var s, k := Ordered(table, f), Keep(table, Matching(f));
    assert d in s <==> d in multiset(s);
    assert d in k <==> d in multiset(k);
  }

  /** Every row on a page is one of the table and meets each filter that is set. */
  lemma ShownRowsMeetFilters(table: seq<Decision>, f: Filter, limit: nat, d: Decision)
    requires limit >= 1 && d in ListPage(table, f, limit).decisions
    ensures d in table
    ensures f.synthetic.Exclude? ==> !d.synthetic
    ensures f.synthetic.Only? ==> d.synthetic
    ensures f.from.Some? ==> d.createdAt >= f.from.value
    ensures f.to.Some? ==> d.createdAt < f.to.value
    ensures f.before.Some? ==> Before(KeyOf(d), f.before.value)
    ensures f.tierChanged == Some(true) ==> d.tier != d.classifiedTier
    ensures f.tierChanged == Some(false) ==> d.tier == d.classifiedTier
    ensures f.status == Some("pending") ==> d.status.None?
    ensures f.status.Some? && f.status != Some("pending") ==> d.status == f.status
    ensures f.rest(d)
  {
    hide Ordered;
    assert d in Ordered(table, f);
    OrderedMembers(table, f, d);
  }

  /** A row that meets them all is not left out. */
  lemma NothingElseFiltered(table: seq<Decision>, f: Filter, d: Decision)
    requires d in table && f.rest(d)
    requires f.synthetic.Include? || f.synthetic.Exclude? == !d.synthetic
    requires (f.from.Some? ==> f.from.value <= d.createdAt) && (f.to.Some? ==> d.createdAt < f.to.value)
    requires f.before.Some? ==> Before(KeyOf(d), f.before.value)
    requires f.tierChanged.Some? ==> f.tierChanged.value == (d.tier != d.classifiedTier)
    requires f.status.None? || f.status == d.status || (f.status == Some("pending") && d.status.None?)
    requires f.status == Some("pending") ==> d.status.None?
    ensures d in Ordered(table, f)
  {
    hide Ordered;
    OrderedMembers(table, f, d);
  }

  lemma {:induction false} KeepSplits(s: seq<Decision>, p: Decision -> bool, q: Decision -> bool, r: Decision -> bool)
    requires forall x :: p(x) <==> q(x) || r(x)
    requires forall x :: !(q(x) && r(x))
    ensures multiset(Keep(s, p)) == multiset(Keep(s, q)) + multiset(Keep(s, r))
  {
    if s != [] {
      KeepSplits(s[1..], p, q, r);
      assert p(s[0]) == (q(s[0]) || r(s[0])) && !(q(s[0]) && r(s[0]));
    }
  }

  lemma OrderedSplits(table: seq<Decision>, f: Filter, g: Filter, h: Filter)
    requires forall x :: Matches(f, x) <==> Matches(g, x) || Matches(h, x)
    requires forall x :: !(Matches(g, x) && Matches(h, x))
    ensures multiset(Ordered(table, f)) == multiset(Ordered(table, g)) + multiset(Ordered(table, h))
  {
    hide Keep, Matches;
    KeepSplits(table, Matching(f), Matching(g), Matching(h));
  }

  /** Excluding and asking only for synthetic rows divide the rows between them, and so
      do the two answers to whether the tier was changed. */
  lemma FiltersDivide(table: seq<Decision>, f: Filter)
    ensures multiset(Ordered(table, f.(synthetic := Include)))
         == multiset(Ordered(table, f.(synthetic := Exclude))) + multiset(Ordered(table, f.(synthetic := Only)))
    ensures multiset(Ordered(table, f.(tierChanged := None)))
         == multiset(Ordered(table, f.(tierChanged := Some(true)))) + multiset(Ordered(table, f.(tierChanged := Some(false))))
  {
    hide Ordered;
    OrderedSplits(table, f.(synthetic := Include), f.(synthetic := Exclude), f.(synthetic := Only));
    OrderedSplits(table, f.(tierChanged := None), f.(tierChanged := Some(true)), f.(tierChanged := Some(false)));
  }

  lemma {:induction false} StrictIsUnique(s: seq<Decision>, t: seq<Decision>)
    requires StrictlyNewestFirst(s) && StrictlyNewestFirst(t) && multiset(s) == multiset(t)
    ensures s == t
  {
    assert |s| == |multiset(s)| == |multiset(t)| == |t|;
    if s != [] {
      StrictHead(s, t);
      SameTail(s, t);
      StrictTail(s);
      StrictTail(t);
      StrictIsUnique(s[1..], t[1..]);
    }
  }

  lemma StrictTail(s: seq<Decision>)
    requires StrictlyNewestFirst(s) && s != []
    ensures StrictlyNewestFirst(s[1..])
  {
    var t := s[1..];
    forall i, j | 0 <= i < j < |t| ensures Before(KeyOf(t[j]), KeyOf(t[i])) {
      assert Before(KeyOf(s[j + 1]), KeyOf(s[i + 1]));
    }
  }

  lemma StrictHead(s: seq<Decision>, t: seq<Decision>)
    requires StrictlyNewestFirst(s) && StrictlyNewestFirst(t) && multiset(s) == multiset(t) && s != [] && t != []
    ensures s[0] == t[0]
  {
    assert s[0] in multiset(t) && t[0] in multiset(s);
    var i :| 0 <= i < |t| && t[i] == s[0];
    var j :| 0 <= j < |s| && s[j] == t[0];
    if i > 0 { assert Before(KeyOf(t[i]), KeyOf(t[0])); }
    if j > 0 { assert Before(KeyOf(s[j]), KeyOf(s[0])); }
  }

  /** Two adjacent spans of time show, one after the other, what the whole span shows:
      the start belongs to a span, the end does not. */
  lemma SpansJoin(table: seq<Decision>, f: Filter, mid: int)
    requires UniqueIds(table)
    requires (f.from.Some? ==> f.from.value <= mid) && (f.to.Some? ==> mid <= f.to.value)
    ensures Ordered(table, f) == Ordered(table, f.(from := Some(mid))) + Ordered(table, f.(to := Some(mid)))
  {
    hide Keep, Sort, Ordered;
    var late, early := f.(from := Some(mid)), f.(to := Some(mid));
    var a, b := Ordered(table, late), Ordered(table, early);
    OrderedSplits(table, f, late, early);
    OrderedIsStrict(table, f);
    OrderedIsStrict(table, late);
    OrderedIsStrict(table, early);
    forall i, j | 0 <= i < j < |a + b| ensures Before(KeyOf((a + b)[j]), KeyOf((a + b)[i])) {
      if i < |a| <= j {
        OrderedMembers(table, late, a[i]);
        OrderedMembers(table, early, b[j - |a|]);
      }
    }
    StrictIsUnique(Ordered(table, f), a + b);
  }

  // ----- whole walks, with rows arriving between the pages -----

  function Last(page: seq<Decision>): Key
    requires page != []
  {
    KeyOf(page[|page| - 1])
  }

  /** The table grew by rows that are not older than the cursor. */
  ghost predicate GrewNewer(t: seq<Decision>, u: seq<Decision>, cursor: Key) {
    |t| <= |u| && u[..|t|] == t && forall d :: d in u[|t|..] ==> !Before(KeyOf(d), cursor)
  }

  ghost predicate NextPage(t: seq<Decision>, u: seq<Decision>, f: Filter, limit: nat,
      page: seq<Decision>, next: seq<Decision>) {
    && page != []
    && GrewNewer(t, u, Last(page))
    && next == List(u, f.(before := Some(Last(page))), limit)
  }

  /** pages[i] was read from tables[i]. */
  ghost predicate IsWalk(tables: seq<seq<Decision>>, pages: seq<seq<Decision>>, f: Filter, limit: nat) {
    && |tables| == |pages| > 0
    && pages[0] == List(tables[0], f, limit)
    && forall i :: 0 < i < |pages| ==> NextPage(tables[i - 1], tables[i], f, limit, pages[i - 1], pages[i])
  }

  function Flatten<T>(pages: seq<seq<T>>): seq<T> {
    if pages == [] then [] else Flatten(pages[..|pages| - 1]) + pages[|pages| - 1]
  }

  /** The rows older than the cursor are those of the table the walk began with. */
  ghost predicate SameBelow(t: seq<Decision>, u: seq<Decision>, f: Filter, k: Key) {
    Keep(t, Matching(f.(before := Some(k)))) == Keep(u, Matching(f.(before := Some(k))))
  }

  lemma ArrivalsDoNotShow(t: seq<Decision>, u: seq<Decision>, f: Filter, k: Key)
    requires GrewNewer(t, u, k)
    ensures SameBelow(t, u, f, k)
  {
    var p := Matching(f.(before := Some(k)));
    assert u == t + u[|t|..];
    KeepAppend(t, u[|t|..], p);
    KeepNone(u[|t|..], p);
  }

  lemma SameBelowOlder(t: seq<Decision>, u: seq<Decision>, f: Filter, k: Key, older: Key)
    requires SameBelow(t, u, f, k) && (older == k || Before(older, k))
    ensures SameBelow(t, u, f, older)
  {
    var p, q := Matching(f.(before := Some(k))), Matching(f.(before := Some(older)));
    KeepAnd(t, p, OlderThan(older), q);
    KeepAnd(u, p, OlderThan(older), q);
  }

  /** What is left of the rows the walk began with, after m of them. */
  lemma RowsBelow(start: seq<Decision>, t: seq<Decision>, u: seq<Decision>, f: Filter, m: nat)
    requires UniqueIds(start) && 0 < m <= |Ordered(start, f)|
    requires var k := KeyOf(Ordered(start, f)[m - 1]);
      SameBelow(start, t, f, k) && GrewNewer(t, u, k)
    ensures var k := KeyOf(Ordered(start, f)[m - 1]);
      SameBelow(start, u, f, k) && Ordered(u, f.(before := Some(k))) == Ordered(start, f)[m..]
  {
    hide Keep, Sort, Matches, Matching;
    var k := KeyOf(Ordered(start, f)[m - 1]);
    ArrivalsDoNotShow(t, u, f, k);
    CursorSplits(start, f, m);
  }

  /** How far a walk has come: a prefix of the ordered rows it began with, in
      full pages as long as there is more. */
  ghost predicate Progress(start: seq<Decision>, now: seq<Decision>, last: seq<Decision>, seen: seq<Decision>, f: Filter, limit: nat) {
    var s := Ordered(start, f);
    && |seen| <= |s| && seen == s[..|seen|]
    && (|last| < limit ==> |seen| == |s|)
    && |last| <= limit && |last| <= |seen|
    && (last != [] ==> Last(last) == KeyOf(s[|seen| - 1]) && SameBelow(start, now, f, Last(last)))
  }

  lemma FirstPage(table: seq<Decision>, f: Filter, limit: nat)
    requires limit >= 1
    ensures Progress(table, table, List(table, f, limit), List(table, f, limit), f, limit)
  {
  }

  lemma FollowingPage(start: seq<Decision>, t: seq<Decision>, u: seq<Decision>, f: Filter, limit: nat,
      page: seq<Decision>, next: seq<Decision>, seen: seq<Decision>)
    requires limit >= 1 && UniqueIds(start)
    requires Progress(start, t, page, seen, f, limit) && NextPage(t, u, f, limit, page, next)
    ensures Progress(start, u, next, seen + next, f, limit)
  {
    hide Keep, Sort, Matches, Matching, StrictlyNewestFirst;
    var s, k, m := Ordered(start, f), Last(page), |seen|;
    RowsBelow(start, t, u, f, m);
    assert seen + next == s[..m + |next|];
    if next != [] {
      StrictOrder(start, f, m - 1, m + |next| - 1);
      SameBelowOlder(start, u, f, k, Last(next));
    }
  }

  lemma {:induction false} WalkProgress(tables: seq<seq<Decision>>, pages: seq<seq<Decision>>, f: Filter, limit: nat)
    requires limit >= 1 && IsWalk(tables, pages, f, limit) && UniqueIds(tables[0])
    ensures Progress(tables[0], tables[|pages| - 1], pages[|pages| - 1], Flatten(pages), f, limit)
    ensures |pages| <= |Flatten(pages)| + 1
    ensures pages[|pages| - 1] != [] ==> |pages| <= |Flatten(pages)|
  {
    hide Progress, NextPage, List;
    var n := |pages| - 1;
    if n == 0 {
      assert pages[..0] == [] && [] + pages[0] == pages[0];
      FirstPage(tables[0], f, limit);
      assert Flatten(pages) == pages[0];
    } else {
      var ts, ps := tables[..n], pages[..n];
      assert forall i :: 0 < i < n ==> NextPage(ts[i - 1], ts[i], f, limit, ps[i - 1], ps[i]) by {
        assert forall i :: 0 < i < n ==> NextPage(tables[i - 1], tables[i], f, limit, pages[i - 1], pages[i]);
      }
      WalkProgress(ts, ps, f, limit);
      assert NextPage(tables[n - 1], tables[n], f, limit, pages[n - 1], pages[n]);
      PageNotEmpty(tables[n - 1], tables[n], f, limit, pages[n - 1], pages[n]);
      FollowingPage(tables[0], tables[n - 1], tables[n], f, limit, pages[n - 1], pages[n], Flatten(ps));
    }
  }

  lemma PageNotEmpty(t: seq<Decision>, u: seq<Decision>, f: Filter, limit: nat, page: seq<Decision>, next: seq<Decision>)
    requires NextPage(t, u, f, limit, page, next)
    ensures page != []
  {
  }

  /** A walk shows a prefix of the rows that matched when it began, newest
      first, whatever newer rows arrive meanwhile. A page that is not full is
      the last one, and then every matching row was shown exactly once. There
      is no walk longer than the number of matching rows plus one. */
  lemma WalkIsExact(tables: seq<seq<Decision>>, pages: seq<seq<Decision>>, f: Filter, limit: nat)
    requires limit >= 1 && IsWalk(tables, pages, f, limit) && UniqueIds(tables[0])
    ensures var s := Ordered(tables[0], f);
      && StrictlyNewestFirst(s)
      && |Flatten(pages)| <= |s| && Flatten(pages) == s[..|Flatten(pages)|]
      && |pages| <= |s| + 1
      && (|pages[|pages| - 1]| < limit ==>
            && Flatten(pages) == s
            && multiset(Flatten(pages)) == multiset(Keep(tables[0], Matching(f))))
  {
    WalkProgress(tables, pages, f, limit);
    OrderedIsStrict(tables[0], f);
  }

  // ----- the endpoint, which tells whether there is another page -----

  /** On any page the endpoint offers a next cursor exactly when rows remain beyond
      it; it is that of the last row shown, and asking with it gives just these. */
  lemma NextCursorIffMore(table: seq<Decision>, f: Filter, limit: nat)
    requires limit >= 1 && UniqueIds(table)
    ensures var p, s := ListPage(table, f, limit), Ordered(table, f);
      && p.decisions == List(table, f, limit)
      && (p.next.Some? <==> |s| > limit)
      && (p.next.Some? ==>
            && p.decisions != [] && p.next == Some(Last(p.decisions))
            && Ordered(table, f.(before := p.next)) == s[limit..])
  {
    var s := Ordered(table, f);
    if |s| > limit {
      assert s[..limit + 1][..limit] == s[..limit];
      CursorSplits(table, f, limit);
    }
  }

  /** The client hands the cursor back, unchanged, to a table that may have grown. */
  ghost predicate Follows(t: seq<Decision>, u: seq<Decision>, f: Filter, limit: nat, page: Page, next: Page)
    requires limit >= 1
  {
    page.next.Some? && GrewNewer(t, u, page.next.value) && next == ListPage(u, f.(before := page.next), limit)
  }

  /** A client that keeps asking while a cursor is offered. */
  ghost predicate IsClientWalk(tables: seq<seq<Decision>>, pages: seq<Page>, f: Filter, limit: nat)
    requires limit >= 1
  {
    && |tables| == |pages| > 0
    && pages[0] == ListPage(tables[0], f, limit)
    && forall i :: 0 < i < |pages| ==> Follows(tables[i - 1], tables[i], f, limit, pages[i - 1], pages[i])
  }

  function Shown(pages: seq<Page>): seq<Decision> {
    if pages == [] then [] else Shown(pages[..|pages| - 1]) + pages[|pages| - 1].decisions
  }

  /** After n pages, the last of them p: full pages as long as a cursor is offered,
      which is as long as rows remain. */
  ghost predicate ClientProgress(start: seq<Decision>, now: seq<Decision>, p: Page, seen: seq<Decision>, n: nat, f: Filter, limit: nat) {
    var s := Ordered(start, f);
    && |seen| <= |s| && seen == s[..|seen|]
    && (p.next.Some? <==> |seen| < |s|)
    && (p.next.Some? ==> |seen| == n * limit > 0 && p.next == Some(KeyOf(s[|seen| - 1])) && SameBelow(start, now, f, p.next.value))
    && (n > 1 ==> (n - 1) * limit < |seen|) && |seen| <= n * limit
  }

  /** A page cut from what is left after m rows. */
  lemma PageCut(u: seq<Decision>, f: Filter, limit: nat, s: seq<Decision>, m: nat)
    requires limit >= 1 && m <= |s| && Ordered(u, f) == s[m..]
    ensures var p := ListPage(u, f, limit);
      && |p.decisions| == (if |s| - m > limit then limit else |s| - m)
      && s[..m] + p.decisions == s[..m + |p.decisions|]
      && p.next == (if |s| - m > limit then Some(KeyOf(s[m + limit - 1])) else None)
  {
    hide Ordered;
    if |s| - m > limit { assert s[m..][..limit + 1][..limit] == s[m..][..limit]; }
  }

  lemma ClientStarts(table: seq<Decision>, f: Filter, limit: nat)
    requires limit >= 1
    ensures var p := ListPage(table, f, limit); ClientProgress(table, table, p, p.decisions, 1, f, limit)
  {
    hide Ordered, ListPage;
    var s := Ordered(table, f);
    assert s[0..] == s && s[..0] == [];
    PageCut(table, f, limit, s, 0);
  }

  lemma ClientFollows(start: seq<Decision>, t: seq<Decision>, u: seq<Decision>, f: Filter, limit: nat, page: Page, next: Page,
                      seen: seq<Decision>, n: nat)
    requires limit >= 1 && UniqueIds(start) && ClientProgress(start, t, page, seen, n, f, limit)
    requires Follows(t, u, f, limit, page, next)
    ensures ClientProgress(start, u, next, seen + next.decisions, n + 1, f, limit)
  {
    hide Ordered, ListPage, SameBelow, GrewNewer;
    var s, m := Ordered(start, f), |seen|;
    RowsBelow(start, t, u, f, m);
    PageCut(u, f.(before := page.next), limit, s, m);
    assert (n + 1) * limit == n * limit + limit;
    if next.next.Some? {
      StrictOrder(start, f, m - 1, m + limit - 1);
      SameBelowOlder(start, u, f, KeyOf(s[m - 1]), next.next.value);
    }
  }

  lemma {:induction false} ClientWalks(tables: seq<seq<Decision>>, pages: seq<Page>, f: Filter, limit: nat)
    requires limit >= 1 && IsClientWalk(tables, pages, f, limit) && UniqueIds(tables[0])
    ensures ClientProgress(tables[0], tables[|pages| - 1], pages[|pages| - 1], Shown(pages), |pages|, f, limit)
  {
    hide ClientProgress, Follows, ListPage;
    var n := |pages| - 1;
    if n == 0 {
      ClientStarts(tables[0], f, limit);
      assert Shown(pages) == pages[0].decisions by { assert pages[..0] == [] && [] + pages[0].decisions == pages[0].decisions; }
    } else {
      var ts, ps := tables[..n], pages[..n];
      assert forall i :: 0 < i < n ==> Follows(ts[i - 1], ts[i], f, limit, ps[i - 1], ps[i]) by {
        assert forall i :: 0 < i < n ==> Follows(tables[i - 1], tables[i], f, limit, pages[i - 1], pages[i]);
      }
      ClientWalks(ts, ps, f, limit);
      ClientFollows(tables[0], tables[n - 1], tables[n], f, limit, pages[n - 1], pages[n], Shown(ps), n);
    }
  }

  /** From any cursor on and with newer rows arriving between the requests, a client
      that follows the cursors sees the rows that matched at the start, each once,
      newest first. It has seen them all exactly when no cursor is offered, and
      until then every page is full: it stops after as many pages as they fill. */
  lemma ClientWalkIsExact(tables: seq<seq<Decision>>, pages: seq<Page>, f: Filter, limit: nat)
    requires limit >= 1 && IsClientWalk(tables, pages, f, limit) && UniqueIds(tables[0])
    ensures var s, seen, last := Ordered(tables[0], f), Shown(pages), pages[|pages| - 1];
      && StrictlyNewestFirst(s) && multiset(s) == multiset(Keep(tables[0], Matching(f)))
      && |seen| <= |s| && seen == s[..|seen|]
      && (last.next.None? <==> seen == s)
      && (last.next.Some? ==> |seen| == |pages| * limit)
      && (|pages| == 1 || (|pages| - 1) * limit < |s|)
      && (last.next.None? ==> |s| <= |pages| * limit)
  {
    ClientWalks(tables, pages, f, limit);
    OrderedIsStrict(tables[0], f);
  }
}
