/** Histories of runs: from a table with one open row per family, the versions
    of each model id tile time, so the point-in-time lookup never has to choose. */
module PriceHistory {
  import opened Options
  import opened Sorting
  import opened FamilyKeys
  import opened UnionFind
  import opened PriceBook
  import opened PriceWriter
  import opened PricePlanFacts
  import opened PriceSafety

  // ----- the read side -----

  predicate Covers(r: PriceRow, m: Label, t: int) {
    r.modelId == m && r.from <= t && (r.until.None? || r.until.value > t)
  }

  function Candidates(rows: seq<PriceRow>, m: Label, t: int): seq<PriceRow> {
    if rows == [] then [] else
      var last := rows[|rows| - 1];
      Candidates(rows[..|rows| - 1], m, t) + (if last.enabled && Covers(last, m, t) then [last] else [])
  }

  predicate LaterStart(a: PriceRow, b: PriceRow) { a.from >= b.from }

  /** The newest enabled row of m in force at t. */
  function GetByModelId(rows: seq<PriceRow>, m: Label, t: int): Option<PriceRow> {
    var s := Sort(Candidates(rows, m, t), LaterStart);
    if s == [] then None else Some(s[0])
  }

  // ----- tiling -----

  ghost predicate Started(rows: seq<PriceRow>, m: Label, t: int) {
    exists i :: 0 <= i < |rows| && rows[i].modelId == m && rows[i].from <= t
  }

  /** Exactly one row of m is in force at t. */
  ghost predicate CoveredOnce(rows: seq<PriceRow>, m: Label, t: int) {
    exists i :: 0 <= i < |rows| && Covers(rows[i], m, t) && forall j :: 0 <= j < |rows| && Covers(rows[j], m, t) ==> j == i
  }

  /** From a model id's first row on, exactly one row is in force at every instant. */
  ghost predicate Tiled(rows: seq<PriceRow>) {
    forall m, t :: Started(rows, m, t) ==> CoveredOnce(rows, m, t)
  }

  /** Nothing in the table is dated after t. */
  ghost predicate Before(rows: seq<PriceRow>, t: int) {
    forall i :: 0 <= i < |rows| ==> rows[i].from <= t && (rows[i].until.Some? ==> rows[i].until.value <= t)
  }

  ghost predicate Monotone(clock: nat -> int) {
    forall i: nat, j: nat :: i <= j ==> clock(i) <= clock(j)
  }

  lemma {:induction false} CandidatesAre(rows: seq<PriceRow>, m: Label, t: int)
    ensures forall r :: r in Candidates(rows, m, t) <==> r in rows && r.enabled && Covers(r, m, t)
  {
    if rows != [] {
      var n := |rows| - 1;
      assert rows == rows[..n] + [rows[n]];
      CandidatesAre(rows[..n], m, t);
    }
  }

  ghost predicate AllEnabled(rows: seq<PriceRow>) {
    forall r :: r in rows ==> r.enabled
  }

  /** Row r may answer for m at t: enabled, begun, and not ended. */
  predicate MayAnswer(r: PriceRow, m: Label, t: int) {
    r.enabled && r.modelId == m && r.from <= t && (r.until == None || t < r.until.value)
  }

  /** In any table the lookup answers with a row that may answer and begins last among
      those, and finds nothing only when there is none. */
  lemma LookupIsNewest(rows: seq<PriceRow>, m: Label, t: int)
    ensures var found := GetByModelId(rows, m, t);
      && (found.None? <==> forall r :: r in rows ==> !MayAnswer(r, m, t))
      && (found.Some? ==>
            && found.value in rows && MayAnswer(found.value, m, t)
            && forall r :: r in rows && MayAnswer(r, m, t) ==> r.from <= found.value.from)
  {
    hide Sort, Candidates;
    CandidatesAre(rows, m, t);
    var c := Candidates(rows, m, t);
    var s := Sort(c, LaterStart);
    assert TotalPreorder(LaterStart);
    SortSorts(c, LaterStart);
    assert forall r :: r in c <==> r in multiset(c);
    assert forall r :: r in s <==> r in multiset(s);
    forall r | r in rows ensures MayAnswer(r, m, t) <==> r in s { assert r in c <==> r in s; }
    if s != [] {
      assert s[0] in s && s[0] in c;
      forall r | r in rows && MayAnswer(r, m, t) ensures r.from <= s[0].from {
        var i :| 0 <= i < |s| && s[i] == r;
        if i > 0 { assert LaterStart(s[0], s[i]); }
      }
    }
  }

  /** In a tiled table the lookup finds the one row in force; no other row
      competes, so its newest-first order decides nothing. */
  lemma LookupIsDetermined(rows: seq<PriceRow>, m: Label, t: int)
    requires Tiled(rows) && AllEnabled(rows)
    ensures Started(rows, m, t) <==> GetByModelId(rows, m, t).Some?
    ensures Started(rows, m, t) ==>
      forall r :: r in rows && Covers(r, m, t) <==> r == GetByModelId(rows, m, t).value
  {
    hide Sort, Candidates;
    CandidatesAre(rows, m, t);
    var c := Candidates(rows, m, t);
    var s := Sort(c, LaterStart);
    assert forall r :: r in c <==> r in multiset(c);
    assert forall r :: r in s <==> r in multiset(s);
    assert s != [] ==> s[0] in s;
    forall r | r in c ensures Started(rows, m, t) {
      var i :| 0 <= i < |rows| && rows[i] == r;
    }
    if Started(rows, m, t) {
      assert CoveredOnce(rows, m, t);
      var i :| 0 <= i < |rows| && Covers(rows[i], m, t) && forall j :: 0 <= j < |rows| && Covers(rows[j], m, t) ==> j == i;
      assert rows[i] in c && rows[i] in s;
      assert s[0] in c;
    }
  }

  /** In a tiled table every model id that occurs has an open row. */
  lemma TiledHasOpen(rows: seq<PriceRow>, r: PriceRow, t: int)
    requires Tiled(rows) && Before(rows, t) && r in rows
    ensures exists o :: o in rows && Open(o) && o.modelId == r.modelId
  {
    var i :| 0 <= i < |rows| && rows[i] == r;
    assert Started(rows, r.modelId, t);
    assert CoveredOnce(rows, r.modelId, t);
    var k :| 0 <= k < |rows| && Covers(rows[k], r.modelId, t);
    assert rows[k] in rows && Open(rows[k]);
  }

  // ----- one statement -----

  /** The statements a run issues when families have one open row each. */
  ghost predicate Admissible(rows: seq<PriceRow>, w: Write) {
    match w
    case Close(ids) => ids == []
    case Insert(s) => forall r :: r in rows ==> r.modelId != s.modelId
    case Version(c, _) => c in rows && Open(c)
  }

  lemma ApplyBefore(b: Book, w: Write, t: int)
    requires Before(b.rows, t)
    ensures Before(Apply(b, w, t).rows, t)
  {
  }

  lemma WriteKeepsTiling(b: Book, w: Write, t: int)
    requires ValidBook(b) && Tiled(b.rows) && Before(b.rows, t) && Admissible(b.rows, w)
    ensures Tiled(Apply(b, w, t).rows)
  {
    hide Before, Tiled;
    var r := Apply(b, w, t).rows;
    forall m, u | Started(r, m, u) ensures CoveredOnce(r, m, u) {
      match w
      case Close(ids) =>
        assert r == b.rows;
        TiledAt(b.rows, m, u);
      case Insert(s) => InsertTiles(b, s, t, m, u);
      case Version(c, s) => VersionTiles(b, c, s, t, m, u);
    }
    assert Tiled(r) by { TiledFrom(r); }
  }

  lemma TiledAt(rows: seq<PriceRow>, m: Label, t: int)
    requires Tiled(rows) && Started(rows, m, t)
    ensures CoveredOnce(rows, m, t)
  {
  }

  lemma TiledFrom(rows: seq<PriceRow>)
    requires forall m, u :: Started(rows, m, u) ==> CoveredOnce(rows, m, u)
    ensures Tiled(rows)
  {
  }

  lemma InsertTiles(b: Book, s: Scraped, t: int, m: Label, u: int)
    requires Tiled(b.rows) && Before(b.rows, t) && Admissible(b.rows, Insert(s))
    requires Started(Apply(b, Insert(s), t).rows, m, u)
    ensures CoveredOnce(Apply(b, Insert(s), t).rows, m, u)
  {
    hide Tiled, Before, Covers, CoveredOnce, Started;
    var r := Apply(b, Insert(s), t).rows;
    var x := NewRow(Insert(s), b.nextId, t);
    assert r == b.rows + [x] by { NoneClosed(b.rows, t); }
    if m == s.modelId {
      NewIdCovers(b.rows, x, m, u);
    } else {
      StartedBefore(b.rows, x, m, u);
      TiledAt(b.rows, m, u);
      OtherIdCovers(b.rows, x, m, u);
    }
  }

  lemma NoneClosed(rows: seq<PriceRow>, t: int)
    ensures CloseRows(rows, [], t) == rows
  {
  }

  lemma StartedBefore(rows: seq<PriceRow>, x: PriceRow, m: Label, u: int)
    requires Started(rows + [x], m, u) && x.modelId != m
    ensures Started(rows, m, u)
  {
    var i :| 0 <= i < |rows + [x]| && (rows + [x])[i].modelId == m && (rows + [x])[i].from <= u;
    assert i < |rows| && (rows + [x])[i] == rows[i];
  }

  /** The new id's only row covers every instant from its start. */
  lemma NewIdCovers(rows: seq<PriceRow>, x: PriceRow, m: Label, u: int)
    requires (forall r :: r in rows ==> r.modelId != m) && x.modelId == m && Open(x)
    requires Started(rows + [x], m, u)
    ensures CoveredOnce(rows + [x], m, u)
  {
    hide CoveredOnce;
    var r, n := rows + [x], |rows|;
    forall i | 0 <= i < n ensures r[i].modelId != m { assert r[i] == rows[i] && rows[i] in rows; }
    CoveredBy(r, n, m, u);
  }

  lemma OtherIdCovers(rows: seq<PriceRow>, x: PriceRow, m: Label, u: int)
    requires CoveredOnce(rows, m, u) && x.modelId != m
    ensures CoveredOnce(rows + [x], m, u)
  {
    var r, n := rows + [x], |rows|;
    var i :| 0 <= i < n && Covers(rows[i], m, u) && forall j :: 0 <= j < n && Covers(rows[j], m, u) ==> j == i;
    hide CoveredOnce;
    forall j | 0 <= j < n ensures r[j] == rows[j] {}
    CoveredBy(r, i, m, u);
  }

  lemma CoveredBy(rows: seq<PriceRow>, i: nat, m: Label, u: int)
    requires i < |rows| && Covers(rows[i], m, u)
    requires forall j :: 0 <= j < |rows| && Covers(rows[j], m, u) ==> j == i
    ensures CoveredOnce(rows, m, u)
  {
  }

  /** r is rows with the open row `at` closed at t and a new open row of the
      same model id from t on. */
  ghost predicate VersionedAt(rows: seq<PriceRow>, r: seq<PriceRow>, at: nat, t: int) {
    && at < |rows| && |r| == |rows| + 1
    && (forall i :: 0 <= i < |rows| && i != at ==> r[i] == rows[i])
    && r[at] == rows[at].(until := Some(t)) && Open(rows[at]) && rows[at].from <= t
    && r[|rows|].modelId == rows[at].modelId && r[|rows|].from == t && Open(r[|rows|])
  }

  lemma VersionTiles(b: Book, c: PriceRow, s: Scraped, t: int, m: Label, u: int)
    requires ValidBook(b) && Tiled(b.rows) && Before(b.rows, t) && Admissible(b.rows, Version(c, s))
    requires Started(Apply(b, Version(c, s), t).rows, m, u)
    ensures CoveredOnce(Apply(b, Version(c, s), t).rows, m, u)
  {
    hide Tiled;
    var n, r := |b.rows|, Apply(b, Version(c, s), t).rows;
    var at :| 0 <= at < n && b.rows[at] == c;
    assert VersionedAt(b.rows, r, at, t);
    assert Started(b.rows, m, u) by {
      var i :| 0 <= i < |r| && r[i].modelId == m && r[i].from <= u;
      var j := if i == n then at else i;
      assert b.rows[j].modelId == m && b.rows[j].from <= u;
    }
    TiledAt(b.rows, m, u);
    if m == c.modelId && u >= t {
      ReplacedLater(b.rows, r, at, t, u);
    } else {
      ReplacedElsewhere(b.rows, r, at, t, m, u);
    }
  }

  lemma CoversAfter(rows: seq<PriceRow>, r: seq<PriceRow>, at: nat, t: int, m: Label, u: int, j: nat)
    requires VersionedAt(rows, r, at, t) && j <= |rows|
    ensures Covers(r[j], m, u) <==>
      if m == rows[at].modelId && u >= t then j == |rows| || (j != at && Covers(rows[j], m, u))
      else j < |rows| && Covers(rows[j], m, u)
  {
  }

  lemma ReplacedLater(rows: seq<PriceRow>, r: seq<PriceRow>, at: nat, t: int, u: int)
    requires VersionedAt(rows, r, at, t) && u >= t && CoveredOnce(rows, rows[at].modelId, u)
    ensures CoveredOnce(r, rows[at].modelId, u)
  {
    var n, m := |rows|, rows[at].modelId;
    assert Covers(rows[at], m, u);
    hide Covers;
    forall j | 0 <= j <= n ensures Covers(r[j], m, u) <==> (j == n || (j != at && Covers(rows[j], m, u))) {
      CoversAfter(rows, r, at, t, m, u, j);
    }
    hide VersionedAt;
    assert Covers(r[n], m, u);
  }

  lemma ReplacedElsewhere(rows: seq<PriceRow>, r: seq<PriceRow>, at: nat, t: int, m: Label, u: int)
    requires VersionedAt(rows, r, at, t) && (m != rows[at].modelId || u < t) && CoveredOnce(rows, m, u)
    ensures CoveredOnce(r, m, u)
  {
    hide Covers;
    var n := |rows|;
    forall j | 0 <= j <= n ensures Covers(r[j], m, u) <==> (j < n && Covers(rows[j], m, u)) {
      CoversAfter(rows, r, at, t, m, u, j);
    }
    var i :| 0 <= i < n && Covers(rows[i], m, u) && forall j :: 0 <= j < n && Covers(rows[j], m, u) ==> j == i;
    assert Covers(r[i], m, u);
  }

  // ----- one run -----

  lemma {:induction false} NoSharingNoChains(ks: seq<seq<Key>>, p: seq<nat>)
    requires IsChain(ks, p)
    requires forall i, j :: 0 <= i < j < |ks| ==> !Shares(ks, i, j)
    ensures p[0] == p[|p| - 1]
    decreases |p|
  {
    if |p| > 1 {
      ChainTail(ks, p);
      OverlapSym(ks[p[0]], ks[p[1]]);
      assert Shares(ks, p[0], p[1]) && Shares(ks, p[1], p[0]);
      assert p[0] == p[1];
      NoSharingNoChains(ks, p[1..]);
    }
  }

  lemma SingletonFamilies(b: Book)
    requires ValidBook(b) && NoSharedKeys(b.rows)
    ensures forall g :: 0 <= g < |FamsOf(b)| ==> |FamsOf(b)[g]| == 1
  {
    hide Overlap, Members, Heads, Component, OpenRows;
    var open := OpenRows(b.rows);
    var ks, fs := KeysOfRows(open, RowKeys), FamsOf(b);
    OpenRowsAre(b.rows);
    forall i, j | 0 <= i < j < |ks| ensures !Shares(ks, i, j) {
      assert open[i] in open && open[j] in open && open[i].id != open[j].id;
      OpenPair(b, open[i], open[j]);
    }
    FamiliesAreComponents(ks);
    FamilyCount(open);
    forall g | 0 <= g < |fs| ensures |fs[g]| == 1 {
      FamilyRows(open, g);
      var ix := FamilyKeys.Families(ks)[g];
      assert ix != [];
      if |ix| > 1 {
        var i, j := ix[0], ix[1];
        assert i in ix && j in ix && i < j;
        assert Linked(ks, i, j);
        var p: seq<nat> :| Connects(ks, p, i, j);
        NoSharingNoChains(ks, p);
        assert false;
      }
    }
  }

  lemma OpenPair(b: Book, r: PriceRow, s: PriceRow)
    requires NoSharedKeys(b.rows) && r in b.rows && s in b.rows && Open(r) && Open(s) && r.id != s.id
    ensures !Overlap(RowKeys(r), RowKeys(s))
  {
    hide Overlap;
    var i :| 0 <= i < |b.rows| && b.rows[i] == r;
    var j :| 0 <= j < |b.rows| && b.rows[j] == s;
    OverlapSym(RowKeys(r), RowKeys(s));
  }

  /** When each family has one open row, a run issues inserts and versions
      only, and each fits the table it meets unless its row was replaced before. */
  lemma PrefixAdmissible(b: Book, scraped: seq<Scraped>, clock: nat -> int, k: nat, now: int)
    requires ValidBook(b) && NoSharedKeys(b.rows) && Tiled(b.rows) && Before(b.rows, now)
    requires k < |WritesOf(b, scraped)| && ReplacedOnce(WritesOf(b, scraped)[..k + 1])
    ensures Admissible(ApplyAll(b, WritesOf(b, scraped)[..k], clock).rows, WritesOf(b, scraped)[k])
  {
    hide Kept, FamsOf, WritesOf, ApplyAll, OpenRows, KeyMap, Overlap, Tiled, Before, NoSharedKeys, Shape, Snapshot, PlanComplete,
      ReplacedOnce;
    var fams, kept, ws := FamsOf(b), Kept(scraped), WritesOf(b, scraped);
    TakeSnapshot(b, scraped);
    SingletonFamilies(b);
    PrefixNamesOld(b, fams, kept, ws, k);
    ShapeOf(b, ws[..k], clock);
    var mid := ApplyAll(b, ws[..k], clock);
    match ws[k]
    case Close(ids) => NoExtras(b, fams, kept, ws, k);
    case Insert(s) =>
      forall r | r in mid.rows ensures r.modelId != s.modelId {
        var i :| 0 <= i < |mid.rows| && mid.rows[i] == r;
        FreshModelId(b, fams, kept, ws, clock, mid, k, i, now);
      }
    case Version(c, s) => StillOpen(b, fams, kept, ws, clock, mid, k);
  }

  lemma NoExtras(b: Book, fams: seq<seq<PriceRow>>, kept: seq<Scraped>, ws: seq<Write>, k: nat)
    requires Snapshot(b, fams, kept, ws) && k < |ws|
    requires forall g :: 0 <= g < |fams| ==> |fams[g]| == 1
    ensures !ws[k].Close?
  {
    hide KeyMap;
    SanctionedAt(fams, kept, ws, k);
  }

  /** A versioned row is open until its only replacement. */
  lemma StillOpen(b: Book, fams: seq<seq<PriceRow>>, kept: seq<Scraped>, ws: seq<Write>, clock: nat -> int, mid: Book, k: nat)
    requires Snapshot(b, fams, kept, ws) && NonEmptyFamilies(fams) && k < |ws| && ws[k].Version?
    requires Shape(b, ws[..k], clock, mid) && ReplacedOnce(ws[..k + 1])
    ensures ws[k].current in mid.rows && Open(ws[k].current)
  {
    hide KeyMap, Overlap, PlanShape, Grouped, CreatedCount;
    var c := ws[k].current;
    var g := VersionFamily(b, fams, kept, ws, k);
    FamilyRowOpen(b, fams, kept, ws, g, 0);
    var i :| 0 <= i < |b.rows| && b.rows[i] == c;
    if ClosedBy(ws[..k], c.id) {
      var l := NewestReplaced(b, fams, kept, ws, k, g);
      ReplacedApart(ws, l, k);
    }
    assert mid.rows[i] == c;
  }

  lemma ReplacedApart(ws: seq<Write>, l: nat, k: nat)
    requires l < k < |ws| && ws[l].Version? && ws[k].Version? && ReplacedOnce(ws[..k + 1])
    ensures ws[l].current != ws[k].current
  {
    assert ws[..k + 1][l] == ws[l] && ws[..k + 1][k] == ws[k];
  }

  /** An inserted model id occurs nowhere in the table yet. */
  lemma FreshModelId(b: Book, fams: seq<seq<PriceRow>>, kept: seq<Scraped>, ws: seq<Write>, clock: nat -> int, mid: Book,
                     k: nat, i: nat, now: int)
    requires Snapshot(b, fams, kept, ws) && k < |ws| && ws[k].Insert?
    requires Tiled(b.rows) && Before(b.rows, now)
    requires Shape(b, ws[..k], clock, mid) && i < |mid.rows|
    ensures mid.rows[i].modelId != ws[k].row.modelId
  {
    hide KeyMap, Tiled, Before, CreatedCount, ClosedBy, Grouped, Hits, Matched;
    var s := ws[k].row;
    HeadsExist(b, fams, kept, ws);
    SanctionedAt(fams, kept, ws, k);
    MatchedHits(fams, s);
    if i < |b.rows| {
      assert mid.rows[i].modelId == b.rows[i].modelId;
      assert b.rows[i] in b.rows;
      TiledHasOpen(b.rows, b.rows[i], now);
      var o :| o in b.rows && Open(o) && o.modelId == b.rows[i].modelId;
      UnmatchedId(b, fams, kept, ws, s, o);
    } else {
      assert SlotFilled(b, ws[..k], i);
      var l :| 0 <= l < |ws[..k]| && Creates(ws[..k][l]) && i == Slot(b, ws[..k], l);
      assert ws[..k][l] == ws[l];
      OtherNewId(b, fams, kept, ws, k, l);
    }
  }

  lemma OtherNewId(b: Book, fams: seq<seq<PriceRow>>, kept: seq<Scraped>, ws: seq<Write>, k: nat, l: nat)
    requires Snapshot(b, fams, kept, ws) && l < k < |ws| && ws[k].Insert? && Creates(ws[l])
    requires forall g :: 0 <= g < |fams| ==> !Hits(fams, g, ws[k].row)
    ensures NewModelId(ws[l]) != ws[k].row.modelId
  {
    hide KeyMap, Grouped, Hits, Matched;
    HeadsExist(b, fams, kept, ws);
    if ws[l].Insert? {
      DistinctIds(ws[l].row, ws[k].row);
    } else {
      SanctionedAt(fams, kept, ws, l);
      var g := Matched(fams, KeyMap(fams), ws[l].row).value;
      FamilyRowOpen(b, fams, kept, ws, g, 0);
      UnmatchedId(b, fams, kept, ws, ws[k].row, ws[l].current);
    }
  }

  lemma DistinctIds(s: Scraped, t: Scraped)
    requires !Overlap(ScrapedKeys(s), ScrapedKeys(t))
    ensures s.modelId != t.modelId
  {
    assert IdKey(s.modelId.family) in ScrapedKeys(s) && IdKey(t.modelId.family) in ScrapedKeys(t);
  }

  lemma UnmatchedId(b: Book, fams: seq<seq<PriceRow>>, kept: seq<Scraped>, ws: seq<Write>, s: Scraped, o: PriceRow)
    requires Snapshot(b, fams, kept, ws) && o in b.rows && Open(o)
    requires forall g :: 0 <= g < |fams| ==> !Hits(fams, g, s)
    ensures o.modelId != s.modelId
  {
    hide KeyMap, PlanShape;
    assert InFamily(fams, o);
    var g :| 0 <= g < |fams| && o in fams[g];
    assert !Hits(fams, g, s);
    assert !Overlap(RowKeys(o), ScrapedKeys(s));
    assert IdKey(o.modelId.family) in RowKeys(o) && IdKey(s.modelId.family) in ScrapedKeys(s);
  }

  /** What a tiled history keeps between runs. */
  ghost predicate Healthy(b: Book, now: int) {
    ValidBook(b) && NoSharedKeys(b.rows) && Tiled(b.rows) && Before(b.rows, now) && AllEnabled(b.rows)
  }

  lemma {:induction false} PrefixTiled(b: Book, scraped: seq<Scraped>, clock: nat -> int, k: nat)
    requires Healthy(b, clock(0)) && Monotone(clock)
    requires k <= |WritesOf(b, scraped)|
    ensures var mid := ApplyAll(b, WritesOf(b, scraped)[..k], clock);
      && ValidBook(mid) && Before(mid.rows, clock(k)) && AllEnabled(mid.rows)
      && (ReplacedOnce(WritesOf(b, scraped)[..k]) ==> Tiled(mid.rows))
  {
    hide WritesOf, Tiled, NoSharedKeys, ReplacedOnce, Admissible, Apply;
    var ws := WritesOf(b, scraped);
    if k == 0 {
      assert ws[..0] == [];
    } else {
      var n := k - 1;
      PrefixTiled(b, scraped, clock, n);
      var mid := ApplyAll(b, ws[..n], clock);
      assert ws[..k] == ws[..n] + [ws[n]] && |ws[..n]| == n;
      ApplyAllStep(b, ws[..n], ws[n], clock);
      if ReplacedOnce(ws[..k]) {
        FewerReplaced(ws, n, k);
        PrefixAdmissible(b, scraped, clock, n, clock(0));
        WriteKeepsTiling(mid, ws[n], clock(n));
      }
      ApplyBefore(mid, ws[n], clock(n));
      ValidStep(mid, ws[n], clock(n));
      EnabledStep(mid, ws[n], clock(n));
      assert clock(n) <= clock(k);
      LaterBefore(Apply(mid, ws[n], clock(n)).rows, clock(n), clock(k));
    }
  }

  lemma FewerReplaced(ws: seq<Write>, n: nat, k: nat)
    requires n <= k <= |ws| && ReplacedOnce(ws[..k])
    ensures ReplacedOnce(ws[..n])
  {
    forall i, j | 0 <= i < j < n && ws[i].Version? && ws[j].Version? ensures ws[i].current != ws[j].current {
      assert ws[..k][i] == ws[i] && ws[..k][j] == ws[j];
    }
  }

  lemma LaterBefore(rows: seq<PriceRow>, t: int, u: int)
    requires Before(rows, t) && t <= u
    ensures Before(rows, u)
  {
  }

  lemma EnabledStep(b: Book, w: Write, t: int)
    requires AllEnabled(b.rows)
    ensures AllEnabled(Apply(b, w, t).rows)
  {
    var r := Apply(b, w, t).rows;
    forall x | x in r ensures x.enabled {
      var i :| 0 <= i < |r| && r[i] == x;
      if i < |b.rows| { assert b.rows[i] in b.rows; }
    }
  }

  /** Two replacements of one row are in force side by side from the later one on. */
  lemma TwiceReplacedOverlaps(b: Book, ws: seq<Write>, clock: nat -> int, after: Book, k: nat, l: nat)
    requires Shape(b, ws, clock, after) && k < l < |ws| && ws[k].Version? && ws[l].Version?
    requires ws[k].current == ws[l].current
    ensures !Tiled(after.rows)
  {
    hide Shape, Slot;
    CreatedRow(b, ws, clock, after, k);
    CreatedRow(b, ws, clock, after, l);
    SlotsDiffer(b, ws, k, l);
    var i, j, m := Slot(b, ws, k), Slot(b, ws, l), ws[k].current.modelId;
    var t := if clock(k) <= clock(l) then clock(l) else clock(k);
    assert Covers(after.rows[i], m, t) && Covers(after.rows[j], m, t);
    assert Started(after.rows, m, t) && !CoveredOnce(after.rows, m, t);
  }

  /** From a healthy table versions tile time after the first k statements of a run
      if and only if these replace no row twice. */
  lemma PrefixTilesIff(b: Book, scraped: seq<Scraped>, clock: nat -> int, k: nat)
    requires Healthy(b, clock(0)) && Monotone(clock) && k <= |WritesOf(b, scraped)|
    ensures Tiled(ApplyAll(b, WritesOf(b, scraped)[..k], clock).rows) <==> ReplacedOnce(WritesOf(b, scraped)[..k])
  {
    hide FamsOf, Kept, WritesOf, Tiled, NoSharedKeys, ReplacedOnce, ApplyAll, Shape, Snapshot, PlanComplete, KeyMap;
    var ws := WritesOf(b, scraped)[..k];
    PrefixTiled(b, scraped, clock, k);
    if !ReplacedOnce(ws) {
      TakeSnapshot(b, scraped);
      PrefixNamesOld(b, FamsOf(b), Kept(scraped), WritesOf(b, scraped), k);
      ShapeOf(b, ws, clock);
      var i, j := ReplacedTwice(ws);
      TwiceReplacedOverlaps(b, ws, clock, ApplyAll(b, ws, clock), i, j);
    }
  }

  lemma ReplacedTwice(ws: seq<Write>) returns (i: nat, j: nat)
    requires !ReplacedOnce(ws)
    ensures i < j < |ws| && ws[i].Version? && ws[j].Version? && ws[i].current == ws[j].current
  {
    i, j :| 0 <= i < j < |ws| && ws[i].Version? && ws[j].Version? && ws[i].current == ws[j].current;
  }

  /** The first k statements of a run leave a healthy table if and only if they
      are clear of each other: wherever a run stops, this decides whether the next
      one finds the table as it needs it. */
  lemma PrefixHealthyIff(b: Book, scraped: seq<Scraped>, clock: nat -> int, k: nat)
    requires Healthy(b, clock(0)) && Monotone(clock) && k <= |WritesOf(b, scraped)|
    ensures NonEmptyFamilies(FamsOf(b))
    ensures Healthy(ApplyAll(b, WritesOf(b, scraped)[..k], clock), clock(k)) <==>
      WritesClear(FamsOf(b), WritesOf(b, scraped)[..k])
  {
    hide FamsOf, Kept, WritesOf, Tiled, NoSharedKeys, ReplacedOnce, NamesFree, ApplyAll, Shape, Snapshot, PlanComplete, KeyMap,
      ExtrasClosed;
    var fams, kept, ws := FamsOf(b), Kept(scraped), WritesOf(b, scraped);
    TakeSnapshot(b, scraped);
    PrefixTiled(b, scraped, clock, k);
    PrefixTilesIff(b, scraped, clock, k);
    SnapshotPrefix(b, fams, kept, ws, k);
    PrefixNamesOld(b, fams, kept, ws, k);
    ShapeOf(b, ws[..k], clock);
    SingletonFamilies(b);
    assert ExtrasClosed(fams, ws[..k]) by { NothingExtra(fams, ws[..k]); }
    ClearIff(b, fams, kept, ws[..k], clock, ApplyAll(b, ws[..k], clock));
  }

  lemma NothingExtra(fams: seq<seq<PriceRow>>, ws: seq<Write>)
    requires forall g :: 0 <= g < |fams| ==> |fams[g]| == 1
    ensures ExtrasClosed(fams, ws)
  {
  }

  /** From a healthy table a complete run's versions tile time if and only if no
      family is replaced by two rows, and the table is healthy again if and only if
      the scrape is free of collisions. */
  lemma RunTilesIff(b: Book, scraped: seq<Scraped>, clock: nat -> int)
    requires Healthy(b, clock(0)) && Monotone(clock)
    ensures PointsInto(KeyMap(FamsOf(b)), |FamsOf(b)|) && NonEmptyFamilies(FamsOf(b))
    ensures Tiled(RunOf(b, scraped, clock).rows) <==> OneEach(FamsOf(b), Kept(scraped))
    ensures Healthy(RunOf(b, scraped, clock), clock(|WritesOf(b, scraped)|)) <==> FreeOfCollisions(b, scraped)
  {
    hide FamsOf, Kept, WritesOf, Tiled, NoSharedKeys, ReplacedOnce, OneEach, ApplyAll, Snapshot, PlanComplete, KeyMap,
      CollisionFree, WritesClear, Healthy;
    var fams, kept, ws := FamsOf(b), Kept(scraped), WritesOf(b, scraped);
    assert ValidBook(b) by { HealthyIsValid(b, clock(0)); }
    TakeSnapshot(b, scraped);
    assert ws[..|ws|] == ws;
    PrefixTilesIff(b, scraped, clock, |ws|);
    PrefixHealthyIff(b, scraped, clock, |ws|);
    OneEachIff(b, fams, kept, ws);
    CollisionFreeIff(b, fams, kept, ws);
  }

  /** In particular versions tile time at every point of a run without collisions. */
  lemma RunTiles(b: Book, scraped: seq<Scraped>, clock: nat -> int)
    requires Healthy(b, clock(0)) && Monotone(clock) && FreeOfCollisions(b, scraped)
    ensures forall k :: 0 <= k <= |WritesOf(b, scraped)| ==>
      Tiled(ApplyAll(b, WritesOf(b, scraped)[..k], clock).rows)
    ensures Healthy(RunOf(b, scraped, clock), clock(|WritesOf(b, scraped)|))
  {
    hide WritesOf, Tiled, NoSharedKeys, FreeOfCollisions, ReplacedOnce, ApplyAll, OneEach;
    var ws := WritesOf(b, scraped);
    RunTilesIff(b, scraped, clock);
    assert ws[..|ws|] == ws;
    PrefixTilesIff(b, scraped, clock, |ws|);
    forall k | 0 <= k <= |ws| ensures Tiled(ApplyAll(b, ws[..k], clock).rows) {
      FewerReplaced(ws, k, |ws|);
      PrefixTilesIff(b, scraped, clock, k);
    }
  }

  lemma HealthyIsValid(b: Book, now: int)
    requires Healthy(b, now)
    ensures ValidBook(b)
  {
  }

  // ----- any sequence of runs -----

  /** One run of the writer: what was scraped, when its statements ran, and how
      many of them did before it ended or was cut off. */
  datatype Scrape = Scrape(rows: seq<Scraped>, clock: nat -> int, done: nat)

  ghost function Executed(b: Book, run: Scrape): seq<Write> {
    var ws := WritesOf(b, run.rows);
    if run.done <= |ws| then ws[..run.done] else ws
  }

  ghost function After(b: Book, runs: seq<Scrape>): Book {
    if runs == [] then b else
      var at, run := After(b, runs[..|runs| - 1]), runs[|runs| - 1];
      ApplyAll(at, Executed(at, run), run.clock)
  }

  /** The run's statements are clear of each other as far as they were carried
      out, and it starts no earlier than anything recorded in the table. */
  ghost predicate Orderly(at: Book, run: Scrape) {
    && Monotone(run.clock) && Before(at.rows, run.clock(0))
    && NonEmptyFamilies(FamsOf(at)) && WritesClear(FamsOf(at), Executed(at, run))
  }

  ghost predicate InOrder(b: Book, runs: seq<Scrape>) {
    forall n :: 0 <= n < |runs| ==> Orderly(After(b, runs[..n]), runs[n])
  }

  /** A run that was not cut off is orderly when its scrape is free of collisions. */
  lemma CompleteIsOrderly(at: Book, run: Scrape)
    requires ValidBook(at) && Monotone(run.clock) && Before(at.rows, run.clock(0)) && run.done >= |WritesOf(at, run.rows)|
    ensures Orderly(at, run) <==> FreeOfCollisions(at, run.rows)
  {
    hide FamsOf, Kept, WritesOf, Monotone, Snapshot, PlanComplete, KeyMap, CollisionFree, WritesClear, Before;
    var ws := WritesOf(at, run.rows);
    TakeSnapshot(at, run.rows);
    assert ws[..|ws|] == ws;
    CollisionFreeIff(at, FamsOf(at), Kept(run.rows), ws);
  }

  lemma {:induction false} HistoryTiles(b: Book, runs: seq<Scrape>, now: int)
    requires Healthy(b, now) && InOrder(b, runs)
    ensures ValidBook(After(b, runs)) && NoSharedKeys(After(b, runs).rows)
    ensures Tiled(After(b, runs).rows) && AllEnabled(After(b, runs).rows)
  {
    hide Tiled, NoSharedKeys, AllEnabled, Before, WritesClear, FamsOf, WritesOf, ApplyAll;
    if runs != [] {
      var n := |runs| - 1;
      var run, at := runs[n], After(b, runs[..n]);
      assert forall k :: 0 <= k < n ==> runs[..n][..k] == runs[..k];
      HistoryTiles(b, runs[..n], now);
      assert Orderly(at, run);
      var ws := WritesOf(at, run.rows);
      assert ws[..|ws|] == ws;
      PrefixHealthyIff(at, run.rows, run.clock, if run.done <= |ws| then run.done else |ws|);
    }
  }

  /** After any such history, the lookup of a model id at any instant from its
      first row on returns the only row in force. */
  lemma HistoryLookup(b: Book, runs: seq<Scrape>, now: int, m: Label, t: int)
    requires Healthy(b, now) && InOrder(b, runs) && Started(After(b, runs).rows, m, t)
    ensures var rows := After(b, runs).rows;
      && GetByModelId(rows, m, t).Some?
      && forall r :: r in rows && Covers(r, m, t) <==> r == GetByModelId(rows, m, t).value
  {
    HistoryTiles(b, runs, now);
    LookupIsDetermined(After(b, runs).rows, m, t);
  }
}
