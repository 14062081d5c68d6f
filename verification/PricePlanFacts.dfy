/** What a run's plan consists of: facts about families of open rows, about
    deduplicated rows, and about every statement issued. */
module PricePlanFacts {
  import opened Options
  import opened Sorting
  import opened FamilyKeys
  import opened UnionFind
  import opened PriceBook
  import opened PriceWriter

  // ----- open rows and their families -----

  lemma {:induction false} OpenOnlyIs(rows: seq<PriceRow>)
    ensures forall r :: r in OpenOnly(rows) <==> r in rows && Open(r)
    ensures DistinctRowIds(rows) ==> DistinctRowIds(OpenOnly(rows))
  {
    if rows != [] {
      var n := |rows| - 1;
      assert rows == rows[..n] + [rows[n]];
      OpenOnlyIs(rows[..n]);
      if DistinctRowIds(rows) {
        assert forall i :: 0 <= i < |OpenOnly(rows[..n])| ==> OpenOnly(rows[..n])[i] in rows[..n];
        assert forall r :: r in rows[..n] ==> r.id != rows[n].id;
      }
    }
  }

  ghost predicate DistinctRowIds(rows: seq<PriceRow>) {
    forall i, j :: 0 <= i < j < |rows| ==> rows[i].id != rows[j].id
  }

  lemma OpenRowsAre(rows: seq<PriceRow>)
    requires DistinctRowIds(rows)
    ensures forall r :: r in OpenRows(rows) <==> r in rows && Open(r)
    ensures DistinctRowIds(OpenRows(rows))
  {
    hide Sort, OpenOnly;
    var o, s := OpenOnly(rows), OpenRows(rows);
    OpenOnlyIs(rows);
    assert forall r :: r in s <==> r in multiset(s);
    assert forall r :: r in o <==> r in multiset(o);
    forall i, j | 0 <= i < j < |o| ensures o[i] != o[j] {
      assert o[i].id != o[j].id;
    }
    SortKeepsDistinct(o, NewerFirst);
    forall i, j | 0 <= i < j < |s| ensures s[i].id != s[j].id {
      assert s[i] != s[j] && s[i] in s && s[j] in s;
      assert s[i] in rows && s[j] in rows;
    }
  }

  ghost predicate InFamily(fams: seq<seq<PriceRow>>, r: PriceRow) {
    exists g :: 0 <= g < |fams| && r in fams[g]
  }

  /** The open rows, each in one family; rows of different families share no key. */
  ghost predicate Grouped(fams: seq<seq<PriceRow>>, open: seq<PriceRow>) {
    && NonEmptyFamilies(fams)
    && (forall r :: r in open <==> InFamily(fams, r))
    && (forall g, h, r, s :: 0 <= g < |fams| && 0 <= h < |fams| && g != h && r in fams[g] && s in fams[h] ==>
          !Overlap(RowKeys(r), RowKeys(s)))
    && (forall g :: 0 <= g < |fams| ==> DistinctRowIds(fams[g]))
  }

  lemma SelfOverlap(r: PriceRow)
    ensures Overlap(RowKeys(r), RowKeys(r))
  {
    assert IdKey(r.modelId.family) in RowKeys(r);
  }

  lemma UnlinkedShareNothing(ks: seq<seq<Key>>, i: nat, j: nat)
    requires i < |ks| && j < |ks|
    ensures !Linked(ks, i, j) ==> !Shares(ks, i, j)
  {
    if Shares(ks, i, j) { LinkedShare(ks, i, j); }
  }

  lemma FamilyCount(open: seq<PriceRow>)
    ensures |FamiliesOf(open, RowKeys)| == |FamilyKeys.Families(KeysOfRows(open, RowKeys))|
  {
  }

  lemma FamilyRows(open: seq<PriceRow>, g: nat)
    requires g < |FamiliesOf(open, RowKeys)|
    ensures g < |FamilyKeys.Families(KeysOfRows(open, RowKeys))|
    ensures forall i :: i in FamilyKeys.Families(KeysOfRows(open, RowKeys))[g] ==> i < |open|
    ensures FamiliesOf(open, RowKeys)[g] == Gather(open, FamilyKeys.Families(KeysOfRows(open, RowKeys))[g])
  {
  }

  /** Each open row is in some family. */
  lemma RowHasFamily(open: seq<PriceRow>, i: nat)
    requires i < |open|
    ensures InFamily(FamiliesOf(open, RowKeys), open[i])
  {
    hide Families, FamiliesOf;
    var fs, ix := FamiliesOf(open, RowKeys), FamilyKeys.Families(KeysOfRows(open, RowKeys));
    FamiliesAreComponents(KeysOfRows(open, RowKeys));
    FamilyCount(open);
    assert InSome(ix, i);
    var g :| 0 <= g < |ix| && i in ix[g];
    var t :| 0 <= t < |ix[g]| && ix[g][t] == i;
    FamilyRows(open, g);
    assert fs[g][t] == open[i];
  }

  /** Where a family's row stands among the open rows. */
  lemma FamilyRowIndex(open: seq<PriceRow>, g: nat, r: PriceRow) returns (i: nat)
    requires g < |FamiliesOf(open, RowKeys)| && r in FamiliesOf(open, RowKeys)[g]
    ensures g < |FamilyKeys.Families(KeysOfRows(open, RowKeys))| && i in FamilyKeys.Families(KeysOfRows(open, RowKeys))[g]
    ensures i < |open| && open[i] == r
  {
    hide Families, FamiliesOf;
    var f := FamiliesOf(open, RowKeys)[g];
    FamilyRows(open, g);
    var t :| 0 <= t < |f| && f[t] == r;
    i := FamilyKeys.Families(KeysOfRows(open, RowKeys))[g][t];
  }

  lemma FamiliesApart(open: seq<PriceRow>, g: nat, r: PriceRow, h: nat, s: PriceRow)
    requires g < |FamiliesOf(open, RowKeys)| && r in FamiliesOf(open, RowKeys)[g]
    requires h < |FamiliesOf(open, RowKeys)| && s in FamiliesOf(open, RowKeys)[h] && g != h
    ensures !Overlap(RowKeys(r), RowKeys(s))
  {
    hide Families, FamiliesOf, Linked, Overlap;
    var ks := KeysOfRows(open, RowKeys);
    FamiliesAreComponents(ks);
    var i := FamilyRowIndex(open, g, r);
    var j := FamilyRowIndex(open, h, s);
    assert !Linked(ks, i, j);
    UnlinkedShareNothing(ks, i, j);
  }

  lemma FamilyIdsDiffer(open: seq<PriceRow>, g: nat)
    requires DistinctRowIds(open) && g < |FamiliesOf(open, RowKeys)|
    ensures DistinctRowIds(FamiliesOf(open, RowKeys)[g])
  {
    hide Families, FamiliesOf, Linked;
    FamiliesAreComponents(KeysOfRows(open, RowKeys));
    FamilyRows(open, g);
    var f, ix := FamiliesOf(open, RowKeys)[g], FamilyKeys.Families(KeysOfRows(open, RowKeys))[g];
    forall t, u | 0 <= t < u < |f| ensures f[t].id != f[u].id {
      assert ix[t] in ix && ix[u] in ix && ix[t] < ix[u];
    }
  }

  lemma FamiliesOfRows(open: seq<PriceRow>)
    requires DistinctRowIds(open)
    ensures Grouped(FamiliesOf(open, RowKeys), open)
  {
    hide FamiliesOf, Overlap, DistinctRowIds;
    var fs := FamiliesOf(open, RowKeys);
    FamiliesNonEmpty(open);
    forall r ensures r in open <==> InFamily(fs, r) {
      if r in open {
        var i :| 0 <= i < |open| && open[i] == r;
        RowHasFamily(open, i);
      }
      if InFamily(fs, r) {
        var g :| 0 <= g < |fs| && r in fs[g];
        var i := FamilyRowIndex(open, g, r);
      }
    }
    forall g, h, r, s | 0 <= g < |fs| && 0 <= h < |fs| && g != h && r in fs[g] && s in fs[h]
      ensures !Overlap(RowKeys(r), RowKeys(s))
    {
      FamiliesApart(open, g, r, h, s);
    }
    forall g | 0 <= g < |fs| ensures DistinctRowIds(fs[g]) { FamilyIdsDiffer(open, g); }
  }

  // ----- newest first -----

  /** Open rows are read by start, latest first, and by creation where starts agree. */
  lemma OpenRowsNewestFirst(rows: seq<PriceRow>, i: nat, j: nat)
    requires i < j < |OpenRows(rows)|
    ensures var a, b := OpenRows(rows)[i], OpenRows(rows)[j];
      a.from > b.from || (a.from == b.from && a.created >= b.created)
  {
    hide Sort, OpenOnly;
    assert TotalPreorder(NewerFirst);
    SortSorts(OpenOnly(rows), NewerFirst);
    assert NewerFirst(OpenRows(rows)[i], OpenRows(rows)[j]);
  }

  /** So the row that leads a family is its newest. */
  lemma FamilyLedByNewest(rows: seq<PriceRow>, g: nat, r: PriceRow)
    requires g < |FamiliesOf(OpenRows(rows), RowKeys)| && r in FamiliesOf(OpenRows(rows), RowKeys)[g]
    ensures var head := FamiliesOf(OpenRows(rows), RowKeys)[g][0];
      r.from < head.from || (r.from == head.from && r.created <= head.created)
  {
    hide FamiliesOf, Families, OpenRows;
    var open := OpenRows(rows);
    var f := FamiliesOf(open, RowKeys)[g];
    FamilyRows(open, g);
    FamiliesAreComponents(KeysOfRows(open, RowKeys));
    var ix := FamilyKeys.Families(KeysOfRows(open, RowKeys))[g];
    var t :| 0 <= t < |f| && f[t] == r;
    assert ix[0] in ix && ix[t] in ix;
    if t > 0 { OpenRowsNewestFirst(rows, ix[0], ix[t]); }
  }

  // ----- which families a scraped row hits -----

  ghost predicate Hits(fams: seq<seq<PriceRow>>, g: nat, s: Scraped)
    requires g < |fams|
  {
    exists r :: r in fams[g] && Overlap(RowKeys(r), ScrapedKeys(s))
  }

  lemma {:induction false} MatchIsFirst(byKey: map<Key, nat>, ks: seq<Key>)
    ensures MatchFamily(byKey, ks).None? <==> forall k :: k in ks ==> k !in byKey
    ensures MatchFamily(byKey, ks).Some? ==> exists k :: k in ks && k in byKey && byKey[k] == MatchFamily(byKey, ks).value
  {
    if ks != [] {
      MatchIsFirst(byKey, ks[1..]);
      assert ks == [ks[0]] + ks[1..];
    }
  }

  /** The family a row is matched to is one it hits; unmatched rows hit none. */
  lemma MatchedHits(fams: seq<seq<PriceRow>>, s: Scraped)
    requires PointsInto(KeyMap(fams), |fams|)
    ensures var m := Matched(fams, KeyMap(fams), s);
      && (m.Some? ==> Hits(fams, m.value, s))
      && (m.None? ==> forall g :: 0 <= g < |fams| ==> !Hits(fams, g, s))
  {
    hide KeyMap, MatchFamily;
    KeyMapPoints(fams);
    var byKey, ks := KeyMap(fams), ScrapedKeys(s);
    MatchIsFirst(byKey, ks);
    var m := Matched(fams, byKey, s);
    if m.Some? {
      var k :| k in ks && k in byKey && byKey[k] == m.value;
      assert HasKey(fams[m.value], k);
      var r :| r in fams[m.value] && k in RowKeys(r);
      assert Overlap(RowKeys(r), ks);
    } else {
      forall g | 0 <= g < |fams| ensures !Hits(fams, g, s) {
        forall r, k | r in fams[g] && k in RowKeys(r) ensures k !in ks {
          assert HasKey(fams[g], k);
        }
      }
    }
  }

  // ----- deduplicated rows -----

  ghost predicate KeysDisjoint(kept: seq<Scraped>) {
    forall i, j :: 0 <= i < j < |kept| && kept[i].status.Success? && kept[j].status.Success? ==>
      !Overlap(ScrapedKeys(kept[i]), ScrapedKeys(kept[j]))
  }

  lemma {:induction false} SeenIs(kept: seq<Scraped>, k: Key)
    ensures k in SeenKeys(kept) <==> exists i :: 0 <= i < |kept| && k in MatchKeys(kept[i])
  {
    hide MatchKeys, ScrapedKeys;
    if kept != [] {
      var n := |kept| - 1;
      SeenIs(kept[..n], k);
      if k in SeenKeys(kept[..n]) {
        var i :| 0 <= i < n && k in MatchKeys(kept[..n][i]);
        assert k in MatchKeys(kept[i]);
      }
      if exists i :: 0 <= i < |kept| && k in MatchKeys(kept[i]) {
        var i :| 0 <= i < |kept| && k in MatchKeys(kept[i]);
        if i < n { assert kept[..n][i] == kept[i]; }
      }
    }
  }

  /** Kept rows that may be written share no key, and every row is either kept
      or reported as a duplicate. */
  lemma {:induction false} KeptIsDisjoint(rows: seq<Scraped>)
    ensures KeysDisjoint(Kept(rows))
    ensures |Kept(rows)| + |Dropped(rows)| == |rows|
    ensures forall s :: s in Kept(rows) ==> s in rows
  {
    hide Overlap, Known, SeenKeys, ScrapedKeys, MatchKeys;
    if rows != [] {
      var n := |rows| - 1;
      var s, k := rows[n], Kept(rows[..n]);
      assert rows == rows[..n] + [s];
      KeptIsDisjoint(rows[..n]);
      NoClash(k, s);
    }
  }

  lemma NoClash(kept: seq<Scraped>, s: Scraped)
    ensures !Known(MatchKeys(s), SeenKeys(kept)) && s.status.Success? ==>
      forall i :: 0 <= i < |kept| && kept[i].status.Success? ==> !Overlap(ScrapedKeys(kept[i]), ScrapedKeys(s))
  {
    hide SeenKeys, ScrapedKeys;
    if !Known(MatchKeys(s), SeenKeys(kept)) && s.status.Success? {
      forall i | 0 <= i < |kept| && kept[i].status.Success? ensures !Overlap(ScrapedKeys(kept[i]), ScrapedKeys(s)) {
        forall key | key in ScrapedKeys(kept[i]) ensures key !in ScrapedKeys(s) {
          SeenIs(kept, key);
          assert key in MatchKeys(kept[i]);
        }
      }
    }
  }

  // ----- the statements of a plan -----

  /** All but the newest row of some family with several are closed. */
  ghost predicate ClosesExtras(fams: seq<seq<PriceRow>>, w: Write) {
    w.Close? && exists g :: 0 <= g < |fams| && |fams[g]| > 1 && w.ids == Ids(fams[g][1..])
  }

  ghost predicate Sanctioned(fams: seq<seq<PriceRow>>, kept: seq<Scraped>, w: Write)
    requires PointsInto(KeyMap(fams), |fams|) && NonEmptyFamilies(fams)
  {
    match w
    case Close(_) => ClosesExtras(fams, w)
    case Insert(s) => s in kept && s.status.Success? && Matched(fams, KeyMap(fams), s).None?
    case Version(c, s) =>
      && s in kept && s.status.Success? && PricesDiffer(c, s)
      && Matched(fams, KeyMap(fams), s).Some? && c == fams[Matched(fams, KeyMap(fams), s).value][0]
  }

  ghost predicate AllSanctioned(fams: seq<seq<PriceRow>>, kept: seq<Scraped>, ws: seq<Write>)
    requires PointsInto(KeyMap(fams), |fams|) && NonEmptyFamilies(fams)
  {
    forall w :: w in ws ==> Sanctioned(fams, kept, w)
  }

  /** Creating statements come from scraped rows that share no key. */
  ghost predicate SourcesDisjoint(ws: seq<Write>) {
    forall k, l :: 0 <= k < l < |ws| && Creates(ws[k]) && Creates(ws[l]) ==>
      !Overlap(ScrapedKeys(ws[k].row), ScrapedKeys(ws[l].row))
  }

  lemma RowSanctioned(fams: seq<seq<PriceRow>>, kept: seq<Scraped>, s: Scraped)
    requires PointsInto(KeyMap(fams), |fams|) && NonEmptyFamilies(fams) && s in kept
    ensures AllSanctioned(fams, kept, RowWrites(fams, KeyMap(fams), s))
    ensures forall w :: w in RowWrites(fams, KeyMap(fams), s) && Creates(w) ==> w.row == s
    ensures SourcesDisjoint(RowWrites(fams, KeyMap(fams), s))
  {
    hide KeyMap, Matched, ScrapedKeys, Overlap, PricesDiffer;
    var ws := RowWrites(fams, KeyMap(fams), s);
    if s.status.Success? && Matched(fams, KeyMap(fams), s).Some? {
      var f := fams[Matched(fams, KeyMap(fams), s).value];
      assert ws == StaleWrites(f) + (if PricesDiffer(f[0], s) then [Version(f[0], s)] else []);
      if |f| > 1 { assert ClosesExtras(fams, Close(Ids(f[1..]))); }
    }
  }

  lemma {:induction false} RowsSanctioned(fams: seq<seq<PriceRow>>, kept: seq<Scraped>, m: nat, start: Plan)
    requires PointsInto(KeyMap(fams), |fams|) && NonEmptyFamilies(fams) && KeysDisjoint(kept)
    requires m <= |kept| && start.writes == []
    ensures var ws := RunRows(fams, KeyMap(fams), kept[..m], start).writes;
      && AllSanctioned(fams, kept, ws) && SourcesDisjoint(ws)
      && (forall w :: w in ws && Creates(w) ==> w.row.status.Success? && w.row in kept[..m])
  {
    hide KeyMap, Overlap, Sanctioned, RowWrites, RowChange, RowTouched;
    if m > 0 {
      var n := m - 1;
      var s := kept[n];
      RowsSanctioned(fams, kept, n, start);
      RunRowsStep(fams, KeyMap(fams), kept, n, start);
      RowSanctioned(fams, kept, s);
      assert kept[..m] == kept[..n] + [s];
      var ws0, ws1 := RunRows(fams, KeyMap(fams), kept[..n], start).writes, RowWrites(fams, KeyMap(fams), s);
      SanctionedSuccess(fams, kept, ws1);
      SourcesAppend(kept, n, ws0, ws1);
    }
  }

  lemma SanctionedSuccess(fams: seq<seq<PriceRow>>, kept: seq<Scraped>, ws: seq<Write>)
    requires PointsInto(KeyMap(fams), |fams|) && NonEmptyFamilies(fams) && AllSanctioned(fams, kept, ws)
    ensures forall w :: w in ws && Creates(w) ==> w.row.status.Success?
  {
    hide KeyMap;
  }

  lemma SourcesAppend(kept: seq<Scraped>, n: nat, ws0: seq<Write>, ws1: seq<Write>)
    requires n < |kept| && KeysDisjoint(kept) && SourcesDisjoint(ws0) && SourcesDisjoint(ws1)
    requires forall w :: w in ws0 && Creates(w) ==> w.row.status.Success? && w.row in kept[..n]
    requires forall w :: w in ws1 && Creates(w) ==> w.row.status.Success? && w.row == kept[n]
    ensures SourcesDisjoint(ws0 + ws1)
  {
    hide Overlap;
    var ws := ws0 + ws1;
    forall k, l | 0 <= k < l < |ws| && Creates(ws[k]) && Creates(ws[l])
      ensures !Overlap(ScrapedKeys(ws[k].row), ScrapedKeys(ws[l].row))
    {
      if k < |ws0| && |ws0| <= l {
        assert ws[k] in ws0 && ws[l] == ws1[l - |ws0|] && ws[l] in ws1;
        var i :| 0 <= i < n && kept[..n][i] == ws[k].row;
        assert kept[i] == ws[k].row;
      } else if |ws0| <= k {
        assert ws[k] == ws1[k - |ws0|] && ws[l] == ws1[l - |ws0|];
      }
    }
  }

  lemma {:induction false} RowsComplete(fams: seq<seq<PriceRow>>, kept: seq<Scraped>, m: nat, start: Plan, j: nat)
    requires PointsInto(KeyMap(fams), |fams|) && NonEmptyFamilies(fams)
    requires j < m <= |kept|
    ensures var p := RunRows(fams, KeyMap(fams), kept[..m], start);
      && (forall w :: w in RowWrites(fams, KeyMap(fams), kept[j]) ==> w in p.writes)
      && RowTouched(fams, KeyMap(fams), kept[j]) <= p.touched
  {
    hide KeyMap, RowWrites, RowTouched, RowChange;
    RunRowsStep(fams, KeyMap(fams), kept, m - 1, start);
    if j < m - 1 { RowsComplete(fams, kept, m - 1, start, j); }
  }

  /** Touching a family closes its extra rows. */
  lemma {:induction false} TouchedClosed(fams: seq<seq<PriceRow>>, kept: seq<Scraped>, m: nat, start: Plan)
    requires PointsInto(KeyMap(fams), |fams|) && NonEmptyFamilies(fams)
    requires m <= |kept| && start.touched == {}
    ensures var p := RunRows(fams, KeyMap(fams), kept[..m], start);
      forall g :: g in p.touched ==> g < |fams| && (|fams[g]| > 1 ==> Close(Ids(fams[g][1..])) in p.writes)
  {
    hide KeyMap, RowWrites, RowTouched, RowChange, Ids;
    if m > 0 {
      RunRowsStep(fams, KeyMap(fams), kept, m - 1, start);
      TouchedClosed(fams, kept, m - 1, start);
      RowTouchCloses(fams, kept[m - 1]);
    }
  }

  lemma RowTouchCloses(fams: seq<seq<PriceRow>>, s: Scraped)
    requires PointsInto(KeyMap(fams), |fams|) && NonEmptyFamilies(fams)
    ensures forall g :: g in RowTouched(fams, KeyMap(fams), s) ==>
      g < |fams| && (|fams[g]| > 1 ==> Close(Ids(fams[g][1..])) in RowWrites(fams, KeyMap(fams), s))
  {
    hide KeyMap, Ids;
  }

  /** The second loop adds nothing but closings of untouched families' extras. */
  lemma {:induction false} FamiliesPass(fams: seq<seq<PriceRow>>, m: nat, p: Plan)
    requires m <= |fams| && NonEmptyFamilies(fams)
    ensures var q := RunFamilies(fams, m, p);
      && p.writes <= q.writes && q.touched == p.touched
      && (forall k :: |p.writes| <= k < |q.writes| ==> ClosesExtras(fams, q.writes[k]))
      && (forall g :: 0 <= g < m && g !in p.touched && |fams[g]| > 1 ==> Close(Ids(fams[g][1..])) in q.writes)
  {
    if m > 0 {
      FamiliesPass(fams, m - 1, p);
      var q0 := RunFamilies(fams, m - 1, p);
      if |fams[m - 1]| > 1 { assert ClosesExtras(fams, Close(Ids(fams[m - 1][1..]))); }
    }
  }

  /** What holds of a plan's statements and of every first part of them. */
  ghost predicate PlanShape(fams: seq<seq<PriceRow>>, kept: seq<Scraped>, ws: seq<Write>)
    requires PointsInto(KeyMap(fams), |fams|) && NonEmptyFamilies(fams)
  {
    AllSanctioned(fams, kept, ws) && SourcesDisjoint(ws)
  }

  /** What a plan carried out to its end has done as well. */
  ghost predicate PlanComplete(fams: seq<seq<PriceRow>>, kept: seq<Scraped>, ws: seq<Write>)
    requires PointsInto(KeyMap(fams), |fams|) && NonEmptyFamilies(fams)
  {
    && (forall s, w :: s in kept && w in RowWrites(fams, KeyMap(fams), s) ==> w in ws)
    && (forall g :: 0 <= g < |fams| && |fams[g]| > 1 ==> Close(Ids(fams[g][1..])) in ws)
  }

  lemma Issued(fams: seq<seq<PriceRow>>, kept: seq<Scraped>, ws: seq<Write>, s: Scraped, w: Write) returns (k: nat)
    requires PointsInto(KeyMap(fams), |fams|) && NonEmptyFamilies(fams) && PlanComplete(fams, kept, ws)
    requires s in kept && w in RowWrites(fams, KeyMap(fams), s)
    ensures k < |ws| && ws[k] == w
  {
    assert w in ws;
    k :| 0 <= k < |ws| && ws[k] == w;
  }

  lemma PlanPrefix(fams: seq<seq<PriceRow>>, kept: seq<Scraped>, ws: seq<Write>, k: nat)
    requires PointsInto(KeyMap(fams), |fams|) && NonEmptyFamilies(fams) && PlanShape(fams, kept, ws) && k <= |ws|
    ensures PlanShape(fams, kept, ws[..k])
  {
    hide KeyMap, Sanctioned, Overlap;
    assert forall w :: w in ws[..k] ==> w in ws;
  }

  lemma PlanHasShape(fams: seq<seq<PriceRow>>, scraped: seq<Scraped>)
    requires PointsInto(KeyMap(fams), |fams|) && NonEmptyFamilies(fams)
    ensures PlanShape(fams, Kept(scraped), MakePlan(fams, scraped).writes)
    ensures PlanComplete(fams, Kept(scraped), MakePlan(fams, scraped).writes)
  {
    hide KeyMap, Kept, Dropped, RowWrites, RowTouched, RowChange, Overlap, RunRows, RunFamilies;
    var kept, start := Kept(scraped), Start(scraped);
    var p := RunRows(fams, KeyMap(fams), kept, start);
    var q := RunFamilies(fams, |fams|, p);
    assert kept[..|kept|] == kept;
    KeptIsDisjoint(scraped);
    RowsSanctioned(fams, kept, |kept|, start);
    TouchedClosed(fams, kept, |kept|, start);
    FamiliesPass(fams, |fams|, p);
    forall s, w | s in kept && w in RowWrites(fams, KeyMap(fams), s) ensures w in q.writes {
      var j :| 0 <= j < |kept| && kept[j] == s;
      RowsComplete(fams, kept, |kept|, start, j);
      PrefixMember(p.writes, q.writes, w);
    }
    forall g | 0 <= g < |fams| && |fams[g]| > 1 ensures Close(Ids(fams[g][1..])) in q.writes {
      if g in p.touched { PrefixMember(p.writes, q.writes, Close(Ids(fams[g][1..]))); }
    }
    LaterCloses(fams, kept, p.writes, q.writes);
  }

  lemma PrefixMember(p: seq<Write>, q: seq<Write>, w: Write)
    requires p <= q && w in p
    ensures w in q
  {
    assert q == p + q[|p|..];
  }

  lemma LaterCloses(fams: seq<seq<PriceRow>>, kept: seq<Scraped>, p: seq<Write>, q: seq<Write>)
    requires PointsInto(KeyMap(fams), |fams|) && NonEmptyFamilies(fams)
    requires p <= q && AllSanctioned(fams, kept, p) && SourcesDisjoint(p)
    requires forall k :: |p| <= k < |q| ==> ClosesExtras(fams, q[k])
    ensures AllSanctioned(fams, kept, q) && SourcesDisjoint(q)
  {
    hide KeyMap, Overlap;
    forall w | w in q ensures Sanctioned(fams, kept, w) {
      var k :| 0 <= k < |q| && q[k] == w;
      if k < |p| { assert p[k] == w; assert w in p; }
    }
    forall k, l | 0 <= k < l < |q| && Creates(q[k]) && Creates(q[l])
      ensures !Overlap(ScrapedKeys(q[k].row), ScrapedKeys(q[l].row))
    {
      assert k < |p| && l < |p| && q[k] == p[k] && q[l] == p[l];
    }
  }
}
