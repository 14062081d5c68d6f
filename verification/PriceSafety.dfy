/** What every run of the price writer keeps: the diff adds up, priced models
    stay priced at every prefix of the writes, and afterwards no two open rows
    can be matched by the same key. */
module PriceSafety {
  import opened Options
  import opened Sorting
  import opened FamilyKeys
  import opened UnionFind
  import opened PriceBook
  import opened PriceWriter
  import opened PricePlanFacts

  ghost function FamsOf(b: Book): seq<seq<PriceRow>> {
    FamiliesOf(OpenRows(b.rows), RowKeys)
  }

  ghost function WritesOf(b: Book, scraped: seq<Scraped>): seq<Write> {
    PlanFor(b.rows, scraped).writes
  }

  /** The table after a complete run. */
  ghost function RunOf(b: Book, scraped: seq<Scraped>, clock: nat -> int): Book {
    ApplyAll(b, WritesOf(b, scraped), clock)
  }

  // ----- every run: the counters add up to the length of the diff -----

  lemma {:induction false} RowsCount(fams: seq<seq<PriceRow>>, byKey: map<Key, nat>, kept: seq<Scraped>, start: Plan)
    requires PointsInto(byKey, |fams|) && NonEmptyFamilies(fams)
    requires start.upserted + start.unaltered + start.flagged == |start.changes|
    ensures var p := RunRows(fams, byKey, kept, start);
      && p.upserted + p.unaltered + p.flagged == |p.changes| == |start.changes| + |kept|
      && start.changes <= p.changes
      && forall i :: 0 <= i < |kept| ==> p.changes[|start.changes| + i] == RowChange(fams, byKey, kept[i])
  {
    hide Matched, RowChange, RowWrites, RowTouched, RunRows;
    if kept == [] {
      RunRowsNil(fams, byKey, start);
    } else {
      var n := |kept| - 1;
      RowsCount(fams, byKey, kept[..n], start);
      RunRowsStep(fams, byKey, kept, n, start);
      assert kept[..n + 1] == kept;
      OneMoreRow(RunRows(fams, byKey, kept[..n], start), RowChange(fams, byKey, kept[n]),
        RowWrites(fams, byKey, kept[n]), RowTouched(fams, byKey, kept[n]));
    }
  }

  /** A row adds one entry to the diff and one to a counter. */
  lemma OneMoreRow(p: Plan, c: Change, ws: seq<Write>, touched: set<nat>)
    ensures var q := PriceWriter.AddRow(p, c, ws, touched);
      && q.changes == p.changes + [c]
      && q.upserted + q.unaltered + q.flagged == p.upserted + p.unaltered + p.flagged + 1
  {
  }

  /** How many families below m keep duplicates that no scraped row met. */
  function Leftovers(fams: seq<seq<PriceRow>>, touched: set<nat>, m: nat): nat
    requires m <= |fams|
  {
    if m == 0 then 0
    else Leftovers(fams, touched, m - 1) + (if m - 1 !in touched && |fams[m - 1]| > 1 then 1 else 0)
  }

  lemma {:induction false} FamiliesCount(fams: seq<seq<PriceRow>>, m: nat, p: Plan)
    requires m <= |fams| && NonEmptyFamilies(fams)
    requires p.upserted + p.unaltered + p.flagged == |p.changes|
    ensures var q := RunFamilies(fams, m, p);
      && q.upserted + q.unaltered + q.flagged == |q.changes|
      && q.touched == p.touched && p.changes <= q.changes
      && |q.changes| == |p.changes| + Leftovers(fams, p.touched, m)
  {
    if m > 0 { FamiliesCount(fams, m - 1, p); }
  }

  // ----- what the entries of the diff say -----

  /** The entry of a kept row: what became of it, under which id, and the prices
      before and after when it was written. */
  ghost predicate Reports(fams: seq<seq<PriceRow>>, s: Scraped, c: Change)
    requires PointsInto(KeyMap(fams), |fams|) && NonEmptyFamilies(fams)
  {
    if !s.status.Success? then c == Change(s.modelId, Flagged, None, None, NotWritten(s.status))
    else match Matched(fams, KeyMap(fams), s)
      case None => c == Change(s.modelId, Inserted, None, Some(Price(s.input, s.output)), NoNote)
      case Some(g) =>
        var was := fams[g][0];
        && c.modelId == was.modelId
        && c.note == (if |fams[g]| > 1 then ClosedDuplicates(|fams[g]| - 1) else NoNote)
        && (was.input == s.input && was.output == s.output && was.cached == s.cached ==>
              c.kind.Unchanged? && c.before.None? && c.after.None?)
        && (was.input != s.input || was.output != s.output || was.cached != s.cached ==>
              && c.kind.Versioned?
              && c.before == Some(Price(was.input, was.output)) && c.after == Some(Price(s.input, s.output)))
  }

  lemma ChangeReports(fams: seq<seq<PriceRow>>, s: Scraped)
    requires PointsInto(KeyMap(fams), |fams|) && NonEmptyFamilies(fams)
    ensures Reports(fams, s, RowChange(fams, KeyMap(fams), s))
  {
    hide KeyMap, Matched;
  }

  /** The entry of a row whose keys an earlier row claims. */
  ghost predicate ReportsDuplicate(rows: seq<Scraped>, c: Change) {
    exists s :: s in rows && s.status.Success? && c == Change(s.modelId, Unchanged, None, None, DuplicateOnPage)
  }

  lemma {:induction false} DroppedReports(rows: seq<Scraped>)
    ensures forall c :: c in Dropped(rows) ==> ReportsDuplicate(rows, c)
  {
    hide Kept, SeenKeys, ScrapedKeys;
    if rows != [] {
      var n := |rows| - 1;
      DroppedReports(rows[..n]);
      assert rows == rows[..n] + [rows[n]];
      forall c | c in Dropped(rows) ensures ReportsDuplicate(rows, c) {
        if c in Dropped(rows[..n]) {
          var s :| s in rows[..n] && s.status.Success? && c == Change(s.modelId, Unchanged, None, None, DuplicateOnPage);
          assert s in rows;
        } else {
          assert c == DuplicateChange(rows[n]) && rows[n] in rows;
        }
      }
    }
  }

  /** The entry of a family that no scraped row met and that loses its duplicates. */
  ghost predicate ReportsLeftover(fams: seq<seq<PriceRow>>, touched: set<nat>, c: Change)
    requires NonEmptyFamilies(fams)
  {
    exists g :: 0 <= g < |fams| && g !in touched && |fams[g]| > 1 && IsLeftover(fams[g], c)
  }

  ghost predicate IsLeftover(f: seq<PriceRow>, c: Change)
    requires f != []
  {
    && c.modelId == f[0].modelId && c.kind.Unchanged? && c.before.None? && c.after.None? && c.note.NotOnPage?
    && |c.note.closed| == |f| - 1 && forall i :: 0 < i < |f| ==> c.note.closed[i - 1] == f[i].modelId
  }

  lemma {:induction false} LeftoversReport(fams: seq<seq<PriceRow>>, m: nat, p: Plan)
    requires m <= |fams| && NonEmptyFamilies(fams)
    ensures var q := RunFamilies(fams, m, p);
      && p.changes <= q.changes && q.touched == p.touched
      && forall i :: |p.changes| <= i < |q.changes| ==> ReportsLeftover(fams, p.touched, q.changes[i])
  {
    if m > 0 {
      LeftoversReport(fams, m - 1, p);
      if m - 1 !in p.touched && |fams[m - 1]| > 1 { assert IsLeftover(fams[m - 1], LeftoverChange(fams[m - 1])); }
    }
  }

  function Upserts(): Change -> bool { (c: Change) => c.kind.Inserted? || c.kind.Versioned? }

  function Leaves(): Change -> bool { (c: Change) => c.kind.Unchanged? }

  function Flags(): Change -> bool { (c: Change) => c.kind.Flagged? }

  /** Each counter says how many entries of its kind there are. */
  ghost predicate Tallies(p: Plan) {
    && p.upserted == Count(p.changes, Upserts())
    && p.unaltered == Count(p.changes, Leaves())
    && p.flagged == Count(p.changes, Flags())
  }

  lemma AddRowTallies(p: Plan, c: Change, ws: seq<Write>, touched: set<nat>)
    requires Tallies(p)
    ensures Tallies(PriceWriter.AddRow(p, c, ws, touched))
  {
    hide Count;
    CountAppend(p.changes, c, Upserts());
    CountAppend(p.changes, c, Leaves());
    CountAppend(p.changes, c, Flags());
  }

  lemma {:induction false} DroppedTally(changes: seq<Change>)
    requires forall c :: c in changes ==> c.kind.Unchanged?
    ensures Count(changes, Upserts()) == 0 && Count(changes, Leaves()) == |changes| && Count(changes, Flags()) == 0
  {
    if changes != [] {
      assert changes[0] in changes && forall c :: c in changes[1..] ==> c in changes;
      DroppedTally(changes[1..]);
    }
  }

  lemma StartTallies(scraped: seq<Scraped>)
    ensures Tallies(Start(scraped))
  {
    hide Dropped, Count;
    DroppedReports(scraped);
    DroppedTally(Dropped(scraped));
  }

  lemma {:induction false} RowsTally(fams: seq<seq<PriceRow>>, byKey: map<Key, nat>, kept: seq<Scraped>, start: Plan)
    requires PointsInto(byKey, |fams|) && NonEmptyFamilies(fams) && Tallies(start)
    ensures Tallies(RunRows(fams, byKey, kept, start))
  {
    hide Matched, RowChange, RowWrites, RowTouched, Tallies;
    if kept != [] {
      var n := |kept| - 1;
      RowsTally(fams, byKey, kept[..n], start);
      AddRowTallies(RunRows(fams, byKey, kept[..n], start), RowChange(fams, byKey, kept[n]),
        RowWrites(fams, byKey, kept[n]), RowTouched(fams, byKey, kept[n]));
    }
  }

  lemma {:induction false} FamiliesTally(fams: seq<seq<PriceRow>>, m: nat, p: Plan)
    requires m <= |fams| && NonEmptyFamilies(fams) && Tallies(p)
    ensures Tallies(RunFamilies(fams, m, p))
  {
    hide Tallies, LeftoverChange, StaleWrites;
    if m > 0 {
      FamiliesTally(fams, m - 1, p);
      AddRowTallies(RunFamilies(fams, m - 1, p), LeftoverChange(fams[m - 1]), StaleWrites(fams[m - 1]), {});
    }
  }

  /** What the diff of a plan consists of: an entry for each dropped row, each kept
      row's own, in order, and one per family with duplicates no row met. */
  ghost predicate DiffAddsUp(fams: seq<seq<PriceRow>>, scraped: seq<Scraped>, p: Plan)
    requires PointsInto(KeyMap(fams), |fams|) && NonEmptyFamilies(fams)
  {
    var kept, dropped := Kept(scraped), |scraped| - |Kept(scraped)|;
    && Tallies(p) && p.upserted + p.unaltered + p.flagged == |p.changes|
    && 0 <= dropped && |p.changes| == |scraped| + Leftovers(fams, p.touched, |fams|)
    && (forall i :: 0 <= i < dropped ==> ReportsDuplicate(scraped, p.changes[i]))
    && (forall i :: 0 <= i < |kept| ==> Reports(fams, kept[i], p.changes[dropped + i]))
    && (forall i :: |scraped| <= i < |p.changes| ==> ReportsLeftover(fams, p.touched, p.changes[i]))
  }

  lemma PlanAddsUp(fams: seq<seq<PriceRow>>, scraped: seq<Scraped>)
    requires PointsInto(KeyMap(fams), |fams|) && NonEmptyFamilies(fams)
    ensures DiffAddsUp(fams, scraped, MakePlan(fams, scraped))
  {
    hide Kept, Dropped, RunRows, RunFamilies, KeyMap, RowChange, Leftovers, Reports, ReportsDuplicate, ReportsLeftover, Tallies;
    var kept, dropped, start := Kept(scraped), Dropped(scraped), Start(scraped);
    var p := RunRows(fams, KeyMap(fams), kept, start);
    KeptIsDisjoint(scraped);
    StartTallies(scraped);
    RowsTally(fams, KeyMap(fams), kept, start);
    FamiliesTally(fams, |fams|, p);
    RowsCount(fams, KeyMap(fams), kept, start);
    FamiliesCount(fams, |fams|, p);
    LeftoversReport(fams, |fams|, p);
    DroppedReports(scraped);
    var q := RunFamilies(fams, |fams|, p);
    forall i | 0 <= i < |dropped| ensures ReportsDuplicate(scraped, q.changes[i]) {
      assert q.changes[i] == p.changes[i] == dropped[i];
    }
    forall i | 0 <= i < |kept| ensures Reports(fams, kept[i], q.changes[|dropped| + i]) {
      ChangeReports(fams, kept[i]);
    }
  }

  /** upserted + unchanged + flagged is the length of the diff, in which every
      scraped row has its own entry. */
  lemma CountsAddUp(rows: seq<PriceRow>, scraped: seq<Scraped>)
    ensures var fams := FamiliesOf(OpenRows(rows), RowKeys);
      && PointsInto(KeyMap(fams), |fams|) && NonEmptyFamilies(fams)
      && DiffAddsUp(fams, scraped, PlanFor(rows, scraped))
  {
    hide MakePlan, KeyMap, DiffAddsUp, FamiliesOf, OpenRows;
    FamiliesNonEmpty(OpenRows(rows));
    KeyMapPoints(FamiliesOf(OpenRows(rows), RowKeys));
    PlanAddsUp(FamiliesOf(OpenRows(rows), RowKeys), scraped);
  }

  // ----- the snapshot of a valid table -----

  /** Everything known about the families and statements of one run. */
  ghost predicate Snapshot(b: Book, fams: seq<seq<PriceRow>>, kept: seq<Scraped>, ws: seq<Write>) {
    && ValidBook(b)
    && Grouped(fams, OpenRows(b.rows))
    && (forall r :: r in OpenRows(b.rows) <==> r in b.rows && Open(r))
    && PointsInto(KeyMap(fams), |fams|)
    && PlanShape(fams, kept, ws)
  }

  lemma TakeSnapshot(b: Book, scraped: seq<Scraped>)
    requires ValidBook(b)
    ensures Snapshot(b, FamsOf(b), Kept(scraped), WritesOf(b, scraped)) && NonEmptyFamilies(FamsOf(b))
    ensures PointsInto(KeyMap(FamsOf(b)), |FamsOf(b)|) && PlanComplete(FamsOf(b), Kept(scraped), WritesOf(b, scraped))
  {
    hide KeyMap, Kept, MakePlan, PlanShape, PlanComplete, Grouped, FamiliesOf, OpenRows;
    OpenRowsAre(b.rows);
    FamiliesOfRows(OpenRows(b.rows));
    FamiliesNonEmpty(OpenRows(b.rows));
    KeyMapPoints(FamsOf(b));
    PlanHasShape(FamsOf(b), scraped);
  }

  /** A run that stops early: the same holds of what it has carried out. */
  lemma SnapshotPrefix(b: Book, fams: seq<seq<PriceRow>>, kept: seq<Scraped>, ws: seq<Write>, k: nat)
    requires Snapshot(b, fams, kept, ws) && k <= |ws|
    ensures Snapshot(b, fams, kept, ws[..k])
  {
    hide KeyMap, PlanShape;
    PlanPrefix(fams, kept, ws, k);
  }

  lemma IdsDetermine(b: Book, r: PriceRow, s: PriceRow)
    requires ValidBook(b) && r in b.rows && s in b.rows && r.id == s.id
    ensures r == s
  {
    var i :| 0 <= i < |b.rows| && b.rows[i] == r;
    var j :| 0 <= j < |b.rows| && b.rows[j] == s;
    assert i == j;
  }

  lemma FamilyRowOpen(b: Book, fams: seq<seq<PriceRow>>, kept: seq<Scraped>, ws: seq<Write>, g: nat, i: nat)
    requires Snapshot(b, fams, kept, ws) && g < |fams| && i < |fams[g]|
    ensures fams[g][i] in b.rows && Open(fams[g][i]) && fams[g][i].id < b.nextId
  {
    assert fams[g][i] in fams[g];
    assert InFamily(fams, fams[g][i]);
  }

  lemma OneFamily(b: Book, fams: seq<seq<PriceRow>>, kept: seq<Scraped>, ws: seq<Write>, g: nat, i: nat, h: nat, j: nat)
    requires Snapshot(b, fams, kept, ws) && g < |fams| && i < |fams[g]| && h < |fams| && j < |fams[h]|
    requires fams[g][i].id == fams[h][j].id
    ensures g == h && i == j
  {
    hide KeyMap, PlanShape;
    FamilyRowOpen(b, fams, kept, ws, g, i);
    FamilyRowOpen(b, fams, kept, ws, h, j);
    IdsDetermine(b, fams[g][i], fams[h][j]);
    SelfOverlap(fams[g][i]);
    assert fams[g][i] in fams[g] && fams[h][j] in fams[h];
    assert g == h;
    assert DistinctRowIds(fams[g]);
  }

  lemma SanctionedAt(fams: seq<seq<PriceRow>>, kept: seq<Scraped>, ws: seq<Write>, k: nat)
    requires PointsInto(KeyMap(fams), |fams|) && NonEmptyFamilies(fams)
    requires PlanShape(fams, kept, ws) && k < |ws|
    ensures Sanctioned(fams, kept, ws[k])
  {
    assert ws[k] in ws;
  }

  lemma SnapshotPlan(b: Book, fams: seq<seq<PriceRow>>, kept: seq<Scraped>, ws: seq<Write>)
    requires Snapshot(b, fams, kept, ws)
    ensures PointsInto(KeyMap(fams), |fams|) && PlanShape(fams, kept, ws)
  {
  }

  lemma ExtraRow(fams: seq<seq<PriceRow>>, w: Write, id: nat) returns (h: nat, t: nat)
    requires ClosesExtras(fams, w) && id in w.ids
    ensures h < |fams| && t + 1 < |fams[h]| && fams[h][t + 1].id == id
  {
    h :| 0 <= h < |fams| && |fams[h]| > 1 && w.ids == Ids(fams[h][1..]);
    t :| 0 <= t < |w.ids| && w.ids[t] == id;
    assert fams[h][1..][t] == fams[h][t + 1];
  }

  /** A statement closes rows of the snapshot only, and the newest row of a
      family is closed by its own replacement only. */
  lemma WhatIsClosed(b: Book, fams: seq<seq<PriceRow>>, kept: seq<Scraped>, ws: seq<Write>, k: nat, id: nat)
    requires Snapshot(b, fams, kept, ws) && k < |ws| && id in Closing(ws[k])
    ensures id < b.nextId
    ensures forall g :: 0 <= g < |fams| && id == fams[g][0].id ==> ws[k].Version? && ws[k].current == fams[g][0]
  {
    hide KeyMap, Snapshot, Grouped, PlanShape, Matched;
    assert PointsInto(KeyMap(fams), |fams|) && NonEmptyFamilies(fams) && PlanShape(fams, kept, ws) by {
      HeadsExist(b, fams, kept, ws);
      SnapshotPlan(b, fams, kept, ws);
    }
    var w := ws[k];
    SanctionedAt(fams, kept, ws, k);
    if w.Close? {
      var h, t := ExtraRow(fams, w, id);
      FamilyRowOpen(b, fams, kept, ws, h, t + 1);
      forall g | 0 <= g < |fams| ensures id != fams[g][0].id {
        if id == fams[g][0].id { OneFamily(b, fams, kept, ws, g, 0, h, t + 1); }
      }
    } else {
      var h := Matched(fams, KeyMap(fams), w.row).value;
      FamilyRowOpen(b, fams, kept, ws, h, 0);
      forall g | 0 <= g < |fams| && id == fams[g][0].id ensures w.current == fams[g][0] {
        OneFamily(b, fams, kept, ws, g, 0, h, 0);
      }
    }
  }

  lemma PrefixNamesOld(b: Book, fams: seq<seq<PriceRow>>, kept: seq<Scraped>, ws: seq<Write>, k: nat)
    requires Snapshot(b, fams, kept, ws) && k <= |ws|
    ensures NamesOld(ws[..k], b.nextId)
  {
    hide Snapshot;
    forall l, x | 0 <= l < |ws[..k]| && x in Closing(ws[..k][l]) ensures x < b.nextId {
      WhatIsClosed(b, fams, kept, ws, l, x);
    }
  }

  lemma NewestReplaced(b: Book, fams: seq<seq<PriceRow>>, kept: seq<Scraped>, ws: seq<Write>, k: nat, g: nat)
      returns (l: nat)
    requires Snapshot(b, fams, kept, ws) && k <= |ws| && g < |fams|
    requires NonEmptyFamilies(fams) && ClosedBy(ws[..k], fams[g][0].id)
    ensures l < k && ws[l].Version? && ws[l].current == fams[g][0]
  {
    l :| 0 <= l < |ws[..k]| && fams[g][0].id in Closing(ws[..k][l]);
    WhatIsClosed(b, fams, kept, ws, l, fams[g][0].id);
  }

  // ----- every prefix of every run: priced models stay priced -----

  ghost predicate Priced(b: Book, m: Label) {
    exists i :: 0 <= i < |b.rows| && Open(b.rows[i]) && b.rows[i].modelId == m
  }

  lemma LedByNewest(b: Book, g: nat, r: PriceRow)
    requires g < |FamsOf(b)| && r in FamsOf(b)[g]
    ensures r.from < FamsOf(b)[g][0].from || (r.from == FamsOf(b)[g][0].from && r.created <= FamsOf(b)[g][0].created)
  {
    hide FamiliesOf, OpenRows;
    FamilyLedByNewest(b.rows, g, r);
  }

  /** However far a run gets, and whether or not two scraped rows met the same
      family, every family with an open row at the start still has one, under
      its newest row's id. */
  lemma PricedModelsNeverVanish(b: Book, scraped: seq<Scraped>, clock: nat -> int, k: nat, g: nat)
    requires ValidBook(b) && k <= |WritesOf(b, scraped)| && g < |FamsOf(b)|
    ensures FamsOf(b)[g] != []
    ensures forall r :: r in FamsOf(b)[g] ==>
      r.from < FamsOf(b)[g][0].from || (r.from == FamsOf(b)[g][0].from && r.created <= FamsOf(b)[g][0].created)
    ensures Priced(ApplyAll(b, WritesOf(b, scraped)[..k], clock), FamsOf(b)[g][0].modelId)
  {
    hide Kept, FamsOf, WritesOf, ApplyAll, OpenRows, KeyMap, PlanShape;
    var fams, kept, ws := FamsOf(b), Kept(scraped), WritesOf(b, scraped);
    forall x: PriceRow | x in FamsOf(b)[g]
      ensures x.from < FamsOf(b)[g][0].from || (x.from == FamsOf(b)[g][0].from && x.created <= FamsOf(b)[g][0].created)
    {
      LedByNewest(b, g, x);
    }
    TakeSnapshot(b, scraped);
    PrefixNamesOld(b, fams, kept, ws, k);
    ShapeOf(b, ws[..k], clock);
    var r, after := fams[g][0], ApplyAll(b, ws[..k], clock);
    FamilyRowOpen(b, fams, kept, ws, g, 0);
    var i :| 0 <= i < |b.rows| && b.rows[i] == r;
    if ClosedBy(ws[..k], r.id) {
      var l := NewestReplaced(b, fams, kept, ws, k, g);
      NewRowPriced(b, ws[..k], clock, after, l);
      assert ws[..k][l] == ws[l];
    } else {
      assert after.rows[i] == r;
    }
  }

  lemma NewRowPriced(b: Book, ws: seq<Write>, clock: nat -> int, after: Book, l: nat)
    requires Shape(b, ws, clock, after) && l < |ws| && Creates(ws[l])
    ensures Priced(after, NewModelId(ws[l]))
  {
    hide CreatedCount;
    assert after.rows[Slot(b, ws, l)] == NewRow(ws[l], b.nextId + CreatedCount(ws[..l]), clock(l));
  }

  // ----- complete runs: open rows share no key -----

  ghost predicate NoSharedKeys(rows: seq<PriceRow>) {
    forall i, j :: 0 <= i < j < |rows| && Open(rows[i]) && Open(rows[j]) ==> !Overlap(RowKeys(rows[i]), RowKeys(rows[j]))
  }

  predicate Wanted(kept: seq<Scraped>, s: Scraped) { s in kept && s.status.Success? }

  /** Each scraped row to be written meets at most one family, and no two meet
      the same one. */
  ghost predicate Unambiguous(fams: seq<seq<PriceRow>>, kept: seq<Scraped>) {
    && (forall s, g, h :: Wanted(kept, s) && 0 <= g < |fams| && 0 <= h < |fams| ==>
          (Hits(fams, g, s) && Hits(fams, h, s) ==> g == h))
    && (forall s, t, g :: Wanted(kept, s) && Wanted(kept, t) && 0 <= g < |fams| ==>
          (Hits(fams, g, s) && Hits(fams, g, t) ==> s == t))
  }

  function NewKeys(w: Write): seq<Key>
    requires Creates(w)
  {
    KeysOf(NewModelId(w), w.row.modelName)
  }

  lemma DifferentFamilies(b: Book, fams: seq<seq<PriceRow>>, kept: seq<Scraped>, ws: seq<Write>, g: nat, h: nat)
    requires Snapshot(b, fams, kept, ws) && g < |fams| && h < |fams| && g != h
    ensures fams[g] != [] && fams[h] != [] && !Overlap(RowKeys(fams[g][0]), RowKeys(fams[h][0]))
  {
    hide KeyMap, PlanShape;
    assert fams[g][0] in fams[g] && fams[h][0] in fams[h];
  }

  // ----- collisions among the statements of a run -----

  /** The name that s brings along is one that r answers to. */
  predicate NameMeets(s: Scraped, r: PriceRow) {
    s.modelName.versioned && NameKey(s.modelName.family) in RowKeys(r)
  }

  ghost predicate Renewed(ws: seq<Write>, r: PriceRow) {
    exists l :: 0 <= l < |ws| && ws[l].Version? && ws[l].current == r
  }

  /** No row is replaced twice. */
  ghost predicate ReplacedOnce(ws: seq<Write>) {
    forall k, l :: 0 <= k < l < |ws| && ws[k].Version? && ws[l].Version? ==> ws[k].current != ws[l].current
  }

  /** The statement replaces another row by one that r answers to by name. */
  predicate Borrows(w: Write, r: PriceRow) { w.Version? && w.current != r && NameMeets(w.row, r) }

  /** Whoever replaces a row under a name of another family's newest row finds
      that one replaced as well. */
  ghost predicate NamesFree(fams: seq<seq<PriceRow>>, ws: seq<Write>)
    requires NonEmptyFamilies(fams)
  {
    forall k, h :: 0 <= k < |ws| && 0 <= h < |fams| && Borrows(ws[k], fams[h][0]) ==> Renewed(ws, fams[h][0])
  }

  ghost predicate WritesClear(fams: seq<seq<PriceRow>>, ws: seq<Write>)
    requires NonEmptyFamilies(fams)
  {
    ReplacedOnce(ws) && NamesFree(fams, ws)
  }

  /** Of each family at most the newest row is left open. */
  ghost predicate ExtrasClosed(fams: seq<seq<PriceRow>>, ws: seq<Write>) {
    forall g, t :: 0 <= g < |fams| && 0 < t < |fams[g]| ==> ClosedBy(ws, fams[g][t].id)
  }

  lemma CompleteClosesExtras(fams: seq<seq<PriceRow>>, kept: seq<Scraped>, ws: seq<Write>)
    requires PointsInto(KeyMap(fams), |fams|) && NonEmptyFamilies(fams) && PlanComplete(fams, kept, ws)
    ensures ExtrasClosed(fams, ws)
  {
    hide KeyMap;
    forall g, t | 0 <= g < |fams| && 0 < t < |fams[g]| ensures ClosedBy(ws, fams[g][t].id) {
      var w := Close(Ids(fams[g][1..]));
      assert w in ws;
      var k :| 0 <= k < |ws| && ws[k] == w;
      assert fams[g][1..][t - 1] == fams[g][t];
      assert w.ids[t - 1] == fams[g][t].id;
    }
  }

  lemma VersionFamily(b: Book, fams: seq<seq<PriceRow>>, kept: seq<Scraped>, ws: seq<Write>, k: nat) returns (g: nat)
    requires Snapshot(b, fams, kept, ws) && NonEmptyFamilies(fams) && k < |ws| && ws[k].Version?
    ensures g < |fams| && ws[k].current == fams[g][0]
  {
    hide KeyMap, Grouped, Matched;
    SanctionedAt(fams, kept, ws, k);
    g := Matched(fams, KeyMap(fams), ws[k].row).value;
  }

  /** A family's surviving newest row and a new row share no key. */
  lemma OldNewDisjoint(b: Book, fams: seq<seq<PriceRow>>, kept: seq<Scraped>, ws: seq<Write>, g: nat, k: nat)
    requires Snapshot(b, fams, kept, ws) && NonEmptyFamilies(fams) && NamesFree(fams, ws)
    requires g < |fams| && k < |ws| && Creates(ws[k]) && !Renewed(ws, fams[g][0])
    ensures !Overlap(RowKeys(fams[g][0]), NewKeys(ws[k]))
  {
    hide KeyMap, Overlap, Matched, PlanShape, Grouped, KeysOf;
    var r, w := fams[g][0], ws[k];
    if w.Insert? {
      SanctionedAt(fams, kept, ws, k);
      MatchedHits(fams, w.row);
      NotHitDisjoint(fams, g, w.row);
    } else {
      var m := VersionFamily(b, fams, kept, ws, k);
      assert Renewed(ws, w.current);
      assert !Borrows(w, r);
      DifferentFamilies(b, fams, kept, ws, g, m);
      VersionAvoids(r, w.current, w.row);
    }
  }

  lemma VersionAvoids(r: PriceRow, c: PriceRow, s: Scraped)
    requires !Overlap(RowKeys(r), RowKeys(c)) && !NameMeets(s, r)
    ensures !Overlap(RowKeys(r), KeysOf(c.modelId, s.modelName))
  {
    assert IdKey(c.modelId.family) in RowKeys(c);
    assert IdKey(c.modelId.family) !in RowKeys(r);
  }

  lemma NotHitDisjoint(fams: seq<seq<PriceRow>>, g: nat, s: Scraped)
    requires g < |fams| && fams[g] != [] && !Hits(fams, g, s)
    ensures !Overlap(RowKeys(fams[g][0]), ScrapedKeys(s))
  {
    assert fams[g][0] in fams[g];
  }

  /** Keys that avoid both a row and a scraped row avoid the row's new version. */
  lemma MixedDisjoint(ks: seq<Key>, c: PriceRow, s: Scraped)
    requires !Overlap(ks, RowKeys(c)) && !Overlap(ks, ScrapedKeys(s))
    ensures !Overlap(ks, KeysOf(c.modelId, s.modelName))
  {
    forall k | k in ks ensures k !in KeysOf(c.modelId, s.modelName) {
      assert k !in RowKeys(c) && k !in ScrapedKeys(s);
    }
  }

  /** Two new rows share no key. */
  lemma NewNewDisjoint(b: Book, fams: seq<seq<PriceRow>>, kept: seq<Scraped>, ws: seq<Write>, k: nat, l: nat)
    requires Snapshot(b, fams, kept, ws) && NonEmptyFamilies(fams) && ReplacedOnce(ws)
    requires k < l < |ws| && Creates(ws[k]) && Creates(ws[l])
    ensures !Overlap(NewKeys(ws[k]), NewKeys(ws[l]))
  {
    hide KeyMap, Overlap, Matched, Grouped, KeysOf, Sanctioned;
    var v, w := ws[k], ws[l];
    assert !Overlap(ScrapedKeys(v.row), ScrapedKeys(w.row));
    OverlapSym(ScrapedKeys(v.row), ScrapedKeys(w.row));
    if v.Insert? && w.Insert? {
    } else if v.Insert? {
      InsertVersionDisjoint(b, fams, kept, ws, k, l);
    } else if w.Insert? {
      InsertVersionDisjoint(b, fams, kept, ws, l, k);
      OverlapSym(NewKeys(v), NewKeys(w));
    } else {
      var g := VersionFamily(b, fams, kept, ws, k);
      var h := VersionFamily(b, fams, kept, ws, l);
      DifferentFamilies(b, fams, kept, ws, g, h);
      VersionsDisjoint(v.current, v.row, w.current, w.row);
    }
  }

  lemma ScrapedSelf(s: Scraped)
    ensures Overlap(ScrapedKeys(s), ScrapedKeys(s))
  {
    assert IdKey(s.modelId.family) in ScrapedKeys(s);
  }

  lemma OverlapSym(a: seq<Key>, b: seq<Key>)
    ensures Overlap(a, b) <==> Overlap(b, a)
  {
  }

  lemma InsertVersionDisjoint(b: Book, fams: seq<seq<PriceRow>>, kept: seq<Scraped>, ws: seq<Write>, k: nat, l: nat)
    requires Snapshot(b, fams, kept, ws) && NonEmptyFamilies(fams) && k < |ws| && l < |ws|
    requires ws[k].Insert? && ws[l].Version? && !Overlap(ScrapedKeys(ws[k].row), ScrapedKeys(ws[l].row))
    ensures !Overlap(NewKeys(ws[k]), NewKeys(ws[l]))
  {
    hide KeyMap, Overlap, Matched, Grouped, KeysOf;
    var s, c, t := ws[k].row, ws[l].current, ws[l].row;
    SanctionedAt(fams, kept, ws, k);
    MatchedHits(fams, s);
    var g := VersionFamily(b, fams, kept, ws, l);
    NotHitDisjoint(fams, g, s);
    OverlapSym(RowKeys(c), ScrapedKeys(s));
    MixedDisjoint(ScrapedKeys(s), c, t);
  }

  lemma VersionsDisjoint(c: PriceRow, s: Scraped, d: PriceRow, t: Scraped)
    requires !Overlap(RowKeys(c), RowKeys(d)) && !Overlap(ScrapedKeys(s), ScrapedKeys(t))
    ensures !Overlap(KeysOf(c.modelId, s.modelName), KeysOf(d.modelId, t.modelName))
  {
    forall k | k in KeysOf(c.modelId, s.modelName) ensures k !in KeysOf(d.modelId, t.modelName) {
      if k == IdKey(c.modelId.family) {
        assert k in RowKeys(c);
        assert k !in RowKeys(d);
      } else {
        assert k in ScrapedKeys(s);
        assert k !in ScrapedKeys(t);
      }
    }
  }

  /** Where an open row of the table after some statements comes from: it is a
      family's newest row, not replaced, or it was created by a statement. */
  datatype Origin = Survivor(family: nat) | Created(write: nat)

  ghost predicate IsOrigin(b: Book, fams: seq<seq<PriceRow>>, ws: seq<Write>, after: Book, i: nat, o: Origin) {
    match o
    case Survivor(g) =>
      && i < |b.rows| && i < |after.rows| && g < |fams| && fams[g] != [] && after.rows[i] == b.rows[i] == fams[g][0]
      && !Renewed(ws, fams[g][0])
    case Created(k) =>
      && k < |ws| && Creates(ws[k]) && i < |after.rows| && i == Slot(b, ws, k)
      && RowKeys(after.rows[i]) == NewKeys(ws[k]) && after.rows[i].modelId == NewModelId(ws[k])
      && !PricesDiffer(after.rows[i], ws[k].row)
  }

  lemma RenewedCloses(ws: seq<Write>, r: PriceRow)
    ensures Renewed(ws, r) ==> ClosedBy(ws, r.id)
  {
    if Renewed(ws, r) {
      var k :| 0 <= k < |ws| && ws[k].Version? && ws[k].current == r;
      assert r.id in Closing(ws[k]);
    }
  }

  lemma OriginOf(b: Book, fams: seq<seq<PriceRow>>, kept: seq<Scraped>, ws: seq<Write>, clock: nat -> int, after: Book, i: nat)
      returns (o: Origin)
    requires Snapshot(b, fams, kept, ws) && ExtrasClosed(fams, ws) && Shape(b, ws, clock, after)
    requires i < |after.rows| && Open(after.rows[i])
    ensures IsOrigin(b, fams, ws, after, i, o)
  {
    hide KeyMap, CreatedCount, PlanShape;
    if i < |b.rows| {
      var r := b.rows[i];
      assert after.rows[i] == r;
      assert InFamily(fams, r);
      var g :| 0 <= g < |fams| && r in fams[g];
      var t :| 0 <= t < |fams[g]| && fams[g][t] == r;
      assert t == 0;
      RenewedCloses(ws, r);
      o := Survivor(g);
    } else {
      assert SlotFilled(b, ws, i);
      var k :| 0 <= k < |ws| && Creates(ws[k]) && i == Slot(b, ws, k);
      o := Created(k);
    }
  }

  lemma OriginsDisjoint(b: Book, fams: seq<seq<PriceRow>>, kept: seq<Scraped>, ws: seq<Write>, after: Book,
                        i: nat, o: Origin, j: nat, p: Origin)
    requires Snapshot(b, fams, kept, ws) && NonEmptyFamilies(fams) && WritesClear(fams, ws)
    requires IsOrigin(b, fams, ws, after, i, o) && IsOrigin(b, fams, ws, after, j, p) && i < j
    ensures !Overlap(RowKeys(after.rows[i]), RowKeys(after.rows[j]))
  {
    hide KeyMap, Overlap, PlanShape, CreatedCount, Grouped, ReplacedOnce, NamesFree, Renewed;
    if o.Survivor? && p.Survivor? {
      assert b.rows[i].id != b.rows[j].id;
      DifferentFamilies(b, fams, kept, ws, o.family, p.family);
    } else if o.Survivor? {
      OldNewDisjoint(b, fams, kept, ws, o.family, p.write);
    } else if o.write < p.write {
      NewNewDisjoint(b, fams, kept, ws, o.write, p.write);
    } else {
      NewNewDisjoint(b, fams, kept, ws, p.write, o.write);
      OverlapSym(NewKeys(ws[o.write]), NewKeys(ws[p.write]));
    }
  }

  lemma HeadsExist(b: Book, fams: seq<seq<PriceRow>>, kept: seq<Scraped>, ws: seq<Write>)
    requires Snapshot(b, fams, kept, ws)
    ensures NonEmptyFamilies(fams)
  {
  }

  // ----- a collision leaves two open rows with a common key -----

  /** The row a statement leaves behind. */
  lemma CreatedRow(b: Book, ws: seq<Write>, clock: nat -> int, after: Book, k: nat)
    requires Shape(b, ws, clock, after) && k < |ws| && Creates(ws[k])
    ensures |b.rows| <= Slot(b, ws, k) < |after.rows|
    ensures var r := after.rows[Slot(b, ws, k)];
      && Open(r) && r.modelId == NewModelId(ws[k]) && RowKeys(r) == NewKeys(ws[k]) && r.from == clock(k)
      && !PricesDiffer(r, ws[k].row)
  {
    hide CreatedCount;
    assert after.rows[Slot(b, ws, k)] == NewRow(ws[k], b.nextId + CreatedCount(ws[..k]), clock(k));
  }

  lemma TwoReplacementsShow(b: Book, ws: seq<Write>, clock: nat -> int, after: Book, k: nat, l: nat)
    requires Shape(b, ws, clock, after) && k < l < |ws| && ws[k].Version? && ws[l].Version?
    requires ws[k].current == ws[l].current
    ensures !NoSharedKeys(after.rows)
  {
    hide Shape, Overlap, KeysOf, Slot;
    CreatedRow(b, ws, clock, after, k);
    CreatedRow(b, ws, clock, after, l);
    SlotsDiffer(b, ws, k, l);
    SharedId(ws[k].current, ws[k].row, ws[l].row);
  }

  lemma SharedId(c: PriceRow, s: Scraped, t: Scraped)
    ensures Overlap(KeysOf(c.modelId, s.modelName), KeysOf(c.modelId, t.modelName))
  {
    assert IdKey(c.modelId.family) in KeysOf(c.modelId, s.modelName);
  }

  /** A family's newest row that no statement replaces is still there. */
  lemma UnrenewedStays(b: Book, fams: seq<seq<PriceRow>>, kept: seq<Scraped>, ws: seq<Write>, clock: nat -> int, after: Book,
                       h: nat) returns (i: nat)
    requires Snapshot(b, fams, kept, ws) && NonEmptyFamilies(fams) && Shape(b, ws, clock, after)
    requires h < |fams| && !Renewed(ws, fams[h][0])
    ensures i < |b.rows| && i < |after.rows| && after.rows[i] == fams[h][0] && Open(fams[h][0])
  {
    hide KeyMap, Matched, Grouped, CreatedCount, PlanShape, ClosedBy;
    FamilyRowOpen(b, fams, kept, ws, h, 0);
    i :| 0 <= i < |b.rows| && b.rows[i] == fams[h][0];
    assert ws[..|ws|] == ws;
    if ClosedBy(ws, fams[h][0].id) {
      var l := NewestReplaced(b, fams, kept, ws, |ws|, h);
    }
  }

  lemma BorrowedNameShows(b: Book, fams: seq<seq<PriceRow>>, kept: seq<Scraped>, ws: seq<Write>, clock: nat -> int,
                          after: Book, k: nat, h: nat)
    requires Snapshot(b, fams, kept, ws) && NonEmptyFamilies(fams) && Shape(b, ws, clock, after)
    requires k < |ws| && ws[k].Version? && h < |fams| && NameMeets(ws[k].row, fams[h][0]) && !Renewed(ws, fams[h][0])
    ensures !NoSharedKeys(after.rows)
  {
    hide Snapshot, Shape, Renewed, Slot;
    CreatedRow(b, ws, clock, after, k);
    var i := UnrenewedStays(b, fams, kept, ws, clock, after, h);
    var j, s := Slot(b, ws, k), ws[k].row;
    assert NameKey(s.modelName.family) in RowKeys(after.rows[i]) && NameKey(s.modelName.family) in RowKeys(after.rows[j]);
    assert Overlap(RowKeys(after.rows[i]), RowKeys(after.rows[j]));
  }

  /** When only newest rows are left open, the statements issued leave no two open
      rows with a common key if and only if they are clear of each other. */
  lemma ClearIff(b: Book, fams: seq<seq<PriceRow>>, kept: seq<Scraped>, ws: seq<Write>, clock: nat -> int, after: Book)
    requires Snapshot(b, fams, kept, ws) && NonEmptyFamilies(fams) && ExtrasClosed(fams, ws) && Shape(b, ws, clock, after)
    ensures WritesClear(fams, ws) <==> NoSharedKeys(after.rows)
  {
    hide Snapshot, Shape, ExtrasClosed, WritesClear, NoSharedKeys;
    if WritesClear(fams, ws) { ClearSuffices(b, fams, kept, ws, clock, after); }
    if NoSharedKeys(after.rows) { ClearNeeded(b, fams, kept, ws, clock, after); }
  }

  lemma ClearSuffices(b: Book, fams: seq<seq<PriceRow>>, kept: seq<Scraped>, ws: seq<Write>, clock: nat -> int, after: Book)
    requires Snapshot(b, fams, kept, ws) && NonEmptyFamilies(fams) && ExtrasClosed(fams, ws) && Shape(b, ws, clock, after)
    requires WritesClear(fams, ws)
    ensures NoSharedKeys(after.rows)
  {
    hide Snapshot, Shape, Overlap, IsOrigin, WritesClear, ExtrasClosed;
    forall i, j | 0 <= i < j < |after.rows| && Open(after.rows[i]) && Open(after.rows[j])
      ensures !Overlap(RowKeys(after.rows[i]), RowKeys(after.rows[j]))
    {
      var o := OriginOf(b, fams, kept, ws, clock, after, i);
      var p := OriginOf(b, fams, kept, ws, clock, after, j);
      OriginsDisjoint(b, fams, kept, ws, after, i, o, j, p);
    }
  }

  lemma ClearNeeded(b: Book, fams: seq<seq<PriceRow>>, kept: seq<Scraped>, ws: seq<Write>, clock: nat -> int, after: Book)
    requires Snapshot(b, fams, kept, ws) && NonEmptyFamilies(fams) && Shape(b, ws, clock, after)
    requires NoSharedKeys(after.rows)
    ensures WritesClear(fams, ws)
  {
    hide Snapshot, Shape, NoSharedKeys, NameMeets, Renewed;
    forall k, l | 0 <= k < l < |ws| && ws[k].Version? && ws[l].Version? ensures ws[k].current != ws[l].current {
      if ws[k].current == ws[l].current { TwoReplacementsShow(b, ws, clock, after, k, l); }
    }
    forall k, h | 0 <= k < |ws| && 0 <= h < |fams| && Borrows(ws[k], fams[h][0]) ensures Renewed(ws, fams[h][0]) {
      if !Renewed(ws, fams[h][0]) { BorrowedNameShows(b, fams, kept, ws, clock, after, k, h); }
    }
  }

  // ----- collisions between the table and the scrape -----

  /** Scraped row s is matched to family g and moves its price. */
  ghost predicate Replaces(fams: seq<seq<PriceRow>>, kept: seq<Scraped>, s: Scraped, g: nat)
    requires PointsInto(KeyMap(fams), |fams|) && NonEmptyFamilies(fams)
  {
    Wanted(kept, s) && Matched(fams, KeyMap(fams), s) == Some(g) && PricesDiffer(fams[g][0], s)
  }

  ghost predicate Replaced(fams: seq<seq<PriceRow>>, kept: seq<Scraped>, g: nat)
    requires PointsInto(KeyMap(fams), |fams|) && NonEmptyFamilies(fams)
  {
    exists s :: Replaces(fams, kept, s, g)
  }

  /** No family is replaced by two rows. */
  ghost predicate OneEach(fams: seq<seq<PriceRow>>, kept: seq<Scraped>)
    requires PointsInto(KeyMap(fams), |fams|) && NonEmptyFamilies(fams)
  {
    forall s, t, g: nat :: Replaces(fams, kept, s, g) && Replaces(fams, kept, t, g) ==> s == t
  }

  /** No family is replaced by two rows, and a row that replaces one family under
      a name of another finds that other one replaced as well. */
  ghost predicate CollisionFree(fams: seq<seq<PriceRow>>, kept: seq<Scraped>)
    requires PointsInto(KeyMap(fams), |fams|) && NonEmptyFamilies(fams)
  {
    && OneEach(fams, kept)
    && (forall s, g: nat, h: nat :: Replaces(fams, kept, s, g) && h < |fams| && h != g && NameMeets(s, fams[h][0]) ==>
          Replaced(fams, kept, h))
  }

  lemma UnambiguousIsCollisionFree(fams: seq<seq<PriceRow>>, kept: seq<Scraped>)
    requires PointsInto(KeyMap(fams), |fams|) && NonEmptyFamilies(fams) && Unambiguous(fams, kept)
    ensures CollisionFree(fams, kept)
  {
    hide KeyMap, Hits, Matched, KeysOf;
    forall s, g: nat | Replaces(fams, kept, s, g) ensures g < |fams| && Hits(fams, g, s) { MatchedHits(fams, s); }
    forall s, g: nat, h: nat | Replaces(fams, kept, s, g) && h < |fams| && h != g ensures !NameMeets(s, fams[h][0]) {
      NameHits(fams, h, s);
    }
  }

  lemma NameHits(fams: seq<seq<PriceRow>>, h: nat, s: Scraped)
    requires h < |fams| && fams[h] != []
    ensures NameMeets(s, fams[h][0]) ==> Hits(fams, h, s)
  {
    if NameMeets(s, fams[h][0]) {
      assert NameKey(s.modelName.family) in ScrapedKeys(s);
      assert fams[h][0] in fams[h] && Overlap(RowKeys(fams[h][0]), ScrapedKeys(s));
    }
  }

  /** A replacement is a statement of a complete run. */
  lemma ReplacementIsWritten(fams: seq<seq<PriceRow>>, kept: seq<Scraped>, ws: seq<Write>, s: Scraped, g: nat) returns (k: nat)
    requires PointsInto(KeyMap(fams), |fams|) && NonEmptyFamilies(fams) && PlanComplete(fams, kept, ws)
    requires Replaces(fams, kept, s, g)
    ensures g < |fams| && k < |ws| && ws[k] == Version(fams[g][0], s)
  {
    hide KeyMap, Matched;
    k := Issued(fams, kept, ws, s, Version(fams[g][0], s));
  }

  /** And a version is a replacement. */
  lemma WrittenIsReplacement(b: Book, fams: seq<seq<PriceRow>>, kept: seq<Scraped>, ws: seq<Write>, k: nat, g: nat)
    requires Snapshot(b, fams, kept, ws) && NonEmptyFamilies(fams)
    requires k < |ws| && ws[k].Version? && g < |fams| && ws[k].current == fams[g][0]
    ensures Replaces(fams, kept, ws[k].row, g)
  {
    hide KeyMap, Matched, Grouped;
    SanctionedAt(fams, kept, ws, k);
    OneFamily(b, fams, kept, ws, g, 0, Matched(fams, KeyMap(fams), ws[k].row).value, 0);
  }

  lemma RenewedIff(b: Book, fams: seq<seq<PriceRow>>, kept: seq<Scraped>, ws: seq<Write>, g: nat)
    requires Snapshot(b, fams, kept, ws) && NonEmptyFamilies(fams) && PlanComplete(fams, kept, ws) && g < |fams|
    ensures Renewed(ws, fams[g][0]) <==> Replaced(fams, kept, g)
  {
    hide KeyMap, Matched, Grouped, PlanShape, PlanComplete, Replaces;
    if Renewed(ws, fams[g][0]) {
      var k :| 0 <= k < |ws| && ws[k].Version? && ws[k].current == fams[g][0];
      WrittenIsReplacement(b, fams, kept, ws, k, g);
    }
    if Replaced(fams, kept, g) {
      var s :| Replaces(fams, kept, s, g);
      var k := ReplacementIsWritten(fams, kept, ws, s, g);
      assert ws[k].Version?;
    }
  }

  lemma OneEachIff(b: Book, fams: seq<seq<PriceRow>>, kept: seq<Scraped>, ws: seq<Write>)
    requires Snapshot(b, fams, kept, ws) && NonEmptyFamilies(fams) && PlanComplete(fams, kept, ws)
    ensures OneEach(fams, kept) <==> ReplacedOnce(ws)
  {
    hide KeyMap, Matched, Grouped, Sanctioned, PlanComplete, Replaces, Overlap;
    if OneEach(fams, kept) {
      forall k, l | 0 <= k < l < |ws| && ws[k].Version? && ws[l].Version? ensures ws[k].current != ws[l].current {
        if ws[k].current == ws[l].current {
          var g := VersionFamily(b, fams, kept, ws, k);
          WrittenIsReplacement(b, fams, kept, ws, k, g);
          WrittenIsReplacement(b, fams, kept, ws, l, g);
          ScrapedSelf(ws[k].row);
        }
      }
    }
    if ReplacedOnce(ws) {
      forall s, t, g: nat | Replaces(fams, kept, s, g) && Replaces(fams, kept, t, g) ensures s == t {
        var k := ReplacementIsWritten(fams, kept, ws, s, g);
        var l := ReplacementIsWritten(fams, kept, ws, t, g);
        assert ws[k].Version? && ws[l].Version?;
        assert k == l;
      }
    }
  }

  lemma CollisionFreeIff(b: Book, fams: seq<seq<PriceRow>>, kept: seq<Scraped>, ws: seq<Write>)
    requires Snapshot(b, fams, kept, ws) && NonEmptyFamilies(fams) && PlanComplete(fams, kept, ws)
    ensures CollisionFree(fams, kept) <==> WritesClear(fams, ws)
  {
    hide KeyMap, Matched, Grouped, PlanShape, PlanComplete, Replaces, Replaced, NameMeets, OneEach, ReplacedOnce, Renewed;
    OneEachIff(b, fams, kept, ws);
    forall h | 0 <= h < |fams| ensures Renewed(ws, fams[h][0]) <==> Replaced(fams, kept, h) {
      RenewedIff(b, fams, kept, ws, h);
    }
    if CollisionFree(fams, kept) {
      forall k, h | 0 <= k < |ws| && 0 <= h < |fams| && Borrows(ws[k], fams[h][0]) ensures Renewed(ws, fams[h][0]) {
        var g := VersionFamily(b, fams, kept, ws, k);
        WrittenIsReplacement(b, fams, kept, ws, k, g);
      }
    }
    if WritesClear(fams, ws) {
      forall s, g: nat, h: nat | Replaces(fams, kept, s, g) && h < |fams| && h != g && NameMeets(s, fams[h][0])
        ensures Replaced(fams, kept, h)
      {
        var k := ReplacementIsWritten(fams, kept, ws, s, g);
        DifferentFamilies(b, fams, kept, ws, g, h);
        SelfOverlap(fams[g][0]);
        assert Borrows(ws[k], fams[h][0]);
      }
    }
  }

  /** The scrape is free of collisions with the families found at its start. */
  ghost predicate FreeOfCollisions(b: Book, scraped: seq<Scraped>) {
    && PointsInto(KeyMap(FamsOf(b)), |FamsOf(b)|) && NonEmptyFamilies(FamsOf(b))
    && CollisionFree(FamsOf(b), Kept(scraped))
  }

  /** After a complete run no two open rows share a family key if and only if the
      scrape is free of collisions, whatever duplicates the table held before. */
  lemma NoSharedKeysIff(b: Book, scraped: seq<Scraped>, clock: nat -> int)
    requires ValidBook(b)
    ensures ValidBook(RunOf(b, scraped, clock))
    ensures FreeOfCollisions(b, scraped) <==> NoSharedKeys(RunOf(b, scraped, clock).rows)
  {
    hide Kept, FamsOf, WritesOf, RunOf, KeyMap, PlanComplete, Snapshot, Shape, WritesClear, ExtrasClosed, CollisionFree,
      NoSharedKeys;
    var fams, kept, ws := FamsOf(b), Kept(scraped), WritesOf(b, scraped);
    RunHasShape(b, scraped, clock);
    CompleteClosesExtras(fams, kept, ws);
    CollisionFreeIff(b, fams, kept, ws);
    ClearIff(b, fams, kept, ws, clock, RunOf(b, scraped, clock));
  }

  /** Everything known about a complete run. */
  lemma RunHasShape(b: Book, scraped: seq<Scraped>, clock: nat -> int)
    requires ValidBook(b)
    ensures Snapshot(b, FamsOf(b), Kept(scraped), WritesOf(b, scraped)) && NonEmptyFamilies(FamsOf(b))
    ensures PointsInto(KeyMap(FamsOf(b)), |FamsOf(b)|) && PlanComplete(FamsOf(b), Kept(scraped), WritesOf(b, scraped))
    ensures Shape(b, WritesOf(b, scraped), clock, RunOf(b, scraped, clock)) && ValidBook(RunOf(b, scraped, clock))
  {
    hide Kept, FamsOf, WritesOf, ApplyAll, KeyMap, PlanShape, PlanComplete, Shape, Grouped, Snapshot;
    var fams, kept, ws := FamsOf(b), Kept(scraped), WritesOf(b, scraped);
    TakeSnapshot(b, scraped);
    PrefixNamesOld(b, fams, kept, ws, |ws|);
    assert ws[..|ws|] == ws;
    ShapeOf(b, ws, clock);
  }

  lemma UnambiguousScrape(b: Book, scraped: seq<Scraped>)
    requires ValidBook(b) && Unambiguous(FamsOf(b), Kept(scraped))
    ensures FreeOfCollisions(b, scraped)
  {
    hide Kept, FamsOf, WritesOf, KeyMap, Unambiguous, CollisionFree, Snapshot, PlanComplete;
    TakeSnapshot(b, scraped);
    UnambiguousIsCollisionFree(FamsOf(b), Kept(scraped));
  }

  /** In particular after a run over an unambiguous scrape. */
  lemma OneOpenRowPerFamily(b: Book, scraped: seq<Scraped>, clock: nat -> int)
    requires ValidBook(b) && Unambiguous(FamsOf(b), Kept(scraped))
    ensures ValidBook(RunOf(b, scraped, clock)) && NoSharedKeys(RunOf(b, scraped, clock).rows)
  {
    hide Kept, FamsOf, RunOf, FreeOfCollisions, Unambiguous, NoSharedKeys;
    UnambiguousScrape(b, scraped);
    NoSharedKeysIff(b, scraped, clock);
  }
}
