/** The scraper's writer: drop duplicates, match each scraped row to a family
    of open rows, and version, insert or close accordingly. */
module PriceWriter {
  import opened Options
  import opened Sorting
  import opened FamilyKeys
  import opened UnionFind
  import opened PriceBook

  // ----- the diff -----

  datatype Kind = Inserted | Versioned | Unchanged | Flagged

  datatype Note = NoNote | DuplicateOnPage | NotWritten(status: Status) | ClosedDuplicates(n: nat) | NotOnPage(closed: seq<Label>)

  datatype Price = Price(input: int, output: int)

  datatype Change = Change(modelId: Label, kind: Kind, before: Option<Price>, after: Option<Price>, note: Note)

  /** What a run reports, the statements it issues, and the families it met. */
  datatype Plan = Plan(upserted: nat, unaltered: nat, flagged: nat, changes: seq<Change>, writes: seq<Write>, touched: set<nat>)

  // ----- one row per family and scrape -----

  /** Only rows that may be written are matched at all. */
  function MatchKeys(s: Scraped): seq<Key> {
    if s.status.Success? then ScrapedKeys(s) else []
  }

  function KeySet(ks: seq<Key>): set<Key> { set k | k in ks }

  predicate Known(ks: seq<Key>, seen: set<Key>) {
    exists k :: k in ks && k in seen
  }

  function SeenKeys(kept: seq<Scraped>): set<Key> {
    if kept == [] then {} else SeenKeys(kept[..|kept| - 1]) + KeySet(MatchKeys(kept[|kept| - 1]))
  }

  function DuplicateChange(s: Scraped): Change {
    Change(s.modelId, Unchanged, None, None, DuplicateOnPage)
  }

  /** The rows whose keys no earlier kept row claims. */
  function Kept(rows: seq<Scraped>): seq<Scraped> {
    if rows == [] then [] else
      var k, s := Kept(rows[..|rows| - 1]), rows[|rows| - 1];
      if Known(MatchKeys(s), SeenKeys(k)) then k else k + [s]
  }

  function Dropped(rows: seq<Scraped>): seq<Change> {
    if rows == [] then [] else
      var d, s := Dropped(rows[..|rows| - 1]), rows[|rows| - 1];
      if Known(MatchKeys(s), SeenKeys(Kept(rows[..|rows| - 1]))) then d + [DuplicateChange(s)] else d
  }

  method DedupeScrapedRows(rows: seq<Scraped>) returns (kept: seq<Scraped>, dropped: seq<Change>)
    ensures kept == Kept(rows) && dropped == Dropped(rows)
  {
    var seen: set<Key> := {};
    kept, dropped := [], [];
    for i := 0 to |rows|
      invariant kept == Kept(rows[..i]) && dropped == Dropped(rows[..i])
      invariant seen == SeenKeys(kept)
    {
      var row := rows[i];
      assert rows[..i + 1][..i] == rows[..i];
      var keys := MatchKeys(row);
      if !Known(keys, seen) {
        seen := seen + KeySet(keys);
        assert (kept + [row])[..|kept|] == kept;
        kept := kept + [row];
      } else {
        dropped := dropped + [DuplicateChange(row)];
      }
    }
    assert rows[..|rows|] == rows;
  }

  // ----- matching by family -----

  /** Newest first, by effective date and then creation. */
  predicate NewerFirst(a: PriceRow, b: PriceRow) {
    a.from > b.from || (a.from == b.from && a.created >= b.created)
  }

  function OpenOnly(rows: seq<PriceRow>): seq<PriceRow> {
    if rows == [] then []
    else OpenOnly(rows[..|rows| - 1]) + (if Open(rows[|rows| - 1]) then [rows[|rows| - 1]] else [])
  }

  function OpenRows(rows: seq<PriceRow>): seq<PriceRow> {
    Sort(OpenOnly(rows), NewerFirst)
  }

  function AddKeys(m: map<Key, nat>, ks: seq<Key>, g: nat): map<Key, nat> {
    if ks == [] then m else AddKeys(m, ks[..|ks| - 1], g)[ks[|ks| - 1] := g]
  }

  function AddFamily(m: map<Key, nat>, f: seq<PriceRow>, g: nat): map<Key, nat> {
    if f == [] then m else AddKeys(AddFamily(m, f[..|f| - 1], g), RowKeys(f[|f| - 1]), g)
  }

  /** Which family a key leads to. */
  function KeyMap(fams: seq<seq<PriceRow>>): map<Key, nat> {
    if fams == [] then map[] else AddFamily(KeyMap(fams[..|fams| - 1]), fams[|fams| - 1], |fams| - 1)
  }

  method BuildKeyMap(fams: seq<seq<PriceRow>>) returns (byKey: map<Key, nat>)
    ensures byKey == KeyMap(fams)
  {
    byKey := map[];
    for g := 0 to |fams|
      invariant byKey == KeyMap(fams[..g])
    {
      var f := fams[g];
      ghost var m0 := byKey;
      for i := 0 to |f|
        invariant byKey == AddFamily(m0, f[..i], g)
      {
        var ks := RowKeys(f[i]);
        ghost var m1 := byKey;
        for t := 0 to |ks|
          invariant byKey == AddKeys(m1, ks[..t], g)
        {
          byKey := byKey[ks[t] := g];
          assert ks[..t + 1][..t] == ks[..t];
        }
        assert ks[..|ks|] == ks;
        assert f[..i + 1][..i] == f[..i];
      }
      assert f[..|f|] == f;
      assert fams[..g + 1][..g] == fams[..g];
    }
    assert fams[..|fams|] == fams;
  }

  /** The first of the keys that leads anywhere decides. */
  function MatchFamily(byKey: map<Key, nat>, ks: seq<Key>): Option<nat> {
    if ks == [] then None
    else if ks[0] in byKey then Some(byKey[ks[0]])
    else MatchFamily(byKey, ks[1..])
  }

  predicate PricesDiffer(cur: PriceRow, next: Scraped) {
    cur.input != next.input || cur.output != next.output || cur.cached != next.cached
  }

  function Ids(f: seq<PriceRow>): (ids: seq<nat>)
    ensures |ids| == |f| && forall i :: 0 <= i < |f| ==> ids[i] == f[i].id
  {
    seq(|f|, i requires 0 <= i < |f| => f[i].id)
  }

  function ModelIds(f: seq<PriceRow>): seq<Label> {
    seq(|f|, i requires 0 <= i < |f| => f[i].modelId)
  }

  function StaleWrites(f: seq<PriceRow>): seq<Write> {
    if |f| > 1 then [Close(Ids(f[1..]))] else []
  }

  function StaleNote(f: seq<PriceRow>): Note {
    if |f| > 1 then ClosedDuplicates(|f| - 1) else NoNote
  }

  ghost predicate NonEmptyFamilies(fams: seq<seq<PriceRow>>) {
    forall g :: 0 <= g < |fams| ==> fams[g] != []
  }

  ghost predicate PointsInto(byKey: map<Key, nat>, n: nat) {
    forall k :: k in byKey ==> byKey[k] < n
  }

  lemma {:induction false} MatchPointsInto(byKey: map<Key, nat>, ks: seq<Key>, n: nat)
    requires PointsInto(byKey, n)
    ensures MatchFamily(byKey, ks).Some? ==> MatchFamily(byKey, ks).value < n
  {
    if ks != [] && ks[0] !in byKey { MatchPointsInto(byKey, ks[1..], n); }
  }

  // ----- the run, as a function of the snapshot and the scrape -----

  function Matched(fams: seq<seq<PriceRow>>, byKey: map<Key, nat>, s: Scraped): (r: Option<nat>)
    requires PointsInto(byKey, |fams|)
    ensures r.Some? ==> r.value < |fams|
  {
    MatchPointsInto(byKey, ScrapedKeys(s), |fams|);
    MatchFamily(byKey, ScrapedKeys(s))
  }

  function RowWrites(fams: seq<seq<PriceRow>>, byKey: map<Key, nat>, s: Scraped): seq<Write>
    requires PointsInto(byKey, |fams|) && NonEmptyFamilies(fams)
  {
    if !s.status.Success? then []
    else match Matched(fams, byKey, s)
      case None => [Insert(s)]
      case Some(g) =>
        StaleWrites(fams[g]) + (if PricesDiffer(fams[g][0], s) then [Version(fams[g][0], s)] else [])
  }

  function RowChange(fams: seq<seq<PriceRow>>, byKey: map<Key, nat>, s: Scraped): Change
    requires PointsInto(byKey, |fams|) && NonEmptyFamilies(fams)
  {
    if !s.status.Success? then Change(s.modelId, Flagged, None, None, NotWritten(s.status))
    else match Matched(fams, byKey, s)
      case None => Change(s.modelId, Inserted, None, Some(Price(s.input, s.output)), NoNote)
      case Some(g) =>
        var c := fams[g][0];
        if PricesDiffer(c, s)
        then Change(c.modelId, Versioned, Some(Price(c.input, c.output)), Some(Price(s.input, s.output)), StaleNote(fams[g]))
        else Change(c.modelId, Unchanged, None, None, StaleNote(fams[g]))
  }

  function RowTouched(fams: seq<seq<PriceRow>>, byKey: map<Key, nat>, s: Scraped): set<nat>
    requires PointsInto(byKey, |fams|)
  {
    if !s.status.Success? then {}
    else match Matched(fams, byKey, s)
      case None => {}
      case Some(g) => {g}
  }

  function AddRow(p: Plan, c: Change, ws: seq<Write>, touched: set<nat>): Plan {
    Plan(p.upserted + (if c.kind.Inserted? || c.kind.Versioned? then 1 else 0),
         p.unaltered + (if c.kind.Unchanged? then 1 else 0),
         p.flagged + (if c.kind.Flagged? then 1 else 0),
         p.changes + [c], p.writes + ws, p.touched + touched)
  }

  function RunRows(fams: seq<seq<PriceRow>>, byKey: map<Key, nat>, kept: seq<Scraped>, start: Plan): Plan
    requires PointsInto(byKey, |fams|) && NonEmptyFamilies(fams)
  {
    if kept == [] then start else
      var s := kept[|kept| - 1];
      AddRow(RunRows(fams, byKey, kept[..|kept| - 1], start),
        RowChange(fams, byKey, s), RowWrites(fams, byKey, s), RowTouched(fams, byKey, s))
  }

  function LeftoverChange(f: seq<PriceRow>): Change
    requires f != []
  {
    Change(f[0].modelId, Unchanged, None, None, NotOnPage(ModelIds(f[1..])))
  }

  /** Families the page no longer lists lose their duplicates too. */
  function RunFamilies(fams: seq<seq<PriceRow>>, m: nat, p: Plan): Plan
    requires m <= |fams| && NonEmptyFamilies(fams)
  {
    if m == 0 then p else
      var q := RunFamilies(fams, m - 1, p);
      if m - 1 in p.touched || |fams[m - 1]| < 2 then q
      else AddRow(q, LeftoverChange(fams[m - 1]), StaleWrites(fams[m - 1]), {})
  }

  function Start(scraped: seq<Scraped>): Plan {
    Plan(0, |Dropped(scraped)|, 0, Dropped(scraped), [], {})
  }

  function MakePlan(fams: seq<seq<PriceRow>>, scraped: seq<Scraped>): Plan
    requires NonEmptyFamilies(fams) && PointsInto(KeyMap(fams), |fams|)
  {
    RunFamilies(fams, |fams|, RunRows(fams, KeyMap(fams), Kept(scraped), Start(scraped)))
  }

  // ----- facts about families of rows -----

  lemma {:induction false} AddKeysIs(m: map<Key, nat>, ks: seq<Key>, g: nat)
    ensures forall k :: k in AddKeys(m, ks, g) <==> k in m || k in ks
    ensures forall k :: k in AddKeys(m, ks, g) ==> AddKeys(m, ks, g)[k] == if k in ks then g else m[k]
  {
    if ks != [] { AddKeysIs(m, ks[..|ks| - 1], g); }
  }

  ghost predicate HasKey(f: seq<PriceRow>, k: Key) {
    exists r :: r in f && k in RowKeys(r)
  }

  lemma {:induction false} AddFamilyIs(m: map<Key, nat>, f: seq<PriceRow>, g: nat)
    ensures forall k :: k in AddFamily(m, f, g) <==> k in m || HasKey(f, k)
    ensures forall k :: k in AddFamily(m, f, g) ==> AddFamily(m, f, g)[k] == if HasKey(f, k) then g else m[k]
  {
    if f != [] {
      var f0, r := f[..|f| - 1], f[|f| - 1];
      AddFamilyIs(m, f0, g);
      AddKeysIs(AddFamily(m, f0, g), RowKeys(r), g);
      assert f == f0 + [r];
      forall k ensures HasKey(f, k) <==> HasKey(f0, k) || k in RowKeys(r) {
        if HasKey(f, k) { var x :| x in f && k in RowKeys(x); assert x in f0 || x == r; }
        if HasKey(f0, k) { var x :| x in f0 && k in RowKeys(x); assert x in f; }
        if k in RowKeys(r) { assert r in f; }
      }
    }
  }

  lemma {:induction false} KeyMapPoints(fams: seq<seq<PriceRow>>)
    ensures PointsInto(KeyMap(fams), |fams|)
    ensures forall k :: k in KeyMap(fams) ==> HasKey(fams[KeyMap(fams)[k]], k)
    ensures forall g, k :: 0 <= g < |fams| && HasKey(fams[g], k) ==> k in KeyMap(fams)
  {
    if fams != [] {
      var n := |fams| - 1;
      var f0 := fams[..n];
      KeyMapPoints(f0);
      AddFamilyIs(KeyMap(f0), fams[n], n);
      forall g, k | 0 <= g < |fams| && HasKey(fams[g], k) ensures k in KeyMap(fams) {
        if g < n { assert f0[g] == fams[g]; }
      }
    }
  }

  lemma FamiliesNonEmpty(rows: seq<PriceRow>)
    ensures NonEmptyFamilies(FamiliesOf(rows, RowKeys))
  {
    var ks, fs := KeysOfRows(rows, RowKeys), FamiliesOf(rows, RowKeys);
    forall g | 0 <= g < |fs| ensures fs[g] != [] {
      FamilyLeader(ks, g);
      assert |fs[g]| == |Members(ks, Heads(ks, |rows|)[g], |rows|)|;
    }
  }

  /** The plan of a run against the open rows of this table. */
  ghost function PlanFor(rows: seq<PriceRow>, scraped: seq<Scraped>): Plan {
    var fams := FamiliesOf(OpenRows(rows), RowKeys);
    FamiliesNonEmpty(OpenRows(rows));
    KeyMapPoints(fams);
    MakePlan(fams, scraped)
  }

  // ----- the method -----

  /** Apply one provider's scraped rows. A dry run computes the same diff and
      writes nothing; a real one issues the plan's statements in order, the
      k-th at clock(k). */
  method PersistProvider(table: PriceTable, scraped: seq<Scraped>, dryRun: bool, clock: nat -> int)
    returns (upserted: nat, unaltered: nat, flagged: nat, changes: seq<Change>)
    modifies table
    ensures var p := PlanFor(old(table.rows), scraped);
      upserted == p.upserted && unaltered == p.unaltered && flagged == p.flagged && changes == p.changes
    ensures table.Contents() == if dryRun then old(table.Contents())
                                else ApplyAll(old(table.Contents()), PlanFor(old(table.rows), scraped).writes, clock)
  {
    hide Kept, Dropped, Sort, OpenOnly, FamiliesOf, KeyMap, RowWrites, RowChange, RowTouched, ApplyAll, Apply, RunRows, RunFamilies;
    ghost var b0 := table.Contents();
    var writes: seq<Write> := [];
    var kept, dropped := DedupeScrapedRows(scraped);
    changes, upserted, unaltered, flagged := dropped, 0, |dropped|, 0;
    var open := OpenRows(table.rows);
    var families := GroupByFamily(open, RowKeys);
    FamiliesNonEmpty(open);
    KeyMapPoints(families);
    var byKey := BuildKeyMap(families);
    var touched: set<nat> := {};
    ghost var start := Start(scraped);
    RunRowsNil(families, byKey, start);
    ApplyNothing(b0, clock);
    for i := 0 to |kept|
      invariant Plan(upserted, unaltered, flagged, changes, writes, touched) == RunRows(families, byKey, kept[..i], start)
      invariant table.Contents() == if dryRun then b0 else ApplyAll(b0, writes, clock)
    {
      var w0 := writes;
      RunRowsStep(families, byKey, kept, i, start);
      writes := writes + RowWrites(families, byKey, kept[i]);
      upserted, unaltered, flagged, changes, touched :=
        PersistRow(table, families, byKey, kept[i], dryRun, clock, b0, w0, upserted, unaltered, flagged, changes, touched);
    }
    assert kept[..|kept|] == kept;
    ghost var rowsDone := RunRows(families, byKey, kept, start);
    RunFamiliesNil(families, rowsDone);
    for g := 0 to |families|
      invariant Plan(upserted, unaltered, flagged, changes, writes, touched) == RunFamilies(families, g, rowsDone)
      invariant touched == rowsDone.touched
      invariant table.Contents() == if dryRun then b0 else ApplyAll(b0, writes, clock)
    {
      RunFamiliesStep(families, g, rowsDone);
      if g in touched || |families[g]| < 2 { continue; }
      var stale := families[g][1..];
      if !dryRun {
        ApplyAllStep(b0, writes, Close(Ids(stale)), clock);
        table.CloseIds(Ids(stale), clock(|writes|));
      }
      writes := writes + [Close(Ids(stale))];
      unaltered := unaltered + 1;
      changes := changes + [LeftoverChange(families[g])];
    }
  }

  lemma RunRowsNil(fams: seq<seq<PriceRow>>, byKey: map<Key, nat>, start: Plan)
    requires PointsInto(byKey, |fams|) && NonEmptyFamilies(fams)
    ensures RunRows(fams, byKey, [], start) == start
  {
  }

  lemma RunRowsStep(fams: seq<seq<PriceRow>>, byKey: map<Key, nat>, kept: seq<Scraped>, i: nat, start: Plan)
    requires PointsInto(byKey, |fams|) && NonEmptyFamilies(fams) && i < |kept|
    ensures RunRows(fams, byKey, kept[..i + 1], start)
         == AddRow(RunRows(fams, byKey, kept[..i], start),
              RowChange(fams, byKey, kept[i]), RowWrites(fams, byKey, kept[i]), RowTouched(fams, byKey, kept[i]))
  {
    assert kept[..i + 1][..i] == kept[..i];
  }

  lemma RunFamiliesNil(fams: seq<seq<PriceRow>>, p: Plan)
    requires NonEmptyFamilies(fams)
    ensures RunFamilies(fams, 0, p) == p
  {
  }

  lemma RunFamiliesStep(fams: seq<seq<PriceRow>>, g: nat, p: Plan)
    requires NonEmptyFamilies(fams) && g < |fams|
    ensures var q := RunFamilies(fams, g, p);
      RunFamilies(fams, g + 1, p)
        == if g in p.touched || |fams[g]| < 2 then q else AddRow(q, LeftoverChange(fams[g]), StaleWrites(fams[g]), {})
  {
  }

  lemma ApplyNothing(b: Book, clock: nat -> int)
    ensures ApplyAll(b, [], clock) == b
  {
  }

  /** One scraped row: match, close the family's extra rows, then version,
      insert, or leave alone. */
  method PersistRow(table: PriceTable, families: seq<seq<PriceRow>>, byKey: map<Key, nat>, row: Scraped,
                    dryRun: bool, clock: nat -> int, ghost b0: Book, w0: seq<Write>,
                    upserted0: nat, unaltered0: nat, flagged0: nat, changes0: seq<Change>, touched0: set<nat>)
    returns (upserted: nat, unaltered: nat, flagged: nat, changes: seq<Change>, touched: set<nat>)
    requires PointsInto(byKey, |families|) && NonEmptyFamilies(families)
    requires table.Contents() == if dryRun then b0 else ApplyAll(b0, w0, clock)
    modifies table
    ensures var ws := RowWrites(families, byKey, row);
      Plan(upserted, unaltered, flagged, changes, w0 + ws, touched)
        == AddRow(Plan(upserted0, unaltered0, flagged0, changes0, w0, touched0),
             RowChange(families, byKey, row), ws, RowTouched(families, byKey, row))
    ensures table.Contents() == if dryRun then b0 else ApplyAll(b0, w0 + RowWrites(families, byKey, row), clock)
  {
    hide MatchFamily, ApplyAll, Apply;
    var ws := w0;
    upserted, unaltered, flagged, changes, touched := upserted0, unaltered0, flagged0, changes0, touched0;
    assert w0 + [] == w0;
    if !row.status.Success? {
      flagged := flagged + 1;
      changes := changes + [Change(row.modelId, Flagged, None, None, NotWritten(row.status))];
      return;
    }
    var at := Matched(families, byKey, row);
    if at.None? {
      upserted := upserted + 1;
      changes := changes + [Change(row.modelId, Inserted, None, Some(Price(row.input, row.output)), NoNote)];
      if !dryRun {
        ApplyAllStep(b0, w0, Insert(row), clock);
        table.InsertRow(row, clock(|w0|));
      }
      return;
    }
    var family := families[at.value];
    var current, stale := family[0], family[1..];
    touched := touched + {at.value};
    if stale != [] && !dryRun {
      ApplyAllStep(b0, ws, Close(Ids(stale)), clock);
      table.CloseIds(Ids(stale), clock(|ws|));
    }
    ws := ws + StaleWrites(family);
    if !PricesDiffer(current, row) {
      unaltered := unaltered + 1;
      changes := changes + [Change(current.modelId, Unchanged, None, None, StaleNote(family))];
      assert StaleWrites(family) + [] == StaleWrites(family);
      return;
    }
    upserted := upserted + 1;
    changes := changes + [Change(current.modelId, Versioned, Some(Price(current.input, current.output)),
                                 Some(Price(row.input, row.output)), StaleNote(family))];
    if !dryRun {
      ApplyAllStep(b0, ws, Version(current, row), clock);
      table.VersionRow(current, row, clock(|ws|));
    }
    assert w0 + (StaleWrites(family) + [Version(current, row)]) == ws + [Version(current, row)];
  }
}
