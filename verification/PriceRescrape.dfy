/** Scraping the same page twice: exactly when the second run changes nothing. */
module PriceRescrape {
  import opened Options
  import opened Sorting
  import opened FamilyKeys
  import opened UnionFind
  import opened PriceBook
  import opened PriceWriter
  import opened PricePlanFacts
  import opened PriceSafety
  import opened PriceHistory
  import opened PriceOutcome

  /** Family h keeps its newest row, to which s answers by name and whose prices
      it carries. */
  ghost predicate NamesakeOf(fams: seq<seq<PriceRow>>, kept: seq<Scraped>, s: Scraped, h: nat)
    requires PointsInto(KeyMap(fams), |fams|) && NonEmptyFamilies(fams)
  {
    h < |fams| && !Replaced(fams, kept, h) && NameMeets(s, fams[h][0]) && !PricesDiffer(fams[h][0], s)
  }

  ghost predicate HasNamesake(fams: seq<seq<PriceRow>>, kept: seq<Scraped>, s: Scraped)
    requires PointsInto(KeyMap(fams), |fams|) && NonEmptyFamilies(fams)
  {
    exists h: nat :: NamesakeOf(fams, kept, s, h)
  }

  /** After the run s finds an open row with its prices again: its own new one; or
      the one that replaced the matched row, by the id that it keeps or the name
      that it takes over; or the matched row, if it has the id of s and was not
      replaced; or, for want of a row with that id, an old one by name. */
  ghost predicate Refound(fams: seq<seq<PriceRow>>, kept: seq<Scraped>, s: Scraped)
    requires PointsInto(KeyMap(fams), |fams|) && NonEmptyFamilies(fams)
  {
    match Matched(fams, KeyMap(fams), s)
    case None => true
    case Some(g) =>
      var c := fams[g][0];
      if PricesDiffer(c, s) then c.modelId.family == s.modelId.family || s.modelName.versioned
      else if c.modelId.family == s.modelId.family then !Replaced(fams, kept, g)
      else HasNamesake(fams, kept, s)
  }

  /** Open row i answers to key k. */
  predicate Holds(rows: seq<PriceRow>, i: nat, k: Key) {
    i < |rows| && Open(rows[i]) && k in RowKeys(rows[i])
  }

  ghost predicate Held(rows: seq<PriceRow>, k: Key) {
    exists i: nat :: Holds(rows, i, k)
  }

  function IdOf(s: Scraped): Key { IdKey(s.modelId.family) }

  function NameOf(s: Scraped): Key { NameKey(s.modelName.family) }

  // ----- the second run asks for the id first, then for the name -----

  /** A table with one open row per family, and the families of its next run. */
  ghost predicate OneRowEach(b: Book, fams: seq<seq<PriceRow>>, kept: seq<Scraped>, ws: seq<Write>) {
    && Snapshot(b, fams, kept, ws) && PointsInto(KeyMap(fams), |fams|) && NonEmptyFamilies(fams) && NoSharedKeys(b.rows)
    && forall g :: 0 <= g < |fams| ==> |fams[g]| == 1
  }

  /** The second run has nothing to write for s. */
  ghost predicate Answered(fams: seq<seq<PriceRow>>, s: Scraped)
    requires PointsInto(KeyMap(fams), |fams|) && NonEmptyFamilies(fams)
  {
    var m := Matched(fams, KeyMap(fams), s);
    m.Some? && !PricesDiffer(fams[m.value][0], s)
  }

  lemma FirstKeyDecides(fams: seq<seq<PriceRow>>, s: Scraped)
    requires PointsInto(KeyMap(fams), |fams|)
    ensures var byKey := KeyMap(fams);
      Matched(fams, byKey, s) ==
        if IdOf(s) in byKey then Some(byKey[IdOf(s)])
        else if s.modelName.versioned && NameOf(s) in byKey then Some(byKey[NameOf(s)])
        else None
  {
    hide KeyMap;
    var byKey, ks := KeyMap(fams), ScrapedKeys(s);
    assert ks[0] == IdOf(s);
    assert MatchFamily(byKey, []) == None;
    if s.modelName.versioned {
      assert ks[1..] == [NameOf(s)] && ks[1..][1..] == [];
      assert MatchFamily(byKey, ks[1..]) == if NameOf(s) in byKey then Some(byKey[NameOf(s)]) else None;
    } else {
      assert ks[1..] == [];
    }
  }

  lemma KeyShared(r: PriceRow, s: PriceRow, k: Key)
    requires k in RowKeys(r) && k in RowKeys(s)
    ensures Overlap(RowKeys(r), RowKeys(s))
  {
  }

  /** Every key of an open row leads somewhere. */
  lemma HeldLeads(b: Book, fams: seq<seq<PriceRow>>, kept: seq<Scraped>, ws: seq<Write>, k: Key, i: nat)
    requires Snapshot(b, fams, kept, ws) && Holds(b.rows, i, k)
    ensures k in KeyMap(fams)
  {
    hide KeyMap, PlanShape, Overlap, OpenRows, RowKeys;
    KeyMapPoints(fams);
    assert b.rows[i] in b.rows && InFamily(fams, b.rows[i]);
    var g :| 0 <= g < |fams| && b.rows[i] in fams[g];
    assert HasKey(fams[g], k);
  }

  /** And a key that leads somewhere leads to an open row that holds it. */
  lemma LeadsToHolder(b: Book, fams: seq<seq<PriceRow>>, kept: seq<Scraped>, ws: seq<Write>, k: Key) returns (g: nat, r: PriceRow)
    requires Snapshot(b, fams, kept, ws) && k in KeyMap(fams)
    ensures g == KeyMap(fams)[k] && g < |fams| && r in fams[g]
    ensures r in b.rows && Open(r) && k in RowKeys(r) && Held(b.rows, k)
  {
    hide KeyMap, PlanShape, Overlap, OpenRows, RowKeys;
    KeyMapPoints(fams);
    g := KeyMap(fams)[k];
    assert HasKey(fams[g], k);
    r :| r in fams[g] && k in RowKeys(r);
    assert InFamily(fams, r);
    var i :| 0 <= i < |b.rows| && b.rows[i] == r;
    assert Holds(b.rows, i, k);
  }

  /** A key leads to the one open row that holds it. */
  lemma KeyLeads(b: Book, fams: seq<seq<PriceRow>>, kept: seq<Scraped>, ws: seq<Write>, k: Key, i: nat)
    requires OneRowEach(b, fams, kept, ws) && Holds(b.rows, i, k)
    ensures k in KeyMap(fams) && fams[KeyMap(fams)[k]][0] == b.rows[i]
  {
    hide KeyMap, Snapshot, NoSharedKeys, Overlap;
    HeldLeads(b, fams, kept, ws, k, i);
    var g, r := LeadsToHolder(b, fams, kept, ws, k);
    assert fams[g] == [r];
    KeyShared(b.rows[i], r, k);
    if b.rows[i].id != r.id { OpenPair(b, b.rows[i], r); }
    SnapshotValid(b, fams, kept, ws);
    IdsDetermine(b, b.rows[i], r);
  }

  lemma SnapshotValid(b: Book, fams: seq<seq<PriceRow>>, kept: seq<Scraped>, ws: seq<Write>)
    requires Snapshot(b, fams, kept, ws)
    ensures ValidBook(b)
  {
  }

  lemma UnheldLeadsNowhere(b: Book, fams: seq<seq<PriceRow>>, kept: seq<Scraped>, ws: seq<Write>, k: Key)
    requires Snapshot(b, fams, kept, ws)
    ensures k in KeyMap(fams) ==> Held(b.rows, k)
  {
    hide KeyMap, Snapshot, Held;
    if k in KeyMap(fams) { var g, r := LeadsToHolder(b, fams, kept, ws, k); }
  }

  lemma AnsweredById(b: Book, fams: seq<seq<PriceRow>>, kept: seq<Scraped>, ws: seq<Write>, s: Scraped, i: nat)
    requires OneRowEach(b, fams, kept, ws) && Holds(b.rows, i, IdOf(s))
    ensures Answered(fams, s) <==> !PricesDiffer(b.rows[i], s)
  {
    hide KeyMap, Snapshot, NoSharedKeys, Matched, Holds, PricesDiffer;
    KeyLeads(b, fams, kept, ws, IdOf(s), i);
    FirstKeyDecides(fams, s);
  }

  lemma AnsweredByName(b: Book, fams: seq<seq<PriceRow>>, kept: seq<Scraped>, ws: seq<Write>, s: Scraped, i: nat)
    requires OneRowEach(b, fams, kept, ws) && !Held(b.rows, IdOf(s)) && s.modelName.versioned && Holds(b.rows, i, NameOf(s))
    ensures Answered(fams, s) <==> !PricesDiffer(b.rows[i], s)
  {
    hide KeyMap, Matched, Holds, Held, PricesDiffer, Snapshot, NoSharedKeys;
    UnheldLeadsNowhere(b, fams, kept, ws, IdOf(s));
    KeyLeads(b, fams, kept, ws, NameOf(s), i);
    FirstKeyDecides(fams, s);
  }

  lemma Unanswered(b: Book, fams: seq<seq<PriceRow>>, kept: seq<Scraped>, ws: seq<Write>, s: Scraped)
    requires OneRowEach(b, fams, kept, ws) && !Held(b.rows, IdOf(s))
    requires s.modelName.versioned ==> !Held(b.rows, NameOf(s))
    ensures !Answered(fams, s)
  {
    hide KeyMap, Matched, Held, NoSharedKeys, Snapshot;
    UnheldLeadsNowhere(b, fams, kept, ws, IdOf(s));
    if s.modelName.versioned { UnheldLeadsNowhere(b, fams, kept, ws, NameOf(s)); }
    FirstKeyDecides(fams, s);
  }

  // ----- who holds the keys of a scraped row after the first run -----

  lemma RowsDisjoint(kept: seq<Scraped>, s: Scraped, t: Scraped)
    requires KeysDisjoint(kept) && Wanted(kept, s) && Wanted(kept, t) && Overlap(ScrapedKeys(s), ScrapedKeys(t))
    ensures s == t
  {
    hide Overlap;
    var i :| 0 <= i < |kept| && kept[i] == s;
    var j :| 0 <= j < |kept| && kept[j] == t;
    OverlapSym(ScrapedKeys(s), ScrapedKeys(t));
  }

  lemma ScrapedShared(s: Scraped, t: Scraped, k: Key)
    requires k in ScrapedKeys(s) && k in ScrapedKeys(t)
    ensures Overlap(ScrapedKeys(s), ScrapedKeys(t))
  {
  }

  /** The family with a row under the id of s is the one that s is matched to. */
  lemma IdLeadsHome(b: Book, fams: seq<seq<PriceRow>>, kept: seq<Scraped>, ws: seq<Write>, s: Scraped, g: nat, h: nat)
    requires Snapshot(b, fams, kept, ws) && NonEmptyFamilies(fams) && Matched(fams, KeyMap(fams), s) == Some(g)
    requires h < |fams| && fams[h][0].modelId.family == s.modelId.family
    ensures g == h
  {
    hide KeyMap, Matched, PlanShape, Overlap;
    KeyMapPoints(fams);
    FirstKeyDecides(fams, s);
    var k := IdOf(s);
    assert fams[h][0] in fams[h] && k in RowKeys(fams[h][0]) && HasKey(fams[h], k);
    assert HasKey(fams[g], k);
    var r :| r in fams[g] && k in RowKeys(r);
    KeyShared(r, fams[h][0], k);
  }

  /** A row with the id of a matched s is there only if the matched row has it. */
  lemma IdHolder(b: Book, fams: seq<seq<PriceRow>>, kept: seq<Scraped>, ws: seq<Write>, clock: nat -> int, after: Book,
                 s: Scraped, g: nat)
    requires Ran(b, fams, kept, ws, clock, after) && Wanted(kept, s) && Matched(fams, KeyMap(fams), s) == Some(g)
    requires Held(after.rows, IdOf(s))
    ensures fams[g][0].modelId.family == s.modelId.family
  {
    hide KeyMap, Matched, PlanShape, PlanComplete, Grouped, Overlap, Shape, ExtrasClosed, KeysDisjoint, Slot;
    var i: nat :| Holds(after.rows, i, IdOf(s));
    var o := OriginOf(b, fams, kept, ws, clock, after, i);
    match o
    case Survivor(h) =>
      IdLeadsHome(b, fams, kept, ws, s, g, h);
    case Created(k) =>
      SanctionedAt(fams, kept, ws, k);
      var t := ws[k].row;
      if ws[k].Insert? {
        ScrapedShared(s, t, IdOf(s));
        RowsDisjoint(kept, s, t);
      } else {
        IdLeadsHome(b, fams, kept, ws, s, g, Matched(fams, KeyMap(fams), t).value);
      }
  }

  /** When s moves no price, a row with its name was there before the run. */
  lemma NameHolder(b: Book, fams: seq<seq<PriceRow>>, kept: seq<Scraped>, ws: seq<Write>, clock: nat -> int, after: Book,
                   s: Scraped, i: nat) returns (h: nat)
    requires Ran(b, fams, kept, ws, clock, after) && Wanted(kept, s) && Answered(fams, s)
    requires Holds(after.rows, i, NameOf(s)) && s.modelName.versioned
    ensures h < |fams| && !Replaced(fams, kept, h) && after.rows[i] == fams[h][0]
  {
    hide KeyMap, Matched, PlanShape, PlanComplete, Grouped, Overlap, Shape, ExtrasClosed, KeysDisjoint, Slot, Replaced, Renewed;
    var o := OriginOf(b, fams, kept, ws, clock, after, i);
    match o
    case Survivor(g) =>
      h := g;
      RenewedIff(b, fams, kept, ws, h);
    case Created(k) =>
      SanctionedAt(fams, kept, ws, k);
      ScrapedShared(s, ws[k].row, NameOf(s));
      RowsDisjoint(kept, s, ws[k].row);
      assert false;
  }

  // ----- one row of the page, both runs -----

  lemma CreatedHolds(b: Book, ws: seq<Write>, clock: nat -> int, after: Book, k: nat) returns (i: nat)
    requires Shape(b, ws, clock, after) && k < |ws| && Creates(ws[k])
    ensures i < |after.rows| && !PricesDiffer(after.rows[i], ws[k].row)
    ensures Holds(after.rows, i, IdKey(NewModelId(ws[k]).family))
    ensures ws[k].row.modelName.versioned ==> Holds(after.rows, i, NameOf(ws[k].row))
  {
    hide Shape;
    CreatedRow(b, ws, clock, after, k);
    i := Slot(b, ws, k);
  }

  lemma MovedRefound(b: Book, fams: seq<seq<PriceRow>>, kept: seq<Scraped>, ws: seq<Write>, clock: nat -> int, after: Book,
                     fams2: seq<seq<PriceRow>>, ws2: seq<Write>, s: Scraped, g: nat)
    requires Ran(b, fams, kept, ws, clock, after) && OneRowEach(after, fams2, kept, ws2) && Replaces(fams, kept, s, g)
    ensures Answered(fams2, s) <==> fams[g][0].modelId.family == s.modelId.family || s.modelName.versioned
  {
    hide KeyMap, NoSharedKeys, Snapshot, PlanComplete, Shape, ExtrasClosed, KeysDisjoint, Holds, Held, PricesDiffer, Answered,
      Matched;
    var k := ReplacementIsWritten(fams, kept, ws, s, g);
    var i := CreatedHolds(b, ws, clock, after, k);
    if fams[g][0].modelId.family == s.modelId.family {
      AnsweredById(after, fams2, kept, ws2, s, i);
    } else {
      if Held(after.rows, IdOf(s)) { IdHolder(b, fams, kept, ws, clock, after, s, g); }
      if s.modelName.versioned {
        AnsweredByName(after, fams2, kept, ws2, s, i);
      } else {
        Unanswered(after, fams2, kept, ws2, s);
      }
    }
  }

  lemma SameIdRefound(b: Book, fams: seq<seq<PriceRow>>, kept: seq<Scraped>, ws: seq<Write>, clock: nat -> int, after: Book,
                      fams2: seq<seq<PriceRow>>, ws2: seq<Write>, s: Scraped, g: nat)
    requires Ran(b, fams, kept, ws, clock, after) && OneRowEach(after, fams2, kept, ws2) && g < |fams|
    requires !PricesDiffer(fams[g][0], s) && fams[g][0].modelId.family == s.modelId.family
    ensures Answered(fams2, s) <==> !Replaced(fams, kept, g)
  {
    hide KeyMap, NoSharedKeys, Snapshot, PlanComplete, Shape, ExtrasClosed, KeysDisjoint, Answered, Matched, Renewed;
    if Replaced(fams, kept, g) {
      var t :| Replaces(fams, kept, t, g);
      var k := ReplacementIsWritten(fams, kept, ws, t, g);
      var i := CreatedHolds(b, ws, clock, after, k);
      AnsweredById(after, fams2, kept, ws2, s, i);
    } else {
      RenewedIff(b, fams, kept, ws, g);
      var i := UnrenewedStays(b, fams, kept, ws, clock, after, g);
      AnsweredById(after, fams2, kept, ws2, s, i);
    }
  }

  lemma OtherIdRefound(b: Book, fams: seq<seq<PriceRow>>, kept: seq<Scraped>, ws: seq<Write>, clock: nat -> int, after: Book,
                       fams2: seq<seq<PriceRow>>, ws2: seq<Write>, s: Scraped, g: nat)
    requires Ran(b, fams, kept, ws, clock, after) && OneRowEach(after, fams2, kept, ws2) && Wanted(kept, s)
    requires Matched(fams, KeyMap(fams), s) == Some(g)
    requires !PricesDiffer(fams[g][0], s) && fams[g][0].modelId.family != s.modelId.family
    ensures Answered(fams2, s) <==> HasNamesake(fams, kept, s)
  {
    hide KeyMap, NoSharedKeys, Snapshot, PlanComplete, Shape, ExtrasClosed, KeysDisjoint, Matched, Renewed, Replaced, PricesDiffer;
    if Held(after.rows, IdOf(s)) { IdHolder(b, fams, kept, ws, clock, after, s, g); }
    if HasNamesake(fams, kept, s) {
      var h: nat :| NamesakeOf(fams, kept, s, h);
      RenewedIff(b, fams, kept, ws, h);
      var i := UnrenewedStays(b, fams, kept, ws, clock, after, h);
      AnsweredByName(after, fams2, kept, ws2, s, i);
    } else if s.modelName.versioned && Held(after.rows, NameOf(s)) {
      var i: nat :| Holds(after.rows, i, NameOf(s));
      var h := NameHolder(b, fams, kept, ws, clock, after, s, i);
      assert !NamesakeOf(fams, kept, s, h);
      AnsweredByName(after, fams2, kept, ws2, s, i);
    } else {
      Unanswered(after, fams2, kept, ws2, s);
    }
  }

  lemma RefoundIff(b: Book, fams: seq<seq<PriceRow>>, kept: seq<Scraped>, ws: seq<Write>, clock: nat -> int, after: Book,
                   fams2: seq<seq<PriceRow>>, ws2: seq<Write>, s: Scraped)
    requires Ran(b, fams, kept, ws, clock, after) && OneRowEach(after, fams2, kept, ws2) && Wanted(kept, s)
    ensures Answered(fams2, s) <==> Refound(fams, kept, s)
  {
    hide KeyMap, NoSharedKeys, PlanShape, Grouped, PlanComplete, Shape, ExtrasClosed, KeysDisjoint, Matched, Replaced, PricesDiffer,
      Answered, HasNamesake;
    match Matched(fams, KeyMap(fams), s)
    case None =>
      var k := Issued(fams, kept, ws, s, Insert(s));
      var i := CreatedHolds(b, ws, clock, after, k);
      AnsweredById(after, fams2, kept, ws2, s, i);
    case Some(g) =>
      if PricesDiffer(fams[g][0], s) {
        MovedRefound(b, fams, kept, ws, clock, after, fams2, ws2, s, g);
      } else if fams[g][0].modelId.family == s.modelId.family {
        SameIdRefound(b, fams, kept, ws, clock, after, fams2, ws2, s, g);
      } else {
        OtherIdRefound(b, fams, kept, ws, clock, after, fams2, ws2, s, g);
      }
  }

  // ----- the second run as a whole -----

  lemma {:induction false} UpsertedZero(fams: seq<seq<PriceRow>>, byKey: map<Key, nat>, kept: seq<Scraped>, start: Plan)
    requires PointsInto(byKey, |fams|) && NonEmptyFamilies(fams) && start.upserted == 0
    ensures RunRows(fams, byKey, kept, start).upserted == 0 <==>
      forall s :: s in kept ==> !RowChange(fams, byKey, s).kind.Inserted? && !RowChange(fams, byKey, s).kind.Versioned?
  {
    hide RowChange, RowWrites, RowTouched;
    if kept != [] {
      var n := |kept| - 1;
      assert kept == kept[..n] + [kept[n]];
      UpsertedZero(fams, byKey, kept[..n], start);
    }
  }

  lemma {:induction false} RowsWriteNothing(fams: seq<seq<PriceRow>>, byKey: map<Key, nat>, kept: seq<Scraped>, start: Plan)
    requires PointsInto(byKey, |fams|) && NonEmptyFamilies(fams) && start.writes == []
    requires forall s :: s in kept ==> RowWrites(fams, byKey, s) == []
    ensures RunRows(fams, byKey, kept, start).writes == []
  {
    hide RowChange, RowWrites, RowTouched;
    if kept != [] {
      var n := |kept| - 1;
      assert kept == kept[..n] + [kept[n]];
      RowsWriteNothing(fams, byKey, kept[..n], start);
    }
  }

  lemma {:induction false} FamiliesWriteNothing(fams: seq<seq<PriceRow>>, m: nat, p: Plan)
    requires m <= |fams| && NonEmptyFamilies(fams) && forall g :: 0 <= g < |fams| ==> |fams[g]| == 1
    ensures RunFamilies(fams, m, p) == p
  {
    if m > 0 { FamiliesWriteNothing(fams, m - 1, p); }
  }

  /** With one row per family, a row is left alone when it is not to be written or
      its match has its prices; otherwise it creates a row. */
  lemma SecondChange(fams: seq<seq<PriceRow>>, s: Scraped)
    requires PointsInto(KeyMap(fams), |fams|) && NonEmptyFamilies(fams)
    requires forall g :: 0 <= g < |fams| ==> |fams[g]| == 1
    ensures var c := RowChange(fams, KeyMap(fams), s);
      !c.kind.Inserted? && !c.kind.Versioned? <==> (s.status.Success? ==> Answered(fams, s))
    ensures (s.status.Success? ==> Answered(fams, s)) ==> RowWrites(fams, KeyMap(fams), s) == []
    ensures s.status.Success? && !Answered(fams, s) ==>
      exists w :: w in RowWrites(fams, KeyMap(fams), s) && Creates(w)
  {
    hide KeyMap, Matched;
    if s.status.Success? && !Answered(fams, s) {
      var ws := RowWrites(fams, KeyMap(fams), s);
      assert Creates(ws[0]) && ws[0] in ws;
    }
  }

  /** The families the second run finds after a collision-free first one. */
  lemma SecondFamilies(b: Book, scraped: seq<Scraped>, clock: nat -> int)
    requires ValidBook(b) && FreeOfCollisions(b, scraped)
    ensures var b1 := RunOf(b, scraped, clock);
      ValidBook(b1) && OneRowEach(b1, FamsOf(b1), Kept(scraped), WritesOf(b1, scraped))
  {
    hide Kept, FamsOf, WritesOf, RunOf, KeyMap, Snapshot, PlanComplete, NoSharedKeys, FreeOfCollisions;
    NoSharedKeysIff(b, scraped, clock);
    var b1 := RunOf(b, scraped, clock);
    TakeSnapshot(b1, scraped);
    SingletonFamilies(b1);
  }

  lemma PlanIs(b: Book, scraped: seq<Scraped>)
    requires PointsInto(KeyMap(FamsOf(b)), |FamsOf(b)|) && NonEmptyFamilies(FamsOf(b))
    ensures var fams := FamsOf(b);
      PlanFor(b.rows, scraped) == RunFamilies(fams, |fams|, RunRows(fams, KeyMap(fams), Kept(scraped), Start(scraped)))
  {
    hide KeyMap, FamiliesOf, OpenRows, RunFamilies, RunRows, Kept, Start;
  }

  /** With one row per family, a run upserts nothing if and only if every row to be
      written is answered, and then it writes nothing. */
  lemma QuietRun(b: Book, fams: seq<seq<PriceRow>>, scraped: seq<Scraped>)
    requires fams == FamsOf(b) && OneRowEach(b, fams, Kept(scraped), WritesOf(b, scraped))
    ensures var again := PlanFor(b.rows, scraped);
      var quiet := forall s :: Wanted(Kept(scraped), s) ==> Answered(fams, s);
      && (again.upserted == 0 <==> quiet)
      && (quiet ==> again.writes == [])
  {
    hide KeyMap, FamsOf, WritesOf, Kept, Snapshot, NoSharedKeys, Answered, RowChange, RowWrites, RunRows, RunFamilies, PlanFor;
    var kept, start := Kept(scraped), Start(scraped);
    SnapshotPlan(b, fams, kept, WritesOf(b, scraped));
    forall s ensures var c := RowChange(fams, KeyMap(fams), s);
        !c.kind.Inserted? && !c.kind.Versioned? <==> (s.status.Success? ==> Answered(fams, s))
      ensures (s.status.Success? ==> Answered(fams, s)) ==> RowWrites(fams, KeyMap(fams), s) == []
    {
      SecondChange(fams, s);
    }
    UpsertedZero(fams, KeyMap(fams), kept, start);
    FamiliesWriteNothing(fams, |fams|, RunRows(fams, KeyMap(fams), kept, start));
    PlanIs(b, scraped);
    if forall s :: Wanted(kept, s) ==> Answered(fams, s) { RowsWriteNothing(fams, KeyMap(fams), kept, start); }
  }

  ghost predicate AllRefound(b: Book, scraped: seq<Scraped>)
    requires PointsInto(KeyMap(FamsOf(b)), |FamsOf(b)|) && NonEmptyFamilies(FamsOf(b))
  {
    forall s :: Wanted(Kept(scraped), s) ==> Refound(FamsOf(b), Kept(scraped), s)
  }

  lemma AnsweredIffRefound(b: Book, scraped: seq<Scraped>, clock: nat -> int)
    requires ValidBook(b) && FreeOfCollisions(b, scraped)
    ensures var b1 := RunOf(b, scraped, clock);
      && PointsInto(KeyMap(FamsOf(b)), |FamsOf(b)|) && NonEmptyFamilies(FamsOf(b))
      && OneRowEach(b1, FamsOf(b1), Kept(scraped), WritesOf(b1, scraped))
      && (AllRefound(b, scraped) <==> forall s :: Wanted(Kept(scraped), s) ==> Answered(FamsOf(b1), s))
  {
    hide Kept, FamsOf, WritesOf, RunOf, KeyMap, Ran, Refound, Answered, Snapshot, NoSharedKeys;
    RunRan(b, scraped, clock);
    SecondFamilies(b, scraped, clock);
    var b1 := RunOf(b, scraped, clock);
    forall s | Wanted(Kept(scraped), s) ensures Answered(FamsOf(b1), s) <==> Refound(FamsOf(b), Kept(scraped), s) {
      RefoundIff(b, FamsOf(b), Kept(scraped), WritesOf(b, scraped), clock, b1, FamsOf(b1), WritesOf(b1, scraped), s);
    }
  }

  /** After a run without collisions, scraping the same rows again upserts nothing
      if and only if every row to be written is found again; and then the second
      run issues no statement at all. */
  lemma RescrapeIdempotent(b: Book, scraped: seq<Scraped>, clock: nat -> int)
    requires ValidBook(b) && FreeOfCollisions(b, scraped)
    ensures var again := PlanFor(RunOf(b, scraped, clock).rows, scraped);
      && (again.upserted == 0 <==> AllRefound(b, scraped))
      && (AllRefound(b, scraped) ==> again.writes == [])
  {
    hide Kept, FamsOf, WritesOf, RunOf, KeyMap, OneRowEach, Answered, AllRefound, PlanFor;
    AnsweredIffRefound(b, scraped, clock);
    var b1 := RunOf(b, scraped, clock);
    QuietRun(b1, FamsOf(b1), scraped);
  }

  // ----- when the table is left exactly as it was -----

  lemma CreationShows(b: Book, ws: seq<Write>, clock: nat -> int, after: Book, k: nat)
    requires Shape(b, ws, clock, after) && k < |ws| && Creates(ws[k])
    ensures after != b
  {
    hide CreatedCount;
    CountMonotone(ws, k);
  }

  lemma PlaceOf(b: Book, fams: seq<seq<PriceRow>>, kept: seq<Scraped>, ws: seq<Write>, i: nat) returns (g: nat, t: nat)
    requires Snapshot(b, fams, kept, ws) && i < |b.rows| && Open(b.rows[i])
    ensures g < |fams| && t < |fams[g]| && fams[g][t] == b.rows[i]
  {
    hide KeyMap, PlanShape, Overlap;
    assert InFamily(fams, b.rows[i]);
    g :| 0 <= g < |fams| && b.rows[i] in fams[g];
    t :| 0 <= t < |fams[g]| && fams[g][t] == b.rows[i];
  }

  lemma ExtraGone(b: Book, fams: seq<seq<PriceRow>>, ws: seq<Write>, clock: nat -> int, after: Book, i: nat, g: nat, t: nat)
    requires ExtrasClosed(fams, ws) && Shape(b, ws, clock, after)
    requires i < |b.rows| && Open(b.rows[i]) && g < |fams| && 0 < t < |fams[g]| && fams[g][t] == b.rows[i]
    ensures after != b
  {
    hide CreatedCount;
    assert !Open(after.rows[i]);
  }

  lemma ApartShareNothing(fams: seq<seq<PriceRow>>, open: seq<PriceRow>, g: nat, t: nat, h: nat, u: nat)
    requires Grouped(fams, open) && g < |fams| && h < |fams| && g != h && t < |fams[g]| && u < |fams[h]|
    ensures !Overlap(RowKeys(fams[g][t]), RowKeys(fams[h][u]))
  {
    assert fams[g][t] in fams[g] && fams[h][u] in fams[h];
  }

  /** Two open rows with a common key do not both survive a run. */
  lemma SharedKeyShows(b: Book, fams: seq<seq<PriceRow>>, kept: seq<Scraped>, ws: seq<Write>, clock: nat -> int, after: Book)
    requires Ran(b, fams, kept, ws, clock, after) && !NoSharedKeys(b.rows)
    ensures after != b
  {
    hide KeyMap, Grouped, PlanShape, PlanComplete, KeysDisjoint, ExtrasClosed, Shape, Overlap, RowKeys;
    var i, j :| 0 <= i < j < |b.rows| && Open(b.rows[i]) && Open(b.rows[j]) && Overlap(RowKeys(b.rows[i]), RowKeys(b.rows[j]));
    var g, t := PlaceOf(b, fams, kept, ws, i);
    var h, u := PlaceOf(b, fams, kept, ws, j);
    if g != h { ApartShareNothing(fams, OpenRows(b.rows), g, t, h, u); }
    assert b.rows[i].id != b.rows[j].id;
    if t > 0 { ExtraGone(b, fams, ws, clock, after, i, g, t); } else { ExtraGone(b, fams, ws, clock, after, j, h, u); }
  }

  lemma UnansweredShows(b: Book, scraped: seq<Scraped>, clock: nat -> int, s: Scraped)
    requires ValidBook(b) && OneRowEach(b, FamsOf(b), Kept(scraped), WritesOf(b, scraped))
    requires Wanted(Kept(scraped), s) && !Answered(FamsOf(b), s)
    ensures RunOf(b, scraped, clock) != b
  {
    hide Kept, FamsOf, WritesOf, RunOf, KeyMap, Snapshot, NoSharedKeys, Answered, RowWrites, RowChange, Shape, PlanComplete;
    var fams, kept, ws := FamsOf(b), Kept(scraped), WritesOf(b, scraped);
    RunHasShape(b, scraped, clock);
    SecondChange(fams, s);
    var w :| w in RowWrites(fams, KeyMap(fams), s) && Creates(w);
    var k := Issued(fams, kept, ws, s, w);
    CreationShows(b, ws, clock, RunOf(b, scraped, clock), k);
  }

  /** A second run leaves the table exactly as the first one left it if and only if
      the scrape is free of collisions and every row to be written is found again. */
  lemma RescrapeLeavesTable(b: Book, scraped: seq<Scraped>, clock: nat -> int, later: nat -> int)
    requires ValidBook(b)
    ensures RunOf(RunOf(b, scraped, clock), scraped, later) == RunOf(b, scraped, clock)
      <==> FreeOfCollisions(b, scraped) && AllRefound(b, scraped)
  {
    hide Kept, FamsOf, WritesOf, KeyMap, Ran, Snapshot, Answered, AllRefound, PlanFor, FreeOfCollisions, NoSharedKeys, RunOf;
    var b1 := RunOf(b, scraped, clock);
    NoSharedKeysIff(b, scraped, clock);
    if !FreeOfCollisions(b, scraped) {
      RunRan(b1, scraped, later);
      SharedKeyShows(b1, FamsOf(b1), Kept(scraped), WritesOf(b1, scraped), later, RunOf(b1, scraped, later));
    } else {
      CollisionFreeFamilies(b, scraped);
      AnsweredIffRefound(b, scraped, clock);
      if AllRefound(b, scraped) {
        RescrapeIdempotent(b, scraped, clock);
        NothingWritten(b1, scraped, later);
      } else {
        var s :| Wanted(Kept(scraped), s) && !Answered(FamsOf(b1), s);
        UnansweredShows(b1, scraped, later, s);
      }
    }
  }

  lemma CollisionFreeFamilies(b: Book, scraped: seq<Scraped>)
    requires FreeOfCollisions(b, scraped)
    ensures PointsInto(KeyMap(FamsOf(b)), |FamsOf(b)|) && NonEmptyFamilies(FamsOf(b))
  {
  }

  lemma NothingWritten(b: Book, scraped: seq<Scraped>, clock: nat -> int)
    requires PlanFor(b.rows, scraped).writes == []
    ensures RunOf(b, scraped, clock) == b
  {
    hide PlanFor;
  }

  // ----- unambiguous scrapes -----

  /** The newest row of the matched family, or its replacement, shares a key with s. */
  ghost predicate Recognised(fams: seq<seq<PriceRow>>, s: Scraped)
    requires PointsInto(KeyMap(fams), |fams|) && NonEmptyFamilies(fams)
  {
    match Matched(fams, KeyMap(fams), s)
    case None => true
    case Some(g) =>
      var c := fams[g][0];
      if PricesDiffer(c, s) then c.modelId.family == s.modelId.family || s.modelName.versioned
      else Overlap(RowKeys(c), ScrapedKeys(s))
  }

  lemma RecognisedIsRefound(fams: seq<seq<PriceRow>>, kept: seq<Scraped>, s: Scraped)
    requires PointsInto(KeyMap(fams), |fams|) && NonEmptyFamilies(fams) && Unambiguous(fams, kept) && Wanted(kept, s)
    ensures Recognised(fams, s) <==> Refound(fams, kept, s)
  {
    hide KeyMap, Matched, Overlap, Unambiguous, Replaced, KeysOf, Overridden;
    OverriddenIff(fams, kept, s);
    var m := Matched(fams, KeyMap(fams), s);
    if m.Some? && !PricesDiffer(fams[m.value][0], s) {
      NotOverridden(fams, kept, s);
      var c := fams[m.value][0];
      OverlapByIdOrName(c, s);
      if c.modelId.family != s.modelId.family { OnlyNamesake(fams, kept, s, m.value); }
    }
  }

  lemma OverlapByIdOrName(c: PriceRow, s: Scraped)
    ensures Overlap(RowKeys(c), ScrapedKeys(s)) <==> c.modelId.family == s.modelId.family || NameMeets(s, c)
  {
    if c.modelId.family == s.modelId.family { assert IdOf(s) in RowKeys(c) && IdOf(s) in ScrapedKeys(s); }
    if NameMeets(s, c) { assert NameOf(s) in RowKeys(c) && NameOf(s) in ScrapedKeys(s); }
  }

  lemma OnlyNamesake(fams: seq<seq<PriceRow>>, kept: seq<Scraped>, s: Scraped, g: nat)
    requires PointsInto(KeyMap(fams), |fams|) && NonEmptyFamilies(fams) && Unambiguous(fams, kept) && Wanted(kept, s)
    requires Matched(fams, KeyMap(fams), s) == Some(g) && !PricesDiffer(fams[g][0], s) && !Replaced(fams, kept, g)
    ensures HasNamesake(fams, kept, s) <==> NameMeets(s, fams[g][0])
  {
    hide KeyMap, Matched, Hits, Replaced, NameMeets;
    if NameMeets(s, fams[g][0]) { assert NamesakeOf(fams, kept, s, g); }
    if HasNamesake(fams, kept, s) {
      var h: nat :| NamesakeOf(fams, kept, s, h);
      NameHits(fams, h, s);
      MatchedHits(fams, s);
    }
  }

  /** When no row meets two families and no two meet the same, a second run upserts
      nothing if and only if each row to be written shares a key with the newest row
      of the family it meets, or with the replacement of that row. */
  lemma UnambiguousRescrape(b: Book, scraped: seq<Scraped>, clock: nat -> int)
    requires ValidBook(b) && Unambiguous(FamsOf(b), Kept(scraped))
    ensures PointsInto(KeyMap(FamsOf(b)), |FamsOf(b)|) && NonEmptyFamilies(FamsOf(b))
    ensures var again := PlanFor(RunOf(b, scraped, clock).rows, scraped);
      var stable := forall s :: Wanted(Kept(scraped), s) ==> Recognised(FamsOf(b), s);
      && (again.upserted == 0 <==> stable)
      && (stable ==> again.writes == [])
  {
    hide Kept, FamsOf, RunOf, KeyMap, Unambiguous, Recognised, Refound, PlanFor, FreeOfCollisions;
    UnambiguousScrape(b, scraped);
    CollisionFreeFamilies(b, scraped);
    RescrapeIdempotent(b, scraped, clock);
    forall s | Wanted(Kept(scraped), s) ensures Recognised(FamsOf(b), s) <==> Refound(FamsOf(b), Kept(scraped), s) {
      RecognisedIsRefound(FamsOf(b), Kept(scraped), s);
    }
  }

  /** Then a shared key with the newest row is enough, whether or not its price moves. */
  lemma SharedKeysSuffice(b: Book, scraped: seq<Scraped>, clock: nat -> int, later: nat -> int)
    requires ValidBook(b) && Unambiguous(FamsOf(b), Kept(scraped))
    requires PointsInto(KeyMap(FamsOf(b)), |FamsOf(b)|) && NonEmptyFamilies(FamsOf(b))
    requires forall s :: Wanted(Kept(scraped), s) && Matched(FamsOf(b), KeyMap(FamsOf(b)), s).Some? ==>
      Overlap(RowKeys(FamsOf(b)[Matched(FamsOf(b), KeyMap(FamsOf(b)), s).value][0]), ScrapedKeys(s))
    ensures RunOf(RunOf(b, scraped, clock), scraped, later) == RunOf(b, scraped, clock)
  {
    hide Kept, FamsOf, KeyMap, Unambiguous, Overlap, PlanFor, FreeOfCollisions, Refound, Matched;
    UnambiguousScrape(b, scraped);
    forall s | Wanted(Kept(scraped), s) ensures Refound(FamsOf(b), Kept(scraped), s) {
      RecognisedIsRefound(FamsOf(b), Kept(scraped), s);
      var m := Matched(FamsOf(b), KeyMap(FamsOf(b)), s);
      if m.Some? { OverlapByIdOrName(FamsOf(b)[m.value][0], s); }
    }
    RescrapeLeavesTable(b, scraped, clock, later);
  }
}
