/** Three tables showing that the conditions of the price theorems are needed. */
module PriceLimits {
  import opened Options
  import opened Sorting
  import opened FamilyKeys
  import opened UnionFind
  import opened PriceBook
  import opened PriceWriter
  import opened PricePlanFacts
  import opened PriceSafety
  import opened PriceHistory
  import opened PriceOutcome
  import opened PriceRescrape

  function Plain(text: string): Label { Label(text, text, false) }

  function Named(text: string): Label { Label(text, text, true) }

  function OpenRow(id: nat, m: Label, name: Label, price: int, from: int): PriceRow {
    PriceRow(id, m, name, price, price, None, true, from, from, None)
  }

  lemma KeptSingle(s: Scraped)
    ensures Kept([s]) == [s]
  {
    assert [s][..0] == [];
    assert Kept([]) == [] && SeenKeys([]) == {};
  }

  lemma HeadOf(b: Book, scraped: seq<Scraped>, r: PriceRow) returns (g: nat, t: nat)
    requires Snapshot(b, FamsOf(b), Kept(scraped), WritesOf(b, scraped)) && r in b.rows && Open(r)
    ensures g < |FamsOf(b)| && t < |FamsOf(b)[g]| && FamsOf(b)[g][t] == r
  {
    hide KeyMap, PlanShape, FamsOf;
    assert InFamily(FamsOf(b), r);
    g :| 0 <= g < |FamsOf(b)| && r in FamsOf(b)[g];
    t :| 0 <= t < |FamsOf(b)[g]| && FamsOf(b)[g][t] == r;
  }

  // ----- a scraped row that joins two families -----

  const A := OpenRow(0, Plain("opus-4"), Named("opus 4"), 1, 0)
  const B := OpenRow(1, Plain("opus-5"), Named("opus 5"), 1, 0)
  const JOINER := Scraped(Plain("opus-4"), Named("opus 5"), 2, 2, None, Success)

  /** A row carrying one model's id and another's name is written under the
      first, and then two open rows answer to the same key. */
  lemma JoinerSharesKey(clock: nat -> int)
    ensures ValidBook(Book([A, B], 2)) && NoSharedKeys([A, B])
    ensures !NoSharedKeys(RunOf(Book([A, B], 2), [JOINER], clock).rows)
  {
    hide KeyMap, FamsOf, WritesOf, ApplyAll, Kept, CreatedCount, PlanShape, Shape, Overlap;
    var b := Book([A, B], 2);
    Apart();
    var k := JoinerWrites(b);
    var ws := WritesOf(b, [JOINER]);
    TakeSnapshot(b, [JOINER]);
    PrefixNamesOld(b, FamsOf(b), Kept([JOINER]), ws, |ws|);
    assert ws[..|ws|] == ws;
    ShapeOf(b, ws, clock);
    JoinerOutcome(b, ws, clock, ApplyAll(b, ws, clock), k);
  }

  lemma Apart()
    ensures ValidBook(Book([A, B], 2)) && NoSharedKeys([A, B])
  {
  }

  lemma JoinerWrites(b: Book) returns (k: nat)
    requires b == Book([A, B], 2) && ValidBook(b) && NoSharedKeys(b.rows)
    ensures k < |WritesOf(b, [JOINER])| && WritesOf(b, [JOINER])[k] == Version(A, JOINER)
    ensures !ClosedBy(WritesOf(b, [JOINER]), 1)
  {
    hide KeyMap, FamsOf, WritesOf, Kept, PlanShape, Overlap, RowWrites, Matched, OpenRows, NoSharedKeys;
    var s := JOINER;
    KeptSingle(s);
    TakeSnapshot(b, [s]);
    SingletonFamilies(b);
    var fams, kept, ws := FamsOf(b), Kept([s]), WritesOf(b, [s]);
    HeadsExist(b, fams, kept, ws);
    var g, t := HeadOf(b, [s], A);
    var h, u := HeadOf(b, [s], B);
    AKnown(fams, g, t);
    JoinerMatchesA(b, fams, kept, ws, g);
    JoinerRow(fams, g);
    k := Issued(fams, kept, ws, s, Version(A, s));
    OtherUntouched(b, fams, kept, ws, g, h);
  }

  lemma AKnown(fams: seq<seq<PriceRow>>, g: nat, t: nat)
    requires g < |fams| && t < |fams[g]| && fams[g][t] == A
    ensures IdKey("opus-4") in KeyMap(fams)
  {
    hide KeyMap;
    KeyMapPoints(fams);
    assert IdKey("opus-4") in RowKeys(A) && fams[g][t] in fams[g];
    assert HasKey(fams[g], IdKey("opus-4"));
  }

  lemma JoinerRow(fams: seq<seq<PriceRow>>, g: nat)
    requires PointsInto(KeyMap(fams), |fams|) && NonEmptyFamilies(fams)
    requires g < |fams| && fams[g] == [A] && Matched(fams, KeyMap(fams), JOINER) == Some(g)
    ensures RowWrites(fams, KeyMap(fams), JOINER) == [Version(A, JOINER)]
  {
    hide KeyMap, Matched;
  }

  lemma OtherUntouched(b: Book, fams: seq<seq<PriceRow>>, kept: seq<Scraped>, ws: seq<Write>, g: nat, h: nat)
    requires b == Book([A, B], 2) && Snapshot(b, fams, kept, ws) && NonEmptyFamilies(fams)
    requires g < |fams| && h < |fams| && fams[g][0] == A && fams[h][0] == B && kept == [JOINER]
    requires Matched(fams, KeyMap(fams), JOINER) == Some(g)
    ensures !ClosedBy(ws, 1)
  {
    hide KeyMap, Matched, OpenRows;
    assert ws[..|ws|] == ws;
    if ClosedBy(ws, 1) {
      var l := NewestReplaced(b, fams, kept, ws, |ws|, h);
      SanctionedAt(fams, kept, ws, l);
      assert false;
    }
  }

  lemma JoinerOutcome(b: Book, ws: seq<Write>, clock: nat -> int, after: Book, k: nat)
    requires b == Book([A, B], 2) && Shape(b, ws, clock, after)
    requires k < |ws| && ws[k] == Version(A, JOINER) && !ClosedBy(ws, 1)
    ensures !NoSharedKeys(after.rows)
  {
    hide CreatedCount, ClosedBy;
    assert b.rows[1].id == 1;
    assert after.rows[1] == B;
    var i := Slot(b, ws, k);
    assert after.rows[i] == NewRow(ws[k], b.nextId + CreatedCount(ws[..k]), clock(k));
    assert NameKey("opus 5") in RowKeys(B) && NameKey("opus 5") in RowKeys(after.rows[i]);
    assert Overlap(RowKeys(after.rows[1]), RowKeys(after.rows[i]));
    assert 1 < i < |after.rows|;
  }

  lemma JoinerMatchesA(b: Book, fams: seq<seq<PriceRow>>, kept: seq<Scraped>, ws: seq<Write>, g: nat)
    requires b == Book([A, B], 2) && Snapshot(b, fams, kept, ws) && NonEmptyFamilies(fams)
    requires forall h :: 0 <= h < |fams| ==> |fams[h]| == 1
    requires g < |fams| && fams[g][0] == A && IdKey("opus-4") in KeyMap(fams)
    ensures Matched(fams, KeyMap(fams), JOINER) == Some(g)
  {
    hide KeyMap, PlanShape, Grouped, Matched;
    KeyMapPoints(fams);
    var k := IdKey("opus-4");
    var m := KeyMap(fams)[k];
    FirstKeyDecides(fams, JOINER);
    assert IdOf(JOINER) == k;
    assert HasKey(fams[m], k);
    var r :| r in fams[m] && k in RowKeys(r);
    FamilyRowOpen(b, fams, kept, ws, m, 0);
    OnlyAHasKey(r);
    OneFamily(b, fams, kept, ws, g, 0, m, 0);
  }

  lemma OnlyAHasKey(r: PriceRow)
    requires r in [A, B] && IdKey("opus-4") in RowKeys(r)
    ensures r == A
  {
  }

  // ----- a scraped row that only an older alias answers to -----

  const NEWEST := OpenRow(0, Plain("haiku-3"), Named("haiku 3"), 1, 1)
  const ALIAS := OpenRow(1, Plain("haiku3-legacy"), Named("haiku 3"), 1, 0)
  const BY_ALIAS := Scraped(Plain("haiku3-legacy"), Plain("haiku"), 1, 1, None, Success)

  lemma AliasFamily(scraped: seq<Scraped>) returns (g: nat)
    ensures var b := Book([NEWEST, ALIAS], 2);
      && ValidBook(b) && g < |FamsOf(b)| && FamsOf(b)[g] != [] && FamsOf(b)[g][0] == NEWEST
      && ALIAS in FamsOf(b)[g] && |FamsOf(b)| == 1
  {
    hide KeyMap, PlanShape, Overlap, FamsOf, Sort, OpenOnly;
    var b := Book([NEWEST, ALIAS], 2);
    TakeSnapshot(b, scraped);
    var fams, kept, ws := FamsOf(b), Kept(scraped), WritesOf(b, scraped);
    HeadsExist(b, fams, kept, ws);
    var t, h, u;
    g, t := HeadOf(b, scraped, NEWEST);
    h, u := HeadOf(b, scraped, ALIAS);
    NamesOverlap();
    assert fams[g][t] in fams[g] && fams[h][u] in fams[h];
    assert h == g;
    AliasOnly(b, fams, kept, ws, g, t, u, 0);
    if |fams| > 1 {
      AliasOnly(b, fams, kept, ws, g, t, u, 1);
      assert false;
    }
    NewestLeads(g, t, u);
  }

  lemma AliasOnly(b: Book, fams: seq<seq<PriceRow>>, kept: seq<Scraped>, ws: seq<Write>, g: nat, t: nat, u: nat, x: nat)
    requires b == Book([NEWEST, ALIAS], 2) && Snapshot(b, fams, kept, ws) && NonEmptyFamilies(fams)
    requires g < |fams| && t < |fams[g]| && u < |fams[g]| && fams[g][t] == NEWEST && fams[g][u] == ALIAS
    requires x < |fams|
    ensures x == g
  {
    hide KeyMap, PlanShape, Overlap, OpenRows;
    FamilyRowOpen(b, fams, kept, ws, x, 0);
    OneFamily(b, fams, kept, ws, x, 0, g, if fams[x][0] == NEWEST then t else u);
  }

  lemma NamesOverlap()
    ensures Overlap(RowKeys(NEWEST), RowKeys(ALIAS))
  {
    assert NameKey("haiku 3") in RowKeys(NEWEST) && NameKey("haiku 3") in RowKeys(ALIAS);
  }

  lemma AliasOrder()
    ensures OpenRows([NEWEST, ALIAS]) == [NEWEST, ALIAS]
  {
    var rows := [NEWEST, ALIAS];
    assert rows[..1] == [NEWEST] && [NEWEST][..0] == [];
    assert OpenOnly([]) == [];
    assert OpenOnly([NEWEST]) == [NEWEST];
    assert OpenOnly(rows) == rows;
    assert rows[1..] == [ALIAS] && [ALIAS][1..] == [];
    assert Sort([ALIAS], NewerFirst) == [ALIAS] by { assert Sort<PriceRow>([], NewerFirst) == []; }
    assert NewerFirst(NEWEST, ALIAS);
    assert Sorting.Insert(NEWEST, [ALIAS], NewerFirst) == [NEWEST] + [ALIAS];
  }

  lemma NewestLeads(g: nat, t: nat, u: nat)
    requires var fams := FamsOf(Book([NEWEST, ALIAS], 2));
      g < |fams| && t < |fams[g]| && u < |fams[g]| && fams[g][t] == NEWEST && fams[g][u] == ALIAS
    ensures FamsOf(Book([NEWEST, ALIAS], 2))[g][0] == NEWEST
  {
    hide Members, Heads, Component, Linked, OpenRows;
    AliasOrder();
    var open := OpenRows([NEWEST, ALIAS]);
    var ks := KeysOfRows(open, RowKeys);
    FamiliesAreComponents(ks);
    FamilyCount(open);
    FamilyRows(open, g);
    var ix := FamilyKeys.Families(ks)[g];
    assert ix[t] in ix && ix[0] in ix;
    assert ix[t] == 0;
    assert t == 0;
  }

  /** The first run closes the alias and leaves the newest row, which the
      scraped row does not recognise: scraping the same page again inserts. */
  lemma AliasRescrapeInserts(clock: nat -> int)
    ensures var b := Book([NEWEST, ALIAS], 2);
      && ValidBook(b) && Unambiguous(FamsOf(b), Kept([BY_ALIAS]))
      && PlanFor(RunOf(b, [BY_ALIAS], clock).rows, [BY_ALIAS]).upserted != 0
  {
    hide KeyMap, FamsOf, WritesOf, ApplyAll, Kept, PlanShape, Sort, OpenOnly, PlanFor, Overlap;
    var b, s := Book([NEWEST, ALIAS], 2), BY_ALIAS;
    KeptSingle(s);
    var g := AliasFamily([s]);
    var fams := FamsOf(b);
    assert forall x :: x in Kept([s]) <==> x == s;
    assert Unambiguous(fams, Kept([s]));
    UnambiguousRescrape(b, [s], clock);
    AliasHits();
    assert ALIAS in fams[g] && Overlap(RowKeys(ALIAS), ScrapedKeys(s));
    assert Hits(fams, g, s);
    MatchedHits(fams, s);
    assert Matched(fams, KeyMap(fams), s) == Some(g);
    NotRecognised();
    assert Wanted(Kept([s]), s) && !Recognised(fams, s);
  }

  lemma AliasHits()
    ensures Overlap(RowKeys(ALIAS), ScrapedKeys(BY_ALIAS))
  {
    assert IdKey("haiku3-legacy") in RowKeys(ALIAS) && IdKey("haiku3-legacy") in ScrapedKeys(BY_ALIAS);
  }

  lemma NotRecognised()
    ensures !PricesDiffer(NEWEST, BY_ALIAS) && !Overlap(RowKeys(NEWEST), ScrapedKeys(BY_ALIAS))
  {
    assert "haiku-3"[5] == '-' && "haiku3-legacy"[5] == '3';
  }

  // ----- a page price that another row of the page overrides -----

  const ONLY := OpenRow(0, Plain("opus-4"), Named("opus 4"), 1, 0)
  const MOVER := Scraped(Plain("opus-4"), Plain("x"), 2, 2, None, Success)
  const KEEPER := Scraped(Plain("alt"), Named("opus 4"), 1, 1, None, Success)

  lemma BothKept()
    ensures Kept([MOVER, KEEPER]) == [MOVER, KEEPER]
  {
    hide Kept, SeenKeys;
    var page := [MOVER, KEEPER];
    assert page[..1] == [MOVER];
    KeptSingle(MOVER);
    forall k | k in MatchKeys(KEEPER) ensures k !in SeenKeys([MOVER]) {
      SeenIs([MOVER], k);
      assert MatchKeys(MOVER) == [IdKey("opus-4")];
    }
    assert Kept(page) == [MOVER, KEEPER] by { KeptStep(page); }
  }

  lemma KeptStep(page: seq<Scraped>)
    requires |page| == 2 && Kept(page[..1]) == page[..1] && !Known(MatchKeys(page[1]), SeenKeys(page[..1]))
    ensures Kept(page) == page
  {
    assert page == page[..1] + [page[1]];
  }

  lemma OnlyFamily(b: Book)
    requires b == Book([ONLY], 1)
    ensures ValidBook(b) && FamsOf(b) == [[ONLY]]
  {
    hide KeyMap, FamsOf, PlanShape, PlanComplete, Overlap, WritesOf, Kept, OpenRows;
    TakeSnapshot(b, []);
    SingletonFamilies(b);
    var fams, kept, ws := FamsOf(b), Kept([]), WritesOf(b, []);
    var g, t := HeadOf(b, [], ONLY);
    forall x | 0 <= x < |fams| ensures x == g && fams[x] == [ONLY] {
      FamilyRowOpen(b, fams, kept, ws, x, 0);
      OneFamily(b, fams, kept, ws, x, 0, g, t);
    }
    assert fams[0] == [ONLY] && fams[|fams| - 1] == [ONLY];
  }

  lemma OnlyMatches()
    ensures var fams := [[ONLY]];
      && PointsInto(KeyMap(fams), |fams|) && NonEmptyFamilies(fams)
      && Matched(fams, KeyMap(fams), MOVER) == Some(0) && Matched(fams, KeyMap(fams), KEEPER) == Some(0)
  {
    hide KeyMap, Matched, PointsInto;
    var fams := [[ONLY]];
    KeyMapPoints(fams);
    FirstKeyDecides(fams, MOVER);
    FirstKeyDecides(fams, KEEPER);
    assert ONLY in fams[0] && IdOf(MOVER) in RowKeys(ONLY) && NameOf(KEEPER) in RowKeys(ONLY);
    assert HasKey(fams[0], IdOf(MOVER)) && HasKey(fams[0], NameOf(KEEPER));
    assert !HasKey(fams[0], IdOf(KEEPER));
  }

  /** One row moves a model's price while another, matched to it by name, repeats the
      old one: that one is lost, and scraping the page again writes it. */
  lemma OverriddenPriceIsLost(clock: nat -> int)
    ensures var b, page := Book([ONLY], 1), [MOVER, KEEPER];
      && ValidBook(b) && FreeOfCollisions(b, page) && Wanted(Kept(page), KEEPER)
      && !CurrentlyPriced(RunOf(b, page, clock).rows, PricedId(FamsOf(b), KEEPER), KEEPER)
      && PlanFor(RunOf(b, page, clock).rows, page).upserted != 0
  {
    hide KeyMap, FamsOf, RunOf, Kept, Matched, PlanFor, CurrentlyPriced, PricedId;
    var b, page := Book([ONLY], 1), [MOVER, KEEPER];
    BothKept();
    OnlyFamily(b);
    OnlyMatches();
    var fams, kept := FamsOf(b), Kept(page);
    assert Replaces(fams, kept, MOVER, 0) && forall s, g: nat :: Replaces(fams, kept, s, g) ==> s == MOVER && g == 0;
    assert Replaced(fams, kept, 0);
    assert CollisionFree(fams, kept);
    OverriddenIff(fams, kept, KEEPER);
    CurrentIff(b, page, clock, KEEPER);
    RescrapeIdempotent(b, page, clock);
    assert !Refound(fams, kept, KEEPER);
  }
}
