/** What a run is for: the prices on the page become the current ones. */
module PriceOutcome {
  import opened Options
  import opened FamilyKeys
  import opened PriceBook
  import opened PriceWriter
  import opened PricePlanFacts
  import opened PriceSafety

  /** Some open row of model m has the scraped prices. */
  ghost predicate CurrentlyPriced(rows: seq<PriceRow>, m: Label, s: Scraped) {
    exists r :: r in rows && Open(r) && r.modelId == m && r.input == s.input && r.output == s.output && r.cached == s.cached
  }

  /** The id under which a scraped row is priced: that of the newest row of the
      family it meets, its own when it meets none. */
  ghost function PricedId(fams: seq<seq<PriceRow>>, s: Scraped): Label
    requires PointsInto(KeyMap(fams), |fams|) && NonEmptyFamilies(fams)
  {
    match Matched(fams, KeyMap(fams), s)
    case Some(g) => fams[g][0].modelId
    case None => s.modelId
  }

  /** Everything known about a run from its start to its end. */
  ghost predicate Ran(b: Book, fams: seq<seq<PriceRow>>, kept: seq<Scraped>, ws: seq<Write>, clock: nat -> int, after: Book) {
    && Snapshot(b, fams, kept, ws) && PointsInto(KeyMap(fams), |fams|) && NonEmptyFamilies(fams)
    && PlanComplete(fams, kept, ws) && ExtrasClosed(fams, ws) && KeysDisjoint(kept) && Shape(b, ws, clock, after)
  }

  lemma RunRan(b: Book, scraped: seq<Scraped>, clock: nat -> int)
    requires ValidBook(b)
    ensures PointsInto(KeyMap(FamsOf(b)), |FamsOf(b)|) && NonEmptyFamilies(FamsOf(b))
    ensures Ran(b, FamsOf(b), Kept(scraped), WritesOf(b, scraped), clock, RunOf(b, scraped, clock))
  {
    hide Kept, FamsOf, WritesOf, RunOf, KeyMap, Snapshot, PlanComplete, ExtrasClosed, KeysDisjoint, Shape;
    RunHasShape(b, scraped, clock);
    CompleteClosesExtras(FamsOf(b), Kept(scraped), WritesOf(b, scraped));
    KeptIsDisjoint(scraped);
  }

  // ----- which prices of the page are current afterwards -----

  /** s says what its family's newest row says already, and another row of the
      page replaces that one. */
  ghost predicate Overridden(fams: seq<seq<PriceRow>>, kept: seq<Scraped>, s: Scraped)
    requires PointsInto(KeyMap(fams), |fams|) && NonEmptyFamilies(fams)
  {
    match Matched(fams, KeyMap(fams), s)
    case None => false
    case Some(g) => SamePrices(fams[g][0], s) && exists t :: Moves(fams, kept, t, g)
  }

  predicate SamePrices(r: PriceRow, s: Scraped) {
    r.input == s.input && r.output == s.output && r.cached == s.cached
  }

  /** Row t of the page is matched to family g and has another price than its newest row. */
  ghost predicate Moves(fams: seq<seq<PriceRow>>, kept: seq<Scraped>, t: Scraped, g: nat)
    requires PointsInto(KeyMap(fams), |fams|) && NonEmptyFamilies(fams)
  {
    && Wanted(kept, t) && Matched(fams, KeyMap(fams), t) == Some(g)
    && (t.input != fams[g][0].input || t.output != fams[g][0].output || t.cached != fams[g][0].cached)
  }

  lemma OverriddenIff(fams: seq<seq<PriceRow>>, kept: seq<Scraped>, s: Scraped)
    requires PointsInto(KeyMap(fams), |fams|) && NonEmptyFamilies(fams)
    ensures Overridden(fams, kept, s) <==>
      var m := Matched(fams, KeyMap(fams), s);
      m.Some? && !PricesDiffer(fams[m.value][0], s) && Replaced(fams, kept, m.value)
  {
    hide KeyMap, Matched;
    forall t, g: nat ensures Moves(fams, kept, t, g) <==> Replaces(fams, kept, t, g) {
      if Matched(fams, KeyMap(fams), t) == Some(g) { assert g < |fams|; }
    }
  }

  lemma StandsIn(b: Book, fams: seq<seq<PriceRow>>, kept: seq<Scraped>, ws: seq<Write>, clock: nat -> int, after: Book, s: Scraped)
      returns (i: nat)
    requires Ran(b, fams, kept, ws, clock, after) && Wanted(kept, s) && !Overridden(fams, kept, s)
    ensures i < |after.rows| && Open(after.rows[i]) && !PricesDiffer(after.rows[i], s)
    ensures after.rows[i].modelId == PricedId(fams, s)
  {
    OverriddenIff(fams, kept, s);
    hide Overridden, KeyMap, Overlap, Shape, PlanShape, PlanComplete, Grouped, Replaced, KeysOf;
    match Matched(fams, KeyMap(fams), s)
    case None =>
      var k := Issued(fams, kept, ws, s, Insert(s));
      CreatedRow(b, ws, clock, after, k);
      i := Slot(b, ws, k);
    case Some(g) =>
      if PricesDiffer(fams[g][0], s) {
        var k := ReplacementIsWritten(fams, kept, ws, s, g);
        CreatedRow(b, ws, clock, after, k);
        i := Slot(b, ws, k);
      } else {
        RenewedIff(b, fams, kept, ws, g);
        i := UnrenewedStays(b, fams, kept, ws, clock, after, g);
      }
  }

  /** Only one family has rows under this model id. */
  lemma IdFamily(b: Book, fams: seq<seq<PriceRow>>, kept: seq<Scraped>, ws: seq<Write>, g: nat, h: nat)
    requires Snapshot(b, fams, kept, ws) && NonEmptyFamilies(fams) && g < |fams| && h < |fams|
    requires fams[g][0].modelId.family == fams[h][0].modelId.family
    ensures g == h
  {
    hide Snapshot, Overlap;
    SameIdOverlaps(fams[g][0], fams[h][0]);
    if g != h { DifferentFamilies(b, fams, kept, ws, g, h); }
  }

  lemma SameIdOverlaps(r: PriceRow, s: PriceRow)
    requires r.modelId.family == s.modelId.family
    ensures Overlap(RowKeys(r), RowKeys(s))
  {
    assert IdKey(r.modelId.family) in RowKeys(r) && IdKey(r.modelId.family) in RowKeys(s);
  }

  /** What has become of model id m once its family was replaced: its open rows have
      other prices. */
  lemma ReplacedMoves(b: Book, fams: seq<seq<PriceRow>>, kept: seq<Scraped>, ws: seq<Write>, clock: nat -> int, after: Book,
                      g: nat, i: nat)
    requires Ran(b, fams, kept, ws, clock, after) && g < |fams| && Replaced(fams, kept, g)
    requires i < |after.rows| && Open(after.rows[i]) && after.rows[i].modelId == fams[g][0].modelId
    ensures exists t :: PricesDiffer(fams[g][0], t) && !PricesDiffer(after.rows[i], t)
  {
    hide KeyMap, Overlap, Shape, PlanShape, PlanComplete, Grouped, Replaced, KeysOf, Slot;
    var o := OriginOf(b, fams, kept, ws, clock, after, i);
    match o
    case Survivor(h) =>
      IdFamily(b, fams, kept, ws, g, h);
      RenewedIff(b, fams, kept, ws, g);
      assert false;
    case Created(k) =>
      SanctionedAt(fams, kept, ws, k);
      if ws[k].Insert? {
        IdHits(fams, g, ws[k].row);
        MatchedHits(fams, ws[k].row);
        assert false;
      } else {
        IdFamily(b, fams, kept, ws, g, Matched(fams, KeyMap(fams), ws[k].row).value);
        assert PricesDiffer(fams[g][0], ws[k].row) && !PricesDiffer(after.rows[i], ws[k].row);
      }
  }

  lemma IdHits(fams: seq<seq<PriceRow>>, g: nat, s: Scraped)
    requires g < |fams| && fams[g] != [] && fams[g][0].modelId.family == s.modelId.family
    ensures Hits(fams, g, s)
  {
    assert IdKey(s.modelId.family) in RowKeys(fams[g][0]) && IdKey(s.modelId.family) in ScrapedKeys(s);
    assert fams[g][0] in fams[g] && Overlap(RowKeys(fams[g][0]), ScrapedKeys(s));
  }

  lemma SamePricesAgree(c: PriceRow, r: PriceRow, s: Scraped, t: Scraped)
    requires !PricesDiffer(c, s) && !PricesDiffer(r, s) && !PricesDiffer(r, t)
    ensures !PricesDiffer(c, t)
  {
  }

  /** After any run a row that was to be written has an open row with its prices,
      under the id its model already had, if and only if it is not overridden. */
  lemma CurrentIff(b: Book, scraped: seq<Scraped>, clock: nat -> int, s: Scraped)
    requires ValidBook(b) && Wanted(Kept(scraped), s)
    ensures PointsInto(KeyMap(FamsOf(b)), |FamsOf(b)|) && NonEmptyFamilies(FamsOf(b))
    ensures CurrentlyPriced(RunOf(b, scraped, clock).rows, PricedId(FamsOf(b), s), s)
      <==> !Overridden(FamsOf(b), Kept(scraped), s)
  {
    hide Kept, FamsOf, WritesOf, RunOf, KeyMap, Ran, Matched, Replaced, Overridden;
    var fams, kept, ws := FamsOf(b), Kept(scraped), WritesOf(b, scraped);
    RunRan(b, scraped, clock);
    var after := RunOf(b, scraped, clock);
    OverriddenIff(fams, kept, s);
    if !Overridden(fams, kept, s) {
      var i := StandsIn(b, fams, kept, ws, clock, after, s);
      assert after.rows[i] in after.rows;
    } else if CurrentlyPriced(after.rows, PricedId(fams, s), s) {
      var r :| r in after.rows && Open(r) && r.modelId == PricedId(fams, s) && !PricesDiffer(r, s);
      var i :| 0 <= i < |after.rows| && after.rows[i] == r;
      var g := Matched(fams, KeyMap(fams), s).value;
      ReplacedMoves(b, fams, kept, ws, clock, after, g, i);
      var t :| PricesDiffer(fams[g][0], t) && !PricesDiffer(after.rows[i], t);
      SamePricesAgree(fams[g][0], after.rows[i], s, t);
      assert false;
    }
  }

  /** In particular after an unambiguous run for every such row. */
  lemma PagePricesAreCurrent(b: Book, scraped: seq<Scraped>, clock: nat -> int, s: Scraped)
    requires ValidBook(b) && Unambiguous(FamsOf(b), Kept(scraped)) && Wanted(Kept(scraped), s)
    ensures PointsInto(KeyMap(FamsOf(b)), |FamsOf(b)|) && NonEmptyFamilies(FamsOf(b))
    ensures CurrentlyPriced(RunOf(b, scraped, clock).rows, PricedId(FamsOf(b), s), s)
  {
    hide Kept, FamsOf, RunOf, KeyMap, CurrentlyPriced, PricedId, Unambiguous;
    CurrentIff(b, scraped, clock, s);
    NotOverridden(FamsOf(b), Kept(scraped), s);
  }

  /** When no two rows meet one family, none is overridden. */
  lemma NotOverridden(fams: seq<seq<PriceRow>>, kept: seq<Scraped>, s: Scraped)
    requires PointsInto(KeyMap(fams), |fams|) && NonEmptyFamilies(fams) && Unambiguous(fams, kept) && Wanted(kept, s)
    ensures !Overridden(fams, kept, s)
  {
    hide KeyMap, Hits, Matched, Overridden;
    OverriddenIff(fams, kept, s);
    if Overridden(fams, kept, s) {
      var g := Matched(fams, KeyMap(fams), s).value;
      var t :| Replaces(fams, kept, t, g);
      MatchedHits(fams, s);
      MatchedHits(fams, t);
    }
  }

  /** The row a run writes for s, column by column. */
  ghost predicate IsWrittenRow(r: PriceRow, m: Label, s: Scraped, at: int) {
    && r.modelId == m && r.modelName == s.modelName
    && r.input == s.input && r.output == s.output && r.cached == s.cached
    && r.enabled && r.until == None && r.from == at && r.created == at
  }

  /** A row of the page that meets no family, or moves its family's price, is written:
      under the id its model already had, with its own name and prices, enabled and in
      force from the instant of the statement on. */
  lemma WrittenColumns(b: Book, scraped: seq<Scraped>, clock: nat -> int, s: Scraped) returns (i: nat, k: nat)
    requires ValidBook(b) && Wanted(Kept(scraped), s)
    requires PointsInto(KeyMap(FamsOf(b)), |FamsOf(b)|) && NonEmptyFamilies(FamsOf(b))
    requires var m := Matched(FamsOf(b), KeyMap(FamsOf(b)), s); m.None? || Moves(FamsOf(b), Kept(scraped), s, m.value)
    ensures k < |WritesOf(b, scraped)| && |b.rows| <= i < |RunOf(b, scraped, clock).rows|
    ensures IsWrittenRow(RunOf(b, scraped, clock).rows[i], PricedId(FamsOf(b), s), s, clock(k))
  {
    hide Kept, FamsOf, WritesOf, RunOf, KeyMap, Matched, Shape, PlanComplete, Snapshot, Slot;
    var fams, kept, ws := FamsOf(b), Kept(scraped), WritesOf(b, scraped);
    RunHasShape(b, scraped, clock);
    var m := Matched(fams, KeyMap(fams), s);
    if m.None? { k := Issued(fams, kept, ws, s, Insert(s)); } else { k := ReplacementIsWritten(fams, kept, ws, s, m.value); }
    i := Slot(b, ws, k);
    RowIsWritten(b, ws, clock, RunOf(b, scraped, clock), k);
  }

  lemma RowIsWritten(b: Book, ws: seq<Write>, clock: nat -> int, after: Book, k: nat)
    requires Shape(b, ws, clock, after) && k < |ws| && Creates(ws[k])
    ensures |b.rows| <= Slot(b, ws, k) < |after.rows|
    ensures IsWrittenRow(after.rows[Slot(b, ws, k)], if ws[k].Version? then ws[k].current.modelId else ws[k].row.modelId,
      ws[k].row, clock(k))
  {
    hide CreatedCount;
    assert after.rows[Slot(b, ws, k)] == NewRow(ws[k], b.nextId + CreatedCount(ws[..k]), clock(k));
  }

  ghost predicate KeptFor(kept: seq<Scraped>, s: Scraped) {
    exists t :: t in kept && t.status.Success? && Overlap(ScrapedKeys(t), ScrapedKeys(s))
  }

  /** No model on the page is lost to deduplication: each success row, the dropped
      ones too, shares a key with a kept success row, at the latest itself. */
  lemma EveryModelIsKept(rows: seq<Scraped>, n: nat)
    requires n < |rows| && rows[n].status.Success?
    ensures KeptFor(Kept(rows[..n + 1]), rows[n])
    ensures KeptFor(Kept(rows), rows[n])
  {
    hide Overlap, ScrapedKeys, SeenKeys;
    var s, k := rows[n], Kept(rows[..n]);
    assert rows[..n + 1][..n] == rows[..n];
    if Known(MatchKeys(s), SeenKeys(k)) {
      KnownSharesKey(k, s);
    } else {
      ScrapedSelf(s);
      assert s in k + [s];
    }
    KeptGrows(rows, n + 1);
  }

  lemma KnownSharesKey(kept: seq<Scraped>, s: Scraped)
    requires s.status.Success? && Known(MatchKeys(s), SeenKeys(kept))
    ensures KeptFor(kept, s)
  {
    hide SeenKeys, ScrapedKeys;
    var key :| key in MatchKeys(s) && key in SeenKeys(kept);
    SeenIs(kept, key);
    var i :| 0 <= i < |kept| && key in MatchKeys(kept[i]);
    assert kept[i] in kept && kept[i].status.Success?;
    assert key in ScrapedKeys(kept[i]) && key in ScrapedKeys(s);
  }

  lemma {:induction false} KeptGrows(rows: seq<Scraped>, n: nat)
    requires n <= |rows|
    ensures forall t :: t in Kept(rows[..n]) ==> t in Kept(rows)
    decreases |rows|
  {
    if n == |rows| {
      assert rows[..n] == rows;
    } else {
      var m := |rows| - 1;
      assert rows[..m][..n] == rows[..n];
      KeptGrows(rows[..m], n);
    }
  }
}
