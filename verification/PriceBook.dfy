/** The versioned price table of one provider, and what the writer's
    statements do to it. */
module PriceBook {
  import opened Options
  import opened FamilyKeys

  datatype Status = Success | NeedsReview | Failed

  /** A scraped row. Prices are integers in units of 1e-6. */
  datatype Scraped = Scraped(modelId: Label, modelName: Label, input: int, output: int, cached: Option<int>, status: Status)

  /** A table row, in force from `from` until `until`. */
  datatype PriceRow = PriceRow(id: nat, modelId: Label, modelName: Label, input: int, output: int, cached: Option<int>,
                               enabled: bool, from: int, created: int, until: Option<int>)

  datatype Book = Book(rows: seq<PriceRow>, nextId: nat)

  function ScrapedKeys(s: Scraped): seq<Key> { KeysOf(s.modelId, s.modelName) }

  function RowKeys(r: PriceRow): seq<Key> { KeysOf(r.modelId, r.modelName) }

  predicate Open(r: PriceRow) { r.until.None? }

  /** Row ids are unique and below the next one to be given out. */
  ghost predicate ValidBook(b: Book) {
    && (forall i :: 0 <= i < |b.rows| ==> b.rows[i].id < b.nextId)
    && (forall i, j :: 0 <= i < j < |b.rows| ==> b.rows[i].id != b.rows[j].id)
  }

  // ----- statements -----

  /** One statement or transaction: close the rows with these ids, insert a
      scraped row, or replace a row by its new version. */
  datatype Write = Close(ids: seq<nat>) | Insert(row: Scraped) | Version(current: PriceRow, row: Scraped)

  predicate Creates(w: Write) { !w.Close? }

  function Closing(w: Write): seq<nat> {
    match w
    case Close(ids) => ids
    case Insert(_) => []
    case Version(c, _) => [c.id]
  }

  /** A version keeps the id of the row it replaces. */
  function NewModelId(w: Write): Label
    requires Creates(w)
  {
    if w.Version? then w.current.modelId else w.row.modelId
  }

  function NewRow(w: Write, id: nat, now: int): PriceRow
    requires Creates(w)
  {
    PriceRow(id, NewModelId(w), w.row.modelName, w.row.input, w.row.output, w.row.cached, true, now, now, None)
  }

  function CloseRow(r: PriceRow, ids: seq<nat>, now: int): PriceRow {
    if r.id in ids then r.(until := Some(now)) else r
  }

  function CloseRows(rows: seq<PriceRow>, ids: seq<nat>, now: int): (r: seq<PriceRow>)
    ensures |r| == |rows|
  {
    seq(|rows|, i requires 0 <= i < |rows| => CloseRow(rows[i], ids, now))
  }

  function Apply(b: Book, w: Write, now: int): Book {
    var kept := CloseRows(b.rows, Closing(w), now);
    if Creates(w) then Book(kept + [NewRow(w, b.nextId, now)], b.nextId + 1) else Book(kept, b.nextId)
  }

  /** The k-th statement runs at clock(k). */
  function ApplyAll(b: Book, ws: seq<Write>, clock: nat -> int): Book {
    if ws == [] then b
    else Apply(ApplyAll(b, ws[..|ws| - 1], clock), ws[|ws| - 1], clock(|ws| - 1))
  }

  lemma ApplyAllStep(b: Book, ws: seq<Write>, w: Write, clock: nat -> int)
    ensures ApplyAll(b, ws + [w], clock) == Apply(ApplyAll(b, ws, clock), w, clock(|ws|))
  {
    assert (ws + [w])[..|ws|] == ws;
  }

  function CreatedCount(ws: seq<Write>): nat {
    if ws == [] then 0
    else CreatedCount(ws[..|ws| - 1]) + (if Creates(ws[|ws| - 1]) then 1 else 0)
  }

  /** No statement names a row that does not exist yet. */
  ghost predicate NamesOld(ws: seq<Write>, bound: nat) {
    forall k, x :: 0 <= k < |ws| && x in Closing(ws[k]) ==> x < bound
  }

  ghost predicate ClosedBy(ws: seq<Write>, id: nat) {
    exists k :: 0 <= k < |ws| && id in Closing(ws[k])
  }

  lemma {:induction false} CountMonotone(ws: seq<Write>, k: nat)
    requires k <= |ws|
    ensures CreatedCount(ws[..k]) <= CreatedCount(ws)
    ensures k < |ws| && Creates(ws[k]) ==> CreatedCount(ws[..k]) < CreatedCount(ws)
  {
    if k == |ws| {
      assert ws[..k] == ws;
    } else {
      var n := |ws| - 1;
      if k < n {
        CountMonotone(ws[..n], k);
        assert ws[..n][..k] == ws[..k];
      }
    }
  }

  /** Where the row created by write k ends up. */
  function Slot(b: Book, ws: seq<Write>, k: nat): nat
    requires k < |ws|
  {
    |b.rows| + CreatedCount(ws[..k])
  }

  lemma SlotsDiffer(b: Book, ws: seq<Write>, k: nat, l: nat)
    requires k < l < |ws| && Creates(ws[k])
    ensures Slot(b, ws, k) < Slot(b, ws, l)
  {
    CountMonotone(ws[..l], k);
    assert ws[..l][..k] == ws[..k];
  }

  /** The table after any list of statements: the old rows in place, those
      named by a statement closed and the others untouched, followed by one
      open row per creating statement. */
  ghost predicate Shape(b: Book, ws: seq<Write>, clock: nat -> int, r: Book) {
    && |r.rows| == |b.rows| + CreatedCount(ws)
    && r.nextId == b.nextId + CreatedCount(ws)
    && (forall i :: 0 <= i < |b.rows| ==> r.rows[i] == b.rows[i].(until := r.rows[i].until))
    && (forall i :: 0 <= i < |b.rows| && !ClosedBy(ws, b.rows[i].id) ==> r.rows[i] == b.rows[i])
    && (forall i :: 0 <= i < |b.rows| && ClosedBy(ws, b.rows[i].id) ==> !Open(r.rows[i]))
    && (forall k :: 0 <= k < |ws| && Creates(ws[k]) ==>
          Slot(b, ws, k) < |r.rows| && r.rows[Slot(b, ws, k)] == NewRow(ws[k], b.nextId + CreatedCount(ws[..k]), clock(k)))
    && (forall i :: |b.rows| <= i < |r.rows| ==> SlotFilled(b, ws, i))
  }

  ghost predicate SlotFilled(b: Book, ws: seq<Write>, i: nat) {
    exists k :: 0 <= k < |ws| && Creates(ws[k]) && i == Slot(b, ws, k)
  }

  lemma {:induction false} ShapeOf(b: Book, ws: seq<Write>, clock: nat -> int)
    requires ValidBook(b) && NamesOld(ws, b.nextId)
    ensures Shape(b, ws, clock, ApplyAll(b, ws, clock))
    ensures ValidBook(ApplyAll(b, ws, clock))
  {
    if ws != [] {
      var n := |ws| - 1;
      var ws0, w := ws[..n], ws[n];
      assert forall k :: 0 <= k < n ==> ws0[k] == ws[k];
      ShapeOf(b, ws0, clock);
      ShapeStep(b, ws0, w, clock, ApplyAll(b, ws0, clock));
      assert ws == ws0 + [w];
      ApplyAllStep(b, ws0, w, clock);
    }
  }

  lemma ShapeStep(b: Book, ws0: seq<Write>, w: Write, clock: nat -> int, r0: Book)
    requires ValidBook(b) && NamesOld(ws0 + [w], b.nextId)
    requires Shape(b, ws0, clock, r0) && ValidBook(r0)
    ensures Shape(b, ws0 + [w], clock, Apply(r0, w, clock(|ws0|)))
    ensures ValidBook(Apply(r0, w, clock(|ws0|)))
  {
    hide CreatedCount, ClosedBy, CloseRow;
    CountStep(ws0, w);
    OldRowsStep(b, ws0, w, clock, r0);
    NewRowsStep(b, ws0, w, clock, r0);
    SlotsStep(b, ws0, w, r0.nextId - b.nextId);
    ValidStep(r0, w, clock(|ws0|));
  }

  lemma CountStep(ws0: seq<Write>, w: Write)
    ensures CreatedCount(ws0 + [w]) == CreatedCount(ws0) + (if Creates(w) then 1 else 0)
  {
    assert (ws0 + [w])[..|ws0|] == ws0;
  }

  lemma ValidStep(b: Book, w: Write, now: int)
    requires ValidBook(b)
    ensures ValidBook(Apply(b, w, now))
  {
    var r := Apply(b, w, now);
    assert forall i :: 0 <= i < |b.rows| ==> r.rows[i].id == b.rows[i].id;
  }

  lemma NewRowsStep(b: Book, ws0: seq<Write>, w: Write, clock: nat -> int, r0: Book)
    requires ValidBook(b) && NamesOld(ws0 + [w], b.nextId) && Shape(b, ws0, clock, r0)
    ensures var ws, r := ws0 + [w], Apply(r0, w, clock(|ws0|));
      forall k :: 0 <= k < |ws| && Creates(ws[k]) ==>
        Slot(b, ws, k) < |r.rows| && r.rows[Slot(b, ws, k)] == NewRow(ws[k], b.nextId + CreatedCount(ws[..k]), clock(k))
  {
    hide CreatedCount, ClosedBy, CloseRow, SlotFilled, Apply;
    var ws, r := ws0 + [w], Apply(r0, w, clock(|ws0|));
    forall k | 0 <= k < |ws| && Creates(ws[k])
      ensures Slot(b, ws, k) < |r.rows| && r.rows[Slot(b, ws, k)] == NewRow(ws[k], b.nextId + CreatedCount(ws[..k]), clock(k))
    {
      NewRowStep(b, ws0, w, clock, r0, k);
    }
  }

  lemma NewRowStep(b: Book, ws0: seq<Write>, w: Write, clock: nat -> int, r0: Book, k: nat)
    requires ValidBook(b) && NamesOld(ws0 + [w], b.nextId) && Shape(b, ws0, clock, r0)
    requires k <= |ws0| && Creates((ws0 + [w])[k])
    ensures var ws, r := ws0 + [w], Apply(r0, w, clock(|ws0|));
      Slot(b, ws, k) < |r.rows| && r.rows[Slot(b, ws, k)] == NewRow(ws[k], b.nextId + CreatedCount(ws[..k]), clock(k))
  {
    hide CreatedCount, ClosedBy, SlotFilled;
    var ws, n := ws0 + [w], |ws0|;
    var r := Apply(r0, w, clock(n));
    if k < n {
      assert ws[..k] == ws0[..k] && ws[k] == ws0[k];
      var s := Slot(b, ws0, k);
      assert r0.rows[s] == NewRow(ws0[k], b.nextId + CreatedCount(ws0[..k]), clock(k));
      assert w == ws[n];
      assert r0.rows[s].id !in Closing(w);
      assert r.rows[s] == r0.rows[s];
    } else {
      assert ws[..n] == ws0;
    }
  }

  lemma SlotsStep(b: Book, ws0: seq<Write>, w: Write, count: nat)
    requires count == CreatedCount(ws0)
    requires forall i :: |b.rows| <= i < |b.rows| + count ==> SlotFilled(b, ws0, i)
    ensures forall i :: |b.rows| <= i < |b.rows| + count + (if Creates(w) then 1 else 0) ==> SlotFilled(b, ws0 + [w], i)
  {
    hide CreatedCount;
    var ws, n := ws0 + [w], |ws0|;
    forall i | |b.rows| <= i < |b.rows| + count + (if Creates(w) then 1 else 0) ensures SlotFilled(b, ws, i) {
      if i < |b.rows| + count {
        assert SlotFilled(b, ws0, i);
        var k :| 0 <= k < |ws0| && Creates(ws0[k]) && i == Slot(b, ws0, k);
        assert ws[..k] == ws0[..k] && ws[k] == ws0[k];
      } else {
        assert ws[..n] == ws0 && ws[n] == w;
        assert i == Slot(b, ws, n);
      }
    }
  }

  lemma ClosedByStep(ws0: seq<Write>, w: Write, id: nat)
    ensures ClosedBy(ws0 + [w], id) <==> ClosedBy(ws0, id) || id in Closing(w)
  {
    var ws := ws0 + [w];
    assert forall k :: 0 <= k < |ws0| ==> ws[k] == ws0[k];
    assert ws[|ws0|] == w;
  }

  lemma OldRowsStep(b: Book, ws0: seq<Write>, w: Write, clock: nat -> int, r0: Book)
    requires ValidBook(b) && Shape(b, ws0, clock, r0)
    ensures var ws, r := ws0 + [w], Apply(r0, w, clock(|ws0|));
      forall i :: 0 <= i < |b.rows| ==>
        && r.rows[i] == b.rows[i].(until := r.rows[i].until)
        && (!ClosedBy(ws, b.rows[i].id) ==> r.rows[i] == b.rows[i])
        && (ClosedBy(ws, b.rows[i].id) ==> !Open(r.rows[i]))
  {
    hide ClosedBy, CreatedCount;
    var ws, n := ws0 + [w], |ws0|;
    var r := Apply(r0, w, clock(n));
    forall i | 0 <= i < |b.rows|
      ensures r.rows[i] == b.rows[i].(until := r.rows[i].until)
      ensures !ClosedBy(ws, b.rows[i].id) ==> r.rows[i] == b.rows[i]
      ensures ClosedBy(ws, b.rows[i].id) ==> !Open(r.rows[i])
    {
      assert r.rows[i] == CloseRow(r0.rows[i], Closing(w), clock(n));
      ClosedByStep(ws0, w, b.rows[i].id);
    }
  }

  // ----- the table as an object -----

  class PriceTable {
    var rows: seq<PriceRow>
    var nextId: nat

    ghost function Contents(): Book
      reads this
    {
      Book(rows, nextId)
    }

    /** UPDATE ... SET effective_until = NOW() WHERE id = ANY(ids). */
    method CloseIds(ids: seq<nat>, now: int)
      modifies this
      ensures Contents() == Apply(old(Contents()), Close(ids), now)
    {
      rows := CloseRows(rows, ids, now);
    }

    method Append(modelId: Label, row: Scraped, now: int)
      modifies this
      ensures rows == old(rows) + [PriceRow(old(nextId), modelId, row.modelName, row.input, row.output, row.cached, true, now, now, None)]
      ensures nextId == old(nextId) + 1
    {
      rows := rows + [PriceRow(nextId, modelId, row.modelName, row.input, row.output, row.cached, true, now, now, None)];
      nextId := nextId + 1;
    }

    method InsertRow(row: Scraped, now: int)
      modifies this
      ensures Contents() == Apply(old(Contents()), Insert(row), now)
    {
      ghost var before := rows;
      Append(row.modelId, row, now);
      assert CloseRows(before, [], now) == before;
    }

    /** One transaction: both statements see the same NOW(). */
    method VersionRow(current: PriceRow, row: Scraped, now: int)
      modifies this
      ensures Contents() == Apply(old(Contents()), Version(current, row), now)
    {
      CloseIds([current.id], now);
      Append(current.modelId, row, now);
    }
  }
}
