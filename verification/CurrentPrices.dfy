/** `groupCurrentRows`: the open rows of a provider shown as one row per model
    family. */
module CurrentPrices {
  import opened Options
  import opened Sorting
  import opened FamilyKeys
  import opened UnionFind
  import opened PriceVote

  datatype CurrentRow = CurrentRow(modelId: Label, modelName: Label, input: int, output: int, cached: Option<int>,
                                   batchInput: Option<int>, batchOutput: Option<int>, context: Option<int>,
                                   maxOutput: Option<int>, capabilities: Option<seq<string>>, goodAt: Option<string>,
                                   from: int)

  datatype GroupedRow = GroupedRow(rep: CurrentRow, input: int, output: int, cached: Option<int>,
                                   batchInput: Option<int>, batchOutput: Option<int>, context: Option<int>,
                                   maxOutput: Option<int>, capabilities: Option<seq<string>>, goodAt: Option<string>,
                                   modelIds: seq<string>, samples: nat)

  function CurrentKeys(r: CurrentRow): seq<Key> { KeysOf(r.modelId, r.modelName) }

  function NewestFirst(): (CurrentRow, CurrentRow) -> bool { (a: CurrentRow, b: CurrentRow) => a.from >= b.from }

  function Column(g: seq<CurrentRow>, f: CurrentRow -> Option<int>): (c: seq<Option<int>>)
    ensures |c| == |g| && forall i :: 0 <= i < |g| ==> c[i] == f(g[i])
  {
    if g == [] then [] else [f(g[0])] + Column(g[1..], f)
  }

  function InputOf(): CurrentRow -> Option<int> { (r: CurrentRow) => Some(r.input) }

  function OutputOf(): CurrentRow -> Option<int> { (r: CurrentRow) => Some(r.output) }

  function CachedOf(): CurrentRow -> Option<int> { (r: CurrentRow) => r.cached }

  function BatchInputOf(): CurrentRow -> Option<int> { (r: CurrentRow) => r.batchInput }

  function BatchOutputOf(): CurrentRow -> Option<int> { (r: CurrentRow) => r.batchOutput }

  function ContextOf(): CurrentRow -> Option<int> { (r: CurrentRow) => r.context }

  function MaxOutputOf(): CurrentRow -> Option<int> { (r: CurrentRow) => r.maxOutput }

  /** The texts in first-seen order, each once. */
  function Firsts(texts: seq<string>): (r: seq<string>)
    ensures Distinct(r)
    ensures forall x :: x in texts <==> x in r
  {
    if texts == [] then [] else
      var front, last := texts[..|texts| - 1], texts[|texts| - 1];
      assert texts == front + [last];
      if last in Firsts(front) then Firsts(front) else Firsts(front) + [last]
  }

  function IdTexts(g: seq<CurrentRow>): seq<string> {
    if g == [] then [] else [g[0].modelId.text] + IdTexts(g[1..])
  }

  function AllTags(g: seq<CurrentRow>): seq<string> {
    if g == [] then []
    else (if g[0].capabilities.Some? then g[0].capabilities.value else []) + AllTags(g[1..])
  }

  function NoneIfEmpty(tags: seq<string>): Option<seq<string>> { if tags == [] then None else Some(tags) }

  predicate HasNote(r: CurrentRow) { r.goodAt.Some? && r.goodAt.value != "" }

  /** The first note that is not empty. */
  function FirstNote(g: seq<CurrentRow>): Option<string> {
    if g == [] then None else if HasNote(g[0]) then g[0].goodAt else FirstNote(g[1..])
  }

  /** A strict majority, else the largest. */
  ghost predicate DecidesLargest(values: seq<Option<int>>, r: Option<int>) {
    if Present(values) == 0 then r == None
    else
      r.Some? && r in values
      && (Majority(values, r.value) || (NoneHasMajority(values) && forall v :: Some(v) in values ==> v <= r.value))
  }

  ghost predicate NoMajority(vs: seq<int>) { forall v :: !IsMajority(vs, v) }

  ghost predicate ListDecidesLargest(vs: seq<int>, r: Option<int>) {
    if vs == [] then r == None
    else r.Some? && r.value in vs && (IsMajority(vs, r.value) || (NoMajority(vs) && forall v :: v in vs ==> v <= r.value))
  }

  lemma DecidesLargestIff(values: seq<Option<int>>, r: Option<int>)
    ensures DecidesLargest(values, r) <==> ListDecidesLargest(Usable(values), r)
  {
    hide Usable;
    UsableCounts(values);
    var vs := Usable(values);
    assert forall v :: IsMajority(vs, v) <==> Majority(values, v);
    forall v ensures v in vs <==> Some(v) in values {
      assert v in multiset(vs) <==> Some(v) in multiset(values);
    }
  }

  method Largest(vs: seq<int>) returns (m: int)
    requires vs != []
    ensures m in vs && forall v :: v in vs ==> v <= m
  {
    m := vs[0];
    for i := 1 to |vs|
      invariant m in vs && forall j :: 0 <= j < i ==> vs[j] <= m
    {
      if vs[i] > m { m := vs[i]; }
    }
  }

  method MajorityOrMax(values: seq<Option<int>>) returns (r: Option<int>)
    ensures DecidesLargest(values, r)
  {
    hide Usable, DecidesLargest;
    r := LargestOrMajority(Usable(values));
    DecidesLargestIff(values, r);
  }

  method LargestOrMajority(vs: seq<int>) returns (r: Option<int>)
    ensures ListDecidesLargest(vs, r)
  {
    if vs == [] { return None; }
    var counts, order := Tally(vs);
    for i := 0 to |order|
      invariant forall j :: 0 <= j < i ==> !IsMajority(vs, order[j])
    {
      assert order[i] in order;
      if counts[order[i]] * 2 > |vs| { return Some(order[i]); }
    }
    forall v ensures !IsMajority(vs, v) {
      if v in order { var j :| 0 <= j < |order| && order[j] == v; } else { assert v !in vs; }
    }
    var m := Largest(vs);
    r := Some(m);
  }

  /** What one family is shown as. */
  ghost predicate Summarises(g: seq<CurrentRow>, r: GroupedRow) {
    && g != [] && r.rep == g[0] && r.samples == |g| && r.modelIds == Firsts(IdTexts(g))
    && Decides(Column(g, InputOf()), Some(r.input))
    && Decides(Column(g, OutputOf()), Some(r.output))
    && Decides(Column(g, CachedOf()), r.cached)
    && Decides(Column(g, BatchInputOf()), r.batchInput)
    && Decides(Column(g, BatchOutputOf()), r.batchOutput)
    && DecidesLargest(Column(g, ContextOf()), r.context)
    && DecidesLargest(Column(g, MaxOutputOf()), r.maxOutput)
    && r.capabilities == NoneIfEmpty(Firsts(AllTags(g)))
    && r.goodAt == FirstNote(g)
  }

  method Summarise(g: seq<CurrentRow>) returns (r: GroupedRow)
    requires g != []
    ensures Summarises(g, r)
  {
    hide Decides, DecidesLargest, Firsts, AllTags, FirstNote, IdTexts;
    var input := MajorityOrMedian(Column(g, InputOf()));
    var output := MajorityOrMedian(Column(g, OutputOf()));
    var cached := MajorityOrMedian(Column(g, CachedOf()));
    var batchInput := MajorityOrMedian(Column(g, BatchInputOf()));
    var batchOutput := MajorityOrMedian(Column(g, BatchOutputOf()));
    var context := MajorityOrMax(Column(g, ContextOf()));
    var maxOutput := MajorityOrMax(Column(g, MaxOutputOf()));
    assert input.Some? by { assert Column(g, InputOf())[0].Some?; }
    assert output.Some? by { assert Column(g, OutputOf())[0].Some?; }
    r := GroupedRow(g[0], input.value, output.value, cached, batchInput, batchOutput, context, maxOutput,
      NoneIfEmpty(Firsts(AllTags(g))), FirstNote(g), Firsts(IdTexts(g)), |g|);
  }

  ghost function Shown(rows: seq<CurrentRow>): seq<seq<CurrentRow>> {
    FamiliesOf(Sort(rows, NewestFirst()), CurrentKeys)
  }

  method GroupCurrentRows(rows: seq<CurrentRow>) returns (result: seq<GroupedRow>)
    ensures |result| == |Shown(rows)|
    ensures forall g :: 0 <= g < |result| ==> Summarises(Shown(rows)[g], result[g])
  {
    hide Summarises, FamiliesOf;
    var newestFirst := Sort(rows, NewestFirst());
    var groups := GroupByFamily(newestFirst, CurrentKeys);
    result := [];
    for g := 0 to |groups|
      invariant |result| == g
      invariant forall h :: 0 <= h < g ==> Summarises(groups[h], result[h])
    {
      FamilyParts(newestFirst, g);
      var r := Summarise(groups[g]);
      result := result + [r];
    }
  }

  // ----- what is shown -----

  /** A family gathers increasing row numbers, its leader first. */
  lemma FamilyParts(rows: seq<CurrentRow>, g: nat)
    requires g < |FamiliesOf(rows, CurrentKeys)|
    ensures var ix := FamilyKeys.Families(KeysOfRows(rows, CurrentKeys)); var fs := FamiliesOf(rows, CurrentKeys);
      && |ix| == |fs| && |ix[g]| == |fs[g]| > 0
      && (forall t :: 0 <= t < |ix[g]| ==> ix[g][t] < |rows| && fs[g][t] == rows[ix[g][t]])
      && (forall s, t :: 0 <= s < t < |ix[g]| ==> ix[g][s] < ix[g][t])
  {
    hide Members, Heads, Component;
    var ks := KeysOfRows(rows, CurrentKeys);
    FamilyLeader(ks, g);
    var f := FamilyKeys.Families(ks)[g];
    assert forall t :: 0 <= t < |f| ==> f[t] in f;
  }

  /** The id and name shown are those of a newest row of the family. */
  lemma RepresentativeIsNewest(rows: seq<CurrentRow>, g: nat, r: CurrentRow)
    requires g < |Shown(rows)| && r in Shown(rows)[g]
    ensures Shown(rows)[g] != [] && r.from <= Shown(rows)[g][0].from
  {
    hide FamiliesOf, Sort;
    var sorted := Sort(rows, NewestFirst());
    assert TotalPreorder(NewestFirst());
    SortSorts(rows, NewestFirst());
    FamilyParts(sorted, g);
    var ix := FamilyKeys.Families(KeysOfRows(sorted, CurrentKeys))[g];
    var t :| 0 <= t < |Shown(rows)[g]| && Shown(rows)[g][t] == r;
    if t > 0 { assert NewestFirst()(sorted[ix[0]], sorted[ix[t]]); }
  }

  ghost predicate ShownUnder(rows: seq<CurrentRow>, g: nat, r: CurrentRow) {
    g < |Shown(rows)| && r in Shown(rows)[g]
  }

  /** Every row is shown under some family. */
  lemma EveryRowIsShown(rows: seq<CurrentRow>, r: CurrentRow)
    requires r in rows
    ensures exists g :: ShownUnder(rows, g, r)
  {
    hide FamiliesOf, Sort;
    var sorted := Sort(rows, NewestFirst());
    assert multiset(sorted) == multiset(rows);
    assert r in multiset(sorted);
    var i :| 0 <= i < |sorted| && sorted[i] == r;
    var ks := KeysOfRows(sorted, CurrentKeys);
    FamiliesCover(ks, i);
    var ix := FamilyKeys.Families(ks);
    var g :| 0 <= g < |ix| && i in ix[g];
    SameNumber(sorted);
    FamilyParts(sorted, g);
    var t :| 0 <= t < |ix[g]| && ix[g][t] == i;
    assert Shown(rows)[g][t] == r;
    assert ShownUnder(rows, g, r);
  }

  lemma SameNumber(rows: seq<CurrentRow>)
    ensures |FamiliesOf(rows, CurrentKeys)| == |FamilyKeys.Families(KeysOfRows(rows, CurrentKeys))|
  {
  }

  /** Two rows are recognisably of one model: by their ids, or by names that say a version. */
  predicate SameModel(r: CurrentRow, s: CurrentRow) {
    || r.modelId.family == s.modelId.family
    || (r.modelName.versioned && s.modelName.versioned && r.modelName.family == s.modelName.family)
  }

  lemma SameModelOverlaps(r: CurrentRow, s: CurrentRow)
    ensures SameModel(r, s) <==> Overlap(CurrentKeys(r), CurrentKeys(s))
  {
    var i, n := IdKey(r.modelId.family), NameKey(r.modelName.family);
    if r.modelId.family == s.modelId.family { assert i in CurrentKeys(r) && i in CurrentKeys(s); }
    if r.modelName.versioned && s.modelName.versioned && r.modelName.family == s.modelName.family {
      assert n in CurrentKeys(r) && n in CurrentKeys(s);
    }
  }

  /** A model is not shown twice: rows of different families are not of one model. */
  lemma ModelsAreShownOnce(rows: seq<CurrentRow>, g: nat, h: nat, r: CurrentRow, s: CurrentRow)
    requires ShownUnder(rows, g, r) && ShownUnder(rows, h, s) && g != h
    ensures !SameModel(r, s)
  {
    hide SameModel;
    SameModelOverlaps(r, s);
    FamiliesShareNoKey(rows, g, h, r, s);
  }

  lemma FamiliesShareNoKey(rows: seq<CurrentRow>, g: nat, h: nat, r: CurrentRow, s: CurrentRow)
    requires ShownUnder(rows, g, r) && ShownUnder(rows, h, s) && g != h
    ensures !Overlap(CurrentKeys(r), CurrentKeys(s))
  {
    hide FamiliesOf, Sort, Linked;
    var sorted := Sort(rows, NewestFirst());
    var ks := KeysOfRows(sorted, CurrentKeys);
    var ix := FamilyKeys.Families(ks);
    FamilyParts(sorted, g);
    FamilyParts(sorted, h);
    FamiliesAreComponents(ks);
    var t :| 0 <= t < |Shown(rows)[g]| && Shown(rows)[g][t] == r;
    var u :| 0 <= u < |Shown(rows)[h]| && Shown(rows)[h][u] == s;
    var i, j := ix[g][t], ix[h][u];
    assert i in ix[g] && j in ix[h] && j !in ix[g];
    assert !Linked(ks, i, j);
    if Overlap(CurrentKeys(r), CurrentKeys(s)) {
      assert Shares(ks, i, j);
      LinkedShare(ks, i, j);
    }
  }

  // ----- the columns of the row shown, in terms of the rows of the family -----

  function InputIn(lo: int, hi: int): CurrentRow -> bool { (x: CurrentRow) => lo <= x.input <= hi }

  function OutputIn(lo: int, hi: int): CurrentRow -> bool { (x: CurrentRow) => lo <= x.output <= hi }

  function CachedIn(lo: int, hi: int): CurrentRow -> bool {
    (x: CurrentRow) => x.cached.Some? && lo <= x.cached.value <= hi
  }

  function BatchInputIn(lo: int, hi: int): CurrentRow -> bool {
    (x: CurrentRow) => x.batchInput.Some? && lo <= x.batchInput.value <= hi
  }

  function BatchOutputIn(lo: int, hi: int): CurrentRow -> bool {
    (x: CurrentRow) => x.batchOutput.Some? && lo <= x.batchOutput.value <= hi
  }

  function HasCached(): CurrentRow -> bool { (x: CurrentRow) => x.cached.Some? }

  function HasBatchInput(): CurrentRow -> bool { (x: CurrentRow) => x.batchInput.Some? }

  function HasBatchOutput(): CurrentRow -> bool { (x: CurrentRow) => x.batchOutput.Some? }

  lemma {:induction false} ColumnTallied(g: seq<CurrentRow>, f: CurrentRow -> Option<int>, p: int -> bool, q: CurrentRow -> bool)
    requires forall x :: q(x) <==> f(x).Some? && p(f(x).value)
    ensures Tallied(Column(g, f), p) == Count(g, q)
  {
    if g != [] {
      ColumnTallied(g[1..], f, p, q);
      assert Column(g, f)[1..] == Column(g[1..], f) && q(g[0]) == (f(g[0]).Some? && p(f(g[0]).value));
    }
  }

  lemma {:induction false} ColumnPresent(g: seq<CurrentRow>, f: CurrentRow -> Option<int>, q: CurrentRow -> bool)
    requires forall x :: q(x) <==> f(x).Some?
    ensures Present(Column(g, f)) == Count(g, q)
  {
    if g != [] {
      ColumnPresent(g[1..], f, q);
      assert Column(g, f) == [f(g[0])] + Column(g[1..], f) && q(g[0]) == f(g[0]).Some?;
    }
  }

  lemma ColumnResists(g: seq<CurrentRow>, f: CurrentRow -> Option<int>, r: Option<int>, has: CurrentRow -> bool,
                      inside: CurrentRow -> bool, lo: int, hi: int)
    requires Decides(Column(g, f), r)
    requires forall x :: has(x) <==> f(x).Some?
    requires forall x :: inside(x) <==> f(x).Some? && lo <= f(x).value <= hi
    requires Count(g, inside) * 2 > Count(g, has)
    ensures r.Some? && lo <= r.value <= hi
  {
    hide Decides, Count, Column;
    ColumnPresent(g, f, has);
    ColumnTallied(g, f, Within(lo, hi), inside);
    VoteResistsOutliers(Column(g, f), r, lo, hi);
  }

  function Any(): CurrentRow -> bool { (x: CurrentRow) => true }

  lemma {:induction false} CountAny(g: seq<CurrentRow>)
    ensures Count(g, Any()) == |g|
  {
    if g != [] { CountAny(g[1..]); }
  }

  /** Every price shown resists outliers: when more than half of the family's rows
      that have a price in this column have one in [lo, hi], so has the row shown. */
  lemma ShownPricesResist(g: seq<CurrentRow>, r: GroupedRow, lo: int, hi: int)
    requires Summarises(g, r)
    ensures Count(g, InputIn(lo, hi)) * 2 > |g| ==> lo <= r.input <= hi
    ensures Count(g, OutputIn(lo, hi)) * 2 > |g| ==> lo <= r.output <= hi
    ensures Count(g, CachedIn(lo, hi)) * 2 > Count(g, HasCached()) ==> r.cached.Some? && lo <= r.cached.value <= hi
    ensures Count(g, BatchInputIn(lo, hi)) * 2 > Count(g, HasBatchInput()) ==>
      r.batchInput.Some? && lo <= r.batchInput.value <= hi
    ensures Count(g, BatchOutputIn(lo, hi)) * 2 > Count(g, HasBatchOutput()) ==>
      r.batchOutput.Some? && lo <= r.batchOutput.value <= hi
  {
    hide Firsts, AllTags, FirstNote, IdTexts, DecidesLargest, Decides, Count, Column;
    CountAny(g);
    if Count(g, InputIn(lo, hi)) * 2 > |g| { ColumnResists(g, InputOf(), Some(r.input), Any(), InputIn(lo, hi), lo, hi); }
    if Count(g, OutputIn(lo, hi)) * 2 > |g| { ColumnResists(g, OutputOf(), Some(r.output), Any(), OutputIn(lo, hi), lo, hi); }
    if Count(g, CachedIn(lo, hi)) * 2 > Count(g, HasCached()) {
      ColumnResists(g, CachedOf(), r.cached, HasCached(), CachedIn(lo, hi), lo, hi);
    }
    if Count(g, BatchInputIn(lo, hi)) * 2 > Count(g, HasBatchInput()) {
      ColumnResists(g, BatchInputOf(), r.batchInput, HasBatchInput(), BatchInputIn(lo, hi), lo, hi);
    }
    if Count(g, BatchOutputIn(lo, hi)) * 2 > Count(g, HasBatchOutput()) {
      ColumnResists(g, BatchOutputOf(), r.batchOutput, HasBatchOutput(), BatchOutputIn(lo, hi), lo, hi);
    }
  }

  lemma {:induction false} ColumnValues(g: seq<CurrentRow>, f: CurrentRow -> Option<int>, v: Option<int>)
    ensures v in Column(g, f) <==> exists x :: x in g && f(x) == v
  {
    if g != [] {
      ColumnValues(g[1..], f, v);
      assert g == [g[0]] + g[1..] && g[0] in g;
    }
  }

  function ContextIs(v: int): CurrentRow -> bool { (x: CurrentRow) => x.context == Some(v) }

  function MaxOutputIs(v: int): CurrentRow -> bool { (x: CurrentRow) => x.maxOutput == Some(v) }

  function HasContext(): CurrentRow -> bool { (x: CurrentRow) => x.context.Some? }

  function HasMaxOutput(): CurrentRow -> bool { (x: CurrentRow) => x.maxOutput.Some? }

  lemma {:induction false} ColumnOccurs(g: seq<CurrentRow>, f: CurrentRow -> Option<int>, v: int, q: CurrentRow -> bool)
    requires forall x :: q(x) <==> f(x) == Some(v)
    ensures multiset(Column(g, f))[Some(v)] == Count(g, q)
  {
    if g != [] {
      ColumnOccurs(g[1..], f, v, q);
      assert Column(g, f) == [f(g[0])] + Column(g[1..], f) && q(g[0]) == (f(g[0]) == Some(v));
    }
  }

  /** The context window shown is one that more than half of the rows that have any
      agree on, or else the largest; and the same for the longest output. */
  lemma ShownSizes(g: seq<CurrentRow>, r: GroupedRow, v: int)
    requires Summarises(g, r)
    ensures r.context.None? ==> forall x :: x in g ==> x.context.None?
    ensures r.context.Some? ==> exists x :: x in g && x.context == r.context
    ensures Count(g, ContextIs(v)) * 2 > Count(g, HasContext()) ==> r.context == Some(v)
    ensures r.context.Some? && v > r.context.value ==>
      Count(g, ContextIs(r.context.value)) * 2 > Count(g, HasContext()) || forall x :: x in g ==> x.context != Some(v)
    ensures r.maxOutput.None? ==> forall x :: x in g ==> x.maxOutput.None?
    ensures r.maxOutput.Some? ==> exists x :: x in g && x.maxOutput == r.maxOutput
    ensures Count(g, MaxOutputIs(v)) * 2 > Count(g, HasMaxOutput()) ==> r.maxOutput == Some(v)
    ensures r.maxOutput.Some? && v > r.maxOutput.value ==>
      Count(g, MaxOutputIs(r.maxOutput.value)) * 2 > Count(g, HasMaxOutput()) || forall x :: x in g ==> x.maxOutput != Some(v)
  {
    hide Firsts, AllTags, FirstNote, IdTexts, DecidesLargest, Decides, Count, Column;
    var c, m := if r.context.Some? then r.context.value else v, if r.maxOutput.Some? then r.maxOutput.value else v;
    LargestColumn(g, ContextOf(), r.context, HasContext(), ContextIs(v), ContextIs(c), v);
    LargestColumn(g, MaxOutputOf(), r.maxOutput, HasMaxOutput(), MaxOutputIs(v), MaxOutputIs(m), v);
  }

  lemma LargestColumn(g: seq<CurrentRow>, f: CurrentRow -> Option<int>, r: Option<int>, has: CurrentRow -> bool,
                      isV: CurrentRow -> bool, isR: CurrentRow -> bool, v: int)
    requires DecidesLargest(Column(g, f), r)
    requires forall x :: has(x) <==> f(x).Some?
    requires forall x :: isV(x) <==> f(x) == Some(v)
    requires r.Some? ==> forall x :: isR(x) <==> f(x) == r
    ensures r.None? ==> forall x :: x in g ==> f(x).None?
    ensures r.Some? ==> exists x :: x in g && f(x) == r
    ensures Count(g, isV) * 2 > Count(g, has) ==> r == Some(v)
    ensures r.Some? && v > r.value ==> Count(g, isR) * 2 > Count(g, has) || forall x :: x in g ==> f(x) != Some(v)
  {
    hide Count, Column;
    ColumnPresent(g, f, has);
    ColumnOccurs(g, f, v, isV);
    ColumnValues(g, f, Some(v));
    NothingPresent(Column(g, f));
    if r.Some? {
      ColumnValues(g, f, r);
      ColumnOccurs(g, f, r.value, isR);
      OneMajority(Column(g, f), r.value, v);
    } else {
      forall x | x in g ensures f(x).None? { ColumnValues(g, f, f(x)); }
    }
    if Majority(Column(g, f), v) { MajorityIsPresent(Column(g, f), v); }
  }

  lemma MajorityIsPresent(values: seq<Option<int>>, v: int)
    requires Majority(values, v)
    ensures Present(values) > 0 && Some(v) in values
  {
    NothingPresent(values);
    UsableCounts(values);
    assert multiset(values)[Some(v)] > 0;
  }

  lemma OneMajority(values: seq<Option<int>>, u: int, v: int)
    ensures Majority(values, u) && Majority(values, v) ==> u == v
  {
    UsableCounts(values);
    if Majority(values, u) && Majority(values, v) { MajorityIsUnique(Usable(values), u, v); }
  }

  lemma {:induction false} IdsOf(g: seq<CurrentRow>, id: string)
    ensures id in IdTexts(g) <==> exists r :: r in g && r.modelId.text == id
  {
    if g != [] {
      IdsOf(g[1..], id);
      assert g == [g[0]] + g[1..] && g[0] in g;
    }
  }

  /** A row names this capability. */
  predicate Offers(r: CurrentRow, tag: string) { r.capabilities.Some? && tag in r.capabilities.value }

  lemma {:induction false} TagsOf(g: seq<CurrentRow>, tag: string)
    ensures tag in AllTags(g) <==> exists r :: r in g && Offers(r, tag)
  {
    if g != [] {
      TagsOf(g[1..], tag);
      assert g == [g[0]] + g[1..] && g[0] in g;
    }
  }

  lemma {:induction false} FirstsHead(texts: seq<string>)
    requires texts != []
    ensures Firsts(texts) != [] && Firsts(texts)[0] == texts[0]
  {
    if |texts| > 1 {
      FirstsHead(texts[..|texts| - 1]);
    } else {
      assert texts[..0] == [];
    }
  }

  /** The row shown lists each id and each capability of its family once, and no
      others, the id shown first; no capabilities at all only when no row has any. */
  lemma ShownIdsAndTags(g: seq<CurrentRow>, r: GroupedRow, x: string)
    requires Summarises(g, r)
    ensures Distinct(r.modelIds) && (x in r.modelIds <==> exists y :: y in g && y.modelId.text == x)
    ensures r.modelIds != [] && r.modelIds[0] == r.rep.modelId.text
    ensures r.capabilities.Some? ==> r.capabilities.value != [] && Distinct(r.capabilities.value)
    ensures (r.capabilities.Some? && x in r.capabilities.value) <==> exists y :: y in g && Offers(y, x)
  {
    assert IdTexts(g) != [] && IdTexts(g)[0] == g[0].modelId.text;
    FirstsHead(IdTexts(g));
    hide Decides, DecidesLargest, Column, FirstNote, AllTags, IdTexts;
    IdsOf(g, x);
    TagsOf(g, x);
  }

  /** The note shown is the first that is not empty. */
  lemma {:induction false} NoteIsFirst(g: seq<CurrentRow>)
    ensures FirstNote(g).None? <==> forall r :: r in g ==> r.goodAt == None || r.goodAt == Some("")
    ensures FirstNote(g).Some? ==> exists i :: NoteAt(g, i) && FirstNote(g) == g[i].goodAt
  {
    if g != [] {
      assert g == [g[0]] + g[1..] && g[0] in g;
      if HasNote(g[0]) {
        assert NoteAt(g, 0);
      } else {
        NoteIsFirst(g[1..]);
        if FirstNote(g[1..]).Some? {
          var i :| NoteAt(g[1..], i) && FirstNote(g[1..]) == g[1..][i].goodAt;
          assert NoteAt(g, i + 1);
        }
      }
    }
  }

  ghost predicate NoteAt(g: seq<CurrentRow>, i: int) {
    && 0 <= i < |g| && g[i].goodAt.Some? && g[i].goodAt.value != ""
    && forall j :: 0 <= j < i ==> g[j].goodAt == None || g[j].goodAt == Some("")
  }
}
