/** Prices implied by rows that carry a cost: the two-parameter least squares
    fit cost = input * pi + output * po, solved by Cramer's rule. */
module ImpliedPrices {
  import opened Options
  import opened LinearAlgebra

  datatype UsageRow = UsageRow(inputTokens: Option<int>, outputTokens: int, cost: Option<real>)

  datatype Prices = Prices(input: real, output: real)

  /** The usable observations of one model, column by column. */
  datatype Points = Points(a: Vec, b: Vec, c: Vec) {
    ghost predicate Valid() { |a| == |b| == |c| }
  }

  function InputOf(r: UsageRow): int {
    if r.inputTokens.Some? then r.inputTokens.value else 0
  }

  predicate Usable(r: UsageRow) {
    r.cost.Some? && InputOf(r) + r.outputTokens > 0
  }

  function PointsOf(rows: seq<UsageRow>): (p: Points)
    ensures p.Valid()
  {
    if rows == [] then Points([], [], []) else
      var r, p := rows[|rows| - 1], PointsOf(rows[..|rows| - 1]);
      if Usable(r) then Points(p.a + [InputOf(r) as real], p.b + [r.outputTokens as real], p.c + [r.cost.value]) else p
  }

  /** How far the prices are off on row i. */
  ghost function Residual(p: Points, pi: real, po: real, i: nat): real
    requires p.Valid() && i < |p.a|
  {
    p.a[i] * pi + p.b[i] * po - p.c[i]
  }

  /** The squared error of prices (pi, po) over the first k points. */
  ghost function SquaredError(p: Points, pi: real, po: real, k: nat): real
    requires p.Valid() && k <= |p.a|
  {
    if k == 0 then 0.0
    else SquaredError(p, pi, po, k - 1) + Square(Residual(p, pi, po, k - 1))
  }

  ghost function Error(p: Points, pi: real, po: real): real
    requires p.Valid()
  {
    SquaredError(p, pi, po, |p.a|)
  }

  ghost predicate BestPrices(p: Points, pi: real, po: real)
    requires p.Valid()
  {
    forall pi': real, po': real :: Error(p, pi, po) <= Error(p, pi', po')
  }

  function Inner(x: Vec, y: Vec): real
    requires |x| == |y|
  {
    Dot(x, y, |x|)
  }

  function Determinant(p: Points): real
    requires p.Valid()
  {
    Inner(p.a, p.a) * Inner(p.b, p.b) - Inner(p.a, p.b) * Inner(p.a, p.b)
  }

  // ----- the determinant is never negative -----

  lemma SelfInner(v: Vec)
    ensures Inner(v, v) >= 0.0
    ensures Inner(v, v) == 0.0 ==> forall i :: 0 <= i < |v| ==> v[i] == 0.0
  {
    SquaredNormSign(v, |v|);
  }

  /** The inner products of v = x + f y with anything, and with itself. */
  lemma InnerAxpy(x: Vec, f: real, y: Vec, t: Vec)
    requires |x| == |y| == |t|
    ensures Inner(Axpy(x, f, y), t) == Inner(x, t) + f * Inner(y, t)
    ensures Inner(t, Axpy(x, f, y)) == Inner(t, x) + f * Inner(t, y)
    ensures Inner(x, t) == Inner(t, x) && Inner(y, t) == Inner(t, y)
  {
    DotAxpy(x, f, y, t, |x|);
    DotCommutes(Axpy(x, f, y), t, |x|);
    DotCommutes(x, t, |x|);
    DotCommutes(y, t, |x|);
  }

  /** |x + f y|^2 = |x|^2 + 2 f (x.y) + f^2 |y|^2. */
  lemma InnerSquare(x: Vec, f: real, y: Vec, xx: real, xy: real, yy: real)
    requires |x| == |y|
    requires xx == Inner(x, x) && xy == Inner(x, y) && yy == Inner(y, y)
    ensures var v := Axpy(x, f, y); Inner(v, v) == xx + 2.0 * (f * xy) + f * (f * yy)
  {
    hide Inner;
    var v := Axpy(x, f, y);
    InnerAxpy(x, f, y, v);
    InnerAxpy(x, f, y, x);
    InnerAxpy(x, f, y, y);
    var vx, vy := Inner(v, x), Inner(v, y);
    assert Inner(v, v) == vx + f * vy;
    assert vx == xx + f * xy && vy == xy + f * yy;
    assert f * vy == f * xy + f * (f * yy);
  }

  /** A column of zeros has determinant zero. */
  lemma NoInput(p: Points, ab: real, bb: real)
    requires p.Valid() && Inner(p.a, p.a) == 0.0 && ab == Inner(p.a, p.b)
    ensures ab == 0.0 && Inner(p.a, p.a) * bb - ab * ab == 0.0
  {
    SelfInner(p.a);
    DotZero(p.a, p.b, |p.a|);
    assert 0.0 * bb == 0.0;
  }

  /** The part of b that a leaves over has a squared length. */
  lemma Remainder(p: Points, aa: real, ab: real, bb: real, f: real)
    requires p.Valid() && aa == Inner(p.a, p.a) && ab == Inner(p.a, p.b) && bb == Inner(p.b, p.b)
    ensures bb + 2.0 * (f * ab) + f * (f * aa) >= 0.0
  {
    hide Dot, Determinant;
    DotCommutes(p.a, p.b, |p.a|);
    InnerSquare(p.b, f, p.a, bb, ab, aa);
    SelfInner(Axpy(p.b, f, p.a));
  }

  /** Cauchy-Schwarz for any two lists of equal length. */
  lemma DeterminantNonNegative(p: Points)
    requires p.Valid()
    ensures Determinant(p) >= 0.0
  {
    hide Inner;
    var aa, ab, bb := Inner(p.a, p.a), Inner(p.a, p.b), Inner(p.b, p.b);
    SelfInner(p.a);
    if aa == 0.0 {
      NoInput(p, ab, bb);
    } else {
      var f := -ab / aa;
      Remainder(p, aa, ab, bb, f);
      ScaleUp(aa, ab, bb, f);
    }
  }

  lemma ScaleUp(aa: real, ab: real, bb: real, f: real)
    requires aa > 0.0 && f == -ab / aa
    requires bb + 2.0 * (f * ab) + f * (f * aa) >= 0.0
    ensures aa * bb - ab * ab >= 0.0
  {
    assert f * aa == -ab;
    var q := bb + 2.0 * (f * ab) + f * (f * aa);
    assert f * (f * aa) == f * -ab == -(f * ab);
    assert q == bb + f * ab;
    assert aa * q == aa * bb + (f * aa) * ab;
    assert (f * aa) * ab == -(ab * ab) by { assert -ab * ab == -(ab * ab); }
    assert aa * q >= 0.0;
  }

  // ----- stationarity and optimality -----

  /** The vector of residuals pi a + po b - c. */
  ghost function ResidualVec(p: Points, pi: real, po: real): (e: Vec)
    requires p.Valid()
    ensures |e| == |p.a|
  {
    Axpy(Axpy(Axpy(seq(|p.a|, i => 0.0), -1.0, p.c), pi, p.a), po, p.b)
  }

  lemma {:induction false} ErrorIsInner(p: Points, pi: real, po: real, k: nat)
    requires p.Valid() && k <= |p.a|
    ensures SquaredError(p, pi, po, k) == Dot(ResidualVec(p, pi, po), ResidualVec(p, pi, po), k)
  {
    hide ResidualVec, Residual, Square, Dot;
    if k > 0 {
      ErrorIsInner(p, pi, po, k - 1);
      ResidualAt(p, pi, po, k - 1);
      DotWithItself(ResidualVec(p, pi, po), k);
    } else {
      DotOfNone(ResidualVec(p, pi, po));
    }
  }

  lemma ResidualAt(p: Points, pi: real, po: real, i: nat)
    requires p.Valid() && i < |p.a|
    ensures ResidualVec(p, pi, po)[i] == Residual(p, pi, po, i)
  {
  }

  lemma DotWithItself(e: Vec, k: nat)
    requires 0 < k <= |e|
    ensures Dot(e, e, k) == Dot(e, e, k - 1) + Square(e[k - 1])
  {
    assert Square(e[k - 1]) == e[k - 1] * e[k - 1];
  }

  lemma DotOfNone(e: Vec)
    ensures Dot(e, e, 0) == 0.0
  {
  }

  lemma InnerResidual(p: Points, pi: real, po: real, t: Vec)
    requires p.Valid() && |t| == |p.a|
    ensures Inner(t, ResidualVec(p, pi, po)) == pi * Inner(t, p.a) + po * Inner(t, p.b) - Inner(t, p.c)
  {
    hide Inner;
    var z := seq(|p.a|, i => 0.0);
    var n := Axpy(z, -1.0, p.c);
    var m := Axpy(n, pi, p.a);
    InnerAxpy(m, po, p.b, t);
    InnerAxpy(n, pi, p.a, t);
    InnerAxpy(z, -1.0, p.c, t);
    InnerZero(z, t);
  }

  lemma InnerZero(z: Vec, t: Vec)
    requires |z| == |t| && forall i :: 0 <= i < |z| ==> z[i] == 0.0
    ensures Inner(z, t) == 0.0
  {
    DotZero(z, t, |z|);
  }

  /** Both normal equations hold at (pi, po). */
  ghost predicate Stationary(p: Points, pi: real, po: real)
    requires p.Valid()
  {
    && pi * Inner(p.a, p.a) + po * Inner(p.a, p.b) == Inner(p.a, p.c)
    && pi * Inner(p.a, p.b) + po * Inner(p.b, p.b) == Inner(p.b, p.c)
  }

  /** The step from (pi, po) to (pi + di, po + dd), as a vector. */
  ghost function Step(p: Points, di: real, dd: real): (v: Vec)
    requires p.Valid()
    ensures |v| == |p.a|
  {
    Axpy(Axpy(seq(|p.a|, i => 0.0), di, p.a), dd, p.b)
  }

  lemma InnerStep(p: Points, di: real, dd: real, t: Vec)
    requires p.Valid() && |t| == |p.a|
    ensures Inner(t, Step(p, di, dd)) == di * Inner(t, p.a) + dd * Inner(t, p.b)
  {
    hide Inner;
    var z := seq(|p.a|, i => 0.0);
    InnerAxpy(Axpy(z, di, p.a), dd, p.b, t);
    InnerAxpy(z, di, p.a, t);
    InnerZero(z, t);
  }

  lemma ResidualMoves(p: Points, pi: real, po: real, di: real, dd: real)
    requires p.Valid()
    ensures ResidualVec(p, pi + di, po + dd) == Axpy(ResidualVec(p, pi, po), 1.0, Step(p, di, dd))
  {
    var l, r := ResidualVec(p, pi + di, po + dd), Axpy(ResidualVec(p, pi, po), 1.0, Step(p, di, dd));
    forall i | 0 <= i < |p.a| ensures l[i] == r[i] {
      var a, b, c := p.a[i], p.b[i], p.c[i];
      assert (pi + di) * a == pi * a + di * a && (po + dd) * b == po * b + dd * b;
    }
  }

  /** How much worse any other prices are: the squared length of the step. */
  lemma ErrorGap(p: Points, pi: real, po: real, di: real, dd: real)
    requires p.Valid() && Stationary(p, pi, po)
    ensures Error(p, pi + di, po + dd) == Error(p, pi, po) + Inner(Step(p, di, dd), Step(p, di, dd))
  {
    var e, v := ResidualVec(p, pi, po), Step(p, di, dd);
    ErrorIsInner(p, pi, po, |p.a|);
    ErrorIsInner(p, pi + di, po + dd, |p.a|);
    ResidualMoves(p, pi, po, di, dd);
    InnerSquare(e, 1.0, v, Inner(e, e), Inner(e, v), Inner(v, v));
    Orthogonal(p, pi, po, di, dd);
  }

  lemma Orthogonal(p: Points, pi: real, po: real, di: real, dd: real)
    requires p.Valid() && Stationary(p, pi, po)
    ensures Inner(ResidualVec(p, pi, po), Step(p, di, dd)) == 0.0
  {
    hide Inner;
    var e := ResidualVec(p, pi, po);
    InnerStep(p, di, dd, e);
    InnerResidual(p, pi, po, p.a);
    InnerResidual(p, pi, po, p.b);
    Symmetric(p.a, e);
    Symmetric(p.b, e);
    Symmetric(p.a, p.b);
    assert di * 0.0 == 0.0 && dd * 0.0 == 0.0;
  }

  lemma Symmetric(x: Vec, y: Vec)
    requires |x| == |y|
    ensures Inner(x, y) == Inner(y, x)
  {
    DotCommutes(x, y, |x|);
  }

  lemma StationaryIsBest(p: Points, pi: real, po: real)
    requires p.Valid() && Stationary(p, pi, po)
    ensures BestPrices(p, pi, po)
  {
    forall pi': real, po': real ensures Error(p, pi, po) <= Error(p, pi', po') {
      ErrorGap(p, pi, po, pi' - pi, po' - po);
      SelfInner(Step(p, pi' - pi, po' - po));
    }
  }

  /** With a positive determinant no other prices do as well. */
  lemma BestIsUnique(p: Points, pi: real, po: real, pi': real, po': real)
    requires p.Valid() && Determinant(p) > 0.0 && Stationary(p, pi, po) && BestPrices(p, pi', po')
    ensures pi' == pi && po' == po
  {
    var di, dd := pi' - pi, po' - po;
    var v := Step(p, di, dd);
    ErrorGap(p, pi, po, di, dd);
    SelfInner(v);
    assert Error(p, pi', po') <= Error(p, pi, po);
    InnerZero(v, p.a);
    InnerZero(v, p.b);
    Symmetric(v, p.a);
    Symmetric(v, p.b);
    InnerStep(p, di, dd, p.a);
    InnerStep(p, di, dd, p.b);
    Symmetric(p.a, p.b);
    OnlyZero(Inner(p.a, p.a), Inner(p.a, p.b), Inner(p.b, p.b), di, dd);
  }

  lemma OnlyZero(aa: real, ab: real, bb: real, di: real, dd: real)
    requires aa * bb - ab * ab > 0.0
    requires di * aa + dd * ab == 0.0 && di * ab + dd * bb == 0.0
    ensures di == 0.0 && dd == 0.0
  {
    var det := aa * bb - ab * ab;
    assert bb * (di * aa + dd * ab) - ab * (di * ab + dd * bb) == di * det;
    assert aa * (di * ab + dd * bb) - ab * (di * aa + dd * ab) == dd * det;
    assert bb * 0.0 == 0.0 && ab * 0.0 == 0.0 && aa * 0.0 == 0.0;
    NonZeroFactor(di, det);
    NonZeroFactor(dd, det);
  }

  lemma NonZeroFactor(x: real, det: real)
    requires det > 0.0 && x * det == 0.0
    ensures x == 0.0
  {
  }

  /** Cramer's rule solves the two normal equations. */
  lemma Cramer(aa: real, ab: real, bb: real, ac: real, bc: real, det: real, pi: real, po: real)
    requires det == aa * bb - ab * ab && det > 0.0
    requires pi == (ac * bb - bc * ab) / det && po == (bc * aa - ac * ab) / det
    ensures pi * aa + po * ab == ac && pi * ab + po * bb == bc
  {
    assert pi * det == ac * bb - bc * ab && po * det == bc * aa - ac * ab;
    var l, r := pi * aa + po * ab, pi * ab + po * bb;
    assert l * det == (pi * det) * aa + (po * det) * ab;
    assert (ac * bb - bc * ab) * aa + (bc * aa - ac * ab) * ab == ac * (aa * bb - ab * ab);
    assert l * det == ac * det;
    assert r * det == (pi * det) * ab + (po * det) * bb;
    assert (ac * bb - bc * ab) * ab + (bc * aa - ac * ab) * bb == bc * (aa * bb - ab * ab);
    assert r * det == bc * det;
    CancelFactor(l, ac, det);
    CancelFactor(r, bc, det);
  }

  lemma CancelFactor(x: real, y: real, det: real)
    requires det > 0.0 && x * det == y * det
    ensures x == y
  {
    assert (x - y) * det == 0.0;
    NonZeroFactor(x - y, det);
  }

  /** Every cost is exactly what these prices charge. */
  ghost predicate ExactlyPriced(p: Points, pi: real, po: real)
    requires p.Valid()
  {
    forall i :: 0 <= i < |p.a| ==> p.c[i] == pi * p.a[i] + po * p.b[i]
  }

  /** Costs that came from exact prices satisfy the normal equations with them. */
  lemma ExactCosts(p: Points, pi: real, po: real)
    requires p.Valid() && ExactlyPriced(p, pi, po)
    ensures Stationary(p, pi, po)
  {
    hide Inner, Step, ExactlyPriced;
    StepIsCosts(p, pi, po);
    InnerStep(p, pi, po, p.a);
    InnerStep(p, pi, po, p.b);
    Symmetric(p.a, p.b);
  }

  lemma StepIsCosts(p: Points, pi: real, po: real)
    requires p.Valid() && ExactlyPriced(p, pi, po)
    ensures Step(p, pi, po) == p.c
  {
    var s := Step(p, pi, po);
    forall i | 0 <= i < |s| ensures s[i] == p.c[i] {
      var a, b := p.a[i], p.b[i];
      assert s[i] == 0.0 + pi * a + po * b;
    }
    assert s == p.c;
  }

  /** The two quotients. */
  ghost function InputPrice(p: Points): real
    requires p.Valid() && Determinant(p) > 0.0
  {
    (Inner(p.a, p.c) * Inner(p.b, p.b) - Inner(p.b, p.c) * Inner(p.a, p.b)) / Determinant(p)
  }

  ghost function OutputPrice(p: Points): real
    requires p.Valid() && Determinant(p) > 0.0
  {
    (Inner(p.b, p.c) * Inner(p.a, p.a) - Inner(p.a, p.c) * Inner(p.a, p.b)) / Determinant(p)
  }

  lemma QuotientsSolve(p: Points)
    requires p.Valid() && Determinant(p) > 0.0
    ensures Stationary(p, InputPrice(p), OutputPrice(p))
  {
    hide Inner;
    Cramer(Inner(p.a, p.a), Inner(p.a, p.b), Inner(p.b, p.b), Inner(p.a, p.c), Inner(p.b, p.c), Determinant(p),
      InputPrice(p), OutputPrice(p));
  }

  /** They are the best prices and the only ones that can be exact. */
  lemma OnlyBest(p: Points)
    requires p.Valid() && Determinant(p) > 0.0
    ensures BestPrices(p, InputPrice(p), OutputPrice(p))
    ensures forall pi: real, po: real :: BestPrices(p, pi, po) || ExactlyPriced(p, pi, po) ==>
      pi == InputPrice(p) && po == OutputPrice(p)
  {
    hide Stationary, BestPrices, ExactlyPriced, Determinant, InputPrice, OutputPrice;
    var pi, po := InputPrice(p), OutputPrice(p);
    QuotientsSolve(p);
    StationaryIsBest(p, pi, po);
    forall pi': real, po': real | BestPrices(p, pi', po') || ExactlyPriced(p, pi', po') ensures pi' == pi && po' == po {
      if ExactlyPriced(p, pi', po') {
        ExactCosts(p, pi', po');
        StationaryIsBest(p, pi', po');
      }
      BestIsUnique(p, pi, po, pi', po');
    }
  }

  /** The prices of these points, unless there are fewer than five, the system is
      degenerate (determinant at most `tol`), or the best fit has a negative price. */
  method PointPrices(p: Points, tol: real) returns (r: Option<Prices>)
    requires p.Valid() && tol >= 0.0
    ensures r.Some? ==>
      |p.a| >= 5 && Determinant(p) > tol && BestPrices(p, r.value.input, r.value.output)
      && r.value.input >= 0.0 && r.value.output >= 0.0
    ensures |p.a| >= 5 && Determinant(p) > tol ==>
      exists pi: real, po: real :: BestPrices(p, pi, po) && (pi >= 0.0 && po >= 0.0 ==> r == Some(Prices(pi, po)))
    ensures |p.a| >= 5 && Determinant(p) > tol ==>
      forall pi: real, po: real :: BestPrices(p, pi, po) && pi >= 0.0 && po >= 0.0 ==> r == Some(Prices(pi, po))
    ensures |p.a| >= 5 && Determinant(p) > tol ==>
      forall pi: real, po: real :: ExactlyPriced(p, pi, po) && pi >= 0.0 && po >= 0.0 ==> r == Some(Prices(pi, po))
  {
    hide BestPrices, ExactlyPriced, Inner;
    if |p.a| < 5 { return None; }
    var sii, sio, soo := Inner(p.a, p.a), Inner(p.a, p.b), Inner(p.b, p.b);
    var sic, soc := Inner(p.a, p.c), Inner(p.b, p.c);
    var det := sii * soo - sio * sio;
    if det <= tol { return None; }
    var pi := (sic * soo - soc * sio) / det;
    var po := (soc * sii - sic * sio) / det;
    assert pi == InputPrice(p) && po == OutputPrice(p);
    hide InputPrice, OutputPrice, Determinant;
    OnlyBest(p);
    if pi >= 0.0 && po >= 0.0 { return Some(Prices(pi, po)); }
    return None;
  }

  // ----- the same over the rows themselves -----

  /** A row that says what some tokens cost; missing input tokens are none. */
  ghost predicate Priced(r: UsageRow) {
    && r.cost.Some?
    && (r.inputTokens.Some? ==> r.inputTokens.value + r.outputTokens > 0)
    && (r.inputTokens.None? ==> r.outputTokens > 0)
  }

  ghost function TokensIn(r: UsageRow): real { if r.inputTokens.None? then 0.0 else r.inputTokens.value as real }

  ghost function TokensOut(r: UsageRow): real { r.outputTokens as real }

  /** What the row's tokens cost at these prices. */
  ghost function Charge(r: UsageRow, pi: real, po: real): real { TokensIn(r) * pi + TokensOut(r) * po }

  ghost function Missed(rows: seq<UsageRow>, pi: real, po: real): real {
    if rows == [] then 0.0 else
      var r := rows[|rows| - 1];
      Missed(rows[..|rows| - 1], pi, po) + (if Priced(r) then Square(Charge(r, pi, po) - r.cost.value) else 0.0)
  }

  /** How many rows are priced, and the sums of their squared and mixed token counts. */
  datatype Sums = Sums(rows: nat, inIn: real, inOut: real, outOut: real)

  ghost function SumsOf(rows: seq<UsageRow>): Sums {
    if rows == [] then Sums(0, 0.0, 0.0, 0.0) else
      var s, r := SumsOf(rows[..|rows| - 1]), rows[|rows| - 1];
      if !Priced(r) then s else
        Sums(s.rows + 1, s.inIn + TokensIn(r) * TokensIn(r), s.inOut + TokensIn(r) * TokensOut(r),
             s.outOut + TokensOut(r) * TokensOut(r))
  }

  /** At least five priced rows, in which input and output tokens are not proportional. */
  ghost predicate Enough(rows: seq<UsageRow>, tol: real) {
    var s := SumsOf(rows);
    s.rows >= 5 && s.inIn * s.outOut - s.inOut * s.inOut > tol
  }

  ghost predicate BestForRows(rows: seq<UsageRow>, pi: real, po: real) {
    forall pi': real, po': real :: Missed(rows, pi, po) <= Missed(rows, pi', po')
  }

  ghost predicate ExactForRows(rows: seq<UsageRow>, pi: real, po: real) {
    forall r :: r in rows && Priced(r) ==> r.cost.value == Charge(r, pi, po)
  }

  lemma InnerAppend(x: Vec, y: Vec, u: real, v: real)
    requires |x| == |y|
    ensures Inner(x + [u], y + [v]) == Inner(x, y) + u * v
  {
    DotPrefix(x, y, x + [u], y + [v], |x|);
  }

  lemma {:induction false} SumsAgree(rows: seq<UsageRow>)
    ensures var p, s := PointsOf(rows), SumsOf(rows);
      |p.a| == s.rows && Inner(p.a, p.a) == s.inIn && Inner(p.a, p.b) == s.inOut && Inner(p.b, p.b) == s.outOut
  {
    hide Dot;
    if rows == [] {
      NoPoints();
    } else {
      var n := |rows| - 1;
      var r, p := rows[n], PointsOf(rows[..n]);
      SumsAgree(rows[..n]);
      hide Inner;
      if Priced(r) {
        InnerAppend(p.a, p.a, TokensIn(r), TokensIn(r));
        InnerAppend(p.a, p.b, TokensIn(r), TokensOut(r));
        InnerAppend(p.b, p.b, TokensOut(r), TokensOut(r));
      }
    }
  }

  lemma NoPoints()
    ensures Inner([], []) == 0.0
  {
  }

  ghost predicate SamePoint(p: Points, q: Points, i: nat)
    requires p.Valid() && q.Valid() && i < |p.a| && i < |q.a|
  {
    p.a[i] == q.a[i] && p.b[i] == q.b[i] && p.c[i] == q.c[i]
  }

  lemma {:induction false} ErrorPrefix(p: Points, q: Points, pi: real, po: real, k: nat)
    requires p.Valid() && q.Valid() && k <= |p.a| && k <= |q.a|
    requires forall i :: 0 <= i < k ==> SamePoint(p, q, i)
    ensures SquaredError(p, pi, po, k) == SquaredError(q, pi, po, k)
  {
    hide Square, Residual, SamePoint;
    if k > 0 {
      ErrorPrefix(p, q, pi, po, k - 1);
      SameResidual(p, q, pi, po, k - 1);
    }
  }

  lemma SameResidual(p: Points, q: Points, pi: real, po: real, i: nat)
    requires p.Valid() && q.Valid() && i < |p.a| && i < |q.a| && SamePoint(p, q, i)
    ensures Residual(p, pi, po, i) == Residual(q, pi, po, i)
  {
  }

  /** One more row: one more point if it is priced, none if not. */
  lemma PointsStep(rows: seq<UsageRow>)
    requires rows != []
    ensures var n := |rows| - 1; var r, p, q := rows[n], PointsOf(rows[..n]), PointsOf(rows);
      && (!Priced(r) ==> q == p)
      && (Priced(r) ==>
            && |q.a| == |p.a| + 1 && (forall i :: 0 <= i < |p.a| ==> SamePoint(p, q, i))
            && q.a[|p.a|] == TokensIn(r) && q.b[|p.a|] == TokensOut(r) && q.c[|p.a|] == r.cost.value)
  {
  }

  lemma {:induction false} ErrorsAgree(rows: seq<UsageRow>, pi: real, po: real)
    ensures Error(PointsOf(rows), pi, po) == Missed(rows, pi, po)
  {
    if rows == [] {
      assert |PointsOf(rows).a| == 0;
    } else {
      hide Square, SamePoint, PointsOf, Priced, TokensIn, TokensOut;
      var n := |rows| - 1;
      var r, p, q := rows[n], PointsOf(rows[..n]), PointsOf(rows);
      ErrorsAgree(rows[..n], pi, po);
      PointsStep(rows);
      if Priced(r) { ErrorPrefix(p, q, pi, po, |p.a|); }
    }
  }

  lemma {:induction false} ExactAgrees(rows: seq<UsageRow>, pi: real, po: real)
    ensures ExactlyPriced(PointsOf(rows), pi, po) <==> ExactForRows(rows, pi, po)
  {
    if rows == [] {
      assert |PointsOf(rows).a| == 0;
    } else {
      hide PointsOf, Priced, TokensIn, TokensOut;
      var n := |rows| - 1;
      var r, p, q := rows[n], PointsOf(rows[..n]), PointsOf(rows);
      ExactAgrees(rows[..n], pi, po);
      PointsStep(rows);
      assert rows == rows[..n] + [r];
      assert ExactForRows(rows, pi, po) <==> ExactForRows(rows[..n], pi, po) && (Priced(r) ==> r.cost.value == Charge(r, pi, po));
      if Priced(r) {
        assert q.c[|p.a|] == pi * q.a[|p.a|] + po * q.b[|p.a|] <==> r.cost.value == Charge(r, pi, po);
        ExactStep(p, q, pi, po);
      }
    }
  }

  lemma ExactStep(p: Points, q: Points, pi: real, po: real)
    requires p.Valid() && q.Valid() && |q.a| == |p.a| + 1 && forall i :: 0 <= i < |p.a| ==> SamePoint(p, q, i)
    ensures ExactlyPriced(q, pi, po) <==>
      ExactlyPriced(p, pi, po) && q.c[|p.a|] == pi * q.a[|p.a|] + po * q.b[|p.a|]
  {
    if ExactlyPriced(q, pi, po) {
      forall i | 0 <= i < |p.a| ensures p.c[i] == pi * p.a[i] + po * p.b[i] { assert SamePoint(p, q, i); }
    }
    if ExactlyPriced(p, pi, po) {
      forall i | 0 <= i < |p.a| ensures q.c[i] == pi * q.a[i] + po * q.b[i] { assert SamePoint(p, q, i); }
    }
  }

  /** The implied prices of one model: the best fit to its priced rows, unless these
      are fewer than five or degenerate, or one of the prices would be negative. */
  method ImpliedPrices(rows: seq<UsageRow>, tol: real) returns (r: Option<Prices>)
    requires tol >= 0.0
    ensures r.Some? ==>
      Enough(rows, tol) && BestForRows(rows, r.value.input, r.value.output) && r.value.input >= 0.0 && r.value.output >= 0.0
    ensures Enough(rows, tol) ==>
      exists pi: real, po: real :: BestForRows(rows, pi, po) && (pi >= 0.0 && po >= 0.0 ==> r == Some(Prices(pi, po)))
    ensures Enough(rows, tol) ==>
      forall pi: real, po: real :: BestForRows(rows, pi, po) && pi >= 0.0 && po >= 0.0 ==> r == Some(Prices(pi, po))
    ensures Enough(rows, tol) ==>
      forall pi: real, po: real :: ExactForRows(rows, pi, po) && pi >= 0.0 && po >= 0.0 ==> r == Some(Prices(pi, po))
  {
    hide BestPrices, ExactlyPriced, BestForRows, ExactForRows, Inner, PointsOf, SumsOf;
    ghost var p := PointsOf(rows);
    r := PointPrices(PointsOf(rows), tol);
    SumsAgree(rows);
    forall pi: real, po: real ensures BestPrices(p, pi, po) <==> BestForRows(rows, pi, po) { BestAgrees(rows, pi, po); }
    forall pi: real, po: real ensures ExactlyPriced(p, pi, po) <==> ExactForRows(rows, pi, po) { ExactAgrees(rows, pi, po); }
  }

  lemma BestAgrees(rows: seq<UsageRow>, pi: real, po: real)
    ensures BestPrices(PointsOf(rows), pi, po) <==> BestForRows(rows, pi, po)
  {
    hide Error, Missed, PointsOf;
    forall pi': real, po': real ensures Error(PointsOf(rows), pi', po') == Missed(rows, pi', po') {
      ErrorsAgree(rows, pi', po');
    }
  }
}
