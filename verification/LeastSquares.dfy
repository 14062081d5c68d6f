/** Weighted ridge regression as a mathematical statement: the objective, the
    normal equations, and why a solution of the latter minimises the former. */
module LeastSquares {
  import opened LinearAlgebra

  /** Rows of `d` features, each with one target and one weight. */
  datatype Data = Data(Z: Matrix, y: Vec, w: Vec, d: nat) {
    ghost predicate Valid() {
      |Z| > 0 && Shaped(Z, |Z|, d) && |y| == |Z| && |w| == |Z|
    }
  }

  ghost predicate NonNegative(v: Vec) {
    forall i :: 0 <= i < |v| ==> v[i] >= 0.0
  }

  function Total(v: Vec, m: nat): real
    requires m <= |v|
  {
    if m == 0 then 0.0 else Total(v, m - 1) + v[m - 1]
  }

  // ----- the objective: (1/2n) sum w (b + coef.z - y)^2 + (l2/2) |coef|^2 -----

  ghost function Prediction(s: Data, coef: Vec, b: real, r: nat): real
    requires s.Valid() && r < |s.Z| && |coef| == s.d
  {
    b + Dot(coef, s.Z[r], s.d)
  }

  ghost function Residual(s: Data, coef: Vec, b: real, r: nat): real
    requires s.Valid() && r < |s.Z| && |coef| == s.d
  {
    Prediction(s, coef, b, r) - s.y[r]
  }

  /** The weighted squared residual of row r. */
  ghost function Cost(s: Data, coef: Vec, b: real, r: nat): real
    requires s.Valid() && r < |s.Z| && |coef| == s.d
  {
    s.w[r] * Square(Residual(s, coef, b, r))
  }

  ghost function Loss(s: Data, coef: Vec, b: real, m: nat): real
    requires s.Valid() && |coef| == s.d && m <= |s.Z|
  {
    if m == 0 then 0.0 else Loss(s, coef, b, m - 1) + Cost(s, coef, b, m - 1)
  }

  ghost function Halved(x: real, n: real): real
    requires n > 0.0
  {
    x / (2.0 * n)
  }

  ghost function Ridge(l2: real, q: real): real {
    (l2 / 2.0) * q
  }

  ghost function Objective(s: Data, l2: real, coef: Vec, b: real): real
    requires s.Valid() && |coef| == s.d
  {
    Halved(Loss(s, coef, b, |s.Z|), |s.Z| as real) + Ridge(l2, Dot(coef, coef, s.d))
  }

  ghost predicate Minimises(s: Data, l2: real, coef: Vec, b: real)
    requires s.Valid() && |coef| == s.d
  {
    forall coef': Vec, b': real :: |coef'| == s.d ==>
      Objective(s, l2, coef, b) <= Objective(s, l2, coef', b')
  }

  // ----- the normal equations, over rows extended with a constant 1 -----

  ghost function Extended(z: Vec): Vec {
    z + [1.0]
  }

  ghost function Leverage(s: Data, i: nat, r: nat): real
    requires s.Valid() && r < |s.Z| && i <= s.d
  {
    Extended(s.Z[r])[i] * s.w[r]
  }

  /** Entry (i, j) of the weighted Gram matrix of the first m extended rows. */
  ghost function Gram(s: Data, i: nat, j: nat, m: nat): real
    requires s.Valid() && m <= |s.Z| && i <= s.d && j <= s.d
  {
    if m == 0 then 0.0
    else Gram(s, i, j, m - 1) + Leverage(s, i, m - 1) * Extended(s.Z[m - 1])[j]
  }

  /** Entry i of the weighted moment vector of the first m extended rows. */
  ghost function Moment(s: Data, i: nat, m: nat): real
    requires s.Valid() && m <= |s.Z| && i <= s.d
  {
    if m == 0 then 0.0
    else Moment(s, i, m - 1) + Leverage(s, i, m - 1) * s.y[m - 1]
  }

  ghost function GramRow(s: Data, i: nat, m: nat): (g: Vec)
    requires s.Valid() && m <= |s.Z| && i <= s.d
    ensures |g| == s.d + 1
  {
    seq(s.d + 1, j requires 0 <= j <= s.d => Gram(s, i, j, m))
  }

  /** A is the Gram matrix over n, with l2 added on the penalised diagonal. */
  ghost predicate IsNormalMatrix(A: Matrix, s: Data, l2: real)
    requires s.Valid()
  {
    Shaped(A, s.d + 1, s.d + 1) &&
    forall i, j :: 0 <= i <= s.d && 0 <= j <= s.d ==>
      A[i][j] == Gram(s, i, j, |s.Z|) / |s.Z| as real + if i == j && i < s.d then l2 else 0.0
  }

  ghost predicate IsNormalVector(b: Vec, s: Data)
    requires s.Valid()
  {
    |b| == s.d + 1 && forall i :: 0 <= i <= s.d ==> b[i] == Moment(s, i, |s.Z|) / |s.Z| as real
  }

  lemma {:induction false} GramSymmetric(s: Data, i: nat, j: nat, m: nat)
    requires s.Valid() && m <= |s.Z| && i <= s.d && j <= s.d
    ensures Gram(s, i, j, m) == Gram(s, j, i, m)
  {
    if m > 0 {
      GramSymmetric(s, i, j, m - 1);
      var p, q, v := Extended(s.Z[m - 1])[i], Extended(s.Z[m - 1])[j], s.w[m - 1];
      assert p * v * q == q * v * p;
    }
  }

  lemma {:induction false} GramCorner(s: Data, m: nat)
    requires s.Valid() && m <= |s.Z|
    ensures Gram(s, s.d, s.d, m) == Total(s.w, m)
  {
    if m > 0 { GramCorner(s, m - 1); }
  }

  // ----- expanding the loss around a point -----

  /** The weighted residual: how strongly row r pulls. */
  ghost function Pull(s: Data, coef: Vec, b: real, r: nat): real
    requires s.Valid() && r < |s.Z| && |coef| == s.d
  {
    s.w[r] * Residual(s, coef, b, r)
  }

  ghost function CrossTerm(s: Data, coef: Vec, b: real, dc: Vec, db: real, r: nat): real
    requires s.Valid() && r < |s.Z| && |coef| == s.d && |dc| == s.d
  {
    Pull(s, coef, b, r) * Prediction(s, dc, db, r)
  }

  /** The first-order part: sum of w * residual * (db + dc.z). */
  ghost function Cross(s: Data, coef: Vec, b: real, dc: Vec, db: real, m: nat): real
    requires s.Valid() && |coef| == s.d && |dc| == s.d && m <= |s.Z|
  {
    if m == 0 then 0.0 else Cross(s, coef, b, dc, db, m - 1) + CrossTerm(s, coef, b, dc, db, m - 1)
  }

  ghost function SpreadTerm(s: Data, dc: Vec, db: real, r: nat): real
    requires s.Valid() && r < |s.Z| && |dc| == s.d
  {
    s.w[r] * Square(Prediction(s, dc, db, r))
  }

  /** The second-order part: sum of w * (db + dc.z)^2. */
  ghost function Spread(s: Data, dc: Vec, db: real, m: nat): real
    requires s.Valid() && m <= |s.Z| && |dc| == s.d
  {
    if m == 0 then 0.0 else Spread(s, dc, db, m - 1) + SpreadTerm(s, dc, db, m - 1)
  }

  lemma {:induction false} LossExpands(s: Data, coef: Vec, b: real, dc: Vec, db: real, m: nat)
    requires s.Valid() && |coef| == s.d && |dc| == s.d && m <= |s.Z|
    ensures Loss(s, Axpy(coef, 1.0, dc), b + db, m)
         == Loss(s, coef, b, m) + 2.0 * Cross(s, coef, b, dc, db, m) + Spread(s, dc, db, m)
  {
    if m > 0 {
      LossExpands(s, coef, b, dc, db, m - 1);
      CostExpands(s, coef, b, dc, db, m - 1);
    }
  }

  lemma CostExpands(s: Data, coef: Vec, b: real, dc: Vec, db: real, r: nat)
    requires s.Valid() && r < |s.Z| && |coef| == s.d && |dc| == s.d
    ensures Cost(s, Axpy(coef, 1.0, dc), b + db, r)
         == Cost(s, coef, b, r) + 2.0 * CrossTerm(s, coef, b, dc, db, r) + SpreadTerm(s, dc, db, r)
  {
    ResidualMoves(s, coef, b, dc, db, r);
    SquareOfSum(s.w[r], Residual(s, Axpy(coef, 1.0, dc), b + db, r), Residual(s, coef, b, r), Prediction(s, dc, db, r));
  }

  lemma ResidualMoves(s: Data, coef: Vec, b: real, dc: Vec, db: real, r: nat)
    requires s.Valid() && r < |s.Z| && |coef| == s.d && |dc| == s.d
    ensures Residual(s, Axpy(coef, 1.0, dc), b + db, r) == Residual(s, coef, b, r) + Prediction(s, dc, db, r)
  {
    DotAxpy(coef, 1.0, dc, s.Z[r], s.d);
  }

  lemma SquareOfSum(v: real, x: real, e: real, t: real)
    requires x == e + t
    ensures v * Square(x) == v * Square(e) + 2.0 * (v * e * t) + v * Square(t)
  {
    assert Square(x) == Square(e) + 2.0 * (e * t) + Square(t) by {
      assert (e + t) * (e + t) == e * e + 2.0 * (e * t) + t * t;
    }
    assert v * (Square(e) + 2.0 * (e * t) + Square(t)) == v * Square(e) + 2.0 * (v * (e * t)) + v * Square(t);
  }

  lemma {:induction false} SpreadNonNegative(s: Data, dc: Vec, db: real, m: nat)
    requires s.Valid() && m <= |s.Z| && |dc| == s.d && NonNegative(s.w)
    ensures Spread(s, dc, db, m) >= 0.0
  {
    if m > 0 {
      SpreadNonNegative(s, dc, db, m - 1);
      assert SpreadTerm(s, dc, db, m - 1) >= 0.0;
    }
  }

  // ----- the gradient, accumulated row by row -----

  ghost function Gradient(s: Data, coef: Vec, b: real, m: nat): (g: Vec)
    requires s.Valid() && |coef| == s.d && m <= |s.Z|
    ensures |g| == s.d + 1
  {
    if m == 0 then seq(s.d + 1, i => 0.0)
    else Axpy(Gradient(s, coef, b, m - 1), Pull(s, coef, b, m - 1), Extended(s.Z[m - 1]))
  }

  lemma DotExtended(s: Data, coef: Vec, b: real, r: nat)
    requires s.Valid() && r < |s.Z| && |coef| == s.d
    ensures Dot(Extended(s.Z[r]), coef + [b], s.d + 1) == Prediction(s, coef, b, r)
  {
    DotPrefix(Extended(s.Z[r]), coef + [b], s.Z[r], coef, s.d);
    DotCommutes(s.Z[r], coef, s.d);
  }

  lemma {:induction false} CrossIsGradient(s: Data, coef: Vec, b: real, dc: Vec, db: real, m: nat)
    requires s.Valid() && |coef| == s.d && |dc| == s.d && m <= |s.Z|
    ensures Cross(s, coef, b, dc, db, m) == Dot(Gradient(s, coef, b, m), dc + [db], s.d + 1)
  {
    if m == 0 {
      DotZero(Gradient(s, coef, b, 0), dc + [db], s.d + 1);
    } else {
      CrossIsGradient(s, coef, b, dc, db, m - 1);
      GradientStep(s, coef, b, dc, db, m);
    }
  }

  lemma GradientStep(s: Data, coef: Vec, b: real, dc: Vec, db: real, m: nat)
    requires s.Valid() && |coef| == s.d && |dc| == s.d && 0 < m <= |s.Z|
    ensures Dot(Gradient(s, coef, b, m), dc + [db], s.d + 1)
         == Dot(Gradient(s, coef, b, m - 1), dc + [db], s.d + 1)
            + CrossTerm(s, coef, b, dc, db, m - 1)
  {
    DotExtended(s, dc, db, m - 1);
    DotStep(Gradient(s, coef, b, m - 1), Pull(s, coef, b, m - 1), Extended(s.Z[m - 1]),
      Gradient(s, coef, b, m), dc + [db], s.d + 1, Prediction(s, dc, db, m - 1), CrossTerm(s, coef, b, dc, db, m - 1));
  }

  lemma {:induction false} GradientEntry(s: Data, coef: Vec, b: real, i: nat, m: nat)
    requires s.Valid() && |coef| == s.d && m <= |s.Z| && i <= s.d
    ensures Gradient(s, coef, b, m)[i]
         == Dot(GramRow(s, i, m), coef + [b], s.d + 1) - Moment(s, i, m)
  {
    hide Dot, Thrust, GramRow, Pull, Gradient, Leverage, Prediction, Residual;
    if m == 0 {
      GradientAtStart(s, coef, b, i);
    } else {
      GradientEntry(s, coef, b, i, m - 1);
      GramRowStep(s, coef, b, i, m);
      GradientEntryStep(s, coef, b, i, m);
      MomentUnfolds(s, i, m);
    }
  }

  lemma GradientAtStart(s: Data, coef: Vec, b: real, i: nat)
    requires s.Valid() && |coef| == s.d && i <= s.d
    ensures Gradient(s, coef, b, 0)[i] == Dot(GramRow(s, i, 0), coef + [b], s.d + 1) - Moment(s, i, 0)
  {
    hide Dot;
    DotZero(GramRow(s, i, 0), coef + [b], s.d + 1);
  }

  lemma MomentUnfolds(s: Data, i: nat, m: nat)
    requires s.Valid() && 0 < m <= |s.Z| && i <= s.d
    ensures Moment(s, i, m) == Moment(s, i, m - 1) + Leverage(s, i, m - 1) * s.y[m - 1]
  {
    hide Leverage;
  }

  lemma GradientEntryStep(s: Data, coef: Vec, b: real, i: nat, m: nat)
    requires s.Valid() && |coef| == s.d && 0 < m <= |s.Z| && i <= s.d
    ensures Gradient(s, coef, b, m)[i] == Gradient(s, coef, b, m - 1)[i]
            + Thrust(s, coef, b, i, m - 1) - Leverage(s, i, m - 1) * s.y[m - 1]
  {
    var x := Extended(s.Z[m - 1])[i];
    SplitTerm(s.w[m - 1], Residual(s, coef, b, m - 1), Prediction(s, coef, b, m - 1), s.y[m - 1], x,
      Pull(s, coef, b, m - 1), Leverage(s, i, m - 1));
  }

  /** Row r's contribution to equation i of the normal matrix at (coef, b). */
  ghost function Thrust(s: Data, coef: Vec, b: real, i: nat, r: nat): real
    requires s.Valid() && r < |s.Z| && |coef| == s.d && i <= s.d
  {
    Leverage(s, i, r) * Prediction(s, coef, b, r)
  }

  lemma GramRowShape(s: Data, i: nat, m: nat)
    requires s.Valid() && 0 < m <= |s.Z| && i <= s.d
    ensures GramRow(s, i, m) == Axpy(GramRow(s, i, m - 1), Leverage(s, i, m - 1), Extended(s.Z[m - 1]))
  {
    var x, g, h := Extended(s.Z[m - 1]), GramRow(s, i, m - 1), GramRow(s, i, m);
    var step := Axpy(g, Leverage(s, i, m - 1), x);
    forall j | 0 <= j <= s.d ensures h[j] == step[j] {
      assert h[j] == Gram(s, i, j, m) == Gram(s, i, j, m - 1) + Leverage(s, i, m - 1) * x[j];
      assert g[j] == Gram(s, i, j, m - 1);
    }
  }

  lemma GramRowStep(s: Data, coef: Vec, b: real, i: nat, m: nat)
    requires s.Valid() && |coef| == s.d && 0 < m <= |s.Z| && i <= s.d
    ensures Dot(GramRow(s, i, m), coef + [b], s.d + 1)
         == Dot(GramRow(s, i, m - 1), coef + [b], s.d + 1)
            + Thrust(s, coef, b, i, m - 1)
  {
    hide Dot, Leverage, Prediction, Gram, GramRow;
    GramRowShape(s, i, m);
    DotExtended(s, coef, b, m - 1);
    DotStep(GramRow(s, i, m - 1), Leverage(s, i, m - 1), Extended(s.Z[m - 1]), GramRow(s, i, m),
      coef + [b], s.d + 1, Prediction(s, coef, b, m - 1), Thrust(s, coef, b, i, m - 1));
  }

  lemma SplitTerm(v: real, e: real, p: real, t: real, xi: real, pull: real, lev: real)
    requires e == p - t && pull == v * e && lev == xi * v
    ensures pull * xi == lev * p - lev * t
  {
    assert v * e == v * p - v * t;
    assert (v * p - v * t) * xi == v * p * xi - v * t * xi;
  }

  // ----- stationarity -----

  /** The penalty's share of equation i. */
  ghost function Penalty(s: Data, l2: real, coef: Vec, i: nat): real
    requires |coef| == s.d && i <= s.d
  {
    if i < s.d then l2 * coef[i] else 0.0
  }

  /** Row i of the normal matrix applied to (coef, b). */
  lemma NormalRow(A: Matrix, s: Data, l2: real, coef: Vec, b: real, i: nat)
    requires s.Valid() && IsNormalMatrix(A, s, l2)
    requires |coef| == s.d && i <= s.d
    ensures Dot(A[i], coef + [b], s.d + 1)
         == Dot(GramRow(s, i, |s.Z|), coef + [b], s.d + 1) / |s.Z| as real + Penalty(s, l2, coef, i)
  {
    hide Dot;
    var g := GramRow(s, i, |s.Z|);
    forall j | 0 <= j <= s.d
      ensures A[i][j] == g[j] / |s.Z| as real + if j == i && i < s.d then l2 else 0.0
    {
      assert g[j] == Gram(s, i, j, |s.Z|);
    }
    ScaledPlusUnit(A[i], g, coef + [b], |s.Z| as real, l2, i, i < s.d, s.d + 1);
  }

  lemma {:induction false} ScaledPlusUnit(row: Vec, g: Vec, t: Vec, n: real, l2: real, i: nat, on: bool, k: nat)
    requires k <= |row| && k <= |g| && k <= |t| && i < |t| && n > 0.0
    requires forall j :: 0 <= j < k ==> row[j] == g[j] / n + if j == i && on then l2 else 0.0
    ensures Dot(row, t, k) == Dot(g, t, k) / n + if i < k && on then l2 * t[i] else 0.0
  {
    if k > 0 {
      ScaledPlusUnit(row, g, t, n, l2, i, on, k - 1);
      ScaledTerm(row[k - 1], g[k - 1], if k - 1 == i && on then l2 else 0.0, t[k - 1], n, Dot(g, t, k - 1));
    }
  }

  lemma ScaledTerm(r: real, g: real, u: real, t: real, n: real, before: real)
    requires n > 0.0 && r == g / n + u
    ensures before / n + r * t == (before + g * t) / n + u * t
  {
    assert r * t == (g / n) * t + u * t;
    var q := g / n;
    assert q * n == g;
    assert (q * t) * n == g * t;
  }

  /** What the penalty multiplies the coefficients by in the gradient. */
  ghost function Recoil(s: Data, l2: real): real {
    -(|s.Z| as real * l2)
  }

  /** At a solution of the normal equations the gradient balances the penalty
      on the coefficients and vanishes on the intercept. */
  lemma StationaryGradient(A: Matrix, rhs: Vec, s: Data, l2: real, coef: Vec, b: real)
    requires s.Valid() && |coef| == s.d
    requires IsNormalMatrix(A, s, l2) && IsNormalVector(rhs, s)
    requires Solves(A, rhs, coef + [b])
    ensures forall i :: 0 <= i < s.d ==> Gradient(s, coef, b, |s.Z|)[i] == Recoil(s, l2) * coef[i]
    ensures Gradient(s, coef, b, |s.Z|)[s.d] == 0.0
  {
    forall i | 0 <= i <= s.d
      ensures Gradient(s, coef, b, |s.Z|)[i] == if i < s.d then Recoil(s, l2) * coef[i] else 0.0
    {
      GradientEntry(s, coef, b, i, |s.Z|);
      StationaryEntry(A, rhs, s, l2, coef, b, i);
    }
  }

  lemma StationaryEntry(A: Matrix, rhs: Vec, s: Data, l2: real, coef: Vec, b: real, i: nat)
    requires s.Valid() && |coef| == s.d && i <= s.d
    requires IsNormalMatrix(A, s, l2) && IsNormalVector(rhs, s)
    requires Solves(A, rhs, coef + [b])
    ensures Dot(GramRow(s, i, |s.Z|), coef + [b], s.d + 1) - Moment(s, i, |s.Z|)
         == if i < s.d then Recoil(s, l2) * coef[i] else 0.0
  {
    hide Dot, Gram, Moment, GramRow, Penalty;
    var theta := coef + [b];
    NormalRow(A, s, l2, coef, b, i);
    assert Dot(A[i], theta, |theta|) == rhs[i];
    EntryArithmetic(|s.Z| as real, Dot(A[i], theta, s.d + 1), rhs[i], Dot(GramRow(s, i, |s.Z|), theta, s.d + 1),
      Moment(s, i, |s.Z|), l2, coef, i, s, Recoil(s, l2), Penalty(s, l2, coef, i));
  }

  lemma EntryArithmetic(n: real, lhs: real, r: real, g: real, mo: real, l2: real, coef: Vec, i: nat, s: Data,
                        f: real, p: real)
    requires n > 0.0 && lhs == r && lhs == g / n + p && r == mo / n
    requires |coef| == s.d && i <= s.d && p == Penalty(s, l2, coef, i) && f == -(n * l2)
    ensures g - mo == if i < s.d then f * coef[i] else 0.0
  {
    ClearDenominator(g, mo, p, n);
    PenaltyBalance(n, l2, coef, i, s, f, p);
  }

  lemma PenaltyBalance(n: real, l2: real, coef: Vec, i: nat, s: Data, f: real, p: real)
    requires |coef| == s.d && i <= s.d && p == Penalty(s, l2, coef, i) && f == -(n * l2)
    ensures -(n * p) == if i < s.d then f * coef[i] else 0.0
  {
    if i < s.d { Reassociate(n, l2, coef[i], p); } else { assert n * 0.0 == 0.0; }
  }

  lemma Reassociate(n: real, l2: real, c: real, p: real)
    requires p == l2 * c
    ensures -(n * p) == -(n * l2) * c
  {
  }

  lemma ClearDenominator(g: real, mo: real, p: real, n: real)
    requires n > 0.0 && g / n + p == mo / n
    ensures g - mo == -(n * p)
  {
    assert (g / n) * n == g && (mo / n) * n == mo;
    assert (g / n + p) * n == (mo / n) * n;
    assert (g / n + p) * n == (g / n) * n + p * n;
  }

  lemma {:induction false} DotScaledPrefix(g: Vec, coef: Vec, x: Vec, s: real, k: nat)
    requires k <= |g| && k <= |coef| && k <= |x|
    requires forall i :: 0 <= i < k ==> g[i] == s * coef[i]
    ensures Dot(g, x, k) == s * Dot(coef, x, k)
  {
    if k > 0 {
      DotScaledPrefix(g, coef, x, s, k - 1);
      assert s * coef[k - 1] * x[k - 1] == s * (coef[k - 1] * x[k - 1]);
      assert s * (Dot(coef, x, k - 1) + coef[k - 1] * x[k - 1])
          == s * Dot(coef, x, k - 1) + s * (coef[k - 1] * x[k - 1]);
    }
  }

  lemma SquaredNormExpands(c: Vec, dc: Vec, d: nat)
    requires |c| == d && |dc| == d
    ensures var t := Axpy(c, 1.0, dc);
      Dot(t, t, d) == Dot(c, c, d) + 2.0 * Dot(c, dc, d) + Dot(dc, dc, d)
  {
    var t := Axpy(c, 1.0, dc);
    DotAxpy(c, 1.0, dc, t, d);
    DotCommutes(c, t, d);
    DotAxpy(c, 1.0, dc, c, d);
    DotCommutes(dc, t, d);
    DotAxpy(c, 1.0, dc, dc, d);
    DotCommutes(dc, c, d);
  }

  /** How far any other point lies above a solution of the normal equations:
      by its spread over the data plus its penalty, both squares. */
  lemma ObjectiveGap(A: Matrix, rhs: Vec, s: Data, l2: real,
                     coef: Vec, b: real, dc: Vec, db: real)
    requires s.Valid() && |coef| == s.d && |dc| == s.d
    requires IsNormalMatrix(A, s, l2) && IsNormalVector(rhs, s)
    requires Solves(A, rhs, coef + [b])
    ensures Objective(s, l2, Axpy(coef, 1.0, dc), b + db)
         == Objective(s, l2, coef, b)
            + Halved(Spread(s, dc, db, |s.Z|), |s.Z| as real) + Ridge(l2, Dot(dc, dc, s.d))
  {
    StationaryGradient(A, rhs, s, l2, coef, b);
    GapAt(s, l2, coef, b, dc, db, Recoil(s, l2));
  }

  lemma GapAt(s: Data, l2: real, coef: Vec, b: real, dc: Vec, db: real, f: real)
    requires s.Valid() && |coef| == s.d && |dc| == s.d
    requires forall i :: 0 <= i < s.d ==> Gradient(s, coef, b, |s.Z|)[i] == f * coef[i]
    requires Gradient(s, coef, b, |s.Z|)[s.d] == 0.0
    requires f == Recoil(s, l2)
    ensures Objective(s, l2, Axpy(coef, 1.0, dc), b + db)
         == Objective(s, l2, coef, b)
            + Halved(Spread(s, dc, db, |s.Z|), |s.Z| as real) + Ridge(l2, Dot(dc, dc, s.d))
  {
    hide Loss, Cross, Spread, Dot, Gradient;
    LossExpands(s, coef, b, dc, db, |s.Z|);
    BalancedCross(s, coef, b, dc, db, f);
    SquaredNormExpands(coef, dc, s.d);
    var moved := Axpy(coef, 1.0, dc);
    GapArithmetic(|s.Z| as real, l2, Loss(s, moved, b + db, |s.Z|), Loss(s, coef, b, |s.Z|),
      f, Cross(s, coef, b, dc, db, |s.Z|), Dot(coef, dc, s.d), Spread(s, dc, db, |s.Z|),
      Dot(moved, moved, s.d), Dot(coef, coef, s.d), Dot(dc, dc, s.d));
  }

  lemma BalancedCross(s: Data, coef: Vec, b: real, dc: Vec, db: real, f: real)
    requires s.Valid() && |coef| == s.d && |dc| == s.d
    requires forall i :: 0 <= i < s.d ==> Gradient(s, coef, b, |s.Z|)[i] == f * coef[i]
    requires Gradient(s, coef, b, |s.Z|)[s.d] == 0.0
    ensures Cross(s, coef, b, dc, db, |s.Z|) == f * Dot(coef, dc, s.d)
  {
    CrossIsGradient(s, coef, b, dc, db, |s.Z|);
    BalancedDot(Gradient(s, coef, b, |s.Z|), coef, dc, db, f, s.d);
  }

  lemma BalancedDot(g: Vec, coef: Vec, dc: Vec, db: real, f: real, d: nat)
    requires |g| == d + 1 && |coef| == d && |dc| == d
    requires forall i :: 0 <= i < d ==> g[i] == f * coef[i]
    requires g[d] == 0.0
    ensures Dot(g, dc + [db], d + 1) == f * Dot(coef, dc, d)
  {
    DotScaledPrefix(g, coef, dc, f, d);
    DotPrefix(g, dc + [db], g, dc, d);
  }

  lemma GapArithmetic(n: real, l2: real, loss': real, loss: real, f: real, cross: real, cd: real, spread: real,
                      norm': real, cc: real, dd: real)
    requires n > 0.0
    requires f == -(n * l2)
    requires cross == f * cd
    requires loss' == loss + 2.0 * cross + spread
    requires norm' == cc + 2.0 * cd + dd
    ensures Halved(loss', n) + Ridge(l2, norm')
         == Halved(loss, n) + Ridge(l2, cc) + Halved(spread, n) + Ridge(l2, dd)
  {
    var h := l2 * cd;
    assert -(n * l2) * cd == -(n * h);
    SplitFraction(loss, h, spread, n);
    assert (l2 / 2.0) * (cc + 2.0 * cd + dd) == (l2 / 2.0) * cc + l2 * cd + (l2 / 2.0) * dd;
  }

  lemma SplitFraction(loss: real, h: real, spread: real, n: real)
    requires n > 0.0
    ensures (loss + 2.0 * -(n * h) + spread) / (2.0 * n) == loss / (2.0 * n) - h + spread / (2.0 * n)
  {
    var t := 2.0 * n;
    assert loss == (loss / t) * t && spread == (spread / t) * t;
    var q := loss / t - h + spread / t;
    assert q * t == (loss / t) * t - h * t + (spread / t) * t;
    assert h * t == 2.0 * (n * h);
    Quotient(loss + 2.0 * -(n * h) + spread, q, t);
  }

  lemma Quotient(a: real, q: real, t: real)
    requires t > 0.0 && a == q * t
    ensures a / t == q
  {
  }

  /** Every solution of the normal equations is a global minimiser. */
  lemma NormalEquationsMinimise(A: Matrix, rhs: Vec, s: Data, l2: real, coef: Vec, b: real)
    requires s.Valid() && |coef| == s.d && NonNegative(s.w) && l2 >= 0.0
    requires IsNormalMatrix(A, s, l2) && IsNormalVector(rhs, s)
    requires Solves(A, rhs, coef + [b])
    ensures Minimises(s, l2, coef, b)
  {
    forall coef': Vec, b': real | |coef'| == s.d
      ensures Objective(s, l2, coef, b) <= Objective(s, l2, coef', b')
    {
      var dc := Axpy(coef', -1.0, coef);
      assert Axpy(coef, 1.0, dc) == coef';
      ObjectiveGap(A, rhs, s, l2, coef, b, dc, b' - b);
      SpreadNonNegative(s, dc, b' - b, |s.Z|);
      SquaredNormSign(dc, s.d);
      assert Halved(Spread(s, dc, b' - b, |s.Z|), |s.Z| as real) >= 0.0;
      assert Ridge(l2, Dot(dc, dc, s.d)) >= 0.0;
    }
  }

  lemma {:induction false} SpreadOfConstant(s: Data, dc: Vec, db: real, m: nat)
    requires s.Valid() && m <= |s.Z| && |dc| == s.d
    requires forall i :: 0 <= i < s.d ==> dc[i] == 0.0
    ensures Spread(s, dc, db, m) == Total(s.w, m) * Square(db)
  {
    if m > 0 {
      SpreadOfConstant(s, dc, db, m - 1);
      DotZero(dc, s.Z[m - 1], s.d);
      assert Prediction(s, dc, db, m - 1) == db;
      Distribute(Total(s.w, m - 1), s.w[m - 1], Square(db));
    }
  }

  /** With a positive penalty and positive total weight it is the only one. */
  lemma MinimiserUnique(A: Matrix, rhs: Vec, s: Data, l2: real,
                        coef: Vec, b: real, coef': Vec, b': real)
    requires s.Valid() && |coef| == s.d && |coef'| == s.d && NonNegative(s.w)
    requires l2 > 0.0 && Total(s.w, |s.w|) > 0.0
    requires IsNormalMatrix(A, s, l2) && IsNormalVector(rhs, s)
    requires Solves(A, rhs, coef + [b])
    requires Minimises(s, l2, coef', b')
    ensures coef' == coef && b' == b
  {
    var dc, db := Axpy(coef', -1.0, coef), b' - b;
    assert Axpy(coef, 1.0, dc) == coef';
    ObjectiveGap(A, rhs, s, l2, coef, b, dc, db);
    SpreadNonNegative(s, dc, db, |s.Z|);
    SquaredNormSign(dc, s.d);
    assert Objective(s, l2, coef', b') <= Objective(s, l2, coef, b);
    var spread, dd := Spread(s, dc, db, |s.Z|), Dot(dc, dc, s.d);
    BothVanish(spread, dd, 2.0 * |s.Z| as real, l2 / 2.0);
    SpreadOfConstant(s, dc, db, |s.Z|);
    PositiveFactor(Total(s.w, |s.w|), Square(db));
    assert forall i :: 0 <= i < s.d ==> coef'[i] == coef[i] + 1.0 * dc[i];
  }

  lemma BothVanish(spread: real, dd: real, n: real, h: real)
    requires spread >= 0.0 && dd >= 0.0 && n > 0.0 && h > 0.0
    requires spread / n + h * dd <= 0.0
    ensures spread == 0.0 && dd == 0.0
  {
    assert spread / n >= 0.0 && h * dd >= 0.0;
    assert (spread / n) * n == spread;
  }

  lemma Distribute(p: real, q: real, t: real)
    ensures (p + q) * t == p * t + q * t
  {
  }

  lemma PositiveFactor(t: real, q: real)
    requires t > 0.0 && q >= 0.0 && t * q == 0.0
    ensures q == 0.0
  {
  }
}
