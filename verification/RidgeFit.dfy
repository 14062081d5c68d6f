/** The pure-Python branch of the ridge fit: the normal equations accumulated
    row by row in place, then handed to the elimination solver. */
module RidgeFit {
  import opened Options
  import opened LinearAlgebra
  import opened LeastSquares
  import opened GaussJordan

  datatype Fit = Fit(coef: Vec, intercept: real)

  /** The upper d rows hold the Gram entries of the first m rows, the last row
      is still zero, and rhs holds the moments. */
  ghost predicate Accumulated(A: array2<real>, rhs: array<real>, s: Data, m: nat)
    requires s.Valid() && m <= |s.Z|
    reads A, rhs
  {
    && A.Length0 == A.Length1 == rhs.Length == s.d + 1
    && (forall i, j :: 0 <= i < s.d && 0 <= j <= s.d ==> A[i, j] == Gram(s, i, j, m))
    && (forall i :: 0 <= i <= s.d ==> rhs[i] == Moment(s, i, m))
  }

  lemma ZeroLeverage(s: Data, i: nat, r: nat, j: nat)
    requires s.Valid() && r < |s.Z| && i <= s.d && j <= s.d && Leverage(s, i, r) == 0.0
    ensures Gram(s, i, j, r + 1) == Gram(s, i, j, r) && Moment(s, i, r + 1) == Moment(s, i, r)
  {
    hide Leverage;
    assert 0.0 * Extended(s.Z[r])[j] == 0.0 && 0.0 * s.y[r] == 0.0;
  }

  /** Add row m of the data to the accumulators; a feature whose weighted
      value is zero is skipped, which changes nothing. */
  method AddRow(A: array2<real>, rhs: array<real>, s: Data, m: nat)
    requires s.Valid() && m < |s.Z| && Accumulated(A, rhs, s, m)
    modifies A, rhs
    ensures Accumulated(A, rhs, s, m + 1)
  {
    hide Leverage, Gram, Moment;
    var z, yi, wi, d := s.Z[m], s.y[m], s.w[m], s.d;
    for i := 0 to d
      invariant forall k, j :: 0 <= k < d && 0 <= j <= d ==> A[k, j] == Gram(s, k, j, if k < i then m + 1 else m)
      invariant forall k :: 0 <= k <= d ==> rhs[k] == Moment(s, k, if k < i then m + 1 else m)
    {
      var zi := z[i] * wi;
      assert zi == Leverage(s, i, m) by { LeverageIs(s, i, m); }
      if zi == 0.0 {
        ZeroLeverage(s, i, m, d);
        forall j | 0 <= j <= d ensures Gram(s, i, j, m + 1) == Gram(s, i, j, m) {
          ZeroLeverage(s, i, m, j);
        }
        continue;
      }
      ghost var r0 := rhs[..];
      for j := 0 to d
        invariant rhs[..] == r0
        invariant forall k, l :: 0 <= k < d && 0 <= l <= d && k != i ==>
          A[k, l] == Gram(s, k, l, if k < i then m + 1 else m)
        invariant forall l :: 0 <= l <= d ==> A[i, l] == Gram(s, i, l, if l < j then m + 1 else m)
      {
        A[i, j] := A[i, j] + zi * z[j];
        GramStep(s, i, j, m);
      }
      A[i, d] := A[i, d] + zi;
      GramStep(s, i, d, m);
      assert forall k :: 0 <= k <= d ==> rhs[k] == r0[k];
      rhs[i] := rhs[i] + zi * yi;
      MomentStep(s, i, m);
    }
    rhs[d] := rhs[d] + yi * wi;
    LeverageIs(s, d, m);
    MomentStep(s, d, m);
  }

  lemma LeverageIs(s: Data, i: nat, r: nat)
    requires s.Valid() && r < |s.Z| && i <= s.d
    ensures Leverage(s, i, r) == if i < s.d then s.Z[r][i] * s.w[r] else s.w[r]
  {
  }

  lemma GramStep(s: Data, i: nat, j: nat, r: nat)
    requires s.Valid() && r < |s.Z| && i <= s.d && j <= s.d
    ensures Gram(s, i, j, r + 1)
         == Gram(s, i, j, r) + if j < s.d then Leverage(s, i, r) * s.Z[r][j] else Leverage(s, i, r)
  {
    hide Leverage;
  }

  lemma MomentStep(s: Data, i: nat, r: nat)
    requires s.Valid() && r < |s.Z| && i <= s.d
    ensures Moment(s, i, r + 1) == Moment(s, i, r) + Leverage(s, i, r) * s.y[r]
  {
    hide Leverage;
  }

  /** sum(w). */
  method SumOf(w: Vec) returns (t: real)
    ensures t == Total(w, |w|)
  {
    t := 0.0;
    for i := 0 to |w|
      invariant t == Total(w, i)
    {
      t := t + w[i];
    }
  }

  /** Mirror the last column into the last row, divide everything by n, and
      put l2 on the penalised diagonal. */
  method Finish(A: array2<real>, rhs: array<real>, s: Data, l2: real)
    requires s.Valid() && Accumulated(A, rhs, s, |s.Z|)
    modifies A, rhs
    ensures IsNormalMatrix(Rows(A), s, l2)
    ensures IsNormalVector(rhs[..], s)
  {
    hide Leverage, Gram, Moment;
    var n, d := |s.Z|, s.d;
    for i := 0 to d
      invariant forall k, j :: 0 <= k < d && 0 <= j <= d ==> A[k, j] == Gram(s, k, j, n)
      invariant forall j :: 0 <= j < i ==> A[d, j] == Gram(s, d, j, n)
      invariant forall k :: 0 <= k <= d ==> rhs[k] == Moment(s, k, n)
    {
      GramSymmetric(s, i, d, n);
      A[d, i] := A[i, d];
    }
    var total := SumOf(s.w);
    GramCorner(s, n);
    A[d, d] := total;
    for i := 0 to d + 1
      invariant forall k, j :: 0 <= k <= d && 0 <= j <= d ==>
        A[k, j] == if k < i then Gram(s, k, j, n) / n as real + (if k == j && k < d then l2 else 0.0) else Gram(s, k, j, n)
      invariant forall k :: 0 <= k <= d ==>
        rhs[k] == if k < i then Moment(s, k, n) / n as real else Moment(s, k, n)
    {
      ghost var r0 := rhs[..];
      for j := 0 to d + 1
        invariant rhs[..] == r0
        invariant forall k, l :: 0 <= k <= d && 0 <= l <= d && k != i ==>
          A[k, l] == if k < i then Gram(s, k, l, n) / n as real + (if k == l && k < d then l2 else 0.0) else Gram(s, k, l, n)
        invariant forall l :: 0 <= l <= d ==>
          A[i, l] == if l < j then Gram(s, i, l, n) / n as real else Gram(s, i, l, n)
      {
        A[i, j] := A[i, j] / n as real;
      }
      assert forall k :: 0 <= k <= d ==> rhs[k] == r0[k];
      rhs[i] := rhs[i] / n as real;
      if i < d { A[i, i] := A[i, i] + l2; }
    }
  }

  method NormalEquations(s: Data, l2: real) returns (A: array2<real>, rhs: array<real>)
    requires s.Valid()
    ensures fresh(A) && fresh(rhs) && A.Length0 == A.Length1 == rhs.Length == s.d + 1
    ensures IsNormalMatrix(Rows(A), s, l2)
    ensures IsNormalVector(rhs[..], s)
  {
    var d := s.d;
    A := new real[d + 1, d + 1]((i, j) => 0.0);
    rhs := new real[d + 1](i => 0.0);
    for m := 0 to |s.Z|
      invariant Accumulated(A, rhs, s, m)
    {
      AddRow(A, rhs, s, m);
    }
    Finish(A, rhs, s, l2);
  }

  /** Some direction is all but annihilated by the normal matrix. */
  ghost predicate IllConditioned(s: Data, l2: real, tol: real)
    requires s.Valid()
  {
    exists A: Matrix :: IsNormalMatrix(A, s, l2) && NearlySingular(A, s.d + 1, tol)
  }

  /** The normal matrix has an inverse whose rows sum to at most 1 / tol. */
  ghost predicate WellConditioned(s: Data, l2: real, tol: real)
    requires s.Valid() && tol > 0.0
  {
    exists A: Matrix :: IsNormalMatrix(A, s, l2) && HasSmallInverse(A, s.d + 1, tol)
  }

  lemma RegularSystem(s: Data, l2: real, tol: real, A: Matrix)
    requires s.Valid() && tol > 0.0 && WellConditioned(s, l2, tol) && IsNormalMatrix(A, s, l2)
    ensures !NearlySingular(A, s.d + 1, tol)
  {
    hide Gram, HasSmallInverse, NearlySingular;
    var A': Matrix :| IsNormalMatrix(A', s, l2) && HasSmallInverse(A', s.d + 1, tol);
    forall i | 0 <= i <= s.d ensures A[i] == A'[i] {
      assert forall j :: 0 <= j <= s.d ==> A[i][j] == A'[i][j];
    }
    assert A == A';
    SmallInverseIsRegular(A, s.d + 1, tol);
  }

  /** What is promised of a fit to the data s: with non-negative weights and
      penalty it minimises the objective over every coefficient vector and
      intercept; with a positive penalty and total weight it is the only
      minimiser. No fit at all exhibits a direction that the normal matrix itself
      all but annihilates, so there is one when that matrix has a small inverse. */
  ghost predicate FitsData(s: Data, l2: real, tol: real, fit: Option<Fit>)
    requires s.Valid() && tol > 0.0
  {
    && (fit.Some? ==> |fit.value.coef| == s.d)
    && (fit.Some? && NonNegative(s.w) && l2 >= 0.0 ==> Minimises(s, l2, fit.value.coef, fit.value.intercept))
    && (fit.Some? && NonNegative(s.w) && l2 > 0.0 && Total(s.w, |s.w|) > 0.0 ==> OnlyMinimiser(s, l2, fit.value))
    && (fit.None? ==> IllConditioned(s, l2, tol))
    && (WellConditioned(s, l2, tol) ==> fit.Some?)
  }

  ghost predicate OnlyMinimiser(s: Data, l2: real, fit: Fit)
    requires s.Valid()
  {
    forall coef: Vec, b: real :: |coef| == s.d && Minimises(s, l2, coef, b) ==> Fit(coef, b) == fit
  }

  /** Fit by solving the normal equations. */
  method SolveRidge(s: Data, l2: real, tol: real) returns (fit: Option<Fit>)
    requires s.Valid() && tol > 0.0
    ensures FitsData(s, l2, tol, fit)
  {
    hide IsNormalMatrix, IsNormalVector, Minimises, NearlySingular, Solves, Total;
    var d := s.d;
    var A, rhs := NormalEquations(s, l2);
    var sol := Solve(A, rhs, tol);
    ghost var a, r := Rows(A), rhs[..];
    if sol.None? {
      if WellConditioned(s, l2, tol) { RegularSystem(s, l2, tol, a); }
      return None;
    }
    var coef, b := sol.value[..d], sol.value[d];
    assert sol.value == coef + [b];
    if NonNegative(s.w) && l2 >= 0.0 {
      NormalEquationsMinimise(a, r, s, l2, coef, b);
    }
    if NonNegative(s.w) && l2 > 0.0 && Total(s.w, |s.w|) > 0.0 {
      forall c: Vec, b': real | |c| == d && Minimises(s, l2, c, b') ensures c == coef && b' == b {
        MinimiserUnique(a, r, s, l2, coef, b, c, b');
      }
    }
    return Some(Fit(coef, b));
  }

  /** The fit uses the weights it is given; without any, each row weighs one. */
  method Fitted(Z: Matrix, y: Vec, l2: real, w: Option<Vec>, d: nat, tol: real) returns (fit: Option<Fit>)
    requires |Z| > 0 && d == |Z[0]| && Shaped(Z, |Z|, d) && |y| == |Z| && tol > 0.0
    requires w.Some? && w.value != [] ==> |w.value| == |Z|
    ensures w.Some? && w.value != [] ==> FitsData(Data(Z, y, w.value, d), l2, tol, fit)
    ensures w.None? || w.value == [] ==> FitsData(Data(Z, y, seq(|Z|, i => 1.0), d), l2, tol, fit)
  {
    hide FitsData;
    var weights := if w.Some? && w.value != [] then w.value else seq(|Z|, i => 1.0);
    fit := SolveRidge(Data(Z, y, weights, d), l2, tol);
  }
}
