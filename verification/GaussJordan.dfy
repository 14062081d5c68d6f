/** The dense solver of the cost trainer: Gauss-Jordan elimination with
    partial pivoting on an augmented matrix, in place. */
module GaussJordan {
  import opened Options
  import opened LinearAlgebra

  // ----- snapshots of the mutable matrix -----

  ghost function Rows(M: array2<real>): (m: Matrix)
    reads M
    ensures Shaped(m, M.Length0, M.Length1)
    ensures forall i, j :: 0 <= i < M.Length0 && 0 <= j < M.Length1 ==> m[i][j] == M[i, j]
  {
    seq(M.Length0, i requires 0 <= i < M.Length0 reads M =>
      seq(M.Length1, j requires 0 <= j < M.Length1 reads M => M[i, j]))
  }

  /** [A | b]. */
  ghost function Augmented(A: Matrix, b: Vec): (m: Matrix)
    requires Shaped(A, |b|, |b|)
    ensures Shaped(m, |b|, |b| + 1)
  {
    seq(|b|, i requires 0 <= i < |b| => A[i] + [b[i]])
  }

  ghost function Swapped(M: Matrix, p: nat, q: nat): Matrix
    requires p < |M| && q < |M|
  {
    M[p := M[q]][q := M[p]]
  }

  /** Every row but `col` has its multiple of row `col` removed, so that
      column `col` is left with its pivot only. */
  ghost function Eliminated(M: Matrix, col: nat, w: nat): (m: Matrix)
    requires Shaped(M, |M|, w) && col < |M| && col < w && M[col][col] != 0.0
    ensures Shaped(m, |M|, w)
  {
    seq(|M|, r requires 0 <= r < |M| => EliminatedRow(M, col, w, r))
  }

  ghost function EliminatedRow(M: Matrix, col: nat, w: nat, r: nat): (row: Vec)
    requires Shaped(M, |M|, w) && col < |M| && col < w && M[col][col] != 0.0 && r < |M|
    ensures |row| == w
  {
    if r == col then M[r] else Axpy(M[r], -Factor(M, col, w, r), M[col])
  }

  ghost function Factor(M: Matrix, col: nat, w: nat, r: nat): real
    requires Shaped(M, |M|, w) && col < |M| && col < w && M[col][col] != 0.0 && r < |M|
  {
    M[r][col] * (1.0 / M[col][col])
  }

  /** Columns before `k` hold nothing but a nonzero diagonal entry. */
  ghost predicate DiagonalUpTo(M: Matrix, k: nat) {
    && k <= |M|
    && (forall r :: 0 <= r < |M| ==> k <= |M[r]|)
    && (forall r, c :: 0 <= r < |M| && 0 <= c < k ==> (M[r][c] != 0.0 <==> r == c))
  }

  // ----- one column step -----

  lemma SwapKeepsNullSpace(M: Matrix, p: nat, q: nat, w: nat)
    requires p < |M| && q < |M|
    ensures SameNullSpace(M, Swapped(M, p, q), w)
  {
    var S := Swapped(M, p, q);
    forall z: Vec | |z| == w ensures Null(M, z) <==> Null(S, z) {
      if Null(M, z) {
        forall r | 0 <= r < |S| ensures |S[r]| == |z| && Dot(S[r], z, |z|) == 0.0 {
          assert S[r] == M[if r == q then p else if r == p then q else r];
        }
      }
      if Null(S, z) {
        forall r | 0 <= r < |M| ensures |M[r]| == |z| && Dot(M[r], z, |z|) == 0.0 {
          assert M[r] == S[if r == q then p else if r == p then q else r];
        }
      }
    }
  }

  lemma EliminationKeepsNullSpace(M: Matrix, col: nat, w: nat)
    requires Shaped(M, |M|, w) && col < |M| && col < w && M[col][col] != 0.0
    ensures SameNullSpace(M, Eliminated(M, col, w), w)
  {
    var E := Eliminated(M, col, w);
    assert E[col] == M[col];
    forall z: Vec | |z| == w ensures Null(M, z) <==> Null(E, z) {
      forall r | 0 <= r < |M| && r != col
        ensures Dot(E[r], z, w) == Dot(M[r], z, w) - Factor(M, col, w, r) * Dot(M[col], z, w)
      {
        DotAxpy(M[r], -Factor(M, col, w, r), M[col], z, w);
      }
      if Null(M, z) {
        forall r | 0 <= r < |E| ensures |E[r]| == |z| && Dot(E[r], z, |z|) == 0.0 {
          assert Dot(M[r], z, w) == 0.0 && Dot(M[col], z, w) == 0.0;
        }
      }
      if Null(E, z) {
        forall r | 0 <= r < |M| ensures |M[r]| == |z| && Dot(M[r], z, |z|) == 0.0 {
          assert Dot(E[r], z, w) == 0.0 && Dot(E[col], z, w) == 0.0;
        }
      }
    }
  }

  lemma EliminationExtendsDiagonal(M: Matrix, col: nat, w: nat)
    requires Shaped(M, |M|, w) && col < |M| && col < w && M[col][col] != 0.0
    requires DiagonalUpTo(M, col)
    ensures DiagonalUpTo(Eliminated(M, col, w), col + 1)
  {
    var E := Eliminated(M, col, w);
    forall r, c | 0 <= r < |E| && 0 <= c < col + 1
      ensures E[r][c] != 0.0 <==> r == c
    {
      if r != col {
        var f := Factor(M, col, w, r);
        assert E[r][c] == M[r][c] + -f * M[col][c];
        if c == col {
          var x, p := M[r][col], M[col][col];
          assert (x * (1.0 / p)) * p == x * ((1.0 / p) * p) == x;
        } else {
          assert M[col][c] == 0.0;
        }
      }
    }
  }

  lemma SwapKeepsDiagonal(M: Matrix, p: nat, q: nat, w: nat, col: nat)
    requires Shaped(M, |M|, w) && col <= p < |M| && col <= q < |M| && col <= w
    requires DiagonalUpTo(M, col)
    ensures DiagonalUpTo(Swapped(M, p, q), col)
  {
    var S := Swapped(M, p, q);
    assert Shaped(S, |M|, w);
    forall r, c | 0 <= r < |S| && 0 <= c < col
      ensures S[r][c] != 0.0 <==> r == c
    {
      var from := if r == q then p else if r == p then q else r;
      assert S[r] == M[from];
      assert M[from][c] != 0.0 <==> from == c;
    }
  }

  // ----- what a finished or a failed elimination says -----

  lemma AugmentedNull(A: Matrix, b: Vec, x: Vec)
    requires Shaped(A, |b|, |b|) && |x| == |b|
    ensures Solves(A, b, x) <==> Null(Augmented(A, b), x + [-1.0])
  {
    var n, M, z := |b|, Augmented(A, b), x + [-1.0];
    forall i | 0 <= i < n ensures Dot(M[i], z, n + 1) == Dot(A[i], x, n) - b[i] {
      DotPrefix(M[i], z, A[i], x, n);
    }
    if Solves(A, b, x) {
      forall i | 0 <= i < |M| ensures |M[i]| == |z| && Dot(M[i], z, |z|) == 0.0 {
        assert Dot(A[i], x, n) == b[i];
      }
    }
    if Null(M, z) {
      forall i | 0 <= i < n ensures Dot(A[i], x, n) == b[i] {
        assert Dot(M[i], z, |z|) == 0.0;
      }
    }
  }

  lemma DiagonalNull(M: Matrix, x: Vec)
    requires Shaped(M, |x|, |x| + 1) && DiagonalUpTo(M, |x|)
    ensures Null(M, x + [-1.0]) <==> forall i :: 0 <= i < |x| ==> x[i] == M[i][|x|] / M[i][i]
  {
    hide Dot;
    forall i | 0 <= i < |x|
      ensures Dot(M[i], x + [-1.0], |x| + 1) == 0.0 <==> x[i] == M[i][|x|] / M[i][i]
    {
      DiagonalRow(M, x, i);
    }
  }

  /** A row with two entries left determines one unknown. */
  lemma DiagonalRow(M: Matrix, x: Vec, i: nat)
    requires Shaped(M, |x|, |x| + 1) && DiagonalUpTo(M, |x|) && i < |x|
    ensures Dot(M[i], x + [-1.0], |x| + 1) == 0.0 <==> x[i] == M[i][|x|] / M[i][i]
  {
    hide Dot;
    var n, z := |x|, x + [-1.0];
    DotSparse(M[i], z, n + 1, i, n);
    assert z[i] == x[i] && M[i][n] * z[n] == -M[i][n];
    DivideOut(M[i][i], x[i], M[i][n]);
  }

  lemma DivideOut(p: real, x: real, q: real)
    requires p != 0.0
    ensures p * x - q == 0.0 <==> x == q / p
  {
    assert (q / p) * p == q;
  }

  /** y has a unit entry, and every row sends it to something smaller than `tol`. */
  ghost predicate NearKernel(A: Matrix, n: nat, tol: real, y: Vec, c: nat) {
    && |A| == n && (forall r :: 0 <= r < n ==> n <= |A[r]|)
    && |y| == n && c < n && y[c] == 1.0
    && forall r :: 0 <= r < n ==> Abs(Dot(A[r], y, n)) < tol
  }

  /** The first n columns are singular up to `tol`. */
  ghost predicate NearlySingular(A: Matrix, n: nat, tol: real) {
    exists y: Vec, c: nat :: NearKernel(A, n, tol, y, c)
  }

  /** Some row of E sends y where row r of M sends it. */
  ghost predicate TakenOver(M: Matrix, E: Matrix, n: nat, y: Vec, r: nat)
    requires Shaped(M, n, n + 1) && Shaped(E, n, n + 1) && |y| == n && r < n
  {
    exists q :: 0 <= q < n && Dot(E[q], y, n) == Dot(M[r], y, n)
  }

  ghost predicate Annihilated(E: Matrix, n: nat, col: nat, y: Vec)
    requires Shaped(E, n, n + 1) && |y| == n && col <= n
  {
    forall k :: 0 <= k < col ==> Dot(E[k], y, n) == 0.0
  }

  /** On vectors that the finished rows annihilate, E takes no value but M's. */
  ghost predicate Carries(M: Matrix, E: Matrix, n: nat, col: nat)
    requires Shaped(M, n, n + 1) && Shaped(E, n, n + 1) && col <= n
  {
    forall y: Vec, r :: |y| == n && 0 <= r < n && Annihilated(E, n, col, y) ==> TakenOver(M, E, n, y, r)
  }

  lemma CarriesAtStart(M: Matrix, n: nat)
    requires Shaped(M, n, n + 1)
    ensures Carries(M, M, n, 0)
  {
    hide Dot;
    forall y: Vec, r | |y| == n && 0 <= r < n && Annihilated(M, n, 0, y) ensures TakenOver(M, M, n, y, r) {
      assert Dot(M[r], y, n) == Dot(M[r], y, n);
    }
  }

  lemma SwapCarries(M: Matrix, E: Matrix, n: nat, col: nat, pivot: nat)
    requires Shaped(M, n, n + 1) && Shaped(E, n, n + 1) && col <= pivot < n && Carries(M, E, n, col)
    ensures Carries(M, Swapped(E, col, pivot), n, col)
  {
    hide Dot;
    var S := Swapped(E, col, pivot);
    forall y: Vec, r | |y| == n && 0 <= r < n && Annihilated(S, n, col, y) ensures TakenOver(M, S, n, y, r) {
      assert forall k :: 0 <= k < col ==> S[k] == E[k];
      assert Annihilated(E, n, col, y);
      assert TakenOver(M, E, n, y, r);
      var q :| 0 <= q < n && Dot(E[q], y, n) == Dot(M[r], y, n);
      assert S[if q == col then pivot else if q == pivot then col else q] == E[q];
    }
  }

  lemma EliminatedValue(E: Matrix, n: nat, col: nat, y: Vec, r: nat)
    requires Shaped(E, n, n + 1) && col < n && E[col][col] != 0.0 && |y| == n && r < n
    requires Dot(E[col], y, n) == 0.0
    ensures Dot(Eliminated(E, col, n + 1)[r], y, n) == Dot(E[r], y, n)
  {
    hide Dot, Factor;
    if r != col {
      DotOfAxpy(E[r], -Factor(E, col, n + 1, r), E[col], y, n, 0.0);
    }
  }

  lemma EliminationCarries(M: Matrix, E: Matrix, n: nat, col: nat)
    requires Shaped(M, n, n + 1) && Shaped(E, n, n + 1) && col < n && E[col][col] != 0.0 && Carries(M, E, n, col)
    ensures Carries(M, Eliminated(E, col, n + 1), n, col + 1)
  {
    hide Dot, EliminatedRow;
    var F := Eliminated(E, col, n + 1);
    PivotRowStays(E, n, col);
    forall y: Vec, r | |y| == n && 0 <= r < n && Annihilated(F, n, col + 1, y) ensures TakenOver(M, F, n, y, r) {
      assert Dot(F[col], y, n) == 0.0;
      forall k | 0 <= k < n ensures Dot(F[k], y, n) == Dot(E[k], y, n) { EliminatedValue(E, n, col, y, k); }
      assert Annihilated(E, n, col, y);
      assert TakenOver(M, E, n, y, r);
      var q :| 0 <= q < n && Dot(E[q], y, n) == Dot(M[r], y, n);
      assert Dot(F[q], y, n) == Dot(M[r], y, n);
    }
  }

  lemma PivotRowStays(E: Matrix, n: nat, col: nat)
    requires Shaped(E, n, n + 1) && col < n && E[col][col] != 0.0
    ensures Eliminated(E, col, n + 1)[col] == E[col]
  {
  }

  ghost function Witness(M: Matrix, n: nat, col: nat): (y: Vec)
    requires Shaped(M, n, n + 1) && col < n && DiagonalUpTo(M, col)
    ensures |y| == n && y[col] == 1.0
  {
    seq(n, i requires 0 <= i < n => if i < col then -M[i][col] / M[i][i] else if i == col then 1.0 else 0.0)
  }

  lemma WitnessImage(E: Matrix, n: nat, col: nat, r: nat)
    requires Shaped(E, n, n + 1) && col < n && DiagonalUpTo(E, col) && r < n
    ensures Dot(E[r], Witness(E, n, col), n) == if r < col then 0.0 else E[r][col]
  {
    hide Dot;
    var y := Witness(E, n, col);
    forall c | 0 <= c < n && c != r && c != col ensures E[r][c] * y[c] == 0.0 {
      assert (c < col ==> E[r][c] == 0.0) && (c > col ==> y[c] == 0.0);
      ZeroProduct(E[r][c], y[c]);
    }
    if r < col {
      DotSparse(E[r], y, n, r, col);
      Cancel(E[r][r], E[r][col]);
    } else {
      if r > col { ZeroProduct(E[r][r], y[r]); }
      SingleEntry(E[r], y, n, col);
    }
  }

  lemma ZeroProduct(a: real, b: real)
    requires a == 0.0 || b == 0.0
    ensures a * b == 0.0
  {
  }

  lemma Cancel(p: real, q: real)
    requires p != 0.0
    ensures p * (-q / p) == -q
  {
  }

  /** A column without a usable pivot exhibits a direction that the original
      rows send nowhere. */
  lemma SmallPivotMeansNearlySingular(M: Matrix, E: Matrix, n: nat, col: nat, tol: real)
    requires Shaped(M, n, n + 1) && Shaped(E, n, n + 1) && col < n && DiagonalUpTo(E, col) && Carries(M, E, n, col)
    requires forall r :: col <= r < n ==> Abs(E[r][col]) < tol
    requires tol > 0.0
    ensures NearlySingular(M, n, tol)
  {
    hide Dot, DiagonalUpTo, Witness;
    var y := Witness(E, n, col);
    forall r | 0 <= r < n ensures Dot(E[r], y, n) == if r < col then 0.0 else E[r][col] {
      WitnessImage(E, n, col, r);
    }
    assert Annihilated(E, n, col, y);
    forall r | 0 <= r < n ensures Abs(Dot(M[r], y, n)) < tol {
      assert TakenOver(M, E, n, y, r);
      var q :| 0 <= q < n && Dot(E[q], y, n) == Dot(M[r], y, n);
    }
    assert NearKernel(M, n, tol, y, col);
  }

  // ----- systems on which the solver cannot fail -----

  /** The sum of the first k rows of A, each times its entry of v. */
  ghost function Combined(v: Vec, A: Matrix, n: nat, k: nat): (c: Vec)
    requires Shaped(A, n, n) && |v| == n && k <= n
    ensures |c| == n
  {
    if k == 0 then seq(n, j => 0.0) else Axpy(Combined(v, A, n, k - 1), v[k - 1], A[k - 1])
  }

  ghost predicate IsUnit(v: Vec, n: nat, c: nat) {
    |v| == n && forall j :: 0 <= j < n ==> v[j] == if j == c then 1.0 else 0.0
  }

  /** B A is the identity: row c of the product is the c-th unit vector. */
  ghost predicate LeftInverse(B: Matrix, A: Matrix, n: nat) {
    Shaped(A, n, n) && Shaped(B, n, n) && forall c :: 0 <= c < n ==> IsUnit(Combined(B[c], A, n, n), n, c)
  }

  ghost function AbsSum(v: Vec, k: nat): (t: real)
    requires k <= |v|
    ensures t >= 0.0
  {
    if k == 0 then 0.0 else AbsSum(v, k - 1) + Abs(v[k - 1])
  }

  /** An inverse none of whose rows sums, in size, to more than 1 / tol. */
  ghost predicate SmallInverse(B: Matrix, A: Matrix, n: nat, tol: real)
    requires tol > 0.0
  {
    LeftInverse(B, A, n) && forall c :: 0 <= c < n ==> AbsSum(B[c], n) <= 1.0 / tol
  }

  ghost predicate HasSmallInverse(A: Matrix, n: nat, tol: real)
    requires tol > 0.0
  {
    exists B: Matrix :: SmallInverse(B, A, n, tol)
  }

  lemma CombinedStep(v: Vec, A: Matrix, n: nat, k: nat)
    requires Shaped(A, n, n) && |v| == n && k <= n
    ensures k == 0 ==> AbsSum(v, k) == 0.0 && forall i :: 0 <= i < n ==> Combined(v, A, n, k)[i] == 0.0
    ensures k > 0 ==> AbsSum(v, k) == AbsSum(v, k - 1) + Abs(v[k - 1])
    ensures k > 0 ==> Combined(v, A, n, k) == Axpy(Combined(v, A, n, k - 1), v[k - 1], A[k - 1])
  {
  }

  /** (v A) y is the sum of the rows' values, each times its entry of v: it is
      smaller than tol times the size of v as soon as every value is. */
  lemma {:induction false} CombinedBound(v: Vec, A: Matrix, n: nat, k: nat, y: Vec, tol: real)
    requires Shaped(A, n, n) && |v| == |y| == n && k <= n && tol > 0.0
    requires forall r :: 0 <= r < n ==> Abs(Dot(A[r], y, n)) < tol
    ensures Abs(Dot(Combined(v, A, n, k), y, n)) <= tol * AbsSum(v, k)
    ensures AbsSum(v, k) > 0.0 ==> Abs(Dot(Combined(v, A, n, k), y, n)) < tol * AbsSum(v, k)
  {
    hide Dot, Combined, AbsSum, Abs;
    CombinedStep(v, A, n, k);
    if k == 0 {
      DotZero(Combined(v, A, n, 0), y, n);
      assert tol * 0.0 == 0.0;
    } else {
      CombinedBound(v, A, n, k - 1, y, tol);
      var f, p := v[k - 1], Dot(A[k - 1], y, n);
      DotOfAxpy(Combined(v, A, n, k - 1), f, A[k - 1], y, n, p);
      BoundStep(Dot(Combined(v, A, n, k - 1), y, n), AbsSum(v, k - 1), f, p, tol);
    }
  }

  /** One more summand f p keeps x within tol times the sum of sizes t. */
  lemma BoundStep(x: real, t: real, f: real, p: real, tol: real)
    requires tol > 0.0 && t >= 0.0 && Abs(p) < tol
    requires Abs(x) <= tol * t && (t > 0.0 ==> Abs(x) < tol * t)
    ensures Abs(x + f * p) <= tol * (t + Abs(f))
    ensures t + Abs(f) > 0.0 ==> Abs(x + f * p) < tol * (t + Abs(f))
  {
    ScaledValue(f, p, tol);
    var a, d, e := tol * t, f * p, tol * Abs(f);
    assert tol * (t + Abs(f)) == a + e;
    SumWithin(x, d, a, e);
  }

  lemma SumWithin(x: real, d: real, a: real, e: real)
    requires Abs(x) <= a && Abs(d) <= e
    ensures Abs(x + d) <= a + e
    ensures Abs(x) < a || Abs(d) < e ==> Abs(x + d) < a + e
  {
  }

  lemma ScaledValue(f: real, p: real, tol: real)
    requires Abs(p) < tol
    ensures Abs(f * p) <= tol * Abs(f)
    ensures f != 0.0 ==> Abs(f * p) < tol * Abs(f)
  {
    if f > 0.0 {
      assert f * (tol - p) > 0.0 && f * (tol + p) > 0.0;
    } else if f < 0.0 {
      assert -f * (tol - p) > 0.0 && -f * (tol + p) > 0.0;
    } else {
      assert f * p == 0.0;
    }
  }

  /** A small inverse rules out every direction that is nearly annihilated. */
  lemma SmallInverseIsRegular(A: Matrix, n: nat, tol: real)
    requires tol > 0.0 && HasSmallInverse(A, n, tol)
    ensures !NearlySingular(A, n, tol)
  {
    hide Dot, Combined, AbsSum;
    var B: Matrix :| SmallInverse(B, A, n, tol);
    forall y: Vec, c: nat ensures !NearKernel(A, n, tol, y, c) {
      if NearKernel(A, n, tol, y, c) {
        CombinedBound(B[c], A, n, n, y, tol);
        assert IsUnit(Combined(B[c], A, n, n), n, c);
        UnitDot(Combined(B[c], A, n, n), y, n, c);
        ScaleDown(tol, AbsSum(B[c], n));
        assert false;
      }
    }
  }

  lemma UnitDot(u: Vec, y: Vec, n: nat, c: nat)
    requires IsUnit(u, n, c) && |y| == n && c < n
    ensures Dot(u, y, n) == y[c]
  {
    SingleEntry(u, y, n, c);
  }

  lemma ScaleDown(tol: real, t: real)
    requires tol > 0.0 && 0.0 <= t <= 1.0 / tol
    ensures tol * t <= 1.0
    ensures t == 0.0 ==> tol * t == 0.0
  {
    assert tol * (1.0 / tol) == 1.0;
    assert tol * (1.0 / tol - t) >= 0.0;
  }

  lemma {:induction false} SingleEntry(a: Vec, y: Vec, k: nat, c: nat)
    requires k <= |a| && k <= |y| && c < |a| && c < |y|
    requires forall i :: 0 <= i < k && i != c ==> a[i] * y[i] == 0.0
    ensures Dot(a, y, k) == if c < k then a[c] * y[c] else 0.0
  {
    if k > 0 { SingleEntry(a, y, k - 1, c); }
  }

  // ----- the in-place algorithm -----

  /** The first row from `col` down whose entry in `col` is largest in size. */
  method PivotRow(M: array2<real>, col: nat) returns (pivot: nat)
    requires col < M.Length0 && col < M.Length1
    ensures col <= pivot < M.Length0
    ensures forall r :: col <= r < M.Length0 ==> Abs(M[r, col]) <= Abs(M[pivot, col])
    ensures forall r :: col <= r < pivot ==> Abs(M[r, col]) < Abs(M[pivot, col])
  {
    pivot := col;
    for r := col + 1 to M.Length0
      invariant col <= pivot < r
      invariant forall i :: col <= i < r ==> Abs(M[i, col]) <= Abs(M[pivot, col])
      invariant forall i :: col <= i < pivot ==> Abs(M[i, col]) < Abs(M[pivot, col])
    {
      if Abs(M[r, col]) > Abs(M[pivot, col]) { pivot := r; }
    }
  }

  method SwapRows(M: array2<real>, p: nat, q: nat)
    requires p < M.Length0 && q < M.Length0
    modifies M
    ensures Rows(M) == Swapped(old(Rows(M)), p, q)
  {
    for c := 0 to M.Length1
      invariant forall i, j :: 0 <= i < M.Length0 && 0 <= j < M.Length1 ==>
        M[i, j] == old(M[if j < c && i == p then q else if j < c && i == q then p else i, j])
    {
      M[p, c], M[q, c] := M[q, c], M[p, c];
    }
    ghost var want := Swapped(old(Rows(M)), p, q);
    forall i | 0 <= i < M.Length0 ensures Rows(M)[i] == want[i] {
      assert forall j :: 0 <= j < M.Length1 ==> Rows(M)[i][j] == want[i][j];
    }
  }

  /** What elimination makes of the entries of one row. */
  lemma EliminatedEntries(M: Matrix, col: nat, w: nat, r: nat)
    requires Shaped(M, |M|, w) && col < |M| && col < w && M[col][col] != 0.0 && r < |M| && DiagonalUpTo(M, col)
    ensures Factor(M, col, w, r) == M[r][col] * (1.0 / M[col][col])
    ensures forall j :: 0 <= j < col ==> EliminatedRow(M, col, w, r)[j] == M[r][j]
    ensures r != col ==> forall j :: 0 <= j < w ==> EliminatedRow(M, col, w, r)[j] == M[r][j] - Factor(M, col, w, r) * M[col][j]
    ensures r == col || Factor(M, col, w, r) == 0.0 ==> EliminatedRow(M, col, w, r) == M[r]
  {
    hide Factor;
    FactorIs(M, col, w, r);
    var f := Factor(M, col, w, r);
    if r != col {
      forall j | 0 <= j < col ensures EliminatedRow(M, col, w, r)[j] == M[r][j] { assert M[col][j] == 0.0; }
    }
    if f == 0.0 { assert EliminatedRow(M, col, w, r) == M[r]; }
  }

  lemma FactorIs(M: Matrix, col: nat, w: nat, r: nat)
    requires Shaped(M, |M|, w) && col < |M| && col < w && M[col][col] != 0.0 && r < |M|
    ensures Factor(M, col, w, r) == M[r][col] * (1.0 / M[col][col])
  {
  }

  /** Remove from every other row its multiple of row `col`. The entries left
      of `col` are skipped: row `col` has none there. */
  method EliminateColumn(M: array2<real>, col: nat)
    requires M.Length1 == M.Length0 + 1 && col < M.Length0
    requires M[col, col] != 0.0 && DiagonalUpTo(Rows(M), col)
    modifies M
    ensures Rows(M) == Eliminated(old(Rows(M)), col, M.Length1)
  {
    hide EliminatedRow, Factor, DiagonalUpTo;
    var n := M.Length0;
    ghost var M1 := Rows(M);
    var inv := 1.0 / M[col, col];
    EliminatedEntries(M1, col, n + 1, col);
    for r := 0 to n
      invariant forall i, j :: 0 <= i < n && 0 <= j <= n ==>
        M[i, j] == if i < r then EliminatedRow(M1, col, n + 1, i)[j] else M1[i][j]
    {
      EliminatedEntries(M1, col, n + 1, r);
      if r == col { continue; }
      var f := M[r, col] * inv;
      assert f == Factor(M1, col, n + 1, r);
      if f == 0.0 { continue; }
      for c := col to n + 1
        invariant forall i, j :: 0 <= i < n && 0 <= j <= n && i != r ==>
          M[i, j] == if i < r then EliminatedRow(M1, col, n + 1, i)[j] else M1[i][j]
        invariant forall j :: 0 <= j <= n ==>
          M[r, j] == if j < c then EliminatedRow(M1, col, n + 1, r)[j] else M1[r][j]
      {
        M[r, c] := M[r, c] - f * M[col, c];
      }
    }
    ghost var want := Eliminated(M1, col, n + 1);
    forall i | 0 <= i < n ensures Rows(M)[i] == want[i] {
      assert forall j :: 0 <= j <= n ==> Rows(M)[i][j] == want[i][j];
    }
  }

  lemma SameAsItself(M: Matrix, n: nat)
    ensures SameNullSpace(M, M, n + 1)
    ensures DiagonalUpTo(M, 0)
  {
  }

  /** The three things the loop over columns keeps, across the swap. */
  lemma SwapKeeps(M0: Matrix, M: Matrix, n: nat, col: nat, pivot: nat)
    requires Shaped(M0, n, n + 1) && Shaped(M, n, n + 1) && col <= pivot < n
    requires DiagonalUpTo(M, col) && SameNullSpace(M0, M, n + 1) && Carries(M0, M, n, col)
    ensures var S := Swapped(M, col, pivot);
      && Shaped(S, n, n + 1) && S[col] == M[pivot]
      && DiagonalUpTo(S, col) && SameNullSpace(M0, S, n + 1) && Carries(M0, S, n, col)
  {
    hide DiagonalUpTo, Carries, SameNullSpace;
    SwapKeepsNullSpace(M, col, pivot, n + 1);
    SameNullSpaceTransitive(M0, M, Swapped(M, col, pivot), n + 1);
    SwapKeepsDiagonal(M, col, pivot, n + 1, col);
    SwapCarries(M0, M, n, col, pivot);
  }

  /** And across the elimination, which finishes one more column. */
  lemma EliminationKeeps(M0: Matrix, M: Matrix, n: nat, col: nat)
    requires Shaped(M0, n, n + 1) && Shaped(M, n, n + 1) && col < n && M[col][col] != 0.0
    requires DiagonalUpTo(M, col) && SameNullSpace(M0, M, n + 1) && Carries(M0, M, n, col)
    ensures var E := Eliminated(M, col, n + 1);
      DiagonalUpTo(E, col + 1) && SameNullSpace(M0, E, n + 1) && Carries(M0, E, n, col + 1)
  {
    hide DiagonalUpTo, Carries, Eliminated, SameNullSpace;
    EliminationKeepsNullSpace(M, col, n + 1);
    SameNullSpaceTransitive(M0, M, Eliminated(M, col, n + 1), n + 1);
    EliminationExtendsDiagonal(M, col, n + 1);
    EliminationCarries(M0, M, n, col);
  }

  /** Reduce the augmented matrix to its diagonal, column by column, or stop
      at the first column without a usable pivot. */
  method Diagonalise(M: array2<real>, tol: real) returns (ok: bool)
    requires M.Length1 == M.Length0 + 1 && tol > 0.0
    modifies M
    ensures SameNullSpace(old(Rows(M)), Rows(M), M.Length1)
    ensures ok ==> DiagonalUpTo(Rows(M), M.Length0)
    ensures !ok ==> NearlySingular(old(Rows(M)), M.Length0, tol)
  {
    hide SameNullSpace, DiagonalUpTo, Carries, NearlySingular, Eliminated;
    var n := M.Length0;
    ghost var M0 := Rows(M);
    CarriesAtStart(M0, n);
    SameAsItself(M0, n);
    for col := 0 to n
      invariant DiagonalUpTo(Rows(M), col)
      invariant SameNullSpace(M0, Rows(M), n + 1)
      invariant Carries(M0, Rows(M), n, col)
    {
      var pivot := PivotRow(M, col);
      if Abs(M[pivot, col]) < tol {
        SmallPivotMeansNearlySingular(M0, Rows(M), n, col, tol);
        return false;
      }
      ghost var before := Rows(M);
      SwapRows(M, col, pivot);
      SwapKeeps(M0, before, n, col, pivot);
      ghost var swapped := Rows(M);
      assert M[col, col] == swapped[col][col];
      EliminateColumn(M, col);
      EliminationKeeps(M0, swapped, n, col);
    }
    return true;
  }

  lemma DiagonalSolution(A: Matrix, b: Vec, M: Matrix, y: Vec)
    requires Shaped(A, |b|, |b|) && Shaped(M, |b|, |b| + 1) && |y| == |b|
    requires SameNullSpace(Augmented(A, b), M, |b| + 1) && DiagonalUpTo(M, |b|)
    ensures Solves(A, b, y) <==> forall i :: 0 <= i < |b| ==> y[i] == M[i][|b|] / M[i][i]
  {
    AugmentedNull(A, b, y);
    DiagonalNull(M, y);
    assert |y + [-1.0]| == |b| + 1;
  }

  lemma AugmentedNearlySingular(A: Matrix, b: Vec, tol: real)
    requires Shaped(A, |b|, |b|) && NearlySingular(Augmented(A, b), |b|, tol)
    ensures NearlySingular(A, |b|, tol)
  {
    hide Dot;
    var n, M := |b|, Augmented(A, b);
    var y: Vec, c: nat :| NearKernel(M, n, tol, y, c);
    forall r | 0 <= r < n ensures Dot(A[r], y, n) == Dot(M[r], y, n) {
      DotPrefix(A[r], y, M[r], y, n);
    }
    assert NearKernel(A, n, tol, y, c);
  }

  method Augment(A: array2<real>, b: array<real>) returns (M: array2<real>)
    requires A.Length0 == A.Length1 == b.Length
    ensures fresh(M) && M.Length0 == b.Length && M.Length1 == b.Length + 1
    ensures Rows(M) == Augmented(Rows(A), b[..])
  {
    var n := A.Length0;
    M := new real[n, n + 1]((i, j) requires 0 <= i < n && 0 <= j < n + 1 reads A, b =>
      if j < n then A[i, j] else b[i]);
    ghost var M0 := Augmented(Rows(A), b[..]);
    forall i | 0 <= i < n ensures Rows(M)[i] == M0[i] {
      assert forall j :: 0 <= j < n + 1 ==> Rows(M)[i][j] == M0[i][j];
    }
  }

  /** Solve A x = b, or fail when a pivot is smaller than `tol`. What it
      returns solves the system and nothing else does; a failure exhibits a
      direction that A itself all but annihilates, so it does not fail when A
      has an inverse whose rows sum to at most 1 / tol. Neither A nor b is
      written to. */
  method Solve(A: array2<real>, b: array<real>, tol: real) returns (x: Option<Vec>)
    requires A.Length0 == A.Length1 == b.Length && tol > 0.0
    ensures x.Some? ==> |x.value| == b.Length && Solves(Rows(A), b[..], x.value)
    ensures x.Some? ==> forall y: Vec :: |y| == b.Length && Solves(Rows(A), b[..], y) ==> y == x.value
    ensures x.None? ==> NearlySingular(Rows(A), b.Length, tol)
    ensures HasSmallInverse(Rows(A), b.Length, tol) ==> x.Some?
  {
    var n := A.Length0;
    var M := Augment(A, b);
    var ok := Diagonalise(M, tol);
    if !ok {
      AugmentedNearlySingular(Rows(A), b[..], tol);
      if HasSmallInverse(Rows(A), n, tol) { SmallInverseIsRegular(Rows(A), n, tol); }
      return None;
    }
    ghost var D := Rows(M);
    assert forall i :: 0 <= i < n ==> D[i][i] != 0.0;
    var s := seq(n, i requires 0 <= i < n && M[i, i] != 0.0 reads M => M[i, n] / M[i, i]);
    DiagonalSolution(Rows(A), b[..], D, s);
    forall y: Vec | |y| == n && Solves(Rows(A), b[..], y) ensures y == s {
      DiagonalSolution(Rows(A), b[..], D, y);
    }
    return Some(s);
  }
}
