/** Vectors and matrices over exact reals, and the few facts about inner
    products that elimination and least squares rest on. */
module LinearAlgebra {
  type Vec = seq<real>
  type Matrix = seq<Vec>

  function Abs(x: real): (r: real)
    ensures r >= 0.0 && (r == x || r == -x)
  {
    if x < 0.0 then -x else x
  }

  function Product(x: real, y: real): (r: real)
    ensures x > 0.0 && y > 0.0 ==> r > 0.0
    ensures x < 0.0 && y < 0.0 ==> r > 0.0
    ensures x == 0.0 || y == 0.0 ==> r == 0.0
  {
    x * y
  }

  function Square(x: real): (r: real)
    ensures r >= 0.0
    ensures r == 0.0 <==> x == 0.0
  {
    Product(x, x)
  }

  /** The inner product of the first `k` entries. */
  function Dot(a: Vec, x: Vec, k: nat): real
    requires k <= |a| && k <= |x|
  {
    if k == 0 then 0.0 else Dot(a, x, k - 1) + a[k - 1] * x[k - 1]
  }

  /** a + f * b, entry by entry. */
  function Axpy(a: Vec, f: real, b: Vec): (r: Vec)
    requires |a| == |b|
    ensures |r| == |a| && forall i :: 0 <= i < |a| ==> r[i] == a[i] + f * b[i]
  {
    seq(|a|, i requires 0 <= i < |a| => a[i] + f * b[i])
  }

  lemma {:induction false} DotAxpy(a: Vec, f: real, b: Vec, x: Vec, k: nat)
    requires |a| == |b| && k <= |a| && k <= |x|
    ensures Dot(Axpy(a, f, b), x, k) == Dot(a, x, k) + f * Dot(b, x, k)
  {
    if k > 0 {
      DotAxpy(a, f, b, x, k - 1);
      var p, q, s := a[k - 1], b[k - 1], x[k - 1];
      assert (p + f * q) * s == p * s + f * (q * s);
      assert f * (Dot(b, x, k - 1) + q * s) == f * Dot(b, x, k - 1) + f * (q * s);
    }
  }

  lemma DotOfAxpy(g: Vec, f: real, x: Vec, t: Vec, k: nat, p: real)
    requires |g| == |x| && k <= |g| && k <= |t|
    requires p == Dot(x, t, k)
    ensures Dot(Axpy(g, f, x), t, k) == Dot(g, t, k) + f * p
  {
    DotAxpy(g, f, x, t, k);
  }

  lemma DotStep(g: Vec, f: real, x: Vec, h: Vec, t: Vec, k: nat, p: real, q: real)
    requires |g| == |x| && k <= |g| && k <= |t|
    requires h == Axpy(g, f, x)
    requires p == Dot(x, t, k)
    requires q == f * p
    ensures Dot(h, t, k) == Dot(g, t, k) + q
  {
    hide Dot;
    DotOfAxpy(g, f, x, t, k, p);
  }

  lemma {:induction false} DotCommutes(a: Vec, x: Vec, k: nat)
    requires k <= |a| && k <= |x|
    ensures Dot(a, x, k) == Dot(x, a, k)
  {
    if k > 0 { DotCommutes(a, x, k - 1); }
  }

  lemma {:induction false} DotPrefix(a: Vec, x: Vec, a': Vec, x': Vec, k: nat)
    requires k <= |a| && k <= |x| && k <= |a'| && k <= |x'|
    requires a[..k] == a'[..k] && x[..k] == x'[..k]
    ensures Dot(a, x, k) == Dot(a', x', k)
  {
    if k > 0 {
      assert a[k - 1] == a[..k][k - 1] == a'[..k][k - 1] == a'[k - 1];
      assert x[k - 1] == x[..k][k - 1] == x'[..k][k - 1] == x'[k - 1];
      assert a[..k - 1] == a[..k][..k - 1] == a'[..k][..k - 1] == a'[..k - 1];
      assert x[..k - 1] == x[..k][..k - 1] == x'[..k][..k - 1] == x'[..k - 1];
      DotPrefix(a, x, a', x', k - 1);
    }
  }

  /** Only the entries `p` and `q` of `a` may be nonzero. */
  lemma {:induction false} DotSparse(a: Vec, x: Vec, k: nat, p: nat, q: nat)
    requires k <= |a| && k <= |x| && p < q < |a| && q < |x|
    requires forall c :: 0 <= c < k && c != p && c != q ==> a[c] * x[c] == 0.0
    ensures Dot(a, x, k) == (if p < k then a[p] * x[p] else 0.0) + (if q < k then a[q] * x[q] else 0.0)
  {
    if k > 0 { DotSparse(a, x, k - 1, p, q); }
  }

  lemma {:induction false} DotZero(a: Vec, x: Vec, k: nat)
    requires k <= |a| && k <= |x| && forall i :: 0 <= i < k ==> a[i] == 0.0
    ensures Dot(a, x, k) == 0.0
  {
    if k > 0 { DotZero(a, x, k - 1); }
  }

  lemma {:induction false} SquaredNormSign(v: Vec, d: nat)
    requires d <= |v|
    ensures Dot(v, v, d) >= 0.0
    ensures Dot(v, v, d) == 0.0 ==> forall i :: 0 <= i < d ==> v[i] == 0.0
  {
    if d > 0 {
      SquaredNormSign(v, d - 1);
      assert v[d - 1] * v[d - 1] == Square(v[d - 1]);
    }
  }

  /** z is annihilated by every row. */
  ghost predicate Null(M: Matrix, z: Vec) {
    forall r :: 0 <= r < |M| ==> |M[r]| == |z| && Dot(M[r], z, |z|) == 0.0
  }

  /** The two matrices annihilate exactly the same vectors of length `w`. */
  ghost predicate SameNullSpace(M: Matrix, N: Matrix, w: nat) {
    forall z: Vec :: |z| == w ==> (Null(M, z) <==> Null(N, z))
  }

  lemma SameNullSpaceTransitive(M: Matrix, N: Matrix, P: Matrix, w: nat)
    requires SameNullSpace(M, N, w) && SameNullSpace(N, P, w)
    ensures SameNullSpace(M, P, w)
  {
    hide Null;
  }

  ghost predicate Shaped(M: Matrix, n: nat, w: nat) {
    |M| == n && forall r :: 0 <= r < n ==> |M[r]| == w
  }

  /** A x = b. */
  ghost predicate Solves(A: Matrix, b: Vec, x: Vec)
    requires Shaped(A, |b|, |x|)
  {
    forall i :: 0 <= i < |b| ==> Dot(A[i], x, |x|) == b[i]
  }
}
