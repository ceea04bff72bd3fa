/**
 The Levenberg-Marquardt fit of the 12-parameter accelerometer model (tools/src/lm.c).

 Parameters are laid out as in the source: x[0..3] is the bias b, x[3 + 3k + j] is m_kj.  The square
 root is a parameter of the model; only `PerfectFit` needs its defining property, `IsSqrt`.
 */
module LevenbergMarquardt {
  import opened Wrappers
  import opened Reals
  import opened Gauss
  import opened Strings

  const PARAMS: nat := 12
  const GRAVITY: real := 9.80665
  const MAX_ITER: nat := 100
  const MAX_TRIES: nat := 10
  const MIN_IMPROVEMENT: real := 0.0000000001  // 1e-10
  const NORM_GUARD: real := 0.000000001        // 1e-9

  type Sample = s: Vec | |s| == 3 witness [0.0, 0.0, 0.0]
  type Params = x: Vec | |x| == 12 witness seq(12, _ => 0.0)

  ghost predicate IsSqrt(sqrt: real -> real) {
    forall v: real :: v >= 0.0 ==> sqrt(v) >= 0.0 && sqrt(v) * sqrt(v) == v
  }

  // ------------------------------------------------------------------
  // The model: residuals and cost
  // ------------------------------------------------------------------

  /** Component k of M(a - b). */
  function V(a: Sample, x: Params, k: nat): real
    requires k < 3
  {
    x[3 + 3 * k] * (a[0] - x[0]) + x[4 + 3 * k] * (a[1] - x[1]) + x[5 + 3 * k] * (a[2] - x[2])
  }

  function Norm2(a: Sample, x: Params): real {
    Dot3(V(a, x, 0), V(a, x, 1), V(a, x, 2), V(a, x, 0), V(a, x, 1), V(a, x, 2))
  }

  function Dot3(u0: real, u1: real, u2: real, v0: real, v1: real, v2: real): real {
    u0 * v0 + u1 * v1 + u2 * v2
  }

  function Residual(sqrt: real -> real, a: Sample, x: Params): real {
    sqrt(Norm2(a, x)) - GRAVITY
  }

  function Residuals(sqrt: real -> real, samples: seq<Sample>, x: Params): (r: Vec)
    ensures |r| == |samples|
  {
    seq(|samples|, i requires 0 <= i < |samples| => Residual(sqrt, samples[i], x))
  }

  function MeanSquare(r: Vec): real
    requires |r| > 0
  {
    SumProd(r, r, 0, |r|) / (|r| as real)
  }

  function Cost(sqrt: real -> real, samples: seq<Sample>, x: Params): real
    requires |samples| > 0
  {
    MeanSquare(Residuals(sqrt, samples, x))
  }

  // ------------------------------------------------------------------
  // The Jacobian
  // ------------------------------------------------------------------

  /** dr/db_j = -(v . column j of M) / |v|. */
  function BiasEntry(nrm: real, a: Sample, x: Params, j: nat): real
    requires j < 3 && nrm != 0.0
  {
    -Dot3(V(a, x, 0), V(a, x, 1), V(a, x, 2), x[3 + j], x[6 + j], x[9 + j]) / nrm
  }

  /** dr/dm_kj = (a - b)_j v_k / |v|. */
  function MatrixEntry(nrm: real, a: Sample, x: Params, k: nat, j: nat): real
    requires k < 3 && j < 3 && nrm != 0.0
  {
    (a[j] - x[j]) * V(a, x, k) / nrm
  }

  function JacobianRow(sqrt: real -> real, a: Sample, x: Params): (r: Vec)
    ensures |r| == PARAMS
  {
    var n := sqrt(Norm2(a, x));
    if n < NORM_GUARD then seq(PARAMS, _ => 0.0)
    else
      [BiasEntry(n, a, x, 0), BiasEntry(n, a, x, 1), BiasEntry(n, a, x, 2),
       MatrixEntry(n, a, x, 0, 0), MatrixEntry(n, a, x, 0, 1), MatrixEntry(n, a, x, 0, 2),
       MatrixEntry(n, a, x, 1, 0), MatrixEntry(n, a, x, 1, 1), MatrixEntry(n, a, x, 1, 2),
       MatrixEntry(n, a, x, 2, 0), MatrixEntry(n, a, x, 2, 1), MatrixEntry(n, a, x, 2, 2)]
  }

  function Jacobian(sqrt: real -> real, samples: seq<Sample>, x: Params): (J: Mat)
    ensures |J| == |samples| && forall i :: 0 <= i < |J| ==> |J[i]| == PARAMS
  {
    seq(|samples|, i requires 0 <= i < |samples| => JacobianRow(sqrt, samples[i], x))
  }

  /** Component k of H.d, for the displacement's matrix part H and d = a - b. */
  function MatrixShift(a: Sample, x: Params, h: Params, k: nat): real
    requires k < 3
  {
    Dot3(h[3 + 3 * k], h[4 + 3 * k], h[5 + 3 * k], a[0] - x[0], a[1] - x[1], a[2] - x[2])
  }

  /** Component k of M.hb, for the displacement's bias part hb. */
  function BiasShift(x: Params, h: Params, k: nat): real
    requires k < 3
  {
    Dot3(x[3 + 3 * k], x[4 + 3 * k], x[5 + 3 * k], h[0], h[1], h[2])
  }

  /** The part of M(a - b) that is linear in the displacement h of the parameters. */
  function Differential(a: Sample, x: Params, h: Params, k: nat): real
    requires k < 3
  {
    MatrixShift(a, x, h, k) - BiasShift(x, h, k)
  }

  /** The part that is quadratic in h. */
  function Curvature(h: Params, k: nat): real
    requires k < 3
  {
    Dot3(h[3 + 3 * k], h[4 + 3 * k], h[5 + 3 * k], h[0], h[1], h[2])
  }

  lemma VExpansion(a: Sample, x: Params, h: Params, y: Params, k: nat)
    requires k < 3 && forall j :: 0 <= j < 12 ==> y[j] == x[j] + h[j]
    ensures V(a, y, k) == V(a, x, k) + Differential(a, x, h, k) - Curvature(h, k)
  {
    ProductExpansion(x[3 + 3 * k], h[3 + 3 * k], a[0] - x[0], h[0]);
    ProductExpansion(x[4 + 3 * k], h[4 + 3 * k], a[1] - x[1], h[1]);
    ProductExpansion(x[5 + 3 * k], h[5 + 3 * k], a[2] - x[2], h[2]);
  }

  lemma ProductExpansion(m: real, dm: real, d: real, db: real)
    ensures (m + dm) * (d - db) == m * d + dm * d - m * db - dm * db
  {
  }

  /** The inner product of a Jacobian row with h, three entries at a time. */
  function RowPart(row: Vec, h: Params, g: nat): real
    requires |row| == PARAMS && g < 4
  {
    Dot3(row[3 * g], row[3 * g + 1], row[3 * g + 2], h[3 * g], h[3 * g + 1], h[3 * g + 2])
  }

  function DotRow(row: Vec, h: Params): real
    requires |row| == PARAMS
  {
    RowPart(row, h, 0) + RowPart(row, h, 1) + RowPart(row, h, 2) + RowPart(row, h, 3)
  }

  lemma Collect4(r: real, a: real, b: real, c: real, d: real, sum: real)
    requires sum == a + b + c + d
    ensures r * sum == r * a + r * b + r * c + r * d
  {
  }

  /** n (p.u) for p_i = q_i / n. */
  lemma Unscale3(n: real, q0: real, q1: real, q2: real, p0: real, p1: real, p2: real, u0: real, u1: real, u2: real)
    requires n != 0.0 && p0 == q0 / n && p1 == q1 / n && p2 == q2 / n
    ensures n * Dot3(p0, p1, p2, u0, u1, u2) == Dot3(q0, q1, q2, u0, u1, u2)
  {
    assert n * p0 == q0 && n * p1 == q1 && n * p2 == q2;
    assert n * (p0 * u0) == q0 * u0 && n * (p1 * u1) == q1 * u1 && n * (p2 * u2) == q2 * u2;
  }

  lemma ScaleOut3(v: real, d0: real, d1: real, d2: real, q0: real, q1: real, q2: real, h0: real, h1: real, h2: real)
    requires q0 == d0 * v && q1 == d1 * v && q2 == d2 * v
    ensures Dot3(q0, q1, q2, h0, h1, h2) == v * Dot3(h0, h1, h2, d0, d1, d2)
  {
  }

  lemma MatrixPart(n: real, row: Vec, a: Sample, x: Params, h: Params, k: nat)
    requires |row| == PARAMS && k < 3 && n != 0.0
    requires row[3 * (k + 1)] == MatrixEntry(n, a, x, k, 0)
    requires row[3 * (k + 1) + 1] == MatrixEntry(n, a, x, k, 1)
    requires row[3 * (k + 1) + 2] == MatrixEntry(n, a, x, k, 2)
    ensures n * RowPart(row, h, k + 1) == V(a, x, k) * MatrixShift(a, x, h, k)
  {
    var v, d0, d1, d2 := V(a, x, k), a[0] - x[0], a[1] - x[1], a[2] - x[2];
    var q0, q1, q2 := d0 * v, d1 * v, d2 * v;
    var g := 3 * (k + 1);
    Unscale3(n, q0, q1, q2, row[g], row[g + 1], row[g + 2], h[g], h[g + 1], h[g + 2]);
    ScaleOut3(v, d0, d1, d2, q0, q1, q2, h[g], h[g + 1], h[g + 2]);
  }

  lemma Transposed3(v0: real, v1: real, v2: real, x: Params, h: Params, q0: real, q1: real, q2: real)
    requires q0 == -Dot3(v0, v1, v2, x[3], x[6], x[9])
    requires q1 == -Dot3(v0, v1, v2, x[4], x[7], x[10])
    requires q2 == -Dot3(v0, v1, v2, x[5], x[8], x[11])
    ensures Dot3(q0, q1, q2, h[0], h[1], h[2]) ==
            -(v0 * BiasShift(x, h, 0)) - v1 * BiasShift(x, h, 1) - v2 * BiasShift(x, h, 2)
  {
  }

  lemma BiasPart(n: real, row: Vec, a: Sample, x: Params, h: Params)
    requires |row| == PARAMS && n != 0.0
    requires row[0] == BiasEntry(n, a, x, 0) && row[1] == BiasEntry(n, a, x, 1) && row[2] == BiasEntry(n, a, x, 2)
    ensures n * RowPart(row, h, 0) ==
            -(V(a, x, 0) * BiasShift(x, h, 0)) - V(a, x, 1) * BiasShift(x, h, 1) - V(a, x, 2) * BiasShift(x, h, 2)
  {
    var v0, v1, v2 := V(a, x, 0), V(a, x, 1), V(a, x, 2);
    var q0, q1, q2 := -Dot3(v0, v1, v2, x[3], x[6], x[9]), -Dot3(v0, v1, v2, x[4], x[7], x[10]),
                      -Dot3(v0, v1, v2, x[5], x[8], x[11]);
    Unscale3(n, q0, q1, q2, row[0], row[1], row[2], h[0], h[1], h[2]);
    Transposed3(v0, v1, v2, x, h, q0, q1, q2);
  }

  lemma Split2(v: real, m: real, b: real, d: real)
    requires d == m - b
    ensures v * d == v * m - v * b
  {
  }

  /** Where the norm is not guarded away, a Jacobian row is the exact differential of the norm:
      2 |v| (J.h) is the linear part of the change of |v|^2 (see Norm2Expansion). */
  lemma JacobianIsDifferential(sqrt: real -> real, a: Sample, x: Params, h: Params)
    requires sqrt(Norm2(a, x)) >= 0.000000001
    ensures sqrt(Norm2(a, x)) * DotRow(JacobianRow(sqrt, a, x), h) ==
            V(a, x, 0) * Differential(a, x, h, 0) + V(a, x, 1) * Differential(a, x, h, 1)
            + V(a, x, 2) * Differential(a, x, h, 2)
  {
    var n, J := sqrt(Norm2(a, x)), JacobianRow(sqrt, a, x);
    BiasPart(n, J, a, x, h);
    MatrixPart(n, J, a, x, h, 0);
    MatrixPart(n, J, a, x, h, 1);
    MatrixPart(n, J, a, x, h, 2);
    Split2(V(a, x, 0), MatrixShift(a, x, h, 0), BiasShift(x, h, 0), Differential(a, x, h, 0));
    Split2(V(a, x, 1), MatrixShift(a, x, h, 1), BiasShift(x, h, 1), Differential(a, x, h, 1));
    Split2(V(a, x, 2), MatrixShift(a, x, h, 2), BiasShift(x, h, 2), Differential(a, x, h, 2));
    Collect4(n, RowPart(J, h, 0), RowPart(J, h, 1), RowPart(J, h, 2), RowPart(J, h, 3), DotRow(J, h));
  }

  lemma SquareChange(v: real, d: real, q: real, w: real)
    requires w == v + d - q
    ensures w * w == v * v + 2.0 * (v * d) + ((d - q) * (d - q) - 2.0 * (v * q))
  {
  }

  /** Terms of degree two and more in h. */
  function SecondOrder(a: Sample, x: Params, h: Params, k: nat): real
    requires k < 3
  {
    var d, q := Differential(a, x, h, k), Curvature(h, k);
    (d - q) * (d - q) - 2.0 * (V(a, x, k) * q)
  }

  /** |v|^2 changes by 2 |v| (J.h) plus terms of degree two and more in h. */
  lemma Norm2Expansion(sqrt: real -> real, a: Sample, x: Params, h: Params, y: Params)
    requires sqrt(Norm2(a, x)) >= 0.000000001
    requires forall j :: 0 <= j < 12 ==> y[j] == x[j] + h[j]
    ensures Norm2(a, y) ==
            Norm2(a, x) + 2.0 * (sqrt(Norm2(a, x)) * DotRow(JacobianRow(sqrt, a, x), h))
            + SecondOrder(a, x, h, 0) + SecondOrder(a, x, h, 1) + SecondOrder(a, x, h, 2)
  {
    JacobianIsDifferential(sqrt, a, x, h);
    VExpansion(a, x, h, y, 0);
    VExpansion(a, x, h, y, 1);
    VExpansion(a, x, h, y, 2);
    SquareChange(V(a, x, 0), Differential(a, x, h, 0), Curvature(h, 0), V(a, y, 0));
    SquareChange(V(a, x, 1), Differential(a, x, h, 1), Curvature(h, 1), V(a, y, 1));
    SquareChange(V(a, x, 2), Differential(a, x, h, 2), Curvature(h, 2), V(a, y, 2));
  }

  // ------------------------------------------------------------------
  // Orthogonal invariance
  // ------------------------------------------------------------------

  /** y is x with its matrix M replaced by R.M. */
  ghost predicate Rotated(R: Mat, x: Params, y: Params) {
    && Shape(R, 3, 3)
    && y[..3] == x[..3]
    && forall k :: 0 <= k < 3 ==>
         && y[3 + 3 * k] == R[k][0] * x[3] + R[k][1] * x[6] + R[k][2] * x[9]
         && y[4 + 3 * k] == R[k][0] * x[4] + R[k][1] * x[7] + R[k][2] * x[10]
         && y[5 + 3 * k] == R[k][0] * x[5] + R[k][1] * x[8] + R[k][2] * x[11]
  }

  ghost predicate Orthogonal(R: Mat) {
    && Shape(R, 3, 3)
    && forall j, k :: 0 <= j < 3 && 0 <= k < 3 ==>
         R[0][j] * R[0][k] + R[1][j] * R[1][k] + R[2][j] * R[2][k] == if j == k then 1.0 else 0.0
  }

  lemma Distribute3(r0: real, r1: real, r2: real, m0: real, m1: real, m2: real, d: real)
    ensures (r0 * m0 + r1 * m1 + r2 * m2) * d == r0 * (m0 * d) + r1 * (m1 * d) + r2 * (m2 * d)
  {
  }

  lemma Collect3(r: real, a: real, b: real, c: real)
    ensures r * a + r * b + r * c == r * (a + b + c)
  {
  }

  lemma RotatedV(R: Mat, a: Sample, x: Params, y: Params, k: nat)
    requires Rotated(R, x, y) && k < 3
    ensures V(a, y, k) == R[k][0] * V(a, x, 0) + R[k][1] * V(a, x, 1) + R[k][2] * V(a, x, 2)
  {
    var d0, d1, d2 := a[0] - x[0], a[1] - x[1], a[2] - x[2];
    var r0, r1, r2 := R[k][0], R[k][1], R[k][2];
    assert y[0] == y[..3][0] && y[1] == y[..3][1] && y[2] == y[..3][2];
    assert x[0] == x[..3][0] && x[1] == x[..3][1] && x[2] == x[..3][2];
    Distribute3(r0, r1, r2, x[3], x[6], x[9], d0);
    Distribute3(r0, r1, r2, x[4], x[7], x[10], d1);
    Distribute3(r0, r1, r2, x[5], x[8], x[11], d2);
    Collect3(r0, x[3] * d0, x[4] * d1, x[5] * d2);
    Collect3(r1, x[6] * d0, x[7] * d1, x[8] * d2);
    Collect3(r2, x[9] * d0, x[10] * d1, x[11] * d2);
  }

  lemma SquareOf3(p: real, q: real, r: real, u: real, v: real, w: real, s: real)
    requires s == p * u + q * v + r * w
    ensures s * s ==
            Times(p * p, u * u) + Times(q * q, v * v) + Times(r * r, w * w)
            + Times(p * q, 2.0 * u * v) + Times(p * r, 2.0 * u * w) + Times(q * r, 2.0 * v * w)
  {
  }

  lemma Factor3(a: real, b: real, c: real, t: real, s: real)
    requires a + b + c == s
    ensures Times(a, t) + Times(b, t) + Times(c, t) == Times(s, t)
  {
    assert a * t + b * t + c * t == (a + b + c) * t;
  }

  lemma OrthonormalColumns(a: real, b: real, c: real, d: real, e: real, f: real, g: real, h: real, i: real,
                           u: real, v: real, w: real, p: real, q: real, r: real)
    requires a * a + d * d + g * g == 1.0 && b * b + e * e + h * h == 1.0 && c * c + f * f + i * i == 1.0
    requires a * b + d * e + g * h == 0.0 && a * c + d * f + g * i == 0.0 && b * c + e * f + h * i == 0.0
    requires p == a * u + b * v + c * w && q == d * u + e * v + f * w && r == g * u + h * v + i * w
    ensures p * p + q * q + r * r == u * u + v * v + w * w
  {
    SquareOf3(a, b, c, u, v, w, p);
    SquareOf3(d, e, f, u, v, w, q);
    SquareOf3(g, h, i, u, v, w, r);
    Factor3(a * a, d * d, g * g, u * u, 1.0);
    Factor3(b * b, e * e, h * h, v * v, 1.0);
    Factor3(c * c, f * f, i * i, w * w, 1.0);
    Factor3(a * b, d * e, g * h, 2.0 * u * v, 0.0);
    Factor3(a * c, d * f, g * i, 2.0 * u * w, 0.0);
    Factor3(b * c, e * f, h * i, 2.0 * v * w, 0.0);
  }

  lemma RotatedNorm(a: Sample, R: Mat, x: Params, y: Params)
    requires Orthogonal(R) && Rotated(R, x, y)
    ensures Norm2(a, y) == Norm2(a, x)
  {
    RotatedV(R, a, x, y, 0);
    RotatedV(R, a, x, y, 1);
    RotatedV(R, a, x, y, 2);
    OrthonormalColumns(R[0][0], R[0][1], R[0][2], R[1][0], R[1][1], R[1][2], R[2][0], R[2][1], R[2][2],
                       V(a, x, 0), V(a, x, 1), V(a, x, 2), V(a, y, 0), V(a, y, 1), V(a, y, 2));
  }

  /** The fit determines M only up to a rotation: replacing it by R.M for an orthogonal R changes no
      residual, hence no cost. */
  lemma RotationInvariance(sqrt: real -> real, samples: seq<Sample>, R: Mat, x: Params, y: Params)
    requires Orthogonal(R) && Rotated(R, x, y)
    ensures Residuals(sqrt, samples, y) == Residuals(sqrt, samples, x)
  {
    forall i | 0 <= i < |samples|
      ensures Norm2(samples[i], y) == Norm2(samples[i], x)
    {
      RotatedNorm(samples[i], R, x, y);
    }
  }

  // ------------------------------------------------------------------
  // Normal equations and the damped step
  // ------------------------------------------------------------------

  /** [f(0), ..., f(n-1)]. */
  function Tabulate(f: nat --> real, n: nat): (v: Vec)
    requires forall j: nat :: j < n ==> f.requires(j)
    ensures |v| == n
  {
    if n == 0 then [] else Tabulate(f, n - 1) + [f(n - 1)]
  }

  lemma {:induction false} TabulateAt(f: nat --> real, n: nat, j: nat)
    requires j < n && forall j: nat :: j < n ==> f.requires(j)
    ensures Tabulate(f, n)[j] == f(j)
  {
    if j < n - 1 {
      TabulateAt(f, n - 1, j);
    }
  }

  function Column(J: Mat, j: nat): (c: Vec)
    requires forall i :: 0 <= i < |J| ==> j < |J[i]|
    ensures |c| == |J|
  {
    Tabulate(i requires 0 <= i < |J| && j < |J[i]| => J[i][j], |J|)
  }

  lemma ColumnAt(J: Mat, j: nat, i: nat)
    requires i < |J| && forall i :: 0 <= i < |J| ==> j < |J[i]|
    ensures Column(J, j)[i] == J[i][j]
  {
    TabulateAt(i requires 0 <= i < |J| && j < |J[i]| => J[i][j], |J|, i);
  }

  /** J^T r, for p parameters. */
  function Gradient(J: Mat, r: Vec, p: nat): (g: Vec)
    requires |r| == |J| && Shape(J, |J|, p)
    ensures |g| == p
  {
    Tabulate(j requires 0 <= j < p => SumProd(Column(J, j), r, 0, |J|), p)
  }

  lemma GradientAt(J: Mat, r: Vec, p: nat, j: nat)
    requires |r| == |J| && Shape(J, |J|, p) && j < p
    ensures Gradient(J, r, p)[j] == SumProd(Column(J, j), r, 0, |J|)
  {
    TabulateAt(j requires 0 <= j < p => SumProd(Column(J, j), r, 0, |J|), p, j);
  }

  /** J^T J. */
  function Normal(J: Mat, p: nat): (A: Mat)
    requires Shape(J, |J|, p)
    ensures Shape(A, p, p)
  {
    seq(p, j requires 0 <= j < p => Gradient(J, Column(J, j), p))
  }

  function Negated(g: Vec): (n: Vec)
    ensures |n| == |g|
  {
    seq(|g|, j requires 0 <= j < |g| => -g[j])
  }

  function Scale(d: real): (s: real)
    ensures s > 0.0
  {
    if d > 0.0 then d else 1.0
  }

  /** What is added to the diagonal: factor a_jj, or factor where a_jj is not positive. */
  function Damping(A: Mat, factor: real): (t: Vec)
    requires Shape(A, |A|, |A|)
    ensures |t| == |A|
  {
    Tabulate(j requires 0 <= j < |A| && |A[j]| == |A| => factor * Scale(A[j][j]), |A|)
  }

  lemma DampingAt(A: Mat, factor: real, j: nat)
    requires Shape(A, |A|, |A|) && j < |A|
    ensures Damping(A, factor)[j] == factor * Scale(A[j][j])
    ensures factor > 0.0 ==> Damping(A, factor)[j] > 0.0
  {
    TabulateAt(j requires 0 <= j < |A| && |A[j]| == |A| => factor * Scale(A[j][j]), |A|, j);
    if factor > 0.0 {
      ProductPositive(factor, Scale(A[j][j]));
    }
  }

  function Damped(A: Mat, t: Vec): (D: Mat)
    requires Shape(A, |A|, |A|) && |t| == |A|
    ensures Shape(D, |A|, |A|)
  {
    seq(|A|, j requires 0 <= j < |A| => A[j][j := A[j][j] + t[j]])
  }

  // ------------------------------------------------------------------
  // The step solved for is a descent direction
  // ------------------------------------------------------------------

  function Hadamard(t: Vec, d: Vec): (p: Vec)
    requires |t| == |d|
    ensures |p| == |d|
  {
    Tabulate(j requires 0 <= j < |d| => t[j] * d[j], |d|)
  }

  lemma HadamardAt(t: Vec, d: Vec, j: nat)
    requires |t| == |d| && j < |d|
    ensures Hadamard(t, d)[j] == t[j] * d[j]
  {
    TabulateAt(j requires 0 <= j < |d| => t[j] * d[j], |d|, j);
  }

  lemma WeightedSquare(t: real, d: real, p: real)
    requires t > 0.0 && p == t * d
    ensures p * d >= 0.0 && (d != 0.0 ==> p * d > 0.0)
  {
    if d > 0.0 {
      ProductPositive(t, d);
      ProductPositive(p, d);
    } else if d < 0.0 {
      ProductPositive(t, -d);
      assert -p == t * (-d);
      ProductPositive(-p, -d);
      assert p * d == (-p) * (-d);
    }
  }

  /** sum_j t_j d_j^2 is positive unless d is 0. */
  lemma {:induction false} WeightPositive(t: Vec, d: Vec, m: nat)
    requires |t| == |d| && m <= |d| && forall j :: 0 <= j < m ==> t[j] > 0.0
    ensures SumProd(Hadamard(t, d), d, 0, m) >= 0.0
    ensures (exists j :: 0 <= j < m && d[j] != 0.0) ==> SumProd(Hadamard(t, d), d, 0, m) > 0.0
  {
    if m > 0 {
      WeightPositive(t, d, m - 1);
      HadamardAt(t, d, m - 1);
      WeightedSquare(t[m - 1], d[m - 1], Hadamard(t, d)[m - 1]);
    }
  }

  /** The products J_i . d, over the first m columns. */
  function Image(J: Mat, d: Vec, m: nat): (y: Vec)
    requires m <= |d| && Shape(J, |J|, |d|)
    ensures |y| == |J|
  {
    Tabulate(i requires 0 <= i < |J| => SumProd(J[i], d, 0, m), |J|)
  }

  lemma ImageAt(J: Mat, d: Vec, m: nat, i: nat)
    requires m <= |d| && Shape(J, |J|, |d|) && i < |J|
    ensures Image(J, d, m)[i] == SumProd(J[i], d, 0, m)
  {
    TabulateAt(i requires 0 <= i < |J| => SumProd(J[i], d, 0, m), |J|, i);
  }

  lemma {:induction false} SumProdComm(u: Vec, v: Vec, n: nat)
    requires n <= |u| && n <= |v|
    ensures SumProd(u, v, 0, n) == SumProd(v, u, 0, n)
  {
    if n > 0 {
      SumProdComm(u, v, n - 1);
    }
  }

  lemma {:induction false} SumProdNil(u: Vec, v: Vec, n: nat)
    requires n <= |u| && n <= |v| && forall j :: 0 <= j < n ==> v[j] == 0.0
    ensures SumProd(u, v, 0, n) == 0.0
  {
    if n > 0 {
      SumProdNil(u, v, n - 1);
    }
  }

  lemma ImageStep(J: Mat, d: Vec, m: nat, i: nat)
    requires 0 < m <= |d| && Shape(J, |J|, |d|) && i < |J|
    ensures Image(J, d, m)[i] == Image(J, d, m - 1)[i] - (-d[m - 1]) * Column(J, m - 1)[i]
  {
    ImageAt(J, d, m, i);
    ImageAt(J, d, m - 1, i);
    ColumnAt(J, m - 1, i);
  }

  /** (J^T w) . d == w . (J d). */
  lemma {:induction false} TransposeProduct(J: Mat, w: Vec, d: Vec, m: nat)
    requires |w| == |J| && m <= |d| && Shape(J, |J|, |d|)
    ensures SumProd(Gradient(J, w, |d|), d, 0, m) == SumProd(w, Image(J, d, m), 0, |J|)
  {
    var y := Image(J, d, m);
    if m == 0 {
      forall i | 0 <= i < |J| ensures y[i] == 0.0 {
        ImageAt(J, d, 0, i);
      }
      SumProdNil(w, y, |J|);
    } else {
      var y', c := Image(J, d, m - 1), Column(J, m - 1);
      TransposeProduct(J, w, d, m - 1);
      forall i | 0 <= i < |J|
        ensures y[i] == y'[i] - Times(-d[m - 1], c[i])
      {
        ImageStep(J, d, m, i);
      }
      GradientAt(J, w, |d|, m - 1);
      SumProdRowOp(y', c, y, -d[m - 1], w, 0, |J|);
      SumProdComm(y, w, |J|);
      SumProdComm(y', w, |J|);
    }
  }

  lemma {:induction false} BumpedRow(a: Vec, b: Vec, s: real, d: Vec, j: nat, m: nat)
    requires j < |a| && m <= |a| == |d| && b == a[j := a[j] + s]
    ensures SumProd(b, d, 0, m) == SumProd(a, d, 0, m) + if j < m then Times(s, d[j]) else 0.0
  {
    if m > 0 {
      BumpedRow(a, b, s, d, j, m - 1);
      if j == m - 1 {
        assert b[j] * d[j] == a[j] * d[j] + s * d[j];
      }
    }
  }

  lemma SolvedRow(A: Mat, b: Vec, y: Vec, j: nat)
    requires Solves(A, b, y) && j < |b|
    ensures SumProd(A[j], y, 0, |y|) == b[j]
  {
    assert Row(A, y, j) == b[j];
  }

  /** Row j of the damped system, read as an equation for the gradient. */
  lemma DampedRow(A: Mat, t: Vec, g: Vec, d: Vec, j: nat)
    requires |A| == |g| == |d| == |t| && j < |d| && Shape(A, |A|, |A|)
    requires Solves(Damped(A, t), Negated(g), d)
    ensures g[j] == -SumProd(A[j], d, 0, |d|) - Hadamard(t, d)[j]
  {
    hide SumProd, Hadamard, Damped, Negated, Solves, Times;
    DampedAt(A, t, j);
    NegatedAt(g, j);
    HadamardTimes(t, d, j);
    SolvedRow(Damped(A, t), Negated(g), d, j);
    DampedEquation(A[j], Damped(A, t)[j], t[j], d, j, g[j], Hadamard(t, d)[j]);
  }

  lemma DampedEquation(a: Vec, row: Vec, s: real, d: Vec, j: nat, g: real, h: real)
    requires j < |a| == |d| && row == a[j := a[j] + s]
    requires SumProd(row, d, 0, |d|) == -g && h == Times(s, d[j])
    ensures g == -SumProd(a, d, 0, |d|) - h
  {
    hide SumProd, Times;
    BumpedRow(a, row, s, d, j, |d|);
    Rearranged(SumProd(row, d, 0, |d|), SumProd(a, d, 0, |d|), h, g, h);
  }

  lemma HadamardTimes(t: Vec, d: Vec, j: nat)
    requires |t| == |d| && j < |d|
    ensures Hadamard(t, d)[j] == Times(t[j], d[j])
  {
    HadamardAt(t, d, j);
  }

  lemma Rearranged(x: real, y: real, p: real, g: real, h: real)
    requires x == -g && x == y + p && h == p
    ensures g == -y - h
  {
  }

  lemma DampedAt(A: Mat, t: Vec, j: nat)
    requires |t| == |A| && Shape(A, |A|, |A|) && j < |A|
    ensures Damped(A, t)[j] == A[j][j := A[j][j] + t[j]]
  {
  }

  lemma NegatedAt(g: Vec, j: nat)
    requires j < |g|
    ensures Negated(g)[j] == -g[j]
  {
  }

  lemma {:induction false} SumProdNegSum(r: Vec, u: Vec, w: Vec, v: Vec, m: nat)
    requires m <= |r| && m <= |u| && m <= |w| && m <= |v|
    requires forall j :: 0 <= j < m ==> r[j] == -u[j] - w[j]
    ensures SumProd(r, v, 0, m) == -SumProd(u, v, 0, m) - SumProd(w, v, 0, m)
  {
    if m > 0 {
      SumProdNegSum(r, u, w, v, m - 1);
      assert r[m - 1] * v[m - 1] == -(u[m - 1] * v[m - 1]) - w[m - 1] * v[m - 1];
    }
  }

  lemma NormalTimes(J: Mat, d: Vec, j: nat)
    requires Shape(J, |J|, |d|) && j < |d|
    ensures SumProd(Normal(J, |d|)[j], d, 0, |d|) == Gradient(J, Image(J, d, |d|), |d|)[j]
  {
    TransposeProduct(J, Column(J, j), d, |d|);
    GradientAt(J, Image(J, d, |d|), |d|, j);
  }

  lemma StepEquations(J: Mat, r: Vec, t: Vec, d: Vec)
    requires |r| == |J| && Shape(J, |J|, |d|) && |t| == |d|
    requires Solves(Damped(Normal(J, |d|), t), Negated(Gradient(J, r, |d|)), d)
    ensures var g, h := Gradient(J, r, |d|), Gradient(J, Image(J, d, |d|), |d|);
            forall j :: 0 <= j < |d| ==> g[j] == -h[j] - Hadamard(t, d)[j]
  {
    forall j | 0 <= j < |d|
      ensures Gradient(J, r, |d|)[j] == -Gradient(J, Image(J, d, |d|), |d|)[j] - Hadamard(t, d)[j]
    {
      DampedRow(Normal(J, |d|), t, Gradient(J, r, |d|), d, j);
      NormalTimes(J, d, j);
    }
  }

  /** The step d solved from (J^T J + diag t) d = -J^T r satisfies
      (J^T r).d == -(|J d|^2 + sum_j t_j d_j^2): it points downhill unless it is 0. */
  lemma StepDescends(J: Mat, r: Vec, t: Vec, d: Vec, y: Vec, td: Vec)
    requires |r| == |J| && Shape(J, |J|, |d|) && |t| == |d|
    requires y == Image(J, d, |d|) && td == Hadamard(t, d)
    requires Solves(Damped(Normal(J, |d|), t), Negated(Gradient(J, r, |d|)), d)
    ensures SumProd(r, y, 0, |J|) == -SumProd(y, y, 0, |J|) - SumProd(td, d, 0, |d|)
  {
    hide SumProd, Hadamard, Gradient, Image, Solves, Shape;
    StepEquations(J, r, t, d);
    TransposeProduct(J, r, d, |d|);
    TransposeProduct(J, y, d, |d|);
    SumProdNegSum(Gradient(J, r, |d|), Gradient(J, y, |d|), td, d, |d|);
  }

  lemma {:induction false} SquareSum(u: Vec, v: Vec, w: Vec, n: nat)
    requires n <= |u| && n <= |v| && n <= |w| && forall j :: 0 <= j < n ==> w[j] == u[j] + v[j]
    ensures SumProd(w, w, 0, n) == SumProd(u, u, 0, n) + 2.0 * SumProd(u, v, 0, n) + SumProd(v, v, 0, n)
  {
    if n > 0 {
      SquareSum(u, v, w, n - 1);
      Square2(u[n - 1], v[n - 1], w[n - 1]);
    }
  }

  lemma Square2(u: real, v: real, w: real)
    requires w == u + v
    ensures w * w == u * u + 2.0 * (u * v) + v * v
  {
  }

  lemma ShorterSum(r: Vec, y: Vec, l: Vec, n: nat, c: real)
    requires |r| == |y| == |l| == n && forall i :: 0 <= i < n ==> l[i] == r[i] + y[i]
    requires SumProd(r, y, 0, n) == -SumProd(y, y, 0, n) - c
    ensures SumProd(l, l, 0, n) == SumProd(r, r, 0, n) - SumProd(y, y, 0, n) - 2.0 * c
  {
    SquareSum(r, y, l, n);
  }

  lemma {:induction false} SquaresNonNegative(y: Vec, n: nat)
    requires n <= |y|
    ensures SumProd(y, y, 0, n) >= 0.0
  {
    if n > 0 {
      SquaresNonNegative(y, n - 1);
      SquareSign(y[n - 1], y[n - 1]);
    }
  }

  lemma SquareSign(x: real, y: real)
    requires x == y
    ensures x * y >= 0.0
  {
    if x >= 0.0 {
      ProductNonNegative(x, y);
    } else {
      ProductNonNegative(-x, -y);
      assert x * y == (-x) * (-y);
    }
  }

  lemma {:induction false} NoSquares(y: Vec, n: nat)
    requires n <= |y|
    ensures SumProd(y, y, 0, n) == 0.0 <==> forall i :: 0 <= i < n ==> y[i] == 0.0
  {
    if n > 0 {
      NoSquares(y, n - 1);
      SquaresNonNegative(y, n - 1);
      SquareSign(y[n - 1], y[n - 1]);
      SquareZero(y[n - 1], y[n - 1], y[n - 1] * y[n - 1]);
    }
  }

  lemma SquareZero(x: real, y: real, p: real)
    requires p == x * y && x == y
    ensures p == 0.0 <==> x == 0.0
  {
    if x > 0.0 {
      PositiveProduct(x, y, p);
    } else if x < 0.0 {
      PositiveProduct(-x, -y, p);
    }
  }

  lemma PositiveProduct(x: real, y: real, p: real)
    requires x > 0.0 && y > 0.0 && p == x * y
    ensures p > 0.0
  {
  }

  lemma NonNegativeProduct(x: real, y: real, p: real)
    requires x >= 0.0 && y >= 0.0 && p == x * y
    ensures p >= 0.0
  {
  }

  /** Two non-negative numbers with the same square are equal. */
  lemma SquareRootUnique(x: real, y: real, p: real)
    requires x >= 0.0 && y > 0.0 && p == x * x && p == y * y
    ensures x == y
  {
    if x < y {
      SquareLess(x, y, p, p);
    } else if y < x {
      SquareLess(y, x, p, p);
    }
  }

  lemma SquareLess(x: real, y: real, p: real, q: real)
    requires 0.0 <= x < y && p == x * x && q == y * y
    ensures p < q
  {
    var d := y - x;
    PositiveProduct(d, y, d * y);
    NonNegativeProduct(d, x, d * x);
    assert d * y == q - x * y;
    assert d * x == y * x - p;
    assert x * y == y * x;
  }

  lemma RootIsGravity(sqrt: real -> real, v: real)
    requires IsSqrt(sqrt) && v >= 0.0
    ensures sqrt(v) == GRAVITY <==> v == GRAVITY * GRAVITY
  {
    if v == GRAVITY * GRAVITY {
      SquareRootUnique(sqrt(v), GRAVITY, v);
    }
  }

  lemma Norm2NonNegative(a: Sample, x: Params)
    ensures Norm2(a, x) >= 0.0
  {
    SquareSign(V(a, x, 0), V(a, x, 0));
    SquareSign(V(a, x, 1), V(a, x, 1));
    SquareSign(V(a, x, 2), V(a, x, 2));
  }

  /** The cost is never negative, and it is 0 exactly when every corrected sample has the length of
      gravity. */
  lemma PerfectFit(sqrt: real -> real, samples: seq<Sample>, x: Params)
    requires IsSqrt(sqrt) && |samples| > 0
    ensures Cost(sqrt, samples, x) >= 0.0
    ensures Cost(sqrt, samples, x) == 0.0 <==>
            forall i :: 0 <= i < |samples| ==> Norm2(samples[i], x) == 9.80665 * 9.80665
  {
    hide IsSqrt, Norm2;
    var r, n := Residuals(sqrt, samples, x), |samples|;
    SquaresNonNegative(r, n);
    NoSquares(r, n);
    QuotientSign(SumProd(r, r, 0, n), n as real);
    forall i | 0 <= i < n ensures r[i] == 0.0 <==> Norm2(samples[i], x) == GRAVITY * GRAVITY {
      Norm2NonNegative(samples[i], x);
      RootIsGravity(sqrt, Norm2(samples[i], x));
    }
  }

  lemma QuotientSign(s: real, n: real)
    requires s >= 0.0 && n > 0.0
    ensures s / n >= 0.0 && (s / n == 0.0 <==> s == 0.0)
  {
    assert s / n * n == s;
  }

  /** The linearised residual l = r + J d is shorter than r by |J d|^2 + 2 sum_j t_j d_j^2: for a
      positive damping every nonzero step lowers the linearised cost. */
  lemma LinearisedCostFalls(J: Mat, r: Vec, t: Vec, d: Vec, y: Vec, td: Vec, l: Vec)
    requires |r| == |J| == |l| && Shape(J, |J|, |d|) && |t| == |d|
    requires y == Image(J, d, |d|) && td == Hadamard(t, d) && forall j :: 0 <= j < |t| ==> t[j] > 0.0
    requires Solves(Damped(Normal(J, |d|), t), Negated(Gradient(J, r, |d|)), d)
    requires forall i :: 0 <= i < |J| ==> l[i] == r[i] + y[i]
    ensures SumProd(l, l, 0, |J|) ==
            SumProd(r, r, 0, |J|) - SumProd(y, y, 0, |J|) - 2.0 * SumProd(td, d, 0, |d|)
    ensures (exists j :: 0 <= j < |d| && d[j] != 0.0) ==> SumProd(l, l, 0, |J|) < SumProd(r, r, 0, |J|)
  {
    StepDescends(J, r, t, d, y, td);
    ShorterSum(r, y, l, |J|, SumProd(td, d, 0, |d|));
    WeightPositive(t, d, |d|);
    SquaresNonNegative(y, |J|);
  }

  // ------------------------------------------------------------------
  // The fit as a run
  // ------------------------------------------------------------------

  datatype Problem = Problem(sqrt: real -> real, samples: seq<Sample>) {
    ghost predicate Valid() { |samples| > 0 }

    function CostAt(x: Params): real
      requires Valid()
    {
      Cost(sqrt, samples, x)
    }

    function J(x: Params): Mat { Jacobian(sqrt, samples, x) }

    function R(x: Params): (r: Vec)
      ensures |r| == |samples|
    {
      Residuals(sqrt, samples, x)
    }
  }

  // ------------------------------------------------------------------
  // The fit in terms of its result
  // ------------------------------------------------------------------

  /** The fit's result: bias and matrix read off the parameters. */
  ghost predicate Result(x: Params, bias: Vec, m: Mat) {
    && bias == x[..3]
    && Shape(m, 3, 3)
    && forall k, j :: 0 <= k < 3 && 0 <= j < 3 ==> m[k][j] == x[3 + 3 * k + j]
  }

  function Square(v: real): real { v * v }

  /** A row of M times a - b. */
  function Component(a: Sample, bias: Vec, row: Vec): real
    requires |bias| == |row| == 3
  {
    row[0] * (a[0] - bias[0]) + row[1] * (a[1] - bias[1]) + row[2] * (a[2] - bias[2])
  }

  /** The squares of |M(a - b)| - g, summed over the first n samples. */
  function SquaredErrors(sqrt: real -> real, samples: seq<Sample>, bias: Vec, m: Mat, n: nat): real
    requires |bias| == 3 && Shape(m, 3, 3) && n <= |samples|
  {
    if n == 0 then 0.0
    else
      var a := samples[n - 1];
      var length := sqrt(Square(Component(a, bias, m[0])) + Square(Component(a, bias, m[1]))
                         + Square(Component(a, bias, m[2])));
      SquaredErrors(sqrt, samples, bias, m, n - 1) + Square(length - 9.80665)
  }

  lemma ResidualWrittenOut(sqrt: real -> real, a: Sample, x: Params, bias: Vec, m: Mat)
    requires Result(x, bias, m)
    ensures Residual(sqrt, a, x) ==
            sqrt(Square(Component(a, bias, m[0])) + Square(Component(a, bias, m[1])) + Square(Component(a, bias, m[2])))
            - 9.80665
  {
    forall k | 0 <= k < 3 ensures V(a, x, k) == Component(a, bias, m[k]) {
      assert m[k][0] == x[3 + 3 * k + 0] && m[k][1] == x[3 + 3 * k + 1] && m[k][2] == x[3 + 3 * k + 2];
    }
    hide V, Component;
  }

  lemma {:induction false} ErrorsSummed(sqrt: real -> real, samples: seq<Sample>, x: Params, bias: Vec, m: Mat, n: nat)
    requires Result(x, bias, m) && n <= |samples|
    ensures SumProd(Residuals(sqrt, samples, x), Residuals(sqrt, samples, x), 0, n) ==
            SquaredErrors(sqrt, samples, bias, m, n)
  {
    hide Result, Residual, Component;
    if n > 0 {
      ErrorsSummed(sqrt, samples, x, bias, m, n - 1);
      ResidualWrittenOut(sqrt, samples[n - 1], x, bias, m);
    }
  }

  /** The cost is the mean of the squared errors of bias and matrix. */
  lemma CostWrittenOut(P: Problem, x: Params, bias: Vec, m: Mat)
    requires P.Valid() && Result(x, bias, m)
    ensures Times(P.CostAt(x), |P.samples| as real) == SquaredErrors(P.sqrt, P.samples, bias, m, |P.samples|)
  {
    hide Result, Residuals, SumProd;
    ErrorsSummed(P.sqrt, P.samples, x, bias, m, |P.samples|);
    QuotientTimes(SumProd(P.R(x), P.R(x), 0, |P.samples|), |P.samples| as real);
  }

  function Coordinate(samples: seq<Sample>, j: nat): (c: Vec)
    requires j < 3
    ensures |c| == |samples|
  {
    Tabulate(i requires 0 <= i < |samples| => samples[i][j], |samples|)
  }

  lemma CoordinateAt(samples: seq<Sample>, j: nat, i: nat)
    requires j < 3 && i < |samples|
    ensures Coordinate(samples, j)[i] == samples[i][j]
  {
    TabulateAt(i requires 0 <= i < |samples| => samples[i][j], |samples|, i);
  }

  function Sum(v: Vec, n: nat): real
    requires n <= |v|
  {
    if n == 0 then 0.0 else Sum(v, n - 1) + v[n - 1]
  }

  function Mean(samples: seq<Sample>, j: nat): real
    requires j < 3 && |samples| > 0
  {
    Sum(Coordinate(samples, j), |samples|) / (|samples| as real)
  }

  /** The start point: the mean of the samples and the identity. */
  function Start(samples: seq<Sample>): Params
    requires |samples| > 0
  {
    [Mean(samples, 0), Mean(samples, 1), Mean(samples, 2),
     1.0, 0.0, 0.0, 0.0, 1.0, 0.0, 0.0, 0.0, 1.0]
  }

  /** The sum of the first n deviations from c on axis j. */
  function Deviations(samples: seq<Sample>, c: real, j: nat, n: nat): real
    requires j < 3 && n <= |samples|
  {
    if n == 0 then 0.0 else Deviations(samples, c, j, n - 1) + (samples[n - 1][j] - c)
  }

  lemma {:induction false} DeviationsAre(samples: seq<Sample>, c: real, j: nat, n: nat)
    requires j < 3 && n <= |samples|
    ensures Deviations(samples, c, j, n) == Sum(Coordinate(samples, j), n) - Times(c, n as real)
  {
    if n > 0 {
      DeviationsAre(samples, c, j, n - 1);
      CoordinateAt(samples, j, n - 1);
      assert Times(c, n as real) == Times(c, (n - 1) as real) + c;
    }
  }

  /** The start point is where the deviations cancel on every axis, with the identity. */
  lemma StartCentred(samples: seq<Sample>, j: nat)
    requires |samples| > 0 && j < 3
    ensures Deviations(samples, Start(samples)[j], j, |samples|) == 0.0
    ensures Start(samples)[3..] == [1.0, 0.0, 0.0, 0.0, 1.0, 0.0, 0.0, 0.0, 1.0]
  {
    var n := |samples| as real;
    DeviationsAre(samples, Mean(samples, j), j, |samples|);
    QuotientTimes(Sum(Coordinate(samples, j), |samples|), n);
  }

  lemma LambdaIs(k: nat)
    ensures Lambda(k) * 1000.0 == Power10(k) as real
  {
  }

  /** Lambda at the k-th try; it starts afresh for every outer iteration. */
  function Lambda(k: nat): (l: real)
    ensures l > 0.0
  {
    if k == 0 then 0.001 else Lambda(k - 1) * 10.0
  }

  /** d is the step for factor: gauss_solve succeeds on the damped normal equations and gives d. */
  ghost predicate IsStep(P: Problem, x: Params, factor: real, d: Vec) {
    var D, b := StepMatrix(P, x, factor), StepVector(P, x);
    Triangulate(Augment(D, b), 0, |b| + 1).Some? && Solves(D, b, d)
  }

  /** J^T J + factor D at x. */
  function StepMatrix(P: Problem, x: Params, factor: real): (D: Mat)
    ensures Shape(D, |x|, |x|)
  {
    var A := Normal(P.J(x), |x|);
    Damped(A, Damping(A, factor))
  }

  /** The first n products of two columns. */
  function Products(J: Mat, j: nat, k: nat, n: nat): real
    requires n <= |J| && forall i :: 0 <= i < |J| ==> j < |J[i]| && k < |J[i]|
  {
    if n == 0 then 0.0 else Products(J, j, k, n - 1) + J[n - 1][j] * J[n - 1][k]
  }

  /** The first n products of a column with r. */
  function Projections(J: Mat, r: Vec, j: nat, n: nat): real
    requires n <= |J| == |r| && forall i :: 0 <= i < |J| ==> j < |J[i]|
  {
    if n == 0 then 0.0 else Projections(J, r, j, n - 1) + J[n - 1][j] * r[n - 1]
  }

  lemma {:induction false} ProductsSummed(J: Mat, j: nat, k: nat, n: nat)
    requires n <= |J| && forall i :: 0 <= i < |J| ==> j < |J[i]| && k < |J[i]|
    ensures SumProd(Column(J, j), Column(J, k), 0, n) == Products(J, j, k, n)
  {
    if n > 0 {
      ProductsSummed(J, j, k, n - 1);
      ColumnAt(J, j, n - 1);
      ColumnAt(J, k, n - 1);
    }
  }

  lemma {:induction false} ProjectionsSummed(J: Mat, r: Vec, j: nat, n: nat)
    requires n <= |J| == |r| && forall i :: 0 <= i < |J| ==> j < |J[i]|
    ensures SumProd(Column(J, j), r, 0, n) == Projections(J, r, j, n)
  {
    if n > 0 {
      ProjectionsSummed(J, r, j, n - 1);
      ColumnAt(J, j, n - 1);
    }
  }

  lemma NormalWrittenOut(J: Mat, p: nat, j: nat, k: nat)
    requires Shape(J, |J|, p) && j < p && k < p
    ensures Normal(J, p)[j][k] == Products(J, k, j, |J|)
  {
    GradientAt(J, Column(J, j), p, k);
    ProductsSummed(J, k, j, |J|);
  }

  lemma DampedEntry(A: Mat, factor: real, j: nat, k: nat)
    requires Shape(A, |A|, |A|) && j < |A| && k < |A|
    ensures Damped(A, Damping(A, factor))[j][k] ==
            A[j][k] + if j == k then Times(factor, if A[j][j] > 0.0 then A[j][j] else 1.0) else 0.0
  {
    DampingAt(A, factor, j);
    DampedAt(A, Damping(A, factor), j);
    hide Damped, Damping;
  }

  /** The equations that a try solves, entry by entry: the products of the Jacobian's columns, the diagonal
      raised by factor times itself, or by factor where it is not positive, and minus the gradient. */
  lemma StepWrittenOut(P: Problem, x: Params, factor: real, j: nat, k: nat)
    requires j < |x| && k < |x|
    ensures var J, n := P.J(x), |P.samples|;
            var d := Products(J, j, j, n);
            && StepMatrix(P, x, factor)[j][k] ==
               Products(J, k, j, n) + (if j == k then Times(factor, if d > 0.0 then d else 1.0) else 0.0)
            && StepVector(P, x)[j] == -Projections(J, P.R(x), j, n)
  {
    hide Jacobian, Residuals, Products, Projections, SumProd, Column, Gradient, Normal, Damped, Damping, Times;
    var J := P.J(x);
    NormalWrittenOut(J, |x|, j, k);
    NormalWrittenOut(J, |x|, j, j);
    DampedEntry(Normal(J, |x|), factor, j, k);
    GradientAt(J, P.R(x), |x|, j);
    ProjectionsSummed(J, P.R(x), j, |J|);
    NegatedAt(Gradient(J, P.R(x), |x|), j);
  }

  /** A try is accepted exactly when x plus a solution of those equations, which elimination must find, has
      a lower cost, and rejected exactly when there is no such place. */
  lemma AcceptedStep(P: Problem, x: Params, factor: real, y: Params)
    requires P.Valid()
    ensures Accepts(P, x, factor, y) <==>
            && P.CostAt(y) < P.CostAt(x)
            && Triangulate(Augment(StepMatrix(P, x, factor), StepVector(P, x)), 0, |x| + 1).Some?
            && exists d: Vec :: |d| == |x| && Solves(StepMatrix(P, x, factor), StepVector(P, x), d) &&
                                forall j :: 0 <= j < |x| ==> y[j] == x[j] + d[j]
    ensures Rejects(P, x, factor) <==> forall z: Params :: !Accepts(P, x, factor, z)
  {
    hide Cost, StepMatrix, StepVector, Solves, Triangulate;
    if d :| |d| == |x| && Solves(StepMatrix(P, x, factor), StepVector(P, x), d)
            && forall j :: 0 <= j < |x| ==> y[j] == x[j] + d[j]
    {
      assert Moved(x, d, y);
    }
    if Accepts(P, x, factor, y) {
      var d :| IsStep(P, x, factor, d) && Moved(x, d, y);
      assert |d| == |x|;
    }
    if !Rejects(P, x, factor) {
      var e, z: Params :| IsStep(P, x, factor, e) && Moved(x, e, z) && P.CostAt(z) < P.CostAt(x);
      assert Accepts(P, x, factor, z);
    }
    hide IsStep, Moved;
  }

  /** Where the length is below 1e-9 the Jacobian's row is zero. */
  lemma GuardedRow(sqrt: real -> real, a: Sample, x: Params, j: nat)
    requires sqrt(Norm2(a, x)) < 0.000000001 && j < 12
    ensures JacobianRow(sqrt, a, x)[j] == 0.0
  {
  }

  /** -J^T r at x. */
  function StepVector(P: Problem, x: Params): (b: Vec)
    ensures |b| == |x|
  {
    Negated(Gradient(P.J(x), P.R(x), |x|))
  }

  ghost predicate Moved(x: Params, d: Vec, y: Params) {
    |d| == |x| && forall j :: 0 <= j < |x| ==> y[j] == x[j] + d[j]
  }

  /** The try with factor leads from x to y, which costs less. */
  ghost predicate Accepts(P: Problem, x: Params, factor: real, y: Params)
    requires P.Valid()
  {
    P.CostAt(y) < P.CostAt(x) && exists d :: IsStep(P, x, factor, d) && Moved(x, d, y)
  }

  ghost predicate Rejects(P: Problem, x: Params, factor: real)
    requires P.Valid()
  {
    forall d, y: Params :: IsStep(P, x, factor, d) && Moved(x, d, y) ==> P.CostAt(y) >= P.CostAt(x)
  }

  /** y is what the inner loop finds from x: the first of its ten tries that lowers the cost. */
  ghost predicate Improves(P: Problem, x: Params, y: Params)
    requires P.Valid()
  {
    exists k: nat :: k < 10 && Accepts(P, x, Lambda(k), y) && forall s: nat :: s < k ==> Rejects(P, x, Lambda(s))
  }

  ghost predicate Stuck(P: Problem, x: Params)
    requires P.Valid()
  {
    forall s: nat :: s < 10 ==> Rejects(P, x, Lambda(s))
  }

  ghost predicate Flat(P: Problem, x: Params, y: Params)
    requires P.Valid()
  {
    -0.0000000001 < P.CostAt(x) - P.CostAt(y) < 0.0000000001
  }

  /** xs lists the successive estimates; only the last two may be nearly equally good. */
  ghost predicate Descent(P: Problem, xs: seq<Params>)
    requires P.Valid()
  {
    && 0 < |xs| <= 101
    && xs[0] == Start(P.samples)
    && (forall i :: 0 <= i < |xs| - 1 ==> Improves(P, xs[i], xs[i + 1]))
    && (forall i :: 0 <= i < |xs| - 2 ==> !Flat(P, xs[i], xs[i + 1]))
  }

  ghost predicate Finished(P: Problem, xs: seq<Params>)
    requires P.Valid() && |xs| > 0
  {
    || |xs| == 101
    || Stuck(P, xs[|xs| - 1])
    || (|xs| > 1 && Flat(P, xs[|xs| - 2], xs[|xs| - 1]))
  }

  /** Cost falls strictly along every run, so the fit is never worse than its start point. */
  lemma {:induction false} DescentLowersCost(P: Problem, xs: seq<Params>, i: nat, j: nat)
    requires P.Valid() && Descent(P, xs) && i < j < |xs|
    ensures P.CostAt(xs[j]) < P.CostAt(xs[i])
    decreases j - i
  {
    assert Improves(P, xs[j - 1], xs[j]);
    if i < j - 1 {
      DescentLowersCost(P, xs, i, j - 1);
    }
  }

  /** Every nonzero step the fit tries lowers the linearised cost, whatever factor it used. */
  lemma StepLowersLinearModel(P: Problem, x: Params, factor: real, d: Vec, y: Vec, l: Vec)
    requires |d| == |x| && IsStep(P, x, factor, d) && factor > 0.0
    requires |y| == |l| == |P.samples| && y == Image(P.J(x), d, |d|)
    requires forall i :: 0 <= i < |l| ==> l[i] == P.R(x)[i] + y[i]
    ensures (exists j :: 0 <= j < |d| && d[j] != 0.0) ==>
              SumProd(l, l, 0, |l|) < SumProd(P.R(x), P.R(x), 0, |l|)
  {
    hide SumProd, Hadamard, Gradient, Image, Solves, Normal, Damped, Damping, Negated;
    var A := Normal(P.J(x), |x|);
    var t := Damping(A, factor);
    forall j | 0 <= j < |t| ensures t[j] > 0.0 {
      DampingAt(A, factor, j);
    }
    LinearisedCostFalls(P.J(x), P.R(x), t, d, y, Hadamard(t, d), l);
  }

  // ------------------------------------------------------------------
  // The algorithm
  // ------------------------------------------------------------------

  function PartialV(a: Sample, x: Params, k: nat, j: nat): real
    requires k < 3 && j <= 3
  {
    if j == 0 then 0.0 else PartialV(a, x, k, j - 1) + x[3 + 3 * k + (j - 1)] * (a[j - 1] - x[j - 1])
  }

  lemma PartialVIsV(a: Sample, x: Params, k: nat)
    requires k < 3
    ensures PartialV(a, x, k, 3) == V(a, x, k)
  {
    assert PartialV(a, x, k, 1) == x[3 + 3 * k] * (a[0] - x[0]);
    assert PartialV(a, x, k, 2) == PartialV(a, x, k, 1) + x[4 + 3 * k] * (a[1] - x[1]);
  }

  /** d = a - b and v = M d. */
  method CalcV(a: Sample, x: array<real>, d: array<real>, v: array<real>)
    requires x.Length == PARAMS && d.Length == 3 && v.Length == 3 && d != v && d != x && v != x
    modifies d, v
    ensures forall j :: 0 <= j < 3 ==> d[j] == a[j] - x[j]
    ensures forall k :: 0 <= k < 3 ==> v[k] == V(a, x[..], k)
  {
    ghost var xs: Params := x[..];
    for j := 0 to 3
      invariant x[..] == xs
      invariant forall c :: 0 <= c < j ==> d[c] == a[c] - x[c]
    {
      d[j] := a[j] - x[j];
    }
    for k := 0 to 3
      invariant x[..] == xs
      invariant forall c :: 0 <= c < 3 ==> d[c] == a[c] - xs[c]
      invariant forall c :: 0 <= c < k ==> v[c] == V(a, xs, c)
    {
      CalcRow(a, x, d, v, k);
    }
  }

  method CalcRow(a: Sample, x: array<real>, d: array<real>, v: array<real>, k: nat)
    requires x.Length == PARAMS && d.Length == 3 && v.Length == 3 && d != v && v != x && k < 3
    requires forall j :: 0 <= j < 3 ==> d[j] == a[j] - x[j]
    modifies v
    ensures v[k] == V(a, x[..], k)
    ensures forall c :: 0 <= c < 3 && c != k ==> v[c] == old(v[c])
  {
    v[k] := 0.0;
    for j := 0 to 3
      invariant v[k] == PartialV(a, x[..], k, j)
      invariant forall c :: 0 <= c < 3 && c != k ==> v[c] == old(v[c])
    {
      v[k] := v[k] + x[3 + 3 * k + j] * d[j];
    }
    PartialVIsV(a, x[..], k);
  }

  /** The norm of M(a - b), with a - b and M(a - b) left in d and v. */
  method CalcNorm(P: Problem, a: Sample, x: array<real>, d: array<real>, v: array<real>) returns (nrm: real)
    requires x.Length == PARAMS && d.Length == 3 && v.Length == 3 && d != v && d != x && v != x
    modifies d, v
    ensures forall j :: 0 <= j < 3 ==> d[j] == a[j] - x[j]
    ensures forall k :: 0 <= k < 3 ==> v[k] == V(a, x[..], k)
    ensures nrm == P.sqrt(Norm2(a, x[..]))
  {
    CalcV(a, x, d, v);
    nrm := P.sqrt(v[0] * v[0] + v[1] * v[1] + v[2] * v[2]);
    assert v[0] * v[0] + v[1] * v[1] + v[2] * v[2] == Dot3(v[0], v[1], v[2], v[0], v[1], v[2]);
  }

  method LmResiduals(P: Problem, x: array<real>, r: array<real>)
    requires x.Length == PARAMS && r.Length == |P.samples| && x != r
    modifies r
    ensures r[..] == P.R(x[..])
  {
    ghost var xs: Params := x[..];
    var d, v := new real[3], new real[3];
    for i := 0 to r.Length
      invariant x[..] == xs
      invariant forall c :: 0 <= c < i ==> r[c] == P.R(xs)[c]
    {
      var nrm := CalcNorm(P, P.samples[i], x, d, v);
      r[i] := nrm - GRAVITY;
    }
  }

  /** v . column j of M. */
  method ColumnDot(x: array<real>, v: array<real>, j: nat) returns (dot: real)
    requires x.Length == PARAMS && v.Length == 3 && j < 3
    ensures dot == Dot3(v[0], v[1], v[2], x[3 + j], x[6 + j], x[9 + j])
  {
    dot := 0.0;
    for k := 0 to 3
      invariant k == 0 ==> dot == 0.0
      invariant k == 1 ==> dot == v[0] * x[3 + j]
      invariant k == 2 ==> dot == v[0] * x[3 + j] + v[1] * x[6 + j]
      invariant k == 3 ==> dot == Dot3(v[0], v[1], v[2], x[3 + j], x[6 + j], x[9 + j])
    {
      dot := dot + v[k] * x[3 + 3 * k + j];
    }
  }

  /** Row i of J, given the norm, a - b and M(a - b); the other rows keep their entries. */
  method BiasColumns(a: Sample, nrm: real, x: array<real>, v: array<real>, J: array2<real>, i: nat)
    requires x.Length == PARAMS && v.Length == 3 && J.Length1 == PARAMS && i < J.Length0 && nrm != 0.0
    requires forall k :: 0 <= k < 3 ==> v[k] == V(a, x[..], k)
    modifies J
    ensures forall c :: 0 <= c < 3 ==> J[i, c] == BiasEntry(nrm, a, x[..], c)
    ensures forall k, c :: 0 <= k < J.Length0 && 0 <= c < PARAMS && (k != i || c >= 3) ==> J[k, c] == old(J[k, c])
  {
    ghost var xs: Params := x[..];
    for j := 0 to 3
      invariant forall c :: 0 <= c < j ==> J[i, c] == BiasEntry(nrm, a, xs, c)
      invariant forall k, c :: 0 <= k < J.Length0 && 0 <= c < PARAMS && (k != i || c >= j) ==> J[k, c] == old(J[k, c])
    {
      J[i, j] := BiasValue(a, nrm, x, v, j);
    }
    hide BiasEntry;
  }

  method BiasValue(ghost a: Sample, nrm: real, x: array<real>, v: array<real>, j: nat) returns (e: real)
    requires x.Length == PARAMS && v.Length == 3 && nrm != 0.0 && j < 3
    requires forall k :: 0 <= k < 3 ==> v[k] == V(a, x[..], k)
    ensures e == BiasEntry(nrm, a, x[..], j)
  {
    var dot := ColumnDot(x, v, j);
    e := -dot / nrm;
    hide V, Dot3;
  }

  method MatrixColumns(a: Sample, nrm: real, x: array<real>, d: array<real>, v: array<real>, J: array2<real>, i: nat,
                       k: nat)
    requires x.Length == PARAMS && d.Length == v.Length == 3 && J.Length1 == PARAMS && i < J.Length0
    requires nrm != 0.0 && k < 3
    requires forall j :: 0 <= j < 3 ==> d[j] == a[j] - x[j]
    requires forall k :: 0 <= k < 3 ==> v[k] == V(a, x[..], k)
    modifies J
    ensures forall c :: 0 <= c < 3 ==> J[i, 3 + 3 * k + c] == MatrixEntry(nrm, a, x[..], k, c)
    ensures forall m, c :: 0 <= m < J.Length0 && 0 <= c < PARAMS && (m != i || c < 3 + 3 * k || c >= 6 + 3 * k) ==>
              J[m, c] == old(J[m, c])
  {
    ghost var xs: Params := x[..];
    for j := 0 to 3
      invariant forall c :: 0 <= c < j ==> J[i, 3 + 3 * k + c] == MatrixEntry(nrm, a, xs, k, c)
      invariant forall m, c ::
                  0 <= m < J.Length0 && 0 <= c < PARAMS && (m != i || c < 3 + 3 * k || c >= 3 + 3 * k + j) ==>
                  J[m, c] == old(J[m, c])
    {
      J[i, 3 + 3 * k + j] := d[j] * v[k] / nrm;
      assert J[i, 3 + 3 * k + j] == MatrixEntry(nrm, a, xs, k, j);
    }
  }

  method JacobianOne(P: Problem, i: nat, x: array<real>, J: array2<real>)
    requires x.Length == PARAMS && J.Length0 == |P.samples| && J.Length1 == PARAMS && i < |P.samples|
    modifies J
    ensures forall c :: 0 <= c < PARAMS ==> J[i, c] == JacobianRow(P.sqrt, P.samples[i], x[..])[c]
    ensures forall k, c :: 0 <= k < J.Length0 && 0 <= c < PARAMS && k != i ==> J[k, c] == old(J[k, c])
  {
    var a := P.samples[i];
    var d, v := new real[3], new real[3];
    var nrm := CalcNorm(P, a, x, d, v);
    if nrm < NORM_GUARD {
      for j := 0 to PARAMS
        invariant forall c :: 0 <= c < j ==> J[i, c] == 0.0
        invariant forall k, c :: 0 <= k < J.Length0 && 0 <= c < PARAMS && k != i ==> J[k, c] == old(J[k, c])
      {
        J[i, j] := 0.0;
      }
      return;
    }
    ghost var xs: Params := x[..];
    BiasColumns(a, nrm, x, v, J, i);
    MatrixColumns(a, nrm, x, d, v, J, i, 0);
    MatrixColumns(a, nrm, x, d, v, J, i, 1);
    MatrixColumns(a, nrm, x, d, v, J, i, 2);
    assert J[i, 3] == J[i, 3 + 3 * 0 + 0] && J[i, 4] == J[i, 3 + 3 * 0 + 1] && J[i, 5] == J[i, 3 + 3 * 0 + 2];
    assert J[i, 6] == J[i, 3 + 3 * 1 + 0] && J[i, 7] == J[i, 3 + 3 * 1 + 1] && J[i, 8] == J[i, 3 + 3 * 1 + 2];
    assert J[i, 9] == J[i, 3 + 3 * 2 + 0] && J[i, 10] == J[i, 3 + 3 * 2 + 1] && J[i, 11] == J[i, 3 + 3 * 2 + 2];
  }

  method LmJacobian(P: Problem, x: array<real>, J: array2<real>)
    requires x.Length == PARAMS && J.Length0 == |P.samples| && J.Length1 == PARAMS
    modifies J
    ensures Rows(J) == P.J(x[..])
  {
    ghost var want := P.J(x[..]);
    for i := 0 to J.Length0
      invariant forall k, c :: 0 <= k < i && 0 <= c < PARAMS ==> J[k, c] == want[k][c]
    {
      JacobianOne(P, i, x, J);
    }
    forall k | 0 <= k < J.Length0 ensures Rows(J)[k] == want[k] {
    }
  }

  method MeanCost(r: array<real>) returns (c: real)
    requires r.Length > 0
    ensures c == MeanSquare(r[..])
  {
    var s := 0.0;
    for i := 0 to r.Length
      invariant s == SumProd(r[..], r[..], 0, i)
    {
      s := s + r[i] * r[i];
    }
    c := s / (r.Length as real);
  }

  /** One entry of J^T r (or, for r a column of J, of J^T J). */
  method GradientEntry(J: array2<real>, r: array<real>, j: nat) returns (s: real)
    requires r.Length == J.Length0 && j < J.Length1
    ensures s == SumProd(Column(Rows(J), j), r[..], 0, J.Length0)
  {
    s := 0.0;
    for i := 0 to J.Length0
      invariant s == SumProd(Column(Rows(J), j), r[..], 0, i)
    {
      ColumnAt(Rows(J), j, i);
      s := s + J[i, j] * r[i];
    }
  }

  method NormalEntry(J: array2<real>, j: nat, k: nat) returns (s: real)
    requires j < J.Length1 && k < J.Length1
    ensures s == SumProd(Column(Rows(J), k), Column(Rows(J), j), 0, J.Length0)
  {
    s := 0.0;
    for i := 0 to J.Length0
      invariant s == SumProd(Column(Rows(J), k), Column(Rows(J), j), 0, i)
    {
      ColumnAt(Rows(J), j, i);
      ColumnAt(Rows(J), k, i);
      s := s + J[i, j] * J[i, k];
    }
  }

  /** A = J^T J and g = J^T r. */
  method NormalEquations(J: array2<real>, r: array<real>, A: array2<real>, g: array<real>)
    requires r.Length == J.Length0 && A.Length0 == A.Length1 == g.Length == J.Length1
    requires A != J && g != r
    modifies A, g
    ensures Rows(A) == Normal(Rows(J), J.Length1)
    ensures g[..] == Gradient(Rows(J), r[..], J.Length1)
  {
    ghost var p, JJ, rr := J.Length1, Rows(J), r[..];
    for j := 0 to g.Length
      invariant Rows(J) == JJ && r[..] == rr
      invariant forall c :: 0 <= c < j ==> g[c] == Gradient(JJ, rr, p)[c]
      invariant forall c, k :: 0 <= c < j && 0 <= k < p ==> A[c, k] == Normal(JJ, p)[c][k]
    {
      g[j] := GradientEntry(J, r, j);
      GradientAt(JJ, rr, p, j);
      for k := 0 to g.Length
        invariant Rows(J) == JJ && r[..] == rr
        invariant forall c :: 0 <= c <= j ==> g[c] == Gradient(JJ, rr, p)[c]
        invariant forall c, m :: 0 <= c < p && 0 <= m < p && (c < j || (c == j && m < k)) ==>
                    A[c, m] == Normal(JJ, p)[c][m]
      {
        A[j, k] := NormalEntry(J, j, k);
        GradientAt(JJ, Column(JJ, j), p, k);
      }
    }
    forall c | 0 <= c < p ensures Rows(A)[c] == Normal(JJ, p)[c] {
    }
  }

  method Damp(A: array2<real>, factor: real, Ap: array2<real>)
    requires A.Length0 == A.Length1 == Ap.Length0 == Ap.Length1 && A != Ap
    modifies Ap
    ensures Rows(Ap) == Damped(Rows(A), Damping(Rows(A), factor))
  {
    CopyMatrix(A, Ap);
    ghost var AA := Rows(A);
    var n := A.Length0;
    for j := 0 to n
      invariant Rows(A) == AA
      invariant forall c, k :: 0 <= c < n && 0 <= k < n && (c != k || c >= j) ==> Ap[c, k] == AA[c][k]
      invariant forall c :: 0 <= c < j ==> Ap[c, c] == AA[c][c] + Damping(AA, factor)[c]
    {
      DampingAt(AA, factor, j);
      Ap[j, j] := Ap[j, j] + factor * (if A[j, j] > 0.0 then A[j, j] else 1.0);
    }
    forall c | 0 <= c < n ensures Rows(Ap)[c] == Damped(AA, Damping(AA, factor))[c] {
    }
  }

  method CopyMatrix(A: array2<real>, Ap: array2<real>)
    requires A.Length0 == A.Length1 == Ap.Length0 == Ap.Length1 && A != Ap
    modifies Ap
    ensures forall i, j :: 0 <= i < A.Length0 && 0 <= j < A.Length0 ==> Ap[i, j] == A[i, j]
  {
    var n := A.Length0;
    for j := 0 to n
      invariant forall c, k :: 0 <= c < j && 0 <= k < n ==> Ap[c, k] == A[c, k]
    {
      for k := 0 to n
        invariant forall c, m :: 0 <= c < n && 0 <= m < n && (c < j || (c == j && m < k)) ==> Ap[c, m] == A[c, m]
      {
        Ap[j, k] := A[j, k];
      }
    }
  }

  method MeanOf(P: Problem, j: nat) returns (s: real)
    requires P.Valid() && j < 3
    ensures s == Mean(P.samples, j)
  {
    var n := |P.samples|;
    s := 0.0;
    for i := 0 to n
      invariant s == Sum(Coordinate(P.samples, j), i)
    {
      CoordinateAt(P.samples, j, i);
      s := s + P.samples[i][j];
    }
    s := s / (n as real);
  }

  method StartPoint(P: Problem, x: array<real>)
    requires P.Valid() && x.Length == PARAMS
    modifies x
    ensures x[..] == Start(P.samples)
    ensures forall j :: 0 <= j < 3 ==> Deviations(P.samples, x[j], j, |P.samples|) == 0.0
    ensures x[3..] == [1.0, 0.0, 0.0, 0.0, 1.0, 0.0, 0.0, 0.0, 1.0]
  {
    StartCentred(P.samples, 0);
    StartCentred(P.samples, 1);
    StartCentred(P.samples, 2);
    for j := 0 to 3
      invariant forall c :: 0 <= c < j ==> x[c] == Mean(P.samples, c)
    {
      x[j] := MeanOf(P, j);
    }
    for k := 0 to 3
      invariant forall c :: 0 <= c < 3 ==> x[c] == Mean(P.samples, c)
      invariant k >= 1 ==> x[3] == 1.0 && x[4] == 0.0 && x[5] == 0.0
      invariant k >= 2 ==> x[6] == 0.0 && x[7] == 1.0 && x[8] == 0.0
      invariant k >= 3 ==> x[9] == 0.0 && x[10] == 0.0 && x[11] == 1.0
    {
      IdentityRow(x, k);
    }
  }

  method IdentityRow(x: array<real>, k: nat)
    requires x.Length == PARAMS && k < 3
    modifies x
    ensures x[3 + 3 * k] == if k == 0 then 1.0 else 0.0
    ensures x[4 + 3 * k] == if k == 1 then 1.0 else 0.0
    ensures x[5 + 3 * k] == if k == 2 then 1.0 else 0.0
    ensures forall c :: 0 <= c < PARAMS && (c < 3 + 3 * k || c >= 6 + 3 * k) ==> x[c] == old(x[c])
  {
    for j := 0 to 3
      invariant j >= 1 ==> x[3 + 3 * k] == if k == 0 then 1.0 else 0.0
      invariant j >= 2 ==> x[4 + 3 * k] == if k == 1 then 1.0 else 0.0
      invariant j >= 3 ==> x[5 + 3 * k] == if k == 2 then 1.0 else 0.0
      invariant forall c :: 0 <= c < PARAMS && (c < 3 + 3 * k || c >= 6 + 3 * k) ==> x[c] == old(x[c])
    {
      x[3 + 3 * k + j] := if k == j then 1.0 else 0.0;
    }
  }

  lemma StepUnique(P: Problem, x: Params, factor: real, d: Vec, y: Params)
    requires P.Valid() && Moved(x, d, y) && P.CostAt(y) >= P.CostAt(x)
    requires forall e :: |e| == |x| && IsStep(P, x, factor, e) ==> e == d
    ensures Rejects(P, x, factor)
  {
    hide IsStep, Cost;
    forall e, z: Params | IsStep(P, x, factor, e) && Moved(x, e, z)
      ensures P.CostAt(z) >= P.CostAt(x)
    {
      assert z == y;
    }
  }

  lemma NoStep(P: Problem, x: Params, factor: real)
    requires P.Valid() && forall e :: !IsStep(P, x, factor, e)
    ensures Rejects(P, x, factor)
  {
  }

  /** Solve the damped normal equations; IsStep holds of the result and of nothing else. */
  method SolveStep(P: Problem, ghost x: Params, A: array2<real>, ng: array<real>, factor: real, d: array<real>)
      returns (rc: int)
    requires A.Length0 == A.Length1 == ng.Length == d.Length == |x| && d != ng
    requires Rows(A) == Normal(P.J(x), |x|) && ng[..] == StepVector(P, x)
    modifies d
    ensures rc >= 0 ==> IsStep(P, x, factor, d[..])
    ensures rc >= 0 ==> forall e :: |e| == |x| && IsStep(P, x, factor, e) ==> e == d[..]
    ensures rc < 0 ==> forall e :: !IsStep(P, x, factor, e)
  {
    hide Triangulate, Augment, SumProd, Gradient, Normal, Damped, Damping;
    var Ap := new real[A.Length0, A.Length0];
    Damp(A, factor, Ap);
    rc := GaussSolve(Ap, ng, d);
    assert rc == 0 ==> Solves(Rows(Ap), ng[..], d[..]);
  }

  /** One try of the inner loop. */
  method TryStep(P: Problem, x: array<real>, A: array2<real>, ng: array<real>, costOld: real, factor: real,
                 xNew: array<real>, rNew: array<real>) returns (better: bool, costNew: real)
    requires P.Valid() && x.Length == xNew.Length == PARAMS && rNew.Length == |P.samples|
    requires xNew != x && rNew != x && xNew != rNew && ng != xNew && ng != rNew
    requires A.Length0 == A.Length1 == ng.Length == x.Length
    requires Rows(A) == Normal(P.J(x[..]), x.Length) && ng[..] == StepVector(P, x[..])
    requires costOld == P.CostAt(x[..])
    modifies xNew, rNew
    ensures better ==> Accepts(P, x[..], factor, xNew[..]) && costNew == P.CostAt(xNew[..])
    ensures !better ==> Rejects(P, x[..], factor)
  {
    hide IsStep, StepMatrix, StepVector, Normal, Rejects, Residuals, SumProd;
    ghost var xs: Params := x[..];
    var d := new real[x.Length];
    var rc := SolveStep(P, xs, A, ng, factor, d);
    if rc < 0 {
      NoStep(P, xs, factor);
      return false, costOld;
    }
    ghost var ds := d[..];
    for j := 0 to x.Length
      invariant x[..] == xs && d[..] == ds
      invariant forall c :: 0 <= c < j ==> xNew[c] == xs[c] + ds[c]
    {
      xNew[j] := x[j] + d[j];
    }
    LmResiduals(P, xNew, rNew);
    costNew := MeanCost(rNew);
    better := costNew < costOld;
    assert Moved(xs, ds, xNew[..]);
    if !better {
      StepUnique(P, xs, factor, ds, xNew[..]);
    }
  }

  /** The inner loop: at most ten tries, factor growing tenfold after each that fails. */
  method Search(P: Problem, x: array<real>, A: array2<real>, ng: array<real>, costOld: real, rNew: array<real>)
      returns (improved: bool, converged: bool, tries: nat)
    requires P.Valid() && x.Length == PARAMS && rNew.Length == |P.samples| && rNew != x && ng != x && ng != rNew
    requires A.Length0 == A.Length1 == ng.Length == x.Length
    requires Rows(A) == Normal(P.J(x[..]), x.Length) && ng[..] == StepVector(P, x[..])
    requires costOld == P.CostAt(x[..])
    modifies x, rNew
    ensures tries <= 10
    ensures improved ==> Improves(P, old(x[..]), x[..]) && (converged <==> Flat(P, old(x[..]), x[..]))
    ensures !improved ==> x[..] == old(x[..]) && Stuck(P, x[..])
  {
    hide IsStep, StepMatrix, StepVector, Normal, Cost;
    ghost var xs: Params := x[..];
    var xNew := new real[x.Length];
    var factor := 0.001;
    improved, converged, tries := false, false, 0;
    while tries < MAX_TRIES
      invariant tries <= MAX_TRIES && x[..] == xs && factor == Lambda(tries)
      invariant Rows(A) == Normal(P.J(xs), x.Length) && ng[..] == StepVector(P, xs)
      invariant forall s: nat :: s < tries ==> Rejects(P, xs, Lambda(s))
    {
      var better, costNew := TryStep(P, x, A, ng, costOld, factor, xNew, rNew);
      if better {
        ghost var ys: Params := xNew[..];
        assert Improves(P, xs, ys);
        for j := 0 to x.Length
          invariant xNew[..] == ys && forall c :: 0 <= c < j ==> x[c] == ys[c]
        {
          x[j] := xNew[j];
        }
        assert x[..] == ys;
        improved := true;
        converged := Abs(costOld - costNew) < MIN_IMPROVEMENT;
        tries := tries + 1;
        return;
      }
      factor := factor * 10.0;
      tries := tries + 1;
    }
  }

  /** One outer iteration: residuals, Jacobian and normal equations at x, then the inner loop. */
  method Iterate(P: Problem, x: array<real>, r: array<real>, rNew: array<real>)
      returns (improved: bool, converged: bool, tries: nat)
    requires P.Valid() && x.Length == PARAMS && r.Length == rNew.Length == |P.samples|
    requires x != r && x != rNew && r != rNew
    modifies x, r, rNew
    ensures tries <= 10
    ensures improved ==> Improves(P, old(x[..]), x[..]) && (converged <==> Flat(P, old(x[..]), x[..]))
    ensures !improved ==> x[..] == old(x[..]) && Stuck(P, x[..])
  {
    hide IsStep, StepMatrix, Cost, Accepts, Rejects, Gradient, Normal, Jacobian, Residuals, MeanSquare, Stuck, Improves;
    var J := new real[|P.samples|, x.Length];
    var A, g, ng := new real[x.Length, x.Length], new real[x.Length], new real[x.Length];
    LmResiduals(P, x, r);
    var costOld := MeanCost(r);
    CostIs(P, x[..], r[..], costOld);
    LmJacobian(P, x, J);
    NormalEquations(J, r, A, g);
    Negate(g, ng);
    improved, converged, tries := Search(P, x, A, ng, costOld, rNew);
  }

  lemma CostIs(P: Problem, x: Params, r: Vec, c: real)
    requires P.Valid() && r == P.R(x) && c == MeanSquare(r)
    ensures c == P.CostAt(x)
  {
  }

  /** lm_fit_accel: below six samples an error; otherwise the end of the finished run from the start
      point, its cost, and at most 1000 linear solves. */
  method LmFitAccel(P: Problem, bias: array<real>, m: array2<real>)
      returns (rc: int, cost: real, ghost run: seq<Params>, solves: nat)
    requires bias.Length == 3 && m.Length0 == m.Length1 == 3
    modifies bias, m
    ensures |P.samples| < 6 ==> rc == -1 && bias[..] == old(bias[..]) && Rows(m) == old(Rows(m))
    ensures |P.samples| >= 6 ==>
              && rc == 0 && Descent(P, run) && Finished(P, run)
              && Result(run[|run| - 1], bias[..], Rows(m))
              && cost == P.CostAt(run[|run| - 1]) && cost <= P.CostAt(Start(P.samples))
              && Times(cost, |P.samples| as real) ==
                 SquaredErrors(P.sqrt, P.samples, bias[..], Rows(m), |P.samples|)
    ensures solves <= 1000
  {
    hide Cost, Improves, Stuck, Start, MeanSquare, SquaredErrors, Times, Result, Residuals, Deviations;
    solves, run, cost := 0, [], 0.0;
    var n := |P.samples|;
    if n < 6 {
      return -1, cost, run, solves;
    }
    var x := new real[PARAMS];
    StartPoint(P, x);
    var r, rNew := new real[n], new real[n];
    run := [x[..]];
    var iter, converged := 0, false;
    while iter < MAX_ITER && !converged
      invariant iter <= MAX_ITER && solves <= iter * MAX_TRIES
      invariant 0 < |run| <= iter + 1 && run[|run| - 1] == x[..]
      invariant Descent(P, run)
      invariant !converged ==> |run| == iter + 1 && (|run| > 1 ==> !Flat(P, run[|run| - 2], run[|run| - 1]))
      invariant converged ==> Finished(P, run)
    {
      var improved, tries;
      improved, converged, tries := Iterate(P, x, r, rNew);
      solves := solves + tries;
      if improved {
        run := run + [x[..]];
      } else {
        converged := true;
      }
      iter := iter + 1;
    }
    CopyOut(x, bias, m);
    LmResiduals(P, x, r);
    cost := MeanCost(r);
    CostIs(P, x[..], r[..], cost);
    CostWrittenOut(P, x[..], bias[..], Rows(m));
    if |run| > 1 {
      DescentLowersCost(P, run, 0, |run| - 1);
    }
    rc := 0;
  }

  method Negate(g: array<real>, ng: array<real>)
    requires g.Length == ng.Length && g != ng
    modifies ng
    ensures ng[..] == Negated(g[..])
  {
    for j := 0 to g.Length
      invariant forall c :: 0 <= c < j ==> ng[c] == -g[c]
    {
      ng[j] := -g[j];
    }
  }

  method CopyOut(x: array<real>, bias: array<real>, m: array2<real>)
    requires x.Length == PARAMS && bias.Length == 3 && m.Length0 == m.Length1 == 3 && x != bias
    modifies bias, m
    ensures Result(x[..], bias[..], Rows(m))
  {
    for j := 0 to 3
      invariant forall c :: 0 <= c < j ==> bias[c] == x[c]
    {
      bias[j] := x[j];
    }
    for k := 0 to 3
      invariant bias[..] == x[..3]
      invariant forall c, j :: 0 <= c < k && 0 <= j < 3 ==> m[c, j] == x[3 + 3 * c + j]
    {
      for j := 0 to 3
        invariant bias[..] == x[..3]
        invariant forall c, i :: 0 <= c < 3 && 0 <= i < 3 && (c < k || (c == k && i < j)) ==>
                    m[c, i] == x[3 + 3 * c + i]
      {
        m[k, j] := x[3 + 3 * k + j];
      }
    }
  }
}
