/**
 Gauss elimination with partial pivoting (tools/src/lm.c, `gauss_solve`), over the reals and for
 every size n.

 The augmented matrix [A | b] has width n + 1.  A vector y solves A.y = b exactly when every row of
 [A | b] is orthogonal to y + [-1.0], so one notion, `Kernel`, serves both the solution of the
 system and the witness of near-singularity.
 */
module Gauss {
  import opened Wrappers
  import opened Reals

  type Vec = seq<real>
  type Mat = seq<Vec>

  const TINY: real := 0.000000000000001  // 1e-15

  // ------------------------------------------------------------------
  // Sums of products
  // ------------------------------------------------------------------

  /** u[lo]*v[lo] + ... + u[hi-1]*v[hi-1]. */
  function SumProd(u: Vec, v: Vec, lo: nat, hi: nat): real
    requires lo <= hi <= |u| && hi <= |v|
    decreases hi - lo
  {
    if lo == hi then 0.0 else SumProd(u, v, lo, hi - 1) + u[hi - 1] * v[hi - 1]
  }

  lemma {:induction false} SumProdCong(u: Vec, v: Vec, u': Vec, v': Vec, lo: nat, hi: nat)
    requires lo <= hi <= |u| && hi <= |v| && hi <= |u'| && hi <= |v'|
    requires forall j :: lo <= j < hi ==> u[j] == u'[j] && v[j] == v'[j]
    ensures SumProd(u, v, lo, hi) == SumProd(u', v', lo, hi)
    decreases hi - lo
  {
    if lo < hi {
      SumProdCong(u, v, u', v', lo, hi - 1);
    }
  }

  lemma {:induction false} SumProdFirst(u: Vec, v: Vec, lo: nat, hi: nat)
    requires lo < hi <= |u| && hi <= |v|
    ensures SumProd(u, v, lo, hi) == u[lo] * v[lo] + SumProd(u, v, lo + 1, hi)
    decreases hi - lo
  {
    if lo + 1 < hi {
      SumProdFirst(u, v, lo, hi - 1);
    }
  }

  lemma {:induction false} SumProdSkipZeros(u: Vec, v: Vec, lo: nat, mid: nat, hi: nat)
    requires lo <= mid <= hi <= |u| && hi <= |v|
    requires forall j :: lo <= j < mid ==> u[j] == 0.0 || v[j] == 0.0
    ensures SumProd(u, v, lo, hi) == SumProd(u, v, mid, hi)
    decreases mid - lo
  {
    if lo < mid {
      SumProdFirst(u, v, lo, hi);
      SumProdSkipZeros(u, v, lo + 1, mid, hi);
    }
  }

  lemma {:induction false} SumProdAllZeros(u: Vec, v: Vec, lo: nat, mid: nat, hi: nat)
    requires lo <= mid <= hi <= |u| && hi <= |v|
    requires forall j :: mid <= j < hi ==> v[j] == 0.0
    ensures SumProd(u, v, lo, hi) == SumProd(u, v, lo, mid)
    decreases hi - mid
  {
    if mid < hi {
      SumProdAllZeros(u, v, lo, mid, hi - 1);
    }
  }

  /** Sums of products are linear in the row: (u - f*w).v == u.v - f*(w.v). */
  lemma {:induction false} SumProdRowOp(u: Vec, w: Vec, r: Vec, f: real, v: Vec, lo: nat, hi: nat)
    requires lo <= hi <= |u| && hi <= |w| && hi <= |r| && hi <= |v|
    requires forall j :: lo <= j < hi ==> r[j] == u[j] - Times(f, w[j])
    ensures SumProd(r, v, lo, hi) == SumProd(u, v, lo, hi) - Times(f, SumProd(w, v, lo, hi))
    decreases hi - lo
  {
    if lo < hi {
      SumProdRowOp(u, w, r, f, v, lo, hi - 1);
      RowOpTerm(u[hi - 1], w[hi - 1], f, v[hi - 1], SumProd(w, v, lo, hi - 1));
    }
  }

  lemma RowOpTerm(u: real, w: real, f: real, v: real, s: real)
    ensures (u - Times(f, w)) * v + Times(f, s + w * v) == u * v + Times(f, s)
  {
    assert Times(f, s + w * v) == Times(f, s) + Times(f, w * v);
    assert (u - Times(f, w)) * v == u * v - Times(f, w * v);
  }

  // ------------------------------------------------------------------
  // Systems and their solutions
  // ------------------------------------------------------------------

  ghost predicate Shape(M: Mat, rows: nat, width: nat) {
    |M| == rows && forall i :: 0 <= i < rows ==> |M[i]| == width
  }

  function Row(M: Mat, z: Vec, i: nat): real
    requires i < |M| && |M[i]| == |z|
  {
    SumProd(M[i], z, 0, |z|)
  }

  /** y solves A.y = b. */
  ghost predicate Solves(A: Mat, b: Vec, y: Vec) {
    Shape(A, |b|, |y|) && forall i :: 0 <= i < |b| ==> Row(A, y, i) == b[i]
  }

  /** z is orthogonal to every row of M. */
  ghost predicate Kernel(M: Mat, z: Vec) {
    Shape(M, |M|, |z|) && forall i :: 0 <= i < |M| ==> Row(M, z, i) == 0.0
  }

  function Augment(A: Mat, b: Vec): (M: Mat)
    requires |A| == |b|
    ensures |M| == |b| && forall i :: 0 <= i < |b| ==> M[i] == A[i] + [b[i]]
    ensures Shape(A, |b|, |b|) ==> Echelon(M, 0, |b| + 1)
  {
    seq(|A|, i requires 0 <= i < |A| => A[i] + [b[i]])
  }

  lemma AugmentKernel(A: Mat, b: Vec, y: Vec)
    requires |A| == |b| && Shape(A, |b|, |y|)
    ensures Solves(A, b, y) <==> Kernel(Augment(A, b), y + [-1.0])
  {
    var M, z := Augment(A, b), y + [-1.0];
    forall i | 0 <= i < |b|
      ensures Row(M, z, i) == Row(A, y, i) - b[i]
    {
      SumProdCong(M[i], z, A[i], y, 0, |y|);
    }
  }

  // ------------------------------------------------------------------
  // Forward elimination
  // ------------------------------------------------------------------

  /** The first row in [k, i) whose entry in column k is largest in magnitude. */
  function PivotUpTo(M: Mat, k: nat, i: nat): (p: nat)
    requires k < i <= |M|
    requires forall r :: 0 <= r < |M| ==> k < |M[r]|
    ensures k <= p < i
    ensures forall r :: k <= r < i ==> Abs(M[r][k]) <= Abs(M[p][k])
    ensures forall r :: k <= r < p ==> Abs(M[r][k]) < Abs(M[p][k])
    decreases i
  {
    if i == k + 1 then k
    else
      var p := PivotUpTo(M, k, i - 1);
      if Abs(M[i - 1][k]) > Abs(M[p][k]) then i - 1 else p
  }

  function SwapRows(M: Mat, k: nat, p: nat): Mat
    requires k < |M| && p < |M|
  {
    M[k := M[p]][p := M[k]]
  }

  /** Row i with its entry in column k cancelled against row k. */
  function Cancelled(M: Mat, k: nat, i: nat): (r: Vec)
    requires k < |M| && i < |M| && |M[i]| == |M[k]| && k < |M[k]| && M[k][k] != 0.0
    ensures |r| == |M[i]|
  {
    M[i][..k] + [0.0] + Reduced(M[i], M[i][k] / M[k][k], M[k], k + 1)
  }

  /** u[j] - f*w[j] for j = from, ..., |u| - 1. */
  function Reduced(u: Vec, f: real, w: Vec, from: nat): (r: Vec)
    requires from <= |u| == |w|
    ensures |r| == |u| - from
    decreases |u| - from
  {
    if from == |u| then [] else [u[from] - Times(f, w[from])] + Reduced(u, f, w, from + 1)
  }

  lemma {:induction false} ReducedAt(u: Vec, f: real, w: Vec, from: nat, j: nat)
    requires from <= j < |u| == |w|
    ensures Reduced(u, f, w, from)[j - from] == u[j] - Times(f, w[j])
    decreases |u| - from
  {
    hide Times;
    if from < j {
      ReducedAt(u, f, w, from + 1, j);
    }
  }

  lemma CancelledAt(M: Mat, k: nat, i: nat, f: real, j: nat)
    requires k < |M| && i < |M| && |M[i]| == |M[k]| && k < |M[k]| && M[k][k] != 0.0 && j < |M[i]|
    requires f == M[i][k] / M[k][k]
    ensures Cancelled(M, k, i)[j] ==
            if j < k then M[i][j] else if j == k then 0.0 else M[i][j] - Times(f, M[k][j])
  {
    hide Times, Reduced;
    if j > k {
      ReducedAt(M[i], f, M[k], k + 1, j);
    }
  }

  function CancelBelow(M: Mat, k: nat): (M': Mat)
    requires k < |M| && Shape(M, |M|, |M[k]|) && k < |M[k]| && M[k][k] != 0.0
    ensures Shape(M', |M|, |M[k]|)
  {
    seq(|M|, i requires 0 <= i < |M| => if i <= k then M[i] else Cancelled(M, k, i))
  }

  /** Columns 0..k-1 are upper triangular with nonzero diagonal. */
  ghost predicate Echelon(M: Mat, k: nat, width: nat) {
    && k <= |M| && k <= width
    && forall i :: 0 <= i < |M| ==> EchelonRow(M[i], i, k, width)
  }

  ghost predicate EchelonRow(r: Vec, i: nat, k: nat, width: nat) {
    && |r| == width && k <= width
    && (i < k ==> r[i] != 0.0)
    && (forall c :: 0 <= c < k && c < i ==> r[c] == 0.0)
  }

  /** One elimination step, or None when the pivot is below 1e-15. */
  function Step(M: Mat, k: nat, width: nat): (o: Option<Mat>)
    requires k < |M| && k < width && Echelon(M, k, width)
    ensures o.Some? ==> |o.value| == |M| && Echelon(o.value, k + 1, width)
  {
    var p := PivotUpTo(M, k, |M|);
    if Abs(M[p][k]) < TINY then None
    else Some(CancelBelow(SwapRows(M, k, p), k))
  }

  /** Elimination stops exactly when everything from the diagonal down is smaller than 1e-15. */
  lemma StepStops(M: Mat, k: nat, width: nat)
    requires k < |M| && k < width && Echelon(M, k, width)
    ensures Step(M, k, width).None? <==>
            forall r :: k <= r < |M| ==> -0.000000000000001 < M[r][k] < 0.000000000000001
  {
    hide CancelBelow;
    var p := PivotUpTo(M, k, |M|);
  }

  function Triangulate(M: Mat, k: nat, width: nat): (o: Option<Mat>)
    requires |M| < width && Echelon(M, k, width)
    ensures o.Some? ==> |o.value| == |M| && Echelon(o.value, |M|, width)
    decreases |M| - k
  {
    if k == |M| then Some(M)
    else
      var s := Step(M, k, width);
      if s.None? then None else Triangulate(s.value, k + 1, width)
  }

  /** ms lists the matrices after 0, 1, ... elimination steps. */
  ghost predicate Steps(ms: seq<Mat>, n: nat, width: nat) {
    && 0 < |ms| <= n + 1 && n < width
    && (forall k :: 0 <= k < |ms| ==> |ms[k]| == n && Echelon(ms[k], k, width))
    && (forall k :: 0 <= k < |ms| - 1 ==> Follows(ms[k], k, width, ms[k + 1]))
  }

  ghost predicate Follows(M: Mat, k: nat, width: nat, M': Mat) {
    k < |M| && k < width && Echelon(M, k, width) && Step(M, k, width) == Some(M')
  }

  lemma StepsStart(M: Mat, width: nat)
    requires |M| < width && Echelon(M, 0, width)
    ensures Steps([M], |M|, width)
  {
  }

  lemma StepsLast(ms: seq<Mat>, n: nat, width: nat)
    requires Steps(ms, n, width)
    ensures Echelon(ms[|ms| - 1], |ms| - 1, width) && |ms[|ms| - 1]| == n
  {
  }

  lemma StepsMore(ms: seq<Mat>, M: Mat, n: nat, width: nat)
    requires Steps(ms, n, width) && |ms| <= n && |M| == n && Echelon(M, |ms|, width)
    requires Follows(ms[|ms| - 1], |ms| - 1, width, M)
    ensures Steps(ms + [M], n, width)
  {
    hide Follows, Echelon;
  }

  lemma {:induction false} StepsTriangulate(ms: seq<Mat>, k: nat, n: nat, width: nat)
    requires Steps(ms, n, width) && k < |ms|
    ensures Triangulate(ms[k], k, width) == Triangulate(ms[|ms| - 1], |ms| - 1, width)
    decreases |ms| - k
  {
    hide Echelon, Step, Triangulate;
    if k < |ms| - 1 {
      StepsTriangulate(ms, k + 1, n, width);
      assert Follows(ms[k], k, width, ms[k + 1]);
      TriangulateStep(ms[k], k, width, ms[k + 1]);
    }
  }

  lemma TriangulateStep(M: Mat, k: nat, width: nat, M': Mat)
    requires |M| < width && Follows(M, k, width, M')
    ensures |M'| == |M| && Echelon(M', k + 1, width)
    ensures Triangulate(M, k, width) == Triangulate(M', k + 1, width)
  {
    hide Echelon, Step;
  }

  // ------------------------------------------------------------------
  // Elimination keeps the solution set
  // ------------------------------------------------------------------

  lemma SwapKernel(M: Mat, k: nat, p: nat, z: Vec)
    requires k < |M| && p < |M| && Shape(M, |M|, |z|)
    ensures Kernel(M, z) <==> Kernel(SwapRows(M, k, p), z)
  {
    var S := SwapRows(M, k, p);
    forall i | 0 <= i < |M|
      ensures Row(S, z, i) == if i == p then Row(M, z, k) else if i == k then Row(M, z, p) else Row(M, z, i)
    {
    }
    if Kernel(S, z) {
      forall i | 0 <= i < |M| ensures Row(M, z, i) == 0.0 {
        assert Row(S, z, if i == p then k else if i == k then p else i) == 0.0;
      }
    }
  }

  lemma CancelledLinear(M: Mat, k: nat, i: nat, f: real, j: nat, width: nat)
    requires k < i < |M| && k < width && j < width && Echelon(M, k, width) && M[k][k] != 0.0
    requires f == M[i][k] / M[k][k]
    ensures Cancelled(M, k, i)[j] == M[i][j] - Times(f, M[k][j])
  {
    CancelledAt(M, k, i, f, j);
    if j < k {
      assert EchelonRow(M[k], k, k, width) && EchelonRow(M[i], i, k, width);
      TimesZero(f);
    } else if j == k {
      QuotientTimes(M[i][k], M[k][k]);
    }
  }

  lemma TimesZero(f: real)
    ensures Times(f, 0.0) == 0.0
  {
  }

  lemma QuotientTimes(a: real, d: real)
    requires d != 0.0
    ensures Times(a / d, d) == a && d * (a / d) == a
  {
  }

  lemma QuotientUnique(s: real, d: real, y: real)
    requires d != 0.0 && d * y == s
    ensures y == s / d
  {
  }

  /** Cancelling subtracts a multiple of the pivot row; columns left of k are zero in both rows. */
  lemma CancelledRow(M: Mat, k: nat, i: nat, f: real, z: Vec)
    requires k < |M| && Shape(M, |M|, |z|) && Echelon(M, k, |z|) && k < |z| && M[k][k] != 0.0
    requires k < i < |M| && f == M[i][k] / M[k][k]
    ensures SumProd(Cancelled(M, k, i), z, 0, |z|) == Row(M, z, i) - Times(f, Row(M, z, k))
  {
    hide Times, Cancelled, SumProd;
    forall j | 0 <= j < |z|
      ensures Cancelled(M, k, i)[j] == M[i][j] - Times(f, M[k][j])
    {
      CancelledLinear(M, k, i, f, j, |z|);
    }
    SumProdRowOp(M[i], M[k], Cancelled(M, k, i), f, z, 0, |z|);
  }

  /** Cancelling changes no product with a vector orthogonal to the pivot row. */
  lemma CancelledKeeps(M: Mat, k: nat, i: nat, z: Vec)
    requires k < |M| && Shape(M, |M|, |z|) && Echelon(M, k, |z|) && k < |z| && M[k][k] != 0.0
    requires i < |M| && Row(M, z, k) == 0.0
    ensures Row(CancelBelow(M, k), z, i) == Row(M, z, i)
  {
    if i > k {
      hide Times, Cancelled, SumProd, Echelon;
      var f := M[i][k] / M[k][k];
      CancelledRow(M, k, i, f, z);
      TimesZero(f);
    }
  }

  lemma CancelKernel(M: Mat, k: nat, z: Vec)
    requires k < |M| && Shape(M, |M|, |z|) && Echelon(M, k, |z|) && k < |z| && M[k][k] != 0.0
    ensures Kernel(M, z) <==> Kernel(CancelBelow(M, k), z)
  {
    hide Echelon, SumProd, Cancelled;
    var C := CancelBelow(M, k);
    assert Row(C, z, k) == Row(M, z, k);
    if Row(M, z, k) == 0.0 {
      forall i | 0 <= i < |M| ensures Row(C, z, i) == Row(M, z, i) {
        CancelledKeeps(M, k, i, z);
      }
    }
  }

  lemma SwapEchelon(M: Mat, k: nat, p: nat, width: nat)
    requires k < |M| && k <= p < |M| && Echelon(M, k, width)
    ensures Echelon(SwapRows(M, k, p), k, width)
  {
  }

  /** Triangulating keeps the solution set. */
  lemma {:induction false} TriangulateKernel(M: Mat, k: nat, z: Vec)
    requires |M| < |z| && Echelon(M, k, |z|) && Triangulate(M, k, |z|).Some?
    ensures Kernel(M, z) <==> Kernel(Triangulate(M, k, |z|).value, z)
    decreases |M| - k
  {
    hide Step, Kernel;
    if k < |M| {
      StepKernel(M, k, z);
      TriangulateKernel(Step(M, k, |z|).value, k + 1, z);
    }
  }

  lemma StepKernel(M: Mat, k: nat, z: Vec)
    requires k < |M| < |z| && Echelon(M, k, |z|) && Step(M, k, |z|).Some?
    ensures Kernel(M, z) <==> Kernel(Step(M, k, |z|).value, z)
  {
    var p := PivotUpTo(M, k, |M|);
    SwapEchelon(M, k, p, |z|);
    SwapKernel(M, k, p, z);
    CancelKernel(SwapRows(M, k, p), k, z);
  }

  // ------------------------------------------------------------------
  // Back substitution
  // ------------------------------------------------------------------

  /** Entries m-1 .. 0 of z, each chosen so that its row is orthogonal to the result. */
  function BackFill(M: Mat, m: nat, z: Vec): (r: Vec)
    requires m <= |M| && Echelon(M, m, |z|)
    ensures |r| == |z| && forall j :: m <= j < |z| ==> r[j] == z[j]
    decreases m
  {
    if m == 0 then z
    else
      BackFill(M, m - 1, z[m - 1 := -SumProd(M[m - 1], z, m, |z|) / M[m - 1][m - 1]])
  }

  lemma BackFillNone(M: Mat, z: Vec)
    requires Echelon(M, 0, |z|)
    ensures BackFill(M, 0, z) == z
  {
  }

  lemma Diagonal(M: Mat, m: nat, width: nat)
    requires 0 < m <= |M| && Echelon(M, m, width)
    ensures |M[m - 1]| == width && M[m - 1][m - 1] != 0.0 && Echelon(M, m - 1, width)
  {
    assert EchelonRow(M[m - 1], m - 1, m, width);
  }

  lemma BackFillStep(M: Mat, m: nat, z: Vec, s: real, q: real)
    requires 0 < m <= |M| && Echelon(M, m, |z|) && Echelon(M, m - 1, |z|)
    requires s == -SumProd(M[m - 1], z, m, |z|)
    requires M[m - 1][m - 1] != 0.0 && q == s / M[m - 1][m - 1]
    ensures BackFill(M, m, z) == BackFill(M, m - 1, z[m - 1 := q])
  {
    hide SumProd;
  }

  lemma {:induction false} BackFillOrthogonal(M: Mat, m: nat, z: Vec)
    requires m <= |M| && Echelon(M, m, |z|)
    ensures forall i :: 0 <= i < m ==> Row(M, BackFill(M, m, z), i) == 0.0
    decreases m
  {
    if m > 0 {
      var d := M[m - 1][m - 1];
      var z' := z[m - 1 := -SumProd(M[m - 1], z, m, |z|) / d];
      var r := BackFill(M, m, z);
      BackFillOrthogonal(M, m - 1, z');
      SumProdSkipZeros(M[m - 1], r, 0, m - 1, |z|);
      SumProdFirst(M[m - 1], r, m - 1, |z|);
      SumProdCong(M[m - 1], r, M[m - 1], z, m, |z|);
      assert r[m - 1] == z'[m - 1];
      QuotientTimes(-SumProd(M[m - 1], z, m, |z|), d);
      assert d * r[m - 1] == -SumProd(M[m - 1], z, m, |z|);
    }
  }

  lemma {:induction false} BackFillUnique(M: Mat, m: nat, z: Vec, y: Vec)
    requires m <= |M| && Echelon(M, m, |z|) && |y| == |z|
    requires forall j :: m <= j < |z| ==> y[j] == z[j]
    requires forall i :: 0 <= i < m ==> Row(M, y, i) == 0.0
    ensures y == BackFill(M, m, z)
    decreases m
  {
    if m > 0 {
      var d := M[m - 1][m - 1];
      var s := SumProd(M[m - 1], z, m, |z|);
      assert Row(M, y, m - 1) == 0.0;
      SumProdSkipZeros(M[m - 1], y, 0, m - 1, |z|);
      SumProdFirst(M[m - 1], y, m - 1, |z|);
      SumProdCong(M[m - 1], y, M[m - 1], z, m, |z|);
      QuotientUnique(-s, d, y[m - 1]);
      BackFillUnique(M, m - 1, z[m - 1 := -s / d], y);
    }
  }

  // ------------------------------------------------------------------
  // Main results on the elimination
  // ------------------------------------------------------------------

  function Unsolved(n: nat): (z: Vec)
    ensures |z| == n + 1 && z[n] == -1.0
  {
    seq(n, _ => 0.0) + [-1.0]
  }

  lemma TriangularUnique(U: Mat, n: nat, y: Vec)
    requires |y| == n == |U| && Echelon(U, n, n + 1)
    ensures Kernel(U, y + [-1.0]) <==> y == BackFill(U, n, Unsolved(n))[..n]
  {
    var r := BackFill(U, n, Unsolved(n));
    var z := y + [-1.0];
    if Kernel(U, z) {
      BackFillUnique(U, n, Unsolved(n), z);
    }
    if y == r[..n] {
      assert r == z;
      BackFillOrthogonal(U, n, Unsolved(n));
    }
  }

  /** When the elimination succeeds the system has exactly one solution. */
  lemma SolutionUnique(A: Mat, b: Vec, U: Mat, y: Vec)
    requires Shape(A, |b|, |b|) && |y| == |b|
    requires |U| == |b| && Echelon(U, |b|, |b| + 1)
    requires Triangulate(Augment(A, b), 0, |b| + 1) == Some(U)
    ensures Solves(A, b, y) <==> y == BackFill(U, |b|, Unsolved(|b|))[..|b|]
  {
    AugmentKernel(A, b, y);
    TriangulateKernel(Augment(A, b), 0, y + [-1.0]);
    TriangularUnique(U, |b|, y);
  }

  /** z has a coordinate equal to 1, yet every row of A maps it below 1e-15: A is within 1e-15 of a
      singular matrix. */
  ghost predicate NearNull(A: Mat, z: Vec) {
    && Shape(A, |A|, |z|)
    && (exists k :: 0 <= k < |z| && z[k] == 1.0)
    && forall i :: 0 <= i < |A| ==> Abs(Row(A, z, i)) < TINY
  }

  /** What a failing elimination found: a vector of the stated kind whose last entry is 0, so that
      the right-hand side plays no part. */
  ghost predicate FailureWitness(M: Mat, k: nat, z: Vec) {
    && Shape(M, |M|, |z|) && |z| == |M| + 1 && z[|M|] == 0.0
    && (exists j :: 0 <= j < |M| && z[j] == 1.0)
    && (forall i :: 0 <= i < k && i < |M| ==> Row(M, z, i) == 0.0)
    && (forall i :: 0 <= i < |M| ==> Abs(Row(M, z, i)) < TINY)
  }

  lemma PivotFailure(M: Mat, k: nat) returns (z: Vec)
    requires k < |M| && Echelon(M, k, |M| + 1) && Step(M, k, |M| + 1).None?
    ensures FailureWitness(M, k, z)
  {
    var e := seq(|M| + 1, j => if j == k then 1.0 else 0.0);
    z := BackFill(M, k, e);
    BackFillOrthogonal(M, k, e);
    assert z[k] == 1.0;
    forall i | k <= i < |M|
      ensures Row(M, z, i) == M[i][k]
    {
      SumProdSkipZeros(M[i], z, 0, k, |z|);
      SumProdAllZeros(M[i], z, k, k + 1, |z|);
      SumProdFirst(M[i], z, k, k + 1);
    }
  }

  /** A witness for the matrix after one step is one for the matrix before it: the pivot row is
      orthogonal to z, so adding multiples of it back changes no product. */
  lemma StepWitness(M: Mat, k: nat, z: Vec)
    requires k < |M| && Echelon(M, k, |M| + 1) && Step(M, k, |M| + 1).Some?
    requires FailureWitness(Step(M, k, |M| + 1).value, k + 1, z)
    ensures FailureWitness(M, k, z)
  {
    var p := PivotUpTo(M, k, |M|);
    var S := SwapRows(M, k, p);
    SwapEchelon(M, k, p, |M| + 1);
    var C := CancelBelow(S, k);
    assert Row(C, z, k) == 0.0 && C[k] == S[k];
    forall i | 0 <= i < |M|
      ensures Row(S, z, i) == Row(C, z, i)
    {
      CancelledKeeps(S, k, i, z);
    }
    forall i | 0 <= i < |M|
      ensures Row(M, z, i) == Row(S, z, if i == p then k else if i == k then p else i)
    {
    }
    forall i | 0 <= i < k ensures Row(M, z, i) == 0.0 {
      assert Row(C, z, i) == 0.0;
    }
  }

  lemma {:induction false} FailureHasWitness(M: Mat, k: nat) returns (z: Vec)
    requires Echelon(M, k, |M| + 1) && Triangulate(M, k, |M| + 1).None?
    ensures FailureWitness(M, k, z)
    decreases |M| - k
  {
    hide Step, FailureWitness;
    var s := Step(M, k, |M| + 1);
    if s.None? {
      z := PivotFailure(M, k);
    } else {
      z := FailureHasWitness(s.value, k + 1);
      StepWitness(M, k, z);
    }
  }

  lemma WitnessForMatrix(A: Mat, b: Vec, M: Mat, z: Vec)
    requires Shape(A, |b|, |b|) && M == Augment(A, b) && FailureWitness(M, 0, z)
    ensures NearNull(A, z[..|b|])
  {
    var n := |b|;
    forall i | 0 <= i < n
      ensures Row(A, z[..n], i) == Row(M, z, i)
    {
      SumProdCong(M[i], z, A[i], z[..n], 0, n);
    }
    var k :| 0 <= k < n && z[k] == 1.0;
    assert z[..n][k] == 1.0;
  }

  /** When the elimination gives up, A really is within 1e-15 of a singular matrix. */
  lemma FailureMeansNearSingular(A: Mat, b: Vec, M: Mat)
    requires Shape(A, |b|, |b|) && M == Augment(A, b)
    requires Triangulate(M, 0, |M| + 1).None?
    ensures exists z :: |z| == |b| && NearNull(A, z)
  {
    var z := FailureHasWitness(M, 0);
    WitnessForMatrix(A, b, M, z);
  }

  lemma SolutionExists(A: Mat, b: Vec, U: Mat) returns (x: Vec)
    requires Shape(A, |b|, |b|)
    requires |U| == |b| && Echelon(U, |b|, |b| + 1)
    requires Triangulate(Augment(A, b), 0, |b| + 1) == Some(U)
    ensures |x| == |b| && Solves(A, b, x)
    ensures forall y :: |y| == |b| && Solves(A, b, y) ==> y == x
    ensures x == BackFill(U, |b|, Unsolved(|b|))[..|b|]
  {
    x := BackFill(U, |b|, Unsolved(|b|))[..|b|];
    SolutionUnique(A, b, U, x);
    forall y: Vec | |y| == |b| && Solves(A, b, y)
      ensures y == x
    {
      SolutionUnique(A, b, U, y);
    }
  }

  lemma SolvedIsRegular(A: Mat, b: Vec, x: Vec, u: Vec, k: nat)
    requires Shape(A, |b|, |b|) && |u| == |b| && k < |b|
    requires Solves(A, b, x) && |x| == |b| && forall y :: |y| == |b| && Solves(A, b, y) ==> y == x
    requires forall i :: 0 <= i < |b| ==> Row(A, u, i) == 0.0
    ensures u[k] == 0.0
  {
    var y := seq(|b|, j requires 0 <= j < |b| => x[j] + u[j]);
    ShiftedSolution(A, b, x, u, y);
    assert y[k] == x[k] + u[k];
  }

  /** A singular matrix is never solved: if a nonzero vector is mapped to zero, gauss_solve fails. */
  lemma SingularFails(A: Mat, b: Vec, u: Vec, k: nat)
    requires Shape(A, |b|, |b|) && |u| == |b| && k < |b| && u[k] != 0.0
    requires forall i :: 0 <= i < |b| ==> Row(A, u, i) == 0.0
    ensures Triangulate(Augment(A, b), 0, |b| + 1).None?
  {
    var o := Triangulate(Augment(A, b), 0, |b| + 1);
    if o.Some? {
      var x := SolutionExists(A, b, o.value);
      SolvedIsRegular(A, b, x, u, k);
    }
  }

  lemma ShiftedSolution(A: Mat, b: Vec, x: Vec, u: Vec, y: Vec)
    requires Solves(A, b, x) && |u| == |y| == |x|
    requires forall i :: 0 <= i < |b| ==> Row(A, u, i) == 0.0
    requires forall j :: 0 <= j < |y| ==> y[j] == x[j] + u[j]
    ensures Solves(A, b, y)
  {
    forall i | 0 <= i < |b|
      ensures Row(A, y, i) == b[i]
    {
      assert Row(A, x, i) == b[i] && Row(A, u, i) == 0.0;
      SumProdAdd(A[i], x, u, y, |x|);
    }
  }

  lemma {:induction false} SumProdAdd(w: Vec, x: Vec, u: Vec, y: Vec, n: nat)
    requires n <= |w| && n <= |x| && n <= |u| && n <= |y|
    requires forall j :: 0 <= j < n ==> y[j] == x[j] + u[j]
    ensures SumProd(w, y, 0, n) == SumProd(w, x, 0, n) + SumProd(w, u, 0, n)
  {
    if n > 0 {
      SumProdAdd(w, x, u, y, n - 1);
      assert w[n - 1] * y[n - 1] == w[n - 1] * x[n - 1] + w[n - 1] * u[n - 1];
    }
  }

  // ------------------------------------------------------------------
  // What partial pivoting is for: bounded growth
  // ------------------------------------------------------------------

  ghost predicate BoundedBy(M: Mat, c: real) {
    forall i, j :: 0 <= i < |M| && 0 <= j < |M[i]| ==> Abs(M[i][j]) <= c
  }

  lemma ProductNonNegative(x: real, y: real)
    requires x >= 0.0 && y >= 0.0
    ensures x * y >= 0.0
  {
  }

  lemma ProductPositive(x: real, y: real)
    requires x > 0.0 && y > 0.0
    ensures x * y > 0.0
  {
  }

  lemma RatioBound(f: real, a: real, d: real)
    requires d > 0.0 && f * d == a && -d <= a <= d
    ensures -1.0 <= f <= 1.0
  {
    if f > 1.0 {
      ProductPositive(f - 1.0, d);
    } else if f < -1.0 {
      ProductPositive(-1.0 - f, d);
    }
  }

  lemma QuotientBound(a: real, d: real)
    requires d != 0.0 && Abs(a) <= Abs(d)
    ensures -1.0 <= a / d <= 1.0
  {
    var f := a / d;
    assert f * d == a;
    if d > 0.0 {
      RatioBound(f, a, d);
    } else {
      assert (-f) * (-d) == a;
      RatioBound(-f, a, -d);
    }
  }

  lemma ScaledBound(f: real, m: real, c: real)
    requires -1.0 <= f <= 1.0 && Abs(m) <= c
    ensures Abs(Times(f, m)) <= c
  {
    var e := Abs(m);
    ProductNonNegative(1.0 - f, e);
    ProductNonNegative(1.0 + f, e);
    assert (1.0 - f) * e == e - f * e && (1.0 + f) * e == e + f * e;
    if m < 0.0 {
      assert f * m == -(f * e);
    }
  }

  lemma RowOpBound(s: real, f: real, m: real, c: real)
    requires -1.0 <= f <= 1.0 && Abs(s) <= c && Abs(m) <= c
    ensures Abs(s - Times(f, m)) <= 2.0 * c
  {
    ScaledBound(f, m, c);
    DifferenceBound(s, Times(f, m), c);
  }

  lemma DifferenceBound(s: real, q: real, c: real)
    requires Abs(s) <= c && Abs(q) <= c
    ensures Abs(s - q) <= 2.0 * c
  {
  }

  /** A row operation whose multiplier is at most 1 at most doubles an entry. */
  lemma CancelledBound(S: Mat, k: nat, i: nat, j: nat, c: real)
    requires k < i < |S| && Shape(S, |S|, |S[k]|) && k < j < |S[k]| && S[k][k] != 0.0
    requires Abs(S[i][k]) <= Abs(S[k][k]) && Abs(S[i][j]) <= c && Abs(S[k][j]) <= c
    ensures Abs(Cancelled(S, k, i)[j]) <= 2.0 * c
  {
    hide Abs, Cancelled, Times;
    var f := S[i][k] / S[k][k];
    QuotientBound(S[i][k], S[k][k]);
    RowOpBound(S[i][j], f, S[k][j], c);
    CancelledAt(S, k, i, f, j);
  }

  /** Choosing the largest pivot keeps every multiplier at most 1 in magnitude, so one step at most
      doubles the largest entry. */
  lemma StepGrowth(M: Mat, k: nat, width: nat, c: real)
    requires k < |M| && k < width && Echelon(M, k, width) && BoundedBy(M, c)
    requires Step(M, k, width).Some?
    ensures BoundedBy(Step(M, k, width).value, 2.0 * c)
  {
    var p := PivotUpTo(M, k, |M|);
    var S := SwapRows(M, k, p);
    var C := CancelBelow(S, k);
    assert Abs(M[0][0]) <= c;
    forall i, j | 0 <= i < |C| && 0 <= j < |C[i]|
      ensures Abs(C[i][j]) <= 2.0 * c
    {
      assert Abs(S[i][j]) <= c && Abs(S[k][j]) <= c;
      if i > k && j > k {
        CancelledBound(S, k, i, j, c);
      }
    }
  }

  /** c doubled n times. */
  function Doubled(c: real, n: nat): real
    decreases n
  {
    if n == 0 then c else Doubled(2.0 * c, n - 1)
  }

  /** The whole elimination of n columns makes no entry larger than 2^n times the largest one. */
  lemma {:induction false} TriangulateGrowth(M: Mat, k: nat, width: nat, c: real)
    requires |M| < width && Echelon(M, k, width) && k <= |M| && BoundedBy(M, c)
    requires Triangulate(M, k, width).Some?
    ensures BoundedBy(Triangulate(M, k, width).value, Doubled(c, |M| - k))
    decreases |M| - k
  {
    hide Echelon, Step, BoundedBy;
    if k < |M| {
      StepGrowth(M, k, width, c);
      TriangulateGrowth(Step(M, k, width).value, k + 1, width, 2.0 * c);
    }
  }

  // ------------------------------------------------------------------
  // The in-place algorithm
  // ------------------------------------------------------------------

  ghost function Rows(M: array2<real>): (s: Mat)
    reads M
    ensures |s| == M.Length0
    ensures forall i :: 0 <= i < M.Length0 ==> |s[i]| == M.Length1
    ensures forall i, j :: 0 <= i < M.Length0 && 0 <= j < M.Length1 ==> s[i][j] == M[i, j]
  {
    seq(M.Length0, i requires 0 <= i < M.Length0 reads M =>
      seq(M.Length1, j requires 0 <= j < M.Length1 reads M => M[i, j]))
  }

  method FindPivot(M: array2<real>, k: nat) returns (piv: nat, maxv: real)
    requires k < M.Length0 && k < M.Length1
    ensures piv == PivotUpTo(Rows(M), k, M.Length0) && maxv == Abs(M[piv, k])
  {
    ghost var rows := Rows(M);
    piv, maxv := k, Abs(M[k, k]);
    hide Rows, Abs;
    for i := k + 1 to M.Length0
      invariant k <= piv < i && piv == PivotUpTo(rows, k, i) && maxv == Abs(M[piv, k])
    {
      assert rows[i][k] == M[i, k] && rows[piv][k] == M[piv, k];
      if Abs(M[i, k]) > maxv {
        maxv := Abs(M[i, k]);
        piv := i;
      }
    }
  }

  /** Only columns k.. are exchanged; left of k both rows are zero. */
  method ExchangeRows(M: array2<real>, k: nat, piv: nat)
    requires k <= piv < M.Length0 && k < M.Length1
    requires forall j :: 0 <= j < k ==> M[k, j] == M[piv, j]
    modifies M
    ensures Rows(M) == SwapRows(old(Rows(M)), k, piv)
  {
    for j := k to M.Length1
      invariant forall c :: k <= c < j ==> M[k, c] == old(M[piv, c]) && M[piv, c] == old(M[k, c])
      invariant forall r, c :: 0 <= r < M.Length0 && 0 <= c < M.Length1 && (c < k || c >= j || (r != k && r != piv)) ==>
                  M[r, c] == old(M[r, c])
    {
      var t := M[k, j];
      M[k, j] := M[piv, j];
      M[piv, j] := t;
    }
    ghost var before := old(Rows(M));
    ghost var want := SwapRows(before, k, piv);
    forall r | 0 <= r < M.Length0 ensures Rows(M)[r] == want[r] {
      forall c | 0 <= c < M.Length1 ensures Rows(M)[r][c] == want[r][c] {
        assert before[k][c] == old(M[k, c]) && before[piv][c] == old(M[piv, c]) && before[r][c] == old(M[r, c]);
      }
    }
  }

  method CancelRow(M: array2<real>, k: nat, i: nat)
    requires k < i < M.Length0 && k < M.Length1 && M[k, k] != 0.0
    modifies M
    ensures Rows(M) == old(Rows(M))[i := Cancelled(old(Rows(M)), k, i)]
  {
    var f := M[i, k] / M[k, k];
    M[i, k] := 0.0;
    for j := k + 1 to M.Length1
      invariant M[i, k] == 0.0
      invariant forall c :: k < c < j ==> M[i, c] == old(M[i, c]) - Times(f, old(M[k, c]))
      invariant forall c :: 0 <= c < k || j <= c < M.Length1 ==> M[i, c] == old(M[i, c])
      invariant forall r, c :: 0 <= r < M.Length0 && 0 <= c < M.Length1 && r != i ==> M[r, c] == old(M[r, c])
    {
      M[i, j] := M[i, j] - f * M[k, j];
    }
    RowCancelled(old(Rows(M)), Rows(M), k, i, f);
  }

  /** Two matrices that differ by one cancelled row. */
  lemma RowCancelled(M0: Mat, M1: Mat, k: nat, i: nat, f: real)
    requires k < i < |M0| == |M1| && k < |M0[k]| && |M0[i]| == |M0[k]| == |M1[i]|
    requires M0[k][k] != 0.0 && f == M0[i][k] / M0[k][k]
    requires forall r :: 0 <= r < |M0| && r != i ==> M1[r] == M0[r]
    requires M1[i][k] == 0.0 && forall c :: 0 <= c < k ==> M1[i][c] == M0[i][c]
    requires forall c :: k < c < |M0[i]| ==> M1[i][c] == M0[i][c] - Times(f, M0[k][c])
    ensures M1 == M0[i := Cancelled(M0, k, i)]
  {
    hide Times, Cancelled;
    forall c | 0 <= c < |M1[i]| ensures M1[i][c] == Cancelled(M0, k, i)[c] {
      CancelledAt(M0, k, i, f, c);
    }
    assert M1[i] == Cancelled(M0, k, i);
  }

  method CancelRowsBelow(M: array2<real>, k: nat)
    requires k < M.Length0 && k < M.Length1 && M[k, k] != 0.0
    modifies M
    ensures Rows(M) == CancelBelow(old(Rows(M)), k)
  {
    ghost var M0 := Rows(M);
    for i := k + 1 to M.Length0
      invariant forall r :: 0 <= r < M.Length0 ==>
                  Rows(M)[r] == if k < r < i then Cancelled(M0, k, r) else M0[r]
    {
      assert Rows(M)[k] == M0[k] && Rows(M)[i] == M0[i];
      CancelRow(M, k, i);
    }
  }

  method LoadAugmented(A: array2<real>, b: array<real>) returns (M: array2<real>)
    requires A.Length0 == A.Length1 == b.Length
    ensures fresh(M) && M.Length0 == b.Length && M.Length1 == b.Length + 1
    ensures Rows(M) == Augment(Rows(A), b[..])
  {
    var n := b.Length;
    M := new real[n, n + 1];
    for i := 0 to n
      invariant forall r, c :: 0 <= r < i && 0 <= c < n ==> M[r, c] == A[r, c]
      invariant forall r :: 0 <= r < i ==> M[r, n] == b[r]
    {
      for j := 0 to n
        invariant forall c :: 0 <= c < j ==> M[i, c] == A[i, c]
        invariant forall r, c :: 0 <= r < i && 0 <= c < n ==> M[r, c] == A[r, c]
        invariant forall r :: 0 <= r < i ==> M[r, n] == b[r]
      {
        M[i, j] := A[i, j];
      }
      M[i, n] := b[i];
    }
    ghost var want := Augment(Rows(A), b[..]);
    forall r | 0 <= r < n ensures Rows(M)[r] == want[r] {
    }
  }

  /** The right-hand side of row i with the values found so far taken away; z lists them, and -1. */
  method RightSide(M: array2<real>, x: array<real>, i: nat, ghost z: Vec) returns (s: real)
    requires M.Length0 == x.Length && M.Length1 == x.Length + 1 && i < x.Length
    requires |z| == x.Length + 1 && z[x.Length] == -1.0 && forall j :: i < j < x.Length ==> z[j] == x[j]
    ensures s == -SumProd(Rows(M)[i], z, i + 1, x.Length + 1)
  {
    var n := x.Length;
    ghost var row := Rows(M)[i];
    s := M[i, n];
    for j := i + 1 to n
      invariant s == M[i, n] - SumProd(row, z, i + 1, j)
    {
      s := s - M[i, j] * x[j];
    }
    assert row[n] * z[n] == -row[n];
  }

  /** Unknown i from the ones after it. */
  method Unknown(M: array2<real>, x: array<real>, i: nat, ghost z: Vec) returns (q: real)
    requires M.Length0 == x.Length && M.Length1 == x.Length + 1 && i < x.Length
    requires |z| == x.Length + 1 && z[x.Length] == -1.0 && forall j :: i < j < x.Length ==> z[j] == x[j]
    requires Echelon(Rows(M), i + 1, |z|)
    ensures Echelon(Rows(M), i, |z|) && BackFill(Rows(M), i + 1, z) == BackFill(Rows(M), i, z[i := q])
  {
    hide SumProd, BackFill, Echelon;
    var s := RightSide(M, x, i, z);
    Diagonal(Rows(M), i + 1, |z|);
    q := s / M[i, i];
    BackFillStep(Rows(M), i + 1, z, s, q);
  }

  method BackSubstitute(M: array2<real>, x: array<real>)
    requires M.Length0 == x.Length && M.Length1 == x.Length + 1
    requires Echelon(Rows(M), x.Length, x.Length + 1)
    modifies x
    ensures x[..] + [-1.0] == BackFill(Rows(M), x.Length, Unsolved(x.Length))
  {
    hide Rows, Unsolved, SumProd, BackFill, Echelon;
    var n := x.Length;
    ghost var U, z := Rows(M), Unsolved(n);
    ghost var want := BackFill(U, n, z);
    var i := n - 1;
    while i >= 0
      invariant -1 <= i < n && U == Rows(M) && |z| == n + 1 && Echelon(U, i + 1, n + 1)
      invariant z[n] == -1.0 && forall j :: i < j < n ==> z[j] == x[j]
      invariant BackFill(U, i + 1, z) == want
    {
      x[i] := Unknown(M, x, i, z);
      z := z[i := x[i]];
      i := i - 1;
    }
    assert x[..] + [-1.0] == z == want by {
      BackFillNone(U, z);
    }
  }

  /** gauss_solve: 0 with x the one and only solution, or -1 with x untouched and A within 1e-15 of a
      singular matrix.  A and b are outside the frame, so they keep their values. */
  method GaussSolve(A: array2<real>, b: array<real>, x: array<real>) returns (rc: int)
    requires A.Length0 == A.Length1 == b.Length == x.Length && x != b
    modifies x
    ensures rc == if Triangulate(Augment(Rows(A), b[..]), 0, b.Length + 1).Some? then 0 else -1
    ensures rc == 0 ==> forall y :: |y| == b.Length ==> (Solves(Rows(A), b[..], y) <==> y == x[..])
    ensures rc == -1 ==> x[..] == old(x[..])
    ensures rc == -1 ==> exists z :: |z| == b.Length && NearNull(Rows(A), z)
  {
    hide Triangulate, Step, Echelon, Solves, NearNull, BackFill, Unsolved, Row;
    var M := LoadAugmented(A, b);
    ghost var A0, b0, M0 := Rows(A), b[..], Rows(M);
    var ok := Eliminate(M);
    assert Rows(A) == A0;
    if !ok {
      FailureMeansNearSingular(A0, b0, M0);
      return -1;
    }
    ghost var x0 := SolutionExists(A0, b0, Rows(M));
    BackSubstitute(M, x);
    assert x[..] == (x[..] + [-1.0])[..x.Length] == x0;
    rc := 0;
  }

  method Eliminate(M: array2<real>) returns (ok: bool)
    requires M.Length1 == M.Length0 + 1
    requires Echelon(Rows(M), 0, M.Length1)
    modifies M
    ensures ok <==> old(Triangulate(Rows(M), 0, M.Length1)).Some?
    ensures ok ==> old(Triangulate(Rows(M), 0, M.Length1)) == Some(Rows(M)) && Echelon(Rows(M), M.Length0, M.Length1)
  {
    hide Step, Echelon;
    var n := M.Length0;
    ghost var trace := [Rows(M)];
    StepsStart(Rows(M), n + 1);
    for k := 0 to n
      invariant |trace| == k + 1 && trace[0] == old(Rows(M)) && trace[k] == Rows(M)
      invariant Steps(trace, n, n + 1)
    {
      StepsLast(trace, n, n + 1);
      var maxv := EliminateColumn(M, k);
      if maxv < TINY {
        StepsTriangulate(trace, 0, n, n + 1);
        return false;
      }
      StepsMore(trace, Rows(M), n, n + 1);
      trace := trace + [Rows(M)];
    }
    StepsTriangulate(trace, 0, n, n + 1);
    return true;
  }

  method EliminateColumn(M: array2<real>, k: nat) returns (maxv: real)
    requires k < M.Length0 && M.Length1 == M.Length0 + 1 && Echelon(Rows(M), k, M.Length1)
    modifies M
    ensures maxv < TINY <==> old(Step(Rows(M), k, M.Length1)).None?
    ensures maxv >= TINY ==> Some(Rows(M)) == old(Step(Rows(M), k, M.Length1))
    ensures maxv >= TINY ==> Echelon(Rows(M), k + 1, M.Length1)
  {
    var piv;
    piv, maxv := FindPivot(M, k);
    if maxv < TINY {
      return;
    }
    ghost var before := Rows(M);
    if piv != k {
      assert forall j :: 0 <= j < k ==> before[k][j] == 0.0 && before[piv][j] == 0.0;
      ExchangeRows(M, k, piv);
    }
    assert Rows(M) == SwapRows(before, k, piv);
    CancelRowsBelow(M, k);
  }
}
