/**
 The two airmouse filters, over the reals: the daemon's low-pass filter (tools/src/airmouse.c) and the
 kernel module's (kernel/lg_magic_airmouse.c).
 */
module Airmouse {
  import opened Reals

  function Mix(alpha: real, g: real, prev: real): real {
    Times(alpha, g) + Times(1.0 - alpha, prev)
  }

  /** A mixture stays between bounds that its two parts respect. */
  lemma MixBetween(alpha: real, g: real, prev: real, lo: real, hi: real)
    requires 0.0 <= alpha <= 1.0 && lo <= g <= hi && lo <= prev <= hi
    ensures lo <= Mix(alpha, g, prev) <= hi
  {
    Scaled(alpha, g, lo, hi);
    Scaled(1.0 - alpha, prev, lo, hi);
    Complement(alpha, lo);
    Complement(alpha, hi);
    hide Times;
  }

  lemma Complement(a: real, x: real)
    ensures Times(a, x) + Times(1.0 - a, x) == x
  {
  }

  lemma Scaled(a: real, x: real, lo: real, hi: real)
    requires 0.0 <= a && lo <= x <= hi
    ensures Times(a, lo) <= Times(a, x) <= Times(a, hi)
  {
  }

  lemma ProductBound(a: real, x: real, m: real)
    requires Abs(x) <= m
    ensures Abs(Times(x, a)) <= Times(Abs(a), m)
  {
    Scaled(Abs(a), x, -m, m);
    Negate(Abs(a), m);
    Negate(Abs(a), x);
    Commute(a, x);
    hide Times;
  }

  lemma Negate(a: real, x: real)
    ensures Times(a, -x) == -Times(a, x) && Times(x, -a) == -Times(a, x)
  {
  }

  lemma Commute(a: real, x: real)
    ensures Times(x, a) == Times(a, x)
  {
  }

  /** Pointer motion for a filter output. */
  function Move(out: real, scale: real): int {
    Trunc(Times(-out, scale))
  }

  /** The motion is minus the filter output times the scale, without its fraction. */
  lemma MoveIs(out: real, scale: real)
    ensures TruncatesTo(-Times(out, scale), Move(out, scale))
  {
    TruncIs(Times(-out, scale));
    assert Times(-out, scale) == -Times(out, scale);
  }

  lemma MoveOutBound(out: real, scale: real, m: real)
    requires Abs(out) <= m
    ensures Abs(Move(out, scale) as real) <= Times(Abs(scale), m)
  {
    ProductBound(scale, -out, m);
    TruncBound(Times(-out, scale));
  }

  // ------------------------------------------------------------------
  // The filter over a run of samples
  // ------------------------------------------------------------------

  /** The filter state after the samples gs, from 0. */
  function Filter(alpha: real, gs: seq<real>): real
    decreases |gs|
  {
    if gs == [] then 0.0 else Mix(alpha, gs[|gs| - 1], Filter(alpha, gs[..|gs| - 1]))
  }

  function Pow(x: real, n: nat): real {
    if n == 0 then 1.0 else Times(x, Pow(x, n - 1))
  }

  /** sum over k < m of alpha (1 - alpha)^(n - 1 - k) gs[k]. */
  function Weighted(alpha: real, gs: seq<real>, n: nat, m: nat): real
    requires m <= |gs| && m <= n
  {
    if m == 0 then 0.0
    else Weighted(alpha, gs, n, m - 1) + Times(Times(alpha, Pow(1.0 - alpha, n - m)), gs[m - 1])
  }

  lemma {:induction false} WeightedAges(alpha: real, gs: seq<real>, n: nat, m: nat)
    requires m <= |gs| && m <= n
    ensures Weighted(alpha, gs, n + 1, m) == Times(1.0 - alpha, Weighted(alpha, gs, n, m))
  {
    if m > 0 {
      WeightedAges(alpha, gs, n, m - 1);
      AgedTerm(alpha, 1.0 - alpha, Pow(1.0 - alpha, n - m), gs[m - 1]);
      TimesSum(1.0 - alpha, Weighted(alpha, gs, n, m - 1), Times(Times(alpha, Pow(1.0 - alpha, n - m)), gs[m - 1]));
    }
    hide Times;
  }

  lemma AgedTerm(alpha: real, b: real, p: real, g: real)
    ensures Times(Times(alpha, Times(b, p)), g) == Times(b, Times(Times(alpha, p), g))
  {
  }

  lemma TimesSum(b: real, x: real, y: real)
    ensures Times(b, x + y) == Times(b, x) + Times(b, y)
  {
  }

  lemma {:induction false} WeightedCong(alpha: real, gs: seq<real>, hs: seq<real>, n: nat, m: nat)
    requires m <= |gs| && m <= |hs| && m <= n && gs[..m] == hs[..m]
    ensures Weighted(alpha, gs, n, m) == Weighted(alpha, hs, n, m)
  {
    if m > 0 {
      assert gs[..m][m - 1] == hs[..m][m - 1];
      assert gs[..m - 1] == gs[..m][..m - 1] && hs[..m - 1] == hs[..m][..m - 1];
      WeightedCong(alpha, gs, hs, n, m - 1);
    }
  }

  /** The recursive filter is the exponentially weighted sum of its inputs. */
  lemma {:induction false} FilterIsWeightedSum(alpha: real, gs: seq<real>)
    ensures Filter(alpha, gs) == Weighted(alpha, gs, |gs|, |gs|)
    decreases |gs|
  {
    if gs != [] {
      var n, init := |gs|, gs[..|gs| - 1];
      FilterIsWeightedSum(alpha, init);
      WeightedAges(alpha, init, n - 1, n - 1);
      WeightedCong(alpha, init, gs, n, n - 1);
      assert Times(alpha, Pow(1.0 - alpha, 0)) == alpha by {
        Complement(alpha, 1.0);
      }
    }
  }

  /** The output lies in the hull of 0 and the inputs. */
  lemma {:induction false} FilterInHull(alpha: real, gs: seq<real>, lo: real, hi: real)
    requires 0.0 <= alpha <= 1.0 && lo <= 0.0 <= hi && forall k :: 0 <= k < |gs| ==> lo <= gs[k] <= hi
    ensures lo <= Filter(alpha, gs) <= hi
    decreases |gs|
  {
    if gs != [] {
      FilterInHull(alpha, gs[..|gs| - 1], lo, hi);
      MixBetween(alpha, gs[|gs| - 1], Filter(alpha, gs[..|gs| - 1]), lo, hi);
    }
  }

  /** The pointer never moves further in one frame than the scale times the fastest rotation so far. */
  lemma MoveBound(alpha: real, scale: real, gs: seq<real>, m: real)
    requires 0.0 <= alpha <= 1.0 && m >= 0.0 && forall k :: 0 <= k < |gs| ==> Abs(gs[k]) <= m
    ensures Abs(Move(Filter(alpha, gs), scale) as real) <= Times(Abs(scale), m)
  {
    FilterInHull(alpha, gs, -m, m);
    MoveOutBound(Filter(alpha, gs), scale, m);
  }

  /** One component of each sample. */
  function Axis<T>(samples: seq<seq<T>>, j: nat): (c: seq<T>)
    requires j < 3 && forall i :: 0 <= i < |samples| ==> |samples[i]| == 3
    ensures |c| == |samples| && forall i :: 0 <= i < |c| ==> c[i] == samples[i][j]
  {
    seq(|samples|, i requires 0 <= i < |samples| => samples[i][j])
  }

  /** struct airmouse and its two operations. */
  class Engine {
    var alpha: real
    var scale: real
    const prev: array<real>
    ghost var samples: seq<seq<real>>

    /** prev is the filter state of the samples processed since the last initialisation. */
    ghost predicate Valid()
      reads this, prev
    {
      && prev.Length == 3
      && (forall i :: 0 <= i < |samples| ==> |samples[i]| == 3)
      && forall j :: 0 <= j < 3 ==> prev[j] == Filter(alpha, Axis(samples, j))
    }

    constructor ()
      ensures Valid() && fresh(prev) && samples == []
    {
      prev := new real[3](_ => 0.0);
      samples, alpha, scale := [], 0.0, 0.0;
    }

    method Init(a: real, s: real)
      requires Valid()
      modifies this, prev
      ensures Valid() && samples == [] && alpha == a && scale == s
    {
      alpha, scale := a, s;
      prev[0], prev[1], prev[2] := 0.0, 0.0, 0.0;
      samples := [];
    }

    method Process(g: seq<real>, out: array<real>) returns (dx: int, dy: int)
      requires Valid() && |g| == 3 && out.Length == 3 && out != prev
      modifies this`samples, prev, out
      ensures Valid() && samples == old(samples) + [g]
      ensures forall j :: 0 <= j < 3 ==> out[j] == Filter(alpha, Axis(samples, j))
      ensures dx == Move(Filter(alpha, Axis(samples, 2)), scale)
      ensures dy == Move(Filter(alpha, Axis(samples, 1)), scale)
      ensures TruncatesTo(-Times(out[2], scale), dx) && TruncatesTo(-Times(out[1], scale), dy)
    {
      hide Mix, Move, Filter, Axis, TruncatesTo, Times;
      out[0] := Mix(alpha, g[0], prev[0]);
      out[1] := Mix(alpha, g[1], prev[1]);
      out[2] := Mix(alpha, g[2], prev[2]);
      ghost var before := samples;
      samples := samples + [g];
      FilterAppend(alpha, before, g, 0);
      FilterAppend(alpha, before, g, 1);
      FilterAppend(alpha, before, g, 2);
      prev[0] := out[0];
      prev[1] := out[1];
      prev[2] := out[2];
      dx := Move(out[2], scale);
      dy := Move(out[1], scale);
      MoveIs(out[2], scale);
      MoveIs(out[1], scale);
    }
  }

  lemma FilterAppend(alpha: real, samples: seq<seq<real>>, g: seq<real>, j: nat)
    requires j < 3 && |g| == 3 && forall i :: 0 <= i < |samples| ==> |samples[i]| == 3
    ensures Filter(alpha, Axis(samples + [g], j)) == Mix(alpha, g[j], Filter(alpha, Axis(samples, j)))
  {
    assert Axis(samples + [g], j)[..|samples|] == Axis(samples, j);
  }

  // ------------------------------------------------------------------
  // The kernel filter
  // ------------------------------------------------------------------

  datatype Calib = Calib(gyroBias: seq<real>, gyroScale: seq<real>, alpha: real, mouseK: real) {
    ghost predicate Shape() { |gyroBias| == 3 && |gyroScale| == 3 }
  }

  /** lgmagic_validate_calib accepts exactly these tables. */
  ghost predicate ValidCalib(c: Calib) {
    && c.Shape()
    && (forall i :: 0 <= i < 3 ==> Abs(c.gyroBias[i]) <= 100.0 && Abs(c.gyroScale[i]) <= 10.0)
    && 0.0 <= c.alpha <= 1.0
    && 0.0 <= c.mouseK <= 1.0
  }

  method ValidateCalib(c: Calib) returns (rc: int)
    requires c.Shape()
    ensures rc == if ValidCalib(c) then 0 else 1
    ensures rc == 0 <==>
            && (forall i :: 0 <= i < 3 ==> -100.0 <= c.gyroBias[i] <= 100.0 && -10.0 <= c.gyroScale[i] <= 10.0)
            && 0.0 <= c.alpha <= 1.0 && 0.0 <= c.mouseK <= 1.0
  {
    for i := 0 to 3
      invariant forall k :: 0 <= k < i ==> Abs(c.gyroBias[k]) <= 100.0 && Abs(c.gyroScale[k]) <= 10.0
    {
      if Abs(c.gyroBias[i]) > 100.0 || Abs(c.gyroScale[i]) > 10.0 {
        return 1;
      }
    }
    if c.alpha < 0.0 || c.alpha > 1.0 {
      return 1;
    }
    if c.mouseK < 0.0 || c.mouseK > 1.0 {
      return 1;
    }
    return 0;
  }

  function Corrected(c: Calib, g: int, i: nat): real
    requires c.Shape() && i < 3
  {
    Times(g as real - c.gyroBias[i], c.gyroScale[i])
  }

  const GYRO_LIMIT: real := 328680.0

  /** A signed 16-bit reading, less a bias of at most 100, times a scale of at most 10. */
  lemma CorrectedBound(c: Calib, g: int, i: nat)
    requires ValidCalib(c) && i < 3 && -32768 <= g <= 32767
    ensures Abs(Corrected(c, g, i)) <= GYRO_LIMIT
  {
    var x := g as real - c.gyroBias[i];
    ProductBound(c.gyroScale[i], x, 32868.0);
    assert Times(Abs(c.gyroScale[i]), 32868.0) <= GYRO_LIMIT;
  }

  /** The filter state on axis i after the readings gs. */
  function GyroRun(c: Calib, gs: seq<int>, i: nat): real
    requires c.Shape() && i < 3
    decreases |gs|
  {
    if gs == [] then 0.0
    else Mix(c.alpha, Corrected(c, gs[|gs| - 1], i), GyroRun(c, gs[..|gs| - 1], i))
  }

  /** The three filter states after the readings of all axes. */
  ghost predicate IsGyroState(c: Calib, gyros: seq<seq<int>>, acc: seq<real>) {
    && c.Shape() && |acc| == 3
    && (forall n :: 0 <= n < |gyros| ==> |gyros[n]| == 3 && forall i :: 0 <= i < 3 ==> -32768 <= gyros[n][i] <= 32767)
    && forall i :: 0 <= i < 3 ==> acc[i] == GyroRun(c, Axis(gyros, i), i)
  }

  lemma GyroStateMore(c: Calib, gyros: seq<seq<int>>, acc: seq<real>, g: seq<int>, acc': seq<real>)
    requires IsGyroState(c, gyros, acc) && |acc'| == 3
    requires |g| == 3 && forall i :: 0 <= i < 3 ==> -32768 <= g[i] <= 32767
    requires forall i :: 0 <= i < 3 ==> acc'[i] == Mix(c.alpha, Corrected(c, g[i], i), acc[i])
    ensures IsGyroState(c, gyros + [g], acc')
  {
    hide Mix, Corrected;
    forall i | 0 <= i < 3 ensures acc'[i] == GyroRun(c, Axis(gyros + [g], i), i) {
      assert Axis(gyros + [g], i)[..|gyros|] == Axis(gyros, i);
    }
  }

  lemma GyroStateBounded(c: Calib, gyros: seq<seq<int>>, acc: seq<real>)
    requires IsGyroState(c, gyros, acc) && ValidCalib(c)
    ensures forall i :: 0 <= i < 3 ==> Abs(acc[i]) <= GYRO_LIMIT
    ensures forall i :: 0 <= i < 3 ==> Abs(Trunc(Times(acc[i], c.mouseK)) as real) <= GYRO_LIMIT
  {
    forall i | 0 <= i < 3
      ensures Abs(acc[i]) <= GYRO_LIMIT && Abs(Trunc(Times(acc[i], c.mouseK)) as real) <= GYRO_LIMIT
    {
      GyroBounded(c, Axis(gyros, i), i);
    }
  }

  /** The readings, each less its bias and times its scale. */
  function CorrectedAll(c: Calib, gs: seq<int>, i: nat): (r: seq<real>)
    requires c.Shape() && i < 3
    ensures |r| == |gs| && forall k :: 0 <= k < |gs| ==> r[k] == (gs[k] as real - c.gyroBias[i]) * c.gyroScale[i]
  {
    seq(|gs|, k requires 0 <= k < |gs| => Corrected(c, gs[k], i))
  }

  /** The kernel's filter state is the exponentially weighted sum of the corrected readings. */
  lemma {:induction false} GyroRunIsWeightedSum(c: Calib, gs: seq<int>, i: nat)
    requires c.Shape() && i < 3
    ensures GyroRun(c, gs, i) == Weighted(c.alpha, CorrectedAll(c, gs, i), |gs|, |gs|)
    decreases |gs|
  {
    GyroRunIsFilter(c, gs, i);
    FilterIsWeightedSum(c.alpha, CorrectedAll(c, gs, i));
  }

  lemma {:induction false} GyroRunIsFilter(c: Calib, gs: seq<int>, i: nat)
    requires c.Shape() && i < 3
    ensures GyroRun(c, gs, i) == Filter(c.alpha, CorrectedAll(c, gs, i))
    decreases |gs|
  {
    hide Mix, Corrected;
    if gs != [] {
      var init := gs[..|gs| - 1];
      GyroRunIsFilter(c, init, i);
      var all := CorrectedAll(c, gs, i);
      LastCorrected(c, gs, i);
    }
  }

  lemma LastCorrected(c: Calib, gs: seq<int>, i: nat)
    requires c.Shape() && i < 3 && gs != []
    ensures var all := CorrectedAll(c, gs, i);
            all[..|gs| - 1] == CorrectedAll(c, gs[..|gs| - 1], i) && all[|gs| - 1] == Corrected(c, gs[|gs| - 1], i)
  {
  }

  /** With a validated calibration the filter state stays within 328680 for ever, and so does the
      pointer motion derived from it. */
  lemma {:induction false} GyroBounded(c: Calib, gs: seq<int>, i: nat)
    requires ValidCalib(c) && i < 3 && forall k :: 0 <= k < |gs| ==> -32768 <= gs[k] <= 32767
    ensures Abs(GyroRun(c, gs, i)) <= 328680.0
    ensures Abs(Trunc(Times(GyroRun(c, gs, i), c.mouseK)) as real) <= GYRO_LIMIT
    decreases |gs|
  {
    if gs != [] {
      GyroBounded(c, gs[..|gs| - 1], i);
      CorrectedBound(c, gs[|gs| - 1], i);
      MixBetween(c.alpha, Corrected(c, gs[|gs| - 1], i), GyroRun(c, gs[..|gs| - 1], i), -GYRO_LIMIT, GYRO_LIMIT);
    }
    ProductBound(c.mouseK, GyroRun(c, gs, i), GYRO_LIMIT);
    assert Times(Abs(c.mouseK), GYRO_LIMIT) <= GYRO_LIMIT;
    TruncBound(Times(GyroRun(c, gs, i), c.mouseK));
  }

  /** lgmagic_calc_mouse: filter the three axes in place, derive the motion, compare with the threshold. */
  method CalcMouse(c: Calib, acc: array<real>, threshold: nat, gyro: seq<int>) returns (big: bool, mx: int, my: int)
    requires c.Shape() && acc.Length == 3 && |gyro| == 3
    modifies acc
    ensures forall i :: 0 <= i < 3 ==> acc[i] == Mix(c.alpha, Corrected(c, gyro[i], i), old(acc[i]))
    ensures mx == Trunc(Times(acc[2], c.mouseK)) && my == Trunc(Times(acc[0], c.mouseK))
    ensures big <==> Abs(acc[0]) > threshold as real || Abs(acc[2]) > threshold as real
  {
    for i := 0 to 3
      invariant forall k :: 0 <= k < i ==> acc[k] == Mix(c.alpha, Corrected(c, gyro[k], k), old(acc[k]))
      invariant forall k :: i <= k < 3 ==> acc[k] == old(acc[k])
    {
      var corr := Times(gyro[i] as real - c.gyroBias[i], c.gyroScale[i]);
      acc[i] := Mix(c.alpha, corr, acc[i]);
    }
    mx := Trunc(Times(acc[2], c.mouseK));
    my := Trunc(Times(acc[0], c.mouseK));
    big := Abs(acc[0]) > threshold as real || Abs(acc[2]) > threshold as real;
  }
}
