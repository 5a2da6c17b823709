/**
 The Gustafson-Barsis law for a scaled workload: the parallel portion grows
 with the processor count, so the scaled speedup `(1 - f_p) + f_p * n`, with
 parallel fraction `f_p = tp / T`, grows linearly in `n` with slope `f_p`.
 */
module Gustafson {
  import opened ScalingInput
  import opened RealArith

  /** The fraction of the baseline time that can run in parallel. */
  function ParallelFraction(T: real, tp: real): (fp: real)
    requires ValidTimes(T, tp)
    ensures 0.0 <= fp <= 1.0
    ensures fp * T == tp
  {
    tp / T
  }

  /**
   Scaled speedup on `n` processors: the serial fraction plus `n` times the
   parallel fraction. Equivalently, the time one processor would need for the
   workload scaled up to `n` processors, relative to the baseline `T`.
   */
  function Speedup(T: real, tp: real, n: real): (g: real)
    requires ValidTimes(T, tp) && 0.0 < n
    ensures g * T == (T - tp) + tp * n
  {
    var fp := ParallelFraction(T, tp);
    var fs := 1.0 - fp;
    fs + fp * n
  }

  /** The scaled-speedup curve: one value per processor count, in the same order. */
  function Scaling(T: real, tp: real, np: seq<real>): (r: seq<real>)
    requires ValidInput(T, tp, np)
    ensures |r| == |np|
    ensures forall i :: 0 <= i < |np| ==> r[i] == Speedup(T, tp, np[i])
  {
    if |np| == 0 then []
    else
      AllPositiveTail(np);
      [Speedup(T, tp, np[0])] + Scaling(T, tp, np[1..])
  }

  /** The curve, or `InvalidArgument` before anything is computed. */
  function CheckedScaling(T: real, tp: real, np: seq<real>): (r: Outcome<seq<real>>)
    ensures r.Ok? <==> ValidInput(T, tp, np)
    ensures r.Ok? ==> |r.value| == |np|
    ensures r.Ok? ==> forall i :: 0 <= i < |np| ==> r.value[i] == Speedup(T, tp, np[i])
  {
    if ValidInput(T, tp, np) then Ok(Scaling(T, tp, np)) else InvalidArgument
  }

  // ---------------------------------------------------------------------------
  // Properties of the law

  /** On one processor there is no speedup, whatever the parallel portion. */
  lemma OneProcessor(T: real, tp: real)
    requires ValidTimes(T, tp)
    ensures Speedup(T, tp, 1.0) == 1.0
  {
  }

  /** Without parallel work the scaled speedup is 1 on any number of processors. */
  lemma NoParallelWork(T: real, n: real)
    requires 0.0 < T && 0.0 < n
    ensures Speedup(T, 0.0, n) == 1.0
  {
  }

  /** A fully parallel workload gives the ideal speedup `n`. */
  lemma FullyParallel(T: real, n: real)
    requires 0.0 < T && 0.0 < n
    ensures Speedup(T, T, n) == n
  {
  }

  /** The curve is affine: between any two counts it rises by the parallel fraction per processor. */
  lemma Affine(T: real, tp: real, n: real, m: real)
    requires ValidTimes(T, tp) && 0.0 < n && 0.0 < m
    ensures Speedup(T, tp, m) - Speedup(T, tp, n) == ParallelFraction(T, tp) * (m - n)
  {
  }

  /** One more processor adds exactly the parallel fraction. */
  lemma UnitStep(T: real, tp: real, n: real)
    requires ValidTimes(T, tp) && 0.0 < n
    ensures Speedup(T, tp, n + 1.0) - Speedup(T, tp, n) == tp / T
  {
    Affine(T, tp, n, n + 1.0);
  }

  /**
   More processors never lower the scaled speedup, and they raise it exactly
   when there is parallel work.
   */
  lemma Monotone(T: real, tp: real, n: real, m: real)
    requires ValidTimes(T, tp) && 0.0 < n <= m
    ensures Speedup(T, tp, n) <= Speedup(T, tp, m)
    ensures Speedup(T, tp, n) < Speedup(T, tp, m) <==> 0.0 < tp && n < m
  {
    Affine(T, tp, n, m);
    var fp, step := ParallelFraction(T, tp), m - n;
    ProductNonNegative(fp, step);
    if 0.0 < tp && n < m {
      QuotientBounds(tp, T);
      ProductPositive(fp, step);
    } else {
      assert fp == 0.0 || step == 0.0;
    }
  }

  /** The scaled speedup lies between 1 and `n` (in whichever order they come). */
  lemma BetweenOneAndN(T: real, tp: real, n: real)
    requires ValidTimes(T, tp) && 0.0 < n
    ensures 1.0 <= n ==> 1.0 <= Speedup(T, tp, n) <= n
    ensures n <= 1.0 ==> n <= Speedup(T, tp, n) <= 1.0
  {
    BetweenOneAndPoint(ParallelFraction(T, tp), n);
  }

  /** With parallel work the scaled speedup has no ceiling: it exceeds any bound. */
  lemma Unbounded(T: real, tp: real, bound: real)
    requires ValidTimes(T, tp) && 0.0 < tp
    ensures exists n :: 0.0 < n && bound < Speedup(T, tp, n)
  {
    var fp := ParallelFraction(T, tp);
    var n := 1.0 + (if bound < 1.0 then 0.0 else (bound - 1.0) / fp + 1.0);
    OneProcessor(T, tp);
    Affine(T, tp, 1.0, n);
    assert Speedup(T, tp, n) == 1.0 + fp * (n - 1.0);
    if 1.0 <= bound {
      assert fp * ((bound - 1.0) / fp) == bound - 1.0;
      assert fp * (n - 1.0) == (bound - 1.0) + fp;
    }
  }

  // ---------------------------------------------------------------------------
  // Properties of the curves

  /** A curve sampled over ascending processor counts is itself ascending. */
  lemma ScalingAscending(T: real, tp: real, np: seq<real>)
    requires ValidInput(T, tp, np) && Ascending(np)
    ensures Ascending(Scaling(T, tp, np))
  {
    var r := Scaling(T, tp, np);
    forall i, j | 0 <= i <= j < |r|
      ensures r[i] <= r[j]
    {
      Monotone(T, tp, np[i], np[j]);
    }
  }

  /** With `tp == T` the curve is the ideal one: speedup equals processor count. */
  lemma ScalingOfIdeal(T: real, np: seq<real>)
    requires ValidInput(T, T, np)
    ensures Scaling(T, T, np) == np
  {
    forall i | 0 <= i < |np|
      ensures Scaling(T, T, np)[i] == np[i]
    {
      FullyParallel(T, np[i]);
    }
  }

  /** Consecutive points of a curve differ by the parallel fraction times the step in processor count. */
  lemma ScalingSteps(T: real, tp: real, np: seq<real>)
    requires ValidInput(T, tp, np)
    ensures forall i :: 0 <= i < |np| - 1 ==>
              Scaling(T, tp, np)[i + 1] - Scaling(T, tp, np)[i] == ParallelFraction(T, tp) * (np[i + 1] - np[i])
  {
    var r := Scaling(T, tp, np);
    forall i | 0 <= i < |np| - 1
      ensures r[i + 1] - r[i] == ParallelFraction(T, tp) * (np[i + 1] - np[i])
    {
      var n, m := np[i], np[i + 1];
      assert r[i] == Speedup(T, tp, n) && r[i + 1] == Speedup(T, tp, m);
      Affine(T, tp, n, m);
    }
  }
}
