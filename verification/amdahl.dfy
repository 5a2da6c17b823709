/**
 Amdahl's law for a fixed workload: on `n` processors the serial remainder
 `T - tp` is unchanged and the parallel portion `tp` shrinks to `tp / n`, so the
 speedup `T / ((T - tp) + tp / n)` saturates at the ceiling `T / (T - tp)`.
 */
module Amdahl {
  import opened ScalingInput
  import opened RealArith

  /** Execution time on `n` processors. */
  function ParallelTime(T: real, tp: real, n: real): (t: real)
    requires ValidTimes(T, tp) && 0.0 < n
    ensures 0.0 < t
    ensures T - tp <= t
    ensures 1.0 <= n ==> t <= T
    ensures n <= 1.0 ==> T <= t
  {
    QuotientBounds(tp, n);
    (T - tp) + tp / n
  }

  /** Speedup on `n` processors relative to the baseline time `T`. */
  function Speedup(T: real, tp: real, n: real): (s: real)
    requires ValidTimes(T, tp) && 0.0 < n
    ensures 0.0 < s
    ensures s * ParallelTime(T, tp, n) == T
  {
    T / ParallelTime(T, tp, n)
  }

  /** The asymptotic ceiling of the speedup: the reciprocal of the serial fraction. */
  function Ceiling(T: real, tp: real): (c: real)
    requires ValidTimes(T, tp) && tp < T
    ensures 1.0 <= c
    ensures c * (T - tp) == T
  {
    T / (T - tp)
  }

  /** The speedup curve: one value per processor count, in the same order. */
  function Scaling(T: real, tp: real, np: seq<real>): (r: seq<real>)
    requires ValidInput(T, tp, np)
    ensures |r| == |np|
    ensures forall i :: 0 <= i < |np| ==> r[i] == Speedup(T, tp, np[i])
  {
    if |np| == 0 then []
    else
      AllPositiveTail(np);
      [Speedup(T, tp, np[0])] + Scaling(T, tp, np[1..])
  }

  /** The ceiling broadcast to the shape of `np`, for overlaying on the curve. */
  function Limit(T: real, tp: real, np: seq<real>): (r: seq<real>)
    requires ValidInput(T, tp, np) && tp < T
    ensures |r| == |np|
    ensures forall i, j :: 0 <= i < |r| && 0 <= j < |r| ==> r[i] == r[j]
    ensures forall i :: 0 <= i < |r| ==> 1.0 <= r[i] && r[i] * (T - tp) == T
  {
    var c := Ceiling(T, tp);
    seq(|np|, _ => c)
  }

  /** The curve, or `InvalidArgument` before anything is computed. */
  function CheckedScaling(T: real, tp: real, np: seq<real>): (r: Outcome<seq<real>>)
    ensures r.Ok? <==> ValidInput(T, tp, np)
    ensures r.Ok? ==> |r.value| == |np|
    ensures r.Ok? ==> forall i :: 0 <= i < |np| ==> r.value[i] == Speedup(T, tp, np[i])
  {
    if ValidInput(T, tp, np) then Ok(Scaling(T, tp, np)) else InvalidArgument
  }

  /** The broadcast ceiling, or `InvalidArgument` when it is undefined or the input is invalid. */
  function CheckedLimit(T: real, tp: real, np: seq<real>): (r: Outcome<seq<real>>)
    ensures r.Ok? <==> ValidInput(T, tp, np) && tp < T
    ensures r.Ok? ==> |r.value| == |np|
    ensures r.Ok? ==> forall i :: 0 <= i < |np| ==> r.value[i] * (T - tp) == T
  {
    if ValidInput(T, tp, np) && tp < T then Ok(Limit(T, tp, np)) else InvalidArgument
  }

  /** The parallel time against the ideal time `T / n` that full parallelism would give. */
  lemma ParallelTimeVersusIdeal(T: real, tp: real, n: real)
    requires ValidTimes(T, tp) && 0.0 < n
    ensures 1.0 <= n ==> T / n <= ParallelTime(T, tp, n)
    ensures n <= 1.0 ==> ParallelTime(T, tp, n) <= T / n
  {
    QuotientBounds(T - tp, n);
    SumOfQuotients(T - tp, tp, n);
  }

  // ---------------------------------------------------------------------------
  // Properties of the law

  /** On one processor there is no speedup, whatever the parallel portion. */
  lemma OneProcessor(T: real, tp: real)
    requires ValidTimes(T, tp)
    ensures Speedup(T, tp, 1.0) == 1.0
  {
    assert tp / 1.0 == tp;
    assert ParallelTime(T, tp, 1.0) == T;
    SelfQuotient(T);
  }

  /** Without parallel work the speedup is 1 on any number of processors. */
  lemma NoParallelWork(T: real, n: real)
    requires 0.0 < T && 0.0 < n
    ensures Speedup(T, 0.0, n) == 1.0
  {
    assert 0.0 / n == 0.0;
    assert ParallelTime(T, 0.0, n) == T;
    SelfQuotient(T);
  }

  /** A fully parallel workload gives the ideal speedup `n`. */
  lemma FullyParallel(T: real, n: real)
    requires 0.0 < T && 0.0 < n
    ensures Speedup(T, T, n) == n
  {
  }

  /**
   More processors never slow the workload down, and they speed it up exactly
   when there is parallel work.
   */
  lemma Monotone(T: real, tp: real, n: real, m: real)
    requires ValidTimes(T, tp) && 0.0 < n <= m
    ensures Speedup(T, tp, n) <= Speedup(T, tp, m)
    ensures Speedup(T, tp, n) < Speedup(T, tp, m) <==> 0.0 < tp && n < m
  {
    QuotientAntitone(tp, n, m);
    QuotientAntitone(T, ParallelTime(T, tp, m), ParallelTime(T, tp, n));
  }

  /** The speedup lies between 1 and `n`: at least 1 and at most `n` from one processor up. */
  lemma BetweenOneAndN(T: real, tp: real, n: real)
    requires ValidTimes(T, tp) && 0.0 < n
    ensures 1.0 <= n ==> 1.0 <= Speedup(T, tp, n) <= n
    ensures n <= 1.0 ==> n <= Speedup(T, tp, n) <= 1.0
  {
    if 1.0 <= n {
      SpeedupFromOneProcessorUp(T, tp, n);
    }
    if n <= 1.0 {
      SpeedupBelowOneProcessor(T, tp, n);
    }
  }

  /** From one processor up the speedup lies in [1, n]. */
  lemma SpeedupFromOneProcessorUp(T: real, tp: real, n: real)
    requires ValidTimes(T, tp) && 1.0 <= n
    ensures 1.0 <= Speedup(T, tp, n) <= n
  {
    var d := ParallelTime(T, tp, n);
    ParallelTimeVersusIdeal(T, tp, n);
    QuotientBounds(T, n);
    DivideByQuotient(T, n);
    SelfQuotient(T);
    QuotientAntitone(T, T / n, d);
    QuotientAntitone(T, d, T);
  }

  /** Below one processor the speedup lies in [n, 1]. */
  lemma SpeedupBelowOneProcessor(T: real, tp: real, n: real)
    requires ValidTimes(T, tp) && 0.0 < n <= 1.0
    ensures n <= Speedup(T, tp, n) <= 1.0
  {
    var d := ParallelTime(T, tp, n);
    ParallelTimeVersusIdeal(T, tp, n);
    QuotientBounds(T, n);
    DivideByQuotient(T, n);
    SelfQuotient(T);
    QuotientAntitone(T, d, T / n);
    QuotientAntitone(T, T, d);
  }

  /** The speedup never exceeds the ceiling, and reaches it only without parallel work. */
  lemma BelowCeiling(T: real, tp: real, n: real)
    requires ValidTimes(T, tp) && tp < T && 0.0 < n
    ensures Speedup(T, tp, n) <= Ceiling(T, tp)
    ensures Speedup(T, tp, n) < Ceiling(T, tp) <==> 0.0 < tp
  {
  }

  /** A processor count beyond which the speedup is within `eps` of the ceiling. */
  function Threshold(T: real, tp: real, eps: real): (N: real)
    requires ValidTimes(T, tp) && tp < T && 0.0 < eps
    ensures 1.0 <= N
  {
    QuotientBounds(tp, T - tp);
    QuotientBounds(Ceiling(T, tp) * (tp / (T - tp)), eps);
    1.0 + Ceiling(T, tp) * (tp / (T - tp)) / eps
  }

  /** The gap to the ceiling, scaled by the parallel time, is the ceiling times the time saved. */
  lemma GapTimesTime(T: real, a: real, d: real, c: real, s: real)
    requires c * a == T && s * d == T
    ensures (c - s) * d == c * (d - a)
  {
    assert (c - s) * d == c * d - s * d;
    assert c * (d - a) == c * d - c * a;
  }

  /** A gap `g` with `g * d == c * w` is at most `c * w / a` when `0 < a <= d`. */
  lemma GapBound(g: real, c: real, w: real, a: real, d: real)
    requires 0.0 < a <= d && 0.0 <= c && 0.0 <= w
    requires g * d == c * w
    ensures g <= c * w / a
  {
    assert g == c * w / d;
    QuotientAntitone(c * w, a, d);
  }

  /** The distance to the ceiling shrinks like `1 / n`. */
  lemma GapToCeiling(T: real, tp: real, n: real)
    requires ValidTimes(T, tp) && tp < T && 0.0 < n
    ensures Ceiling(T, tp) - Speedup(T, tp, n) <= Ceiling(T, tp) * (tp / (T - tp)) / n
  {
    var a, d := T - tp, ParallelTime(T, tp, n);
    var c, s := Ceiling(T, tp), Speedup(T, tp, n);
    var w := tp / n;
    assert s * d == T;
    GapTimesTime(T, a, d, c, s);
    assert d - a == w;
    QuotientBounds(tp, n);
    GapBound(c - s, c, w, a, d);
    Regroup(c, tp, a, n);
  }

  /** The ceiling is the limit of the speedup as the processor count grows. */
  lemma ApproachesCeiling(T: real, tp: real, eps: real, n: real)
    requires ValidTimes(T, tp) && tp < T && 0.0 < eps
    requires Threshold(T, tp, eps) <= n
    ensures Ceiling(T, tp) - Speedup(T, tp, n) < eps
  {
    QuotientBounds(tp, T - tp);
    ShrinksBelow(Ceiling(T, tp) * (tp / (T - tp)), eps, n);
    GapToCeiling(T, tp, n);
  }

  // ---------------------------------------------------------------------------
  // Properties of the curves

  /** A curve sampled over ascending processor counts is itself ascending. */
  lemma ScalingAscending(T: real, tp: real, np: seq<real>)
    requires ValidInput(T, tp, np) && Ascending(np)
    ensures Ascending(Scaling(T, tp, np))
  {
    var r := Scaling(T, tp, np);
    forall i, j | 0 <= i <= j < |r|
      ensures r[i] <= r[j]
    {
      Monotone(T, tp, np[i], np[j]);
    }
  }

  /** Every point of the curve lies on or below the limit curve, strictly below when `tp > 0`. */
  lemma ScalingBelowLimit(T: real, tp: real, np: seq<real>)
    requires ValidInput(T, tp, np) && tp < T
    ensures forall i :: 0 <= i < |np| ==> Scaling(T, tp, np)[i] <= Limit(T, tp, np)[i]
    ensures 0.0 < tp ==> forall i :: 0 <= i < |np| ==> Scaling(T, tp, np)[i] < Limit(T, tp, np)[i]
    ensures tp == 0.0 ==> Scaling(T, tp, np) == Limit(T, tp, np)
  {
    forall i | 0 <= i < |np|
      ensures Scaling(T, tp, np)[i] <= Limit(T, tp, np)[i]
      ensures 0.0 < tp ==> Scaling(T, tp, np)[i] < Limit(T, tp, np)[i]
      ensures tp == 0.0 ==> Scaling(T, tp, np)[i] == Limit(T, tp, np)[i]
    {
      BelowCeiling(T, tp, np[i]);
    }
  }

  /** With `tp == T` the curve is the ideal one: speedup equals processor count. */
  lemma ScalingOfIdeal(T: real, np: seq<real>)
    requires ValidInput(T, T, np)
    ensures Scaling(T, T, np) == np
  {
    forall i | 0 <= i < |np|
      ensures Scaling(T, T, np)[i] == np[i]
    {
      FullyParallel(T, np[i]);
    }
  }

  /** With no parallel work the curve is flat at 1. */
  lemma ScalingWithoutParallelWork(T: real, np: seq<real>)
    requires ValidInput(T, 0.0, np)
    ensures forall i :: 0 <= i < |np| ==> Scaling(T, 0.0, np)[i] == 1.0
  {
    forall i | 0 <= i < |np|
      ensures Scaling(T, 0.0, np)[i] == 1.0
    {
      NoParallelWork(T, np[i]);
    }
  }

  /**
   The divisor as `amdahl_scaling` computes it, `(T - t_p) + t_p / n`, for any
   non-zero count the written guard admits. A negative count pulls it below the
   serial time, and for `0 < t_p < T` exactly one count, `t_p / (t_p - T)`,
   makes it zero.
   */
  function AsWrittenDivisor(T: real, tp: real, n: real): (d: real)
    requires n != 0.0
    ensures 0.0 < tp <= T && n < 0.0 ==> d < T - tp
    ensures 0.0 < tp < T ==> (d == 0.0 <==> n == tp / (tp - T))
  {
    assert (tp / n) * n == tp;
    assert 0.0 < tp < T && (T - tp) + tp / n == 0.0 ==> n * (tp - T) == tp;
    (T - tp) + tp / n
  }

  /**
   An input the written guard accepts on which the written Amdahl divisor is
   zero; the model's domain rejects it.
   */
  lemma SourceGuardAdmitsZeroDivisor()
    ensures SourceGuard(1.0, 0.5, [-1.0])
    ensures AsWrittenDivisor(1.0, 0.5, -1.0) == 0.0
    ensures CheckedScaling(1.0, 0.5, [-1.0]) == InvalidArgument
  {
    SourceGuardAdmitsNegativeCount();
  }
}
