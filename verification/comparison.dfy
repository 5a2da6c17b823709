/**
 How the two laws relate: both depend only on the parallel fraction, both give
 the ideal curve for a fully parallel workload, and the scaled speedup is never
 below the fixed-workload speedup.
 */
module Comparison {
  import opened ScalingInput
  import opened RealArith
  import Amdahl
  import Gustafson

  /**
   Multiplying the scaled work by the parallel time leaves the square of the
   baseline plus an excess `a * b * (n + 1/n - 2)`.
   */
  lemma ProductExcess(a: real, b: real, n: real)
    requires 0.0 < n
    ensures (a + b * n) * (a + b / n) == (a + b) * (a + b) + a * b * (n + 1.0 / n - 2.0)
  {
    assert (b / n) * n == b;
    assert b / n == b * (1.0 / n);
    assert b * n * (b / n) == b * b;
  }

  /** The excess is non-negative, zero at the degenerate points and positive elsewhere. */
  lemma ExcessSign(a: real, b: real, n: real)
    requires 0.0 <= a && 0.0 <= b && 0.0 < n
    ensures 0.0 <= a * b * (n + 1.0 / n - 2.0)
    ensures a == 0.0 || b == 0.0 || n == 1.0 ==> a * b * (n + 1.0 / n - 2.0) == 0.0
    ensures 0.0 < a && 0.0 < b && n != 1.0 ==> 0.0 < a * b * (n + 1.0 / n - 2.0)
  {
    var r := 1.0 / n;
    assert r * n == 1.0;
    ReciprocalSum(n, r);
    var ab, s := a * b, n + r - 2.0;
    ProductNonNegative(a, b);
    ProductNonNegative(ab, s);
    if 0.0 < a && 0.0 < b && n != 1.0 {
      ProductPositive(a, b);
      ProductPositive(ab, s);
    }
  }

  /**
   For valid times the excess is non-negative, and it vanishes exactly on one
   processor, without parallel work, or with a fully parallel workload.
   */
  lemma ExcessVanishes(T: real, tp: real, n: real)
    requires ValidTimes(T, tp) && 0.0 < n
    ensures 0.0 <= (T - tp) * tp * (n + 1.0 / n - 2.0)
    ensures (T - tp) * tp * (n + 1.0 / n - 2.0) == 0.0 <==> n == 1.0 || tp == 0.0 || tp == T
  {
    var a, s := T - tp, n + 1.0 / n - 2.0;
    ExcessSign(a, tp, n);
    if !(n == 1.0 || tp == 0.0 || tp == T) {
      assert 0.0 < a && 0.0 < tp && n != 1.0;
      assert 0.0 < a * tp * s;
    }
  }

  /** Two speedups compared through a common positive time `d`. */
  lemma CompareThroughTime(A: real, G: real, T: real, d: real, e: real)
    requires 0.0 < T && 0.0 < d && 0.0 <= e
    requires A * d == T && T * (G * d) == T * T + e
    ensures A <= G
    ensures A == G <==> e == 0.0
  {
    assert G * d == T + e / T by {
      assert (e / T) * T == e;
    }
    QuotientBounds(e, T);
    assert A * d <= G * d;
    assert A * d == G * d <==> e == 0.0;
  }

  /**
   The scaled speedup is never below the fixed-workload speedup, and the two
   agree exactly on one processor, without parallel work, or with a fully
   parallel workload.
   */
  lemma GustafsonDominatesAmdahl(T: real, tp: real, n: real)
    requires ValidTimes(T, tp) && 0.0 < n
    ensures Amdahl.Speedup(T, tp, n) <= Gustafson.Speedup(T, tp, n)
    ensures Amdahl.Speedup(T, tp, n) == Gustafson.Speedup(T, tp, n) <==>
              n == 1.0 || tp == 0.0 || tp == T
  {
    var a, d := T - tp, Amdahl.ParallelTime(T, tp, n);
    var A, G := Amdahl.Speedup(T, tp, n), Gustafson.Speedup(T, tp, n);
    var e := a * tp * (n + 1.0 / n - 2.0);
    assert A * d == T;
    assert G * T == a + tp * n;
    assert d == a + tp / n;
    ProductExcess(a, tp, n);
    ExcessVanishes(T, tp, n);
    assert (G * T) * d == T * T + e;
    assert T * (G * d) == T * T + e;
    CompareThroughTime(A, G, T, d, e);
  }

  /** Amdahl's speedup depends on `T` and `tp` only through the parallel fraction `f`. */
  lemma AmdahlFromFraction(T: real, tp: real, n: real)
    requires ValidTimes(T, tp) && 0.0 < n
    ensures var f := Gustafson.ParallelFraction(T, tp);
            Amdahl.Speedup(T, tp, n) * ((1.0 - f) + f / n) == 1.0
  {
    var f := Gustafson.ParallelFraction(T, tp);
    var d := Amdahl.ParallelTime(T, tp, n);
    var r := (1.0 - f) + f / n;
    assert f * T == tp;
    assert d == T * r by {
      assert (f / n) * n == f;
      assert (tp / n) * n == tp;
      assert T * (f / n) * n == T * f;
    }
    assert (T / d) * d == T;
  }

  /** The ideal curve: with `tp == T` both laws return the processor counts themselves. */
  lemma IdealCurvesCoincide(T: real, np: seq<real>)
    requires ValidInput(T, T, np)
    ensures Amdahl.Scaling(T, T, np) == np
    ensures Gustafson.Scaling(T, T, np) == np
  {
    Amdahl.ScalingOfIdeal(T, np);
    Gustafson.ScalingOfIdeal(T, np);
  }

  /** Pointwise dominance carried to whole curves over the same processor counts. */
  lemma CurvesDominate(T: real, tp: real, np: seq<real>)
    requires ValidInput(T, tp, np)
    ensures forall i :: 0 <= i < |np| ==> Amdahl.Scaling(T, tp, np)[i] <= Gustafson.Scaling(T, tp, np)[i]
  {
    forall i | 0 <= i < |np|
      ensures Amdahl.Scaling(T, tp, np)[i] <= Gustafson.Scaling(T, tp, np)[i]
    {
      GustafsonDominatesAmdahl(T, tp, np[i]);
    }
  }

  /** The worked scenario `T = 1`, `tp = 0.9` over 1, 2, 4, 8 and 16 processors, for Amdahl's law. */
  lemma AmdahlReferenceScenario()
    ensures Amdahl.Scaling(1.0, 0.9, [1.0, 2.0, 4.0, 8.0, 16.0])
              == [1.0, 20.0 / 11.0, 40.0 / 13.0, 80.0 / 17.0, 6.4]
    ensures Amdahl.Limit(1.0, 0.9, [1.0, 2.0, 4.0, 8.0, 16.0]) == [10.0, 10.0, 10.0, 10.0, 10.0]
  {
  }

  /** The same scenario for the Gustafson-Barsis law, built up one processor count at a time from the end. */
  lemma GustafsonReferenceScenario()
    ensures Gustafson.Scaling(1.0, 0.9, [1.0, 2.0, 4.0, 8.0, 16.0]) == [1.0, 1.9, 3.7, 7.3, 14.5]
  {
    assert Gustafson.Scaling(1.0, 0.9, [16.0]) == [14.5];
    assert Gustafson.Scaling(1.0, 0.9, [8.0, 16.0]) == [7.3] + Gustafson.Scaling(1.0, 0.9, [16.0]);
    assert Gustafson.Scaling(1.0, 0.9, [4.0, 8.0, 16.0]) == [3.7] + Gustafson.Scaling(1.0, 0.9, [8.0, 16.0]);
    assert Gustafson.Scaling(1.0, 0.9, [2.0, 4.0, 8.0, 16.0]) == [1.9] + Gustafson.Scaling(1.0, 0.9, [4.0, 8.0, 16.0]);
    assert Gustafson.Scaling(1.0, 0.9, [1.0, 2.0, 4.0, 8.0, 16.0]) == [1.0] + Gustafson.Scaling(1.0, 0.9, [2.0, 4.0, 8.0, 16.0]);
  }
}
