/**
 The parameter set shared by both speedup laws: the baseline execution time
 `T`, its parallelisable portion `tp`, and a sequence `np` of processor counts.
 This module also states the guard the laws check before computing, both as
 the model uses it and as `amdahl_scaling`, `amdahl_limit` and
 `gustafson_scaling` write it.
 */
module ScalingInput {

  /** A whole result, or the single error kind of the checked operations. */
  datatype Outcome<+R> = Ok(value: R) | InvalidArgument

  /** The baseline time is positive and its parallel portion lies in [0, T]. */
  predicate ValidTimes(T: real, tp: real) {
    0.0 < T && 0.0 <= tp <= T
  }

  /** Every processor count is positive. */
  predicate AllPositive(np: seq<real>) {
    forall i :: 0 <= i < |np| ==> 0.0 < np[i]
  }

  /** The domain on which both laws are defined. */
  predicate ValidInput(T: real, tp: real, np: seq<real>) {
    ValidTimes(T, tp) && AllPositive(np)
  }

  /** Processor counts listed in non-decreasing order, as a sampled range is. */
  predicate Ascending(xs: seq<real>) {
    forall i, j :: 0 <= i <= j < |xs| ==> xs[i] <= xs[j]
  }

  /** The truth value of an array under numpy's `all()`: no element is zero. */
  predicate NumpyAll(np: seq<real>) {
    forall i :: 0 <= i < |np| ==> np[i] != 0.0
  }

  /** Python compares a bool with an int by reading True as 1 and False as 0. */
  function BoolAsInt(b: bool): int {
    if b then 1 else 0
  }

  /**
   The guard exactly as the three helpers write it, `n_p.all() > 0 and t_p <= T`:
   the comparison `> 0` is applied to the boolean `all()` returns, not to the
   elements.
   */
  predicate SourceGuard(T: real, tp: real, np: seq<real>) {
    BoolAsInt(NumpyAll(np)) > 0 && tp <= T
  }

  /**
   The model's domain is exactly the written guard plus what it fails to check:
   a positive `T`, a non-negative `tp`, and no negative count.
   */
  lemma DomainIsGuardPlusSigns(T: real, tp: real, np: seq<real>)
    ensures ValidInput(T, tp, np) <==>
              SourceGuard(T, tp, np) && 0.0 < T && 0.0 <= tp &&
              (forall i :: 0 <= i < |np| ==> 0.0 <= np[i])
  {
  }

  /** What the written guard lets through beyond the domain is a sign error and nothing else. */
  lemma GuardExcessIsSignErrors(T: real, tp: real, np: seq<real>)
    ensures SourceGuard(T, tp, np) && !ValidInput(T, tp, np) <==>
              SourceGuard(T, tp, np) && (T <= 0.0 || tp < 0.0 || exists i :: 0 <= i < |np| && np[i] < 0.0)
  {
    DomainIsGuardPlusSigns(T, tp, np);
  }

  /** The model's domain is a strengthening: whatever it admits, the written guard admits. */
  lemma ValidInputPassesSourceGuard(T: real, tp: real, np: seq<real>)
    requires ValidInput(T, tp, np)
    ensures SourceGuard(T, tp, np)
  {
    DomainIsGuardPlusSigns(T, tp, np);
  }

  /** The written guard lets a negative processor count through; the model's domain does not. */
  lemma SourceGuardAdmitsNegativeCount()
    ensures SourceGuard(1.0, 0.5, [-1.0])
    ensures !ValidInput(1.0, 0.5, [-1.0])
  {
    assert [-1.0][0] == -1.0;
  }

  /** Positivity of every element survives dropping the head. */
  lemma AllPositiveTail(np: seq<real>)
    requires AllPositive(np) && |np| > 0
    ensures AllPositive(np[1..])
  {
  }
}
