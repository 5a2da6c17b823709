# Parallel speedup laws

A Dafny model of the two closed-form parallel-speedup laws in the HSS section
meeting helpers (`20200603_hss_section_meeting/helpers.py`):

- **Amdahl's law** (fixed workload). A run of baseline time `T` has a parallel
  portion `t_p`. On `n` processors it takes `(T - t_p) + t_p / n`. The speedup
  `T / ((T - t_p) + t_p / n)` saturates at the ceiling `T / (T - t_p)`.
  `amdahl_scaling` maps the speedup over a vector of processor counts.
  `amdahl_limit` broadcasts the ceiling to the same shape.
- **The Gustafson-Barsis law** (scaled workload). With parallel fraction
  `f_p = t_p / T` and serial fraction `f_s = 1 - f_p`, the scaled speedup is
  `f_s + f_p * n`. `gustafson_scaling` maps it over the processor counts.

The model works over Dafny's exact `real`. A vector of processor counts is a
`seq<real>`, and each curve is the elementwise map over that sequence.

Modules:

- `ScalingInput`: the parameter domain, the `Outcome` result type and the input guard.
  The guard appears twice: once as the model uses it, and once exactly as the
  three helpers write it.
- `Amdahl` and `Gustafson`: the two laws, their curves, checked wrappers and their laws.
- `Comparison`: how the two laws relate, and the worked scenario `T = 1`, `t_p = 0.9`.
- `RealArith`: small facts about real division and products that the proofs share.

Each helper states its preconditions with an `assert` placed before any
arithmetic. In the model they become `requires` clauses on `Scaling` and `Limit`.
The wrappers `CheckedScaling` and `CheckedLimit` have no preconditions. They
return `InvalidArgument` outside the domain, so no partial result exists.

The domain is a deliberate strengthening of the written guard:

- `T > 0`;
- `0 <= t_p <= T`;
- every processor count `n > 0`;
- for the limit only, `t_p < T`, because `amdahl_limit` divides by zero at `t_p == T`.

The written guard `n_p.all() > 0 and t_p <= T` compares the boolean returned by
`all()` with `0`. It therefore rejects only a zero count or `t_p > T`. This
is modelled as `ScalingInput.SourceGuard` and recorded under Findings.

The bound of the speedup by the limit curve is strict only when `t_p > 0`.
When `t_p == 0`, the formulas give 1 for both the speedup and the limit. The
model states the bound as at most the ceiling, and strictly below it exactly
when `t_p > 0`.

## Model

| member | source | states |
|---|---|---|
| Amdahl.ParallelTime | 20200603_hss_section_meeting/helpers.py:7 | the divisor `(T - t_p) + t_p / n` is positive and at least the serial time `T - t_p`; it is at most `T` from one processor up and at least `T` below one processor |
| Amdahl.Speedup | 20200603_hss_section_meeting/helpers.py:7 | the speedup is positive, and multiplied by the parallel time `(T - t_p) + t_p / n` it gives back `T` |
| Amdahl.Scaling | 20200603_hss_section_meeting/helpers.py:5-7 | the curve has one value per processor count, and element `i` is the speedup at `n_p[i]` |
| Amdahl.Ceiling | 20200603_hss_section_meeting/helpers.py:11 | the ceiling is at least 1, and multiplying it by the serial time gives back `T` |
| Amdahl.Limit | 20200603_hss_section_meeting/helpers.py:9-11 | the limit curve has the shape of `n_p`, is constant, and every element is the ceiling: at least 1, and times `T - t_p` it gives `T` |
| Amdahl.CheckedScaling | 20200603_hss_section_meeting/helpers.py:5-7 | returns a curve exactly when the input is in the domain, else `InvalidArgument`; a returned curve has the right length and the speedup at every count |
| Amdahl.CheckedLimit | 20200603_hss_section_meeting/helpers.py:9-11 | returns the ceiling curve exactly when the input is in the domain and `t_p < T`; every returned element times the serial time is `T` |
| Amdahl.ParallelTimeVersusIdeal | 20200603_hss_section_meeting/helpers.py:7 | from one processor up, the parallel time is never below the ideal time `T / n`; below one processor it is never above it |
| Amdahl.OneProcessor | 20200603_hss_section_meeting/helpers.py:7 | on one processor the speedup is exactly 1 for every valid `t_p` |
| Amdahl.NoParallelWork | 20200603_hss_section_meeting/helpers.py:7 | with `t_p = 0` the speedup is 1 for every processor count |
| Amdahl.FullyParallel | 20200603_hss_section_meeting/helpers.py:7 | with `t_p = T` the speedup equals the processor count, which is the ideal curve the plots draw |
| Amdahl.Monotone | 20200603_hss_section_meeting/helpers.py:7 | the speedup is non-decreasing in `n`, and it strictly increases between `n < m` exactly when `t_p > 0` |
| Amdahl.BetweenOneAndN | 20200603_hss_section_meeting/helpers.py:7 | for `n >= 1` the speedup lies in `[1, n]`; for `n <= 1` it lies in `[n, 1]` |
| Amdahl.BelowCeiling | 20200603_hss_section_meeting/helpers.py:7-11 | the speedup never exceeds the ceiling, and it is strictly below it exactly when `t_p > 0` |
| Amdahl.GapToCeiling | 20200603_hss_section_meeting/helpers.py:7-11 | the distance from the speedup to the ceiling is at most `ceiling * (t_p / (T - t_p)) / n`, so it shrinks like `1 / n` |
| Amdahl.ApproachesCeiling | 20200603_hss_section_meeting/helpers.py:7-11 | from the threshold count on, the speedup is within `eps` of the ceiling, so the ceiling is the limit as `n` grows |
| Amdahl.ScalingAscending | 20200603_hss_section_meeting/helpers.py:5-7 | a curve over ascending processor counts is ascending |
| Amdahl.ScalingBelowLimit | 20200603_hss_section_meeting/helpers.py:5-11 | every point of the speedup curve lies on or below the limit curve, strictly below when `t_p > 0`, and the two curves are equal when `t_p = 0` |
| Amdahl.ScalingOfIdeal | 20200603_hss_section_meeting/helpers.py:16-19 | with `t_p = T` the curve is the processor counts themselves |
| Amdahl.ScalingWithoutParallelWork | 20200603_hss_section_meeting/helpers.py:5-7 | with `t_p = 0` every point of the curve is 1 |
| Amdahl.AsWrittenDivisor | 20200603_hss_section_meeting/helpers.py:6-7 | the divisor of line 7 for a non-zero count the written guard admits: with `0 < t_p <= T`, a negative count makes it smaller than the serial time `T - t_p`; with `0 < t_p < T` it is zero exactly at the count `t_p / (t_p - T)` |
| Amdahl.SourceGuardAdmitsZeroDivisor | 20200603_hss_section_meeting/helpers.py:6-7 | the written guard accepts `T = 1`, `t_p = 0.5`, `n_p = [-1]`, where the written divisor is 0; the checked model rejects that input |
| Gustafson.ParallelFraction | 20200603_hss_section_meeting/helpers.py:37 | the parallel fraction lies in `[0, 1]`, and multiplying it by `T` gives back `t_p` |
| Gustafson.Speedup | 20200603_hss_section_meeting/helpers.py:37-39 | the scaled speedup times `T` is the serial time plus `n` copies of the parallel time, `(T - t_p) + t_p * n` |
| Gustafson.Scaling | 20200603_hss_section_meeting/helpers.py:35-40 | the curve has one value per processor count, and element `i` is the scaled speedup at `n_p[i]` |
| Gustafson.CheckedScaling | 20200603_hss_section_meeting/helpers.py:35-40 | returns a curve exactly when the input is in the domain, else `InvalidArgument`; a returned curve has the right length and the scaled speedup at every count |
| Gustafson.OneProcessor | 20200603_hss_section_meeting/helpers.py:37-39 | on one processor the scaled speedup is 1 |
| Gustafson.NoParallelWork | 20200603_hss_section_meeting/helpers.py:37-39 | with `t_p = 0` the scaled speedup is 1 for every processor count |
| Gustafson.FullyParallel | 20200603_hss_section_meeting/helpers.py:37-39 | with `t_p = T` the scaled speedup equals the processor count |
| Gustafson.Affine | 20200603_hss_section_meeting/helpers.py:39 | between any two counts the scaled speedup changes by the parallel fraction times the change in count |
| Gustafson.UnitStep | 20200603_hss_section_meeting/helpers.py:39 | one more processor adds exactly `t_p / T` |
| Gustafson.Monotone | 20200603_hss_section_meeting/helpers.py:39 | the scaled speedup is non-decreasing in `n`, and it strictly increases between `n < m` exactly when `t_p > 0` |
| Gustafson.BetweenOneAndN | 20200603_hss_section_meeting/helpers.py:37-39 | for `n >= 1` the scaled speedup lies in `[1, n]`; for `n <= 1` it lies in `[n, 1]` |
| Gustafson.Unbounded | 20200603_hss_section_meeting/helpers.py:39 | with parallel work the scaled speedup exceeds any bound for some processor count, so it has no ceiling |
| Gustafson.ScalingAscending | 20200603_hss_section_meeting/helpers.py:35-40 | a curve over ascending processor counts is ascending |
| Gustafson.ScalingOfIdeal | 20200603_hss_section_meeting/helpers.py:48 | with `t_p = T` the curve is the processor counts themselves |
| Gustafson.ScalingSteps | 20200603_hss_section_meeting/helpers.py:39 | consecutive points differ by the parallel fraction times the step in processor count |
| ScalingInput.ValidInput | 20200603_hss_section_meeting/helpers.py:6 | the domain every `requires` uses: `T > 0`, `0 <= t_p <= T` and every processor count positive |
| ScalingInput.SourceGuard | 20200603_hss_section_meeting/helpers.py:6 | the guard as written: `all()` is true when no count is zero, and that boolean, compared with `0`, is conjoined with `t_p <= T` |
| ScalingInput.DomainIsGuardPlusSigns | 20200603_hss_section_meeting/helpers.py:6 | an input is in the model's domain exactly when it passes the written guard, `T > 0`, `t_p >= 0` and no count is negative |
| ScalingInput.GuardExcessIsSignErrors | 20200603_hss_section_meeting/helpers.py:6 | an input passes the written guard yet lies outside the domain exactly when `T <= 0`, `t_p < 0` or some count is negative |
| ScalingInput.ValidInputPassesSourceGuard | 20200603_hss_section_meeting/helpers.py:6 | every input in the model's domain passes the written guard, so the domain only narrows it (the left-to-right half of `DomainIsGuardPlusSigns`) |
| ScalingInput.SourceGuardAdmitsNegativeCount | 20200603_hss_section_meeting/helpers.py:6 | the written guard accepts the count `-1`, which the model's domain rejects |
| Comparison.GustafsonDominatesAmdahl | 20200603_hss_section_meeting/helpers.py:35-40 | the scaled speedup is never below the fixed-workload speedup of `amdahl_scaling` on the same inputs; the two are equal exactly when `n = 1`, `t_p = 0` or `t_p = T` |
| Comparison.AmdahlFromFraction | 20200603_hss_section_meeting/helpers.py:5-7 | Amdahl's speedup depends on `T` and `t_p` only through `f_p`: it is the reciprocal of `(1 - f_p) + f_p / n` |
| Comparison.IdealCurvesCoincide | 20200603_hss_section_meeting/helpers.py:45-48 | with `t_p = T` both laws return the processor counts: the Amdahl ideal computed on line 45 and the Gustafson ideal drawn on line 48 are the same curve |
| Comparison.CurvesDominate | 20200603_hss_section_meeting/helpers.py:35-40 | over the same counts, every point of the `gustafson_scaling` curve is on or above the `amdahl_scaling` curve |
| Comparison.AmdahlReferenceScenario | 20200603_hss_section_meeting/helpers.py:5-11 | for `T = 1`, `t_p = 0.9` and counts 1, 2, 4, 8, 16 the speedups are exactly 1, 20/11, 40/13, 80/17 and 6.4, and the limit is 10 throughout |
| Comparison.GustafsonReferenceScenario | 20200603_hss_section_meeting/helpers.py:35-40 | for the same inputs the scaled speedups are exactly 1, 1.9, 3.7, 7.3 and 14.5 |

## Left out

- Plotting (`plot_amdahl_scaling`, `plot_gustafson_scaling`, helpers.py lines 13-32 and 42-58) is matplotlib rendering with side effects and no logic. This includes the unused `ideal` locals (lines 16 and 45) and the legend on line 23, which labels the 0.95 limit as 0.99.
- `np.linspace` sampling (lines 14 and 43) and numpy broadcasting are library behaviour. Processor counts are a plain `seq<real>`, and the sample grid is left out.
- IEEE floating point is left out: rounding of sample values, `inf` and NaN.
- Division by zero in `amdahl_limit` at `t_p == T` is not modelled as a value. With Python float arguments, as every caller in helpers.py passes (`T = 1.0`, `t_p = 0.90 * T`), `T / (T - t_p)` on line 11 raises `ZeroDivisionError`. Only numpy scalar arguments give `inf`. The model excludes `t_p == T` from the limit's domain: `Amdahl.Limit` requires `t_p < T`. The `InvalidArgument` that `Amdahl.CheckedLimit` returns there stands for that exception.
- Amdahl.Scaling: requires `T > 0`, `t_p >= 0` and every count `> 0`. The guard of `amdahl_scaling` checks only for a zero count and `t_p <= T`. The narrower domain keeps every division defined; see Findings.
- Amdahl.Limit: requires the same domain as `Amdahl.Scaling`, plus `t_p < T`.
- Gustafson.Scaling: requires the same domain as `Amdahl.Scaling`. The formula of `gustafson_scaling` has no division by a count, so it would also compute on negative counts.
- The `AssertionError` raised by the guards becomes the `InvalidArgument` value of the checked wrappers. No exception or message is modelled.
- Running under `python -O` is not modelled. The interpreter then strips the asserts on lines 6, 10 and 36, so nothing is rejected and the formulas run on any input. The model always applies the guard first.

## Findings

| source | as written | input that shows it | evidently intended | confidence | as-written member | corrected member |
|---|---|---|---|---|---|---|
| 20200603_hss_section_meeting/helpers.py:6 | `n_p.all() > 0` compares the boolean returned by `all()` with 0, so only a zero count is rejected | `T = 1`, `t_p = 0.5`, `n_p = [-1]`: the guard passes and the divisor `(T - t_p) + t_p / n` is `0.5 - 0.5 = 0` | every processor count is positive, so the divisor is positive | not executed | Amdahl.AsWrittenDivisor, Amdahl.SourceGuardAdmitsZeroDivisor | Amdahl.CheckedScaling |
