# crypto_benchmark measurement core in Dafny

This project models the two pure parts of the `crypto_benchmark` Rust crate.

- **The measurement engine** (`src/measurement.rs`). `benchmark_operation` first runs `min(10, iterations / 10)` warm-up calls and discards their results. It then times exactly `iterations` calls. From those durations it computes a mean truncated to whole nanoseconds, the minimum, the maximum and a population variance over microsecond-truncated samples. `mean_micros` reports the mean in whole microseconds. `quick_benchmark` times a single call.
- **Error rendering** (`src/error.rs`). Each of the six `BenchmarkError` variants is displayed as a fixed prefix ending in `": "`, followed by its message.

The wall clock is an input. `elapsed(i)` is the nanosecond duration reported by the i-th measured call. Warm-up calls are not timed, so they produce no sample. A ghost counter records how many times the operation is invoked.

Modules:

- `Wrappers` (`wrappers.dfy`): `Option`.
- `Statistics` (`statistics.dfy`): `Sum`, `Min`, `Max` and the truncated `Mean` over `seq<nat>`, plus the bound lemmas.
- `Measurement` (`measurement.dfy`): the result record, the warm-up count, aggregation, the engine method, `mean_micros`, `quick_benchmark`, and the line-51 finding.
- `Errors` (`errors.dfy`): the error variants, their rendering, and `Parse`, the inverse of rendering.

## Model

| member | source | states |
|---|---|---|
| Statistics.Sum | src/measurement.rs:50 | the total of the durations is at least every individual duration |
| Statistics.SumAppend | src/measurement.rs:50 | appending a duration adds exactly its value to the total, so the total is the left-to-right running sum that `iter().sum()` accumulates |
| Statistics.Min | src/measurement.rs:53 | the minimum is one of the samples and is no larger than any sample |
| Statistics.Max | src/measurement.rs:54 | the maximum is one of the samples and is no smaller than any sample |
| Statistics.Mean | src/measurement.rs:50-51 | the mean is the largest whole number of nanoseconds q with q·n ≤ total, i.e. total / n truncated |
| Statistics.SumBounds | src/measurement.rs:50 | if every sample lies in [lo, hi] then lo·n ≤ total ≤ hi·n |
| Statistics.MeanWithinBounds | src/measurement.rs:50-54 | for a non-empty run, min ≤ truncated mean ≤ max |
| Measurement.WarmupCount | src/measurement.rs:37 | at most 10 warm-up calls; none below 10 iterations; exactly 10 from 100 iterations on; otherwise one per full ten iterations |
| Measurement.Micros | src/measurement.rs:24 | `as_micros` gives the whole number of microseconds m with m·1000 ≤ nanos < (m+1)·1000 |
| Measurement.MicrosMonotone | src/measurement.rs:24 | truncating nanoseconds to microseconds preserves order |
| Measurement.MeanMicros | src/measurement.rs:23-25 | the result fits in u64; below the wrap-around it is the number of whole microseconds in the mean |
| Measurement.MeanMicrosWithinBounds | src/measurement.rs:23-25 | when the mean's u64 cast does not wrap (the only value cast at line 24), min micros ≤ mean_micros ≤ max micros |
| Measurement.Deviation2 | src/measurement.rs:60-63 | one sample's squared microsecond difference from the mean; it is zero exactly when the sample equals the mean in microseconds |
| Measurement.SquaredDeviations | src/measurement.rs:58-64 | the sum over all samples of (sample micros − mean micros)², which is at least each single squared term |
| Measurement.SquaredDeviationsZeroIff | src/measurement.rs:58-64 | the sum of squared microsecond deviations is zero exactly when every sample equals the mean in microseconds |
| Measurement.PopulationVariance | src/measurement.rs:64-65 | the variance times the sample count equals the sum of squares, so the divisor is the population count `iterations` and not `iterations - 1`; it is non-negative, and zero iff the sum of squares is zero |
| Measurement.Variance | src/measurement.rs:57-65 | the variance is the population variance of the squared microsecond deviations from the microsecond mean; it is non-negative, and zero iff all microsecond samples equal the microsecond mean |
| Measurement.Recorded | src/measurement.rs:42-47 | the durations vector built by pushing one elapsed time per measured call has exactly one entry per call, the i-th call's duration at index i |
| Measurement.Summarize | src/measurement.rs:49-74 | with the corrected divisor (see Findings): an empty run is the division-by-zero panic; otherwise the result has iterations = n, min ≤ mean ≤ max, a truncated mean, min and max among the samples and bounding them all, and variance ≥ 0 |
| Measurement.BenchmarkOperation | src/measurement.rs:30-75 | with the corrected divisor (see Findings): the operation is invoked min(10, n/10) + n times; exactly n samples are recorded, from the measured calls only and in order; n = 0 panics; otherwise the result is valid and carries iterations = n |
| Measurement.QuickBenchmark | src/measurement.rs:78-85 | the operation is invoked exactly once, as many times as in a one-iteration `benchmark_operation` (which has no warm-up); the returned duration is that run's mean, minimum and maximum, with zero variance |
| Measurement.MeanAsWritten | src/measurement.rs:51 | the division as written, by `iterations as u32`: it panics exactly when n is a multiple of 2^32, and agrees with the true mean when 0 < n < 2^32 |
| Measurement.MeanAsWrittenMatchesEngine | src/measurement.rs:51 | for 0 < n < 2^32 recorded durations, the division as written gives the engine's mean |
| Measurement.TruncatedDivisorBreaksMean | src/measurement.rs:51 | with 2^32 + 1 samples of 1 ns, the mean as written is 2^32 + 1, above the maximum of 1; with 2^32 samples it panics |
| Errors.Prefix | src/error.rs:17-22 | every variant has its own fixed prefix, which ends in ": " (for example "Key generation failed: " for KeyGeneration) |
| Errors.Render | src/error.rs:14-25 | the rendering is the variant's prefix followed by the unchanged message; its length is the sum of the two lengths; it is never empty |
| Errors.Parse | src/error.rs:16-23 | any error that Parse returns renders back to the parsed text |
| Errors.PrefixesDistinct | src/error.rs:17-22 | two prefixes share a first letter only for the same variant, and a prefix starts a rendering only when the variants match |
| Errors.ParseRender | src/error.rs:16-23 | parsing a rendering recovers the variant and the message |
| Errors.ParseDefinedIff | src/error.rs:16-23 | Parse succeeds exactly on the texts that are renderings of some error |
| Errors.RenderInjective | src/error.rs:16-23 | distinct errors render to distinct strings |

## Findings

| source | as written | input that shows it | evidently intended | confidence | as-written member | corrected member |
|---|---|---|---|---|---|---|
| src/measurement.rs:51 | `total / iterations as u32` truncates the divisor to 32 bits | 2^32 + 1 iterations of 1 ns each: the divisor is 1 and the mean is 2^32 + 1 ns, above the max of 1 ns. 2^32 iterations: the divisor is 0 and the run panics | divide the total by the full iteration count | medium: needs at least 2^32 iterations; not executed | Measurement.MeanAsWritten, Measurement.TruncatedDivisorBreaksMean | Statistics.Mean, Statistics.MeanWithinBounds |

The engine (`Measurement.Summarize`, `Measurement.BenchmarkOperation`) uses the corrected division. For fewer than 2^32 iterations, `Measurement.MeanAsWritten` and `Measurement.MeanAsWrittenMatchesEngine` prove that the two divisions agree. At 2^32 iterations and every multiple of it, the code as written panics, but the engine completes.

## Left out

- Wall-clock timing (`Instant::now`, `elapsed`, src/measurement.rs:43-45): it is nondeterministic. Durations are the `elapsed` input.
- The standard deviation's `sqrt` and f64 rounding (src/measurement.rs:57-66): the model stops at the exact variance, a `real` of square microseconds. The f64 conversions of the microsecond values are also modelled as exact.
- `BenchmarkResult::print` (src/measurement.rs:14-21): console output only.
- The overflow panic of summing `Duration`s and the `u64` bound on a `Duration`'s seconds: samples are unbounded naturals. Reaching that bound would take centuries of measured time.
- The `usize` bound on `iterations`: iterations is an unbounded natural. Nothing else in the modelled logic depends on the `usize` width.
- Allocation failure of the durations vector: `Vec::with_capacity(iterations)` (src/measurement.rs:34) panics with a capacity overflow for very large counts, or aborts when memory runs out. In the model the run always completes.
- The value returned by the operation: the source discards it, so the model never produces it.
- A failing or panicking operation: the engine does not catch it. The model assumes every call returns.
- The `Result<T>` alias in src/error.rs:29: it is a type alias with no behaviour.
- Key generation, the signature and KEM suites, the HTTP server, resource sampling, the serde models, the constants, the CLI and the benches: these are library crypto calls, I/O and concurrency. They are not part of this model.
