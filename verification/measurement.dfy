/**
 The measurement engine of src/measurement.rs: a warm-up phase whose results are
 discarded, a measured phase that records one elapsed time per call, and the
 aggregation of those samples into a `BenchmarkResult`.

 The wall clock is not modelled. The time a measured call takes is an input:
 `elapsed(i)` is the number of nanoseconds the i-th measured call (counting from
 zero) reports. Warm-up calls are never timed, so they have no sample.
 */
module Measurement {
  import opened Wrappers
  import opened Statistics

  const NANOS_PER_MICRO: nat := 1000
  const WARMUP_CAP: nat := 10
  const U32_MODULUS: nat := 0x1_0000_0000
  const U64_MODULUS: nat := 0x1_0000_0000_0000_0000

  /** `Duration::as_micros`: whole microseconds, truncating the nanoseconds. */
  function Micros(nanos: nat): (m: nat)
    ensures m * NANOS_PER_MICRO <= nanos < (m + 1) * NANOS_PER_MICRO
  {
    FloorDivision(nanos, NANOS_PER_MICRO);
    nanos / NANOS_PER_MICRO
  }

  /** Converting to microseconds preserves order. */
  lemma MicrosMonotone(a: nat, b: nat)
    requires a <= b
    ensures Micros(a) <= Micros(b)
  {
    FloorDivision(a, NANOS_PER_MICRO);
    FloorDivision(b, NANOS_PER_MICRO);
  }

  /** The summary of one benchmarked operation. Durations are in nanoseconds;
      `variance` is in square microseconds, the square of `std_deviation`. */
  datatype BenchmarkResult = BenchmarkResult(
    meanNanos: nat,
    minNanos: nat,
    maxNanos: nat,
    variance: real,
    iterations: nat)
  {
    /** The invariants every completed run establishes. */
    predicate Valid()
    {
      && iterations > 0
      && minNanos <= meanNanos <= maxNanos
      && variance >= 0.0
    }
  }

  /** `mean_micros`: the mean in whole microseconds, cast to `u64`. Below the
      wrap-around it is the number of whole microseconds the mean spans. */
  function MeanMicros(r: BenchmarkResult): (m: nat)
    ensures m < U64_MODULUS
    ensures Micros(r.meanNanos) < U64_MODULUS ==>
      m * NANOS_PER_MICRO <= r.meanNanos < (m + 1) * NANOS_PER_MICRO
  {
    FloorDivision(r.meanNanos, NANOS_PER_MICRO);
    Micros(r.meanNanos) % U64_MODULUS
  }

  /** How a run ends: with a result, or with the panic of dividing by zero. */
  datatype Outcome = Completed(result: BenchmarkResult) | DivisionByZero

  /** Number of discarded warm-up calls: a tenth of the iterations, at most ten. */
  function WarmupCount(iterations: nat): (w: nat)
    ensures w <= WARMUP_CAP
    ensures w * 10 <= iterations
    ensures iterations < 10 ==> w == 0
    ensures iterations >= 100 ==> w == WARMUP_CAP
    ensures w < WARMUP_CAP ==> iterations < (w + 1) * 10
  {
    if WARMUP_CAP <= iterations / 10 then WARMUP_CAP else iterations / 10
  }

  /** The squared difference between one sample and the mean, both in whole
      microseconds. It vanishes exactly when the sample equals the mean. */
  function Deviation2(nanos: nat, meanMicros: nat): (d: nat)
    ensures d == 0 <==> Micros(nanos) == meanMicros
  {
    var diff := Micros(nanos) as int - meanMicros as int;
    assert diff != 0 ==> diff * diff > 0;
    diff * diff
  }

  /** The sum of squared differences between each sample and the mean, both
      truncated to whole microseconds. No single term exceeds it. */
  function SquaredDeviations(durations: seq<nat>, meanMicros: nat): (total: nat)
    ensures forall i {:trigger Deviation2(durations[i], meanMicros)} ::
      0 <= i < |durations| ==> Deviation2(durations[i], meanMicros) <= total
  {
    if |durations| == 0 then 0
    else
      assert forall i :: 1 <= i < |durations| ==> durations[i] == durations[1..][i - 1];
      Deviation2(durations[0], meanMicros) + SquaredDeviations(durations[1..], meanMicros)
  }

  /** Every sample, in whole microseconds, equals the given mean. */
  predicate AllAtMean(durations: seq<nat>, meanMicros: nat)
  {
    forall i :: 0 <= i < |durations| ==> Micros(durations[i]) == meanMicros
  }

  /** The squared deviations vanish exactly when every sample, in whole
      microseconds, equals the mean. */
  lemma {:induction false} SquaredDeviationsZeroIff(durations: seq<nat>, meanMicros: nat)
    ensures SquaredDeviations(durations, meanMicros) == 0 <==> AllAtMean(durations, meanMicros)
  {
    if |durations| > 0 {
      var rest := durations[1..];
      SquaredDeviationsZeroIff(rest, meanMicros);
      assert forall i :: 1 <= i < |durations| ==> durations[i] == rest[i - 1];
    }
  }

  /** Population variance from the sum of squared deviations over n samples:
      the divisor is the sample count itself, not n - 1. */
  function PopulationVariance(squares: nat, n: nat): (v: real)
    requires n > 0
    ensures v >= 0.0
    ensures v * n as real == squares as real
    ensures v == 0.0 <==> squares == 0
  {
    squares as real / n as real
  }

  /** Variance of the microsecond samples around the microsecond mean, with
      divisor `iterations`. */
  function Variance(durations: seq<nat>, meanNanos: nat): (v: real)
    requires |durations| > 0
    ensures v >= 0.0
    ensures v == PopulationVariance(SquaredDeviations(durations, Micros(meanNanos)), |durations|)
    ensures v == 0.0 <==> AllAtMean(durations, Micros(meanNanos))
  {
    SquaredDeviationsZeroIff(durations, Micros(meanNanos));
    PopulationVariance(SquaredDeviations(durations, Micros(meanNanos)), |durations|)
  }

  /** Aggregation of the recorded durations: the mean (truncated to whole
      nanoseconds), the extremes and the variance. With no durations the
      division by the iteration count panics. */
  function Summarize(durations: seq<nat>): (o: Outcome)
    ensures o.DivisionByZero? <==> |durations| == 0
    ensures o.Completed? ==>
      && o.result.iterations == |durations|
      && o.result.Valid()
      && o.result.meanNanos * |durations| <= Sum(durations) < (o.result.meanNanos + 1) * |durations|
      && o.result.minNanos in durations
      && o.result.maxNanos in durations
      && (forall i :: 0 <= i < |durations| ==> o.result.minNanos <= durations[i] <= o.result.maxNanos)
      && (o.result.variance == 0.0 <==> AllAtMean(durations, Micros(o.result.meanNanos)))
  {
    if |durations| == 0 then DivisionByZero
    else
      var mean := Mean(durations);
      var variance := Variance(durations, mean);
      MeanWithinBounds(durations);
      Completed(BenchmarkResult(mean, Min(durations), Max(durations), variance, |durations|))
  }

  /** The durations vector after `count` measured calls, each pushing its own
      elapsed time: it holds one duration per call, the i-th call's at index i. */
  function Recorded(elapsed: nat -> nat, count: nat): (s: seq<nat>)
    ensures |s| == count
    ensures forall i :: 0 <= i < count ==> s[i] == elapsed(i)
  {
    if count == 0 then [] else Recorded(elapsed, count - 1) + [elapsed(count - 1)]
  }

  /** `benchmark_operation`: warm up, measure `iterations` calls, aggregate.
      `invocations` counts every call of the operation. */
  method BenchmarkOperation(iterations: nat, elapsed: nat -> nat)
    returns (outcome: Outcome, ghost invocations: nat)
    ensures invocations == WarmupCount(iterations) + iterations
    ensures outcome == Summarize(Recorded(elapsed, iterations))
    ensures outcome.DivisionByZero? <==> iterations == 0
    ensures outcome.Completed? ==> outcome.result.iterations == iterations && outcome.result.Valid()
  {
    var durations: seq<nat> := [];
    invocations := 0;

    var warmup := WarmupCount(iterations);
    var w := 0;
    while w < warmup
      invariant w <= warmup
      invariant invocations == w
      invariant durations == []
    {
      invocations := invocations + 1;  // the result is discarded and not timed
      w := w + 1;
    }

    var i := 0;
    while i < iterations
      invariant i <= iterations
      invariant invocations == warmup + i
      invariant durations == Recorded(elapsed, i)
    {
      var d := elapsed(i);
      invocations := invocations + 1;
      durations := durations + [d];
      i := i + 1;
    }

    assert durations == Recorded(elapsed, iterations);
    outcome := Summarize(durations);
  }

  /** `quick_benchmark`: time exactly one call of the operation. The duration
      is what a one-iteration `benchmark_operation` (which has no warm-up)
      reports as its mean, minimum and maximum, with zero variance. */
  method QuickBenchmark(elapsed: nat -> nat) returns (d: nat, ghost invocations: nat)
    ensures invocations == WarmupCount(1) + 1
    ensures Summarize(Recorded(elapsed, 1)) == Completed(BenchmarkResult(d, d, d, 0.0, 1))
  {
    invocations := 0;
    d := elapsed(0);
    invocations := invocations + 1;
    assert Recorded(elapsed, 1) == [d];
    assert Sum([d]) == d;
  }

  /** The microsecond mean of a valid result stays between the microsecond
      extremes, as long as the cast to `u64` does not wrap. */
  lemma MeanMicrosWithinBounds(r: BenchmarkResult)
    requires r.Valid()
    requires Micros(r.meanNanos) < U64_MODULUS
    ensures Micros(r.minNanos) <= MeanMicros(r) <= Micros(r.maxNanos)
  {
    MicrosMonotone(r.minNanos, r.meanNanos);
    MicrosMonotone(r.meanNanos, r.maxNanos);
  }

  /** Line 51 as written: the total divided by the iteration count cast to
      `u32`. `None` is the panic when that cast yields zero. */
  function MeanAsWritten(durations: seq<nat>): (r: Option<nat>)
    ensures r.None? <==> |durations| % U32_MODULUS == 0
    ensures 0 < |durations| < U32_MODULUS ==> r == Some(Mean(durations))
  {
    var divisor := |durations| % U32_MODULUS;
    assert |durations| < U32_MODULUS ==> divisor == |durations|;
    if divisor == 0 then None else Some(Sum(durations) / divisor)
  }

  /** Below 2^32 iterations the division as written computes the engine's mean. */
  lemma MeanAsWrittenMatchesEngine(elapsed: nat -> nat, n: nat)
    requires 0 < n < U32_MODULUS
    ensures MeanAsWritten(Recorded(elapsed, n)) == Some(Summarize(Recorded(elapsed, n)).result.meanNanos)
  {
  }

  /** With 2^32 + 1 samples of one nanosecond each, the cast leaves a divisor
      of one and the "mean" exceeds the largest sample; with exactly 2^32
      samples the division panics although samples were recorded. */
  lemma TruncatedDivisorBreaksMean()
    ensures var s := seq(U32_MODULUS + 1, _ => 1);
      MeanAsWritten(s) == Some(U32_MODULUS + 1) && Max(s) == 1
    ensures MeanAsWritten(seq(U32_MODULUS, _ => 1)) == None
  {
    var s := seq(U32_MODULUS + 1, _ => 1);
    SumConstant(U32_MODULUS + 1, 1);
    assert Max(s) in s;
  }
}
