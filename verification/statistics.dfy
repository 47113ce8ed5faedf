/**
 Pure statistics over a sequence of elapsed-time samples. Every sample is a
 whole number of nanoseconds, the resolution of a Rust `Duration`.
 */
module Statistics {

  /** Total of all samples (the `Sum` of the durations). No sample exceeds it. */
  function Sum(s: seq<nat>): (total: nat)
    ensures forall x :: x in s ==> x <= total
  {
    if |s| == 0 then 0
    else
      assert forall x :: x in s ==> x == s[0] || x in s[1..];
      s[0] + Sum(s[1..])
  }

  /** Adding one more sample at the end adds its value to the total, so the
      recursive definition agrees with a left-to-right running sum. */
  lemma {:induction false} SumAppend(s: seq<nat>, x: nat)
    ensures Sum(s + [x]) == Sum(s) + x
  {
    if |s| > 0 {
      assert (s + [x])[1..] == s[1..] + [x];
      SumAppend(s[1..], x);
    }
  }

  /** Smallest sample, found by a scan over the sequence. */
  function Min(s: seq<nat>): (m: nat)
    requires |s| > 0
    ensures m in s
    ensures forall i :: 0 <= i < |s| ==> m <= s[i]
  {
    if |s| == 1 then s[0]
    else
      var rest := Min(s[1..]);
      assert forall i :: 1 <= i < |s| ==> s[i] == s[1..][i - 1];
      if s[0] <= rest then s[0] else rest
  }

  /** Largest sample, found by a scan over the sequence. */
  function Max(s: seq<nat>): (m: nat)
    requires |s| > 0
    ensures m in s
    ensures forall i :: 0 <= i < |s| ==> s[i] <= m
  {
    if |s| == 1 then s[0]
    else
      var rest := Max(s[1..]);
      assert forall i :: 1 <= i < |s| ==> s[i] == s[1..][i - 1];
      if s[0] >= rest then s[0] else rest
  }

  /** Arithmetic mean truncated toward zero: the largest whole number of
      nanoseconds that, taken once per sample, does not exceed the total. */
  function Mean(s: seq<nat>): (q: nat)
    requires |s| > 0
    ensures q * |s| <= Sum(s) < (q + 1) * |s|
  {
    var total, n := Sum(s), |s|;
    FloorDivision(total, n);
    total / n
  }

  /** Characterises truncating division by a positive divisor. */
  lemma FloorDivision(total: nat, n: nat)
    requires n > 0
    ensures total / n >= 0
    ensures (total / n) * n <= total < (total / n + 1) * n
  {
    var q, r := total / n, total % n;
    assert total == q * n + r;
    assert (q + 1) * n == q * n + n;
  }

  /** Multiplying by a natural number preserves order. */
  lemma {:induction false} MulMonotone(a: nat, b: nat, n: nat)
    requires a <= b
    ensures a * n <= b * n
  {
    if n > 0 {
      MulMonotone(a, b, n - 1);
      assert a * n == a * (n - 1) + a;
      assert b * n == b * (n - 1) + b;
    }
  }

  /** If every sample lies in [lo, hi] then the total lies in [lo*n, hi*n]. */
  lemma {:induction false} SumBounds(s: seq<nat>, lo: nat, hi: nat)
    requires forall i :: 0 <= i < |s| ==> lo <= s[i] <= hi
    ensures lo * |s| <= Sum(s) <= hi * |s|
  {
    if |s| > 0 {
      assert forall i :: 0 <= i < |s[1..]| ==> s[1..][i] == s[i + 1];
      SumBounds(s[1..], lo, hi);
      assert lo * |s| == lo + lo * |s[1..]|;
      assert hi * |s| == hi + hi * |s[1..]|;
    }
  }

  /** A total between lo*n and hi*n has its truncated quotient between lo and hi. */
  lemma FloorBetween(total: nat, n: nat, lo: nat, hi: nat)
    requires n > 0
    requires lo * n <= total <= hi * n
    ensures lo <= total / n <= hi
  {
    var q := total / n;
    FloorDivision(total, n);
    if q < lo {
      MulMonotone(q + 1, lo, n);
    }
    if q > hi {
      MulMonotone(hi + 1, q, n);
    }
  }

  /** The truncated mean never leaves the range spanned by the samples. */
  lemma MeanWithinBounds(s: seq<nat>)
    requires |s| > 0
    ensures Min(s) <= Mean(s) <= Max(s)
  {
    SumBounds(s, Min(s), Max(s));
    FloorBetween(Sum(s), |s|, Min(s), Max(s));
  }

  /** The total of n copies of c. */
  lemma {:induction false} SumConstant(n: nat, c: nat)
    ensures Sum(seq(n, _ => c)) == n * c
  {
    if n > 0 {
      assert seq(n, _ => c)[1..] == seq(n - 1, _ => c);
      SumConstant(n - 1, c);
      assert n * c == c + (n - 1) * c;
    }
  }
}
