/**
 * The run schedule of the sampler: how many sweeps to run, how many of them
 * are burn-in, how often progress is shown and how often a snapshot of
 * theta/phi is folded into the running sums.
 */
module Schedules {

  /** `ITERATIONS`, `BURN_IN`, `THIN_INTERVAL` and `SAMPLE_LAG`, in that order. */
  datatype Schedule = Schedule(iterations: int, burnIn: int, thinInterval: int, sampleLag: int)

  /** The values the sampler starts with before any reconfiguration. */
  const DefaultSchedule := Schedule(1000, 100, 20, 10)

  /** Whether a snapshot is accumulated after sweep `i`. */
  predicate Sampled(s: Schedule, i: int)
  {
    i > s.burnIn && s.sampleLag > 0 && i % s.sampleLag == 0
  }

  /** Number of sweeps `i` in `[0, n)` after which a snapshot is accumulated. */
  function SamplesBefore(s: Schedule, n: int): (c: nat)
    ensures c <= if n > 0 then n else 0
  {
    if n <= 0 then 0 else SamplesBefore(s, n - 1) + (if Sampled(s, n - 1) then 1 else 0)
  }

  /**
   * The progress display computes `i % thinInterval` for every sweep `i`
   * other than the burn-in boundary; with a zero interval that is a division
   * by zero, so the schedule is only usable when no such sweep exists.
   */
  predicate DisplayDefined(s: Schedule)
  {
    s.thinInterval != 0 || s.iterations <= 0 || (s.iterations == 1 && s.burnIn == 0)
  }

  /** No snapshot is ever taken when sample-lag sampling is switched off (`sampleLag <= 0`). */
  lemma {:induction false} NoSamplesWhenDisabled(s: Schedule, n: int)
    requires s.sampleLag <= 0
    ensures SamplesBefore(s, n) == 0
  {
    if n > 0 {
      NoSamplesWhenDisabled(s, n - 1);
    }
  }

  /** The count is zero exactly when no sweep before `n` is sampled. */
  lemma {:induction false} NoSamplesIff(s: Schedule, n: int)
    ensures SamplesBefore(s, n) == 0 <==> forall i :: 0 <= i < n ==> !Sampled(s, i)
  {
    if n > 0 {
      NoSamplesIff(s, n - 1);
    }
  }

  /** Nothing is accumulated while the chain is still burning in. */
  lemma NoSamplesDuringBurnIn(s: Schedule, n: int)
    requires n <= s.burnIn + 1
    ensures SamplesBefore(s, n) == 0
  {
    NoSamplesIff(s, n);
  }

  /** `n / l` grows by one exactly when `n` is a multiple of `l`. */
  lemma DivStep(n: int, l: int)
    requires l > 0
    ensures n / l == (n - 1) / l + (if n % l == 0 then 1 else 0)
  {
    var q, r := (n - 1) / l, (n - 1) % l;
    assert n - 1 == q * l + r && 0 <= r < l;
    if r == l - 1 {
      assert n == (q + 1) * l + 0;
      DivUnique(n, l, q + 1, 0);
    } else {
      assert n == q * l + (r + 1);
      DivUnique(n, l, q, r + 1);
    }
  }

  /** Euclidean division is determined by quotient and remainder. */
  lemma DivUnique(n: int, l: int, q: int, r: int)
    requires l > 0 && 0 <= r < l && n == q * l + r
    ensures n / l == q && n % l == r
  {
    var q', r' := n / l, n % l;
    assert (q - q') * l == r' - r;
    MulStrip(q - q', l);
  }

  /** The only multiple of `l` strictly between `-l` and `l` is zero. */
  lemma MulStrip(d: int, l: int)
    requires l > 0 && -l < d * l < l
    ensures d == 0
  {
    if d >= 1 {
      MulMono(1, d, l);
    } else if d <= -1 {
      MulMono(d, -1, l);
    }
  }

  lemma MulMono(a: int, b: int, l: int)
    requires l > 0 && a <= b
    ensures a * l <= b * l
  {
  }

  /**
   * Closed form: with lag `l > 0` and burn-in `b >= -1`, the sampled sweeps
   * before `n` are the multiples of `l` in `(b, n - 1]`.
   */
  lemma {:induction false} SamplesClosedForm(s: Schedule, n: int)
    requires s.sampleLag > 0 && s.burnIn >= -1 && n >= s.burnIn + 1
    ensures SamplesBefore(s, n) == (n - 1) / s.sampleLag - s.burnIn / s.sampleLag
  {
    if n == s.burnIn + 1 {
      NoSamplesDuringBurnIn(s, n);
    } else {
      SamplesClosedForm(s, n - 1);
      DivStep(n - 1, s.sampleLag);
    }
  }
}
