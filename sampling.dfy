/**
 * The draw-a-topic step of the sampler, over exact reals: turn unnormalised
 * weights into running totals and pick the first topic whose running total
 * exceeds a uniform draw scaled to the grand total (inverse-CDF sampling).
 */
module Sampling {

  /** One value of `Math.random()`: a real in `[0, 1)`. */
  type Fraction = r: real | 0.0 <= r < 1.0 witness 0.0

  /**
   * The topic `(int) (Math.random() * k)` draws from the value `r`: the
   * truncation of `r * k`, which lands in `[0, k)` (and is 0 when `k` is 0).
   */
  function TopicOf(r: Fraction, k: nat): (t: nat)
    ensures k > 0 ==> t < k
    ensures k == 0 ==> t == 0
  {
    FloorBelow(r, k);
    (r * k as real).Floor
  }

  lemma FloorBelow(r: Fraction, k: nat)
    ensures 0.0 <= r * k as real
    ensures k > 0 ==> r * k as real < k as real
  {
  }

  /**
   * The initial draw is uniform: topic `j` is drawn exactly for the values
   * of `r` in `[j / k, (j + 1) / k)`, an interval of width `1 / k`.
   */
  lemma TopicOfInterval(r: Fraction, k: nat, j: nat)
    requires k > 0 && j < k
    ensures TopicOf(r, k) == j <==> j as real / k as real <= r < (j + 1) as real / k as real
  {
    var x := r * k as real;
    var kr := k as real;
    assert j as real / kr <= r <==> j as real <= x by {
      DivLeIff(j as real, kr, r);
    }
    assert r < (j + 1) as real / kr <==> x < (j + 1) as real by {
      DivLeIff((j + 1) as real, kr, r);
    }
  }

  /** Comparing with a quotient by a positive number is comparing after multiplying by it. */
  lemma DivLeIff(a: real, k: real, r: real)
    requires k > 0.0
    ensures a / k <= r <==> a <= r * k
  {
    if a / k <= r {
      assert a == (a / k) * k;
      MulLe(a / k, r, k);
    } else {
      MulLe(r, a / k, k);
      assert (a / k) * k == a;
    }
  }

  lemma MulLe(x: real, y: real, k: real)
    requires k > 0.0 && x <= y
    ensures x * k <= y * k
  {
  }

  /**
   * The draw `Math.random() * total` that the scan compares against the
   * running totals: for a positive total it lies in `[0, total)`.
   */
  function ScaleDraw(r: Fraction, total: real): (u: real)
    ensures total > 0.0 ==> 0.0 <= u < total
  {
    r * total
  }

  /** Sum of a sequence of reals. */
  function Sum(s: seq<real>): real
  {
    if |s| == 0 then 0.0 else Sum(s[..|s| - 1]) + s[|s| - 1]
  }

  /** Running totals: entry `k` is the sum of the weights `0..k`. */
  function PrefixSums(w: seq<real>): seq<real>
  {
    seq(|w|, k requires 0 <= k < |w| => Sum(w[..k + 1]))
  }

  predicate AllPositive(w: seq<real>)
  {
    forall k :: 0 <= k < |w| ==> w[k] > 0.0
  }

  predicate StrictlyIncreasing(c: seq<real>)
  {
    forall i, j :: 0 <= i < j < |c| ==> c[i] < c[j]
  }

  /** A longer prefix of positive weights has a strictly larger sum. */
  lemma {:induction false} PrefixSumGrows(w: seq<real>, i: nat, j: nat)
    requires AllPositive(w) && i < j <= |w|
    ensures Sum(w[..i]) < Sum(w[..j])
  {
    assert w[..j][..j - 1] == w[..j - 1];
    if i < j - 1 {
      PrefixSumGrows(w, i, j - 1);
    }
  }

  /** With positive weights the running totals are strictly increasing. */
  lemma PrefixSumsIncreasing(w: seq<real>)
    requires AllPositive(w)
    ensures StrictlyIncreasing(PrefixSums(w))
  {
    var c := PrefixSums(w);
    forall i, j | 0 <= i < j < |c| ensures c[i] < c[j] {
      PrefixSumGrows(w, i + 1, j + 1);
    }
  }

  /** The last running total of positive weights is their (positive) grand total. */
  lemma GrandTotal(w: seq<real>)
    requires AllPositive(w) && |w| > 0
    ensures PrefixSums(w)[|w| - 1] == Sum(w) > 0.0
  {
    assert w[..|w|] == w;
    PrefixSumGrows(w, 0, |w|);
  }

  /**
   * The scan over running totals: the smallest index `k` with `u < c[k]`, or
   * `|c|` when there is none.
   */
  function Select(c: seq<real>, u: real): (k: nat)
    ensures k <= |c|
    ensures forall j :: 0 <= j < k ==> c[j] <= u
    ensures k < |c| ==> u < c[k]
  {
    if |c| == 0 then 0
    else if u < c[0] then 0
    else 1 + Select(c[1..], u)
  }

  /** The three properties of `Select` determine it. */
  lemma SelectUnique(c: seq<real>, u: real, k: nat)
    requires k <= |c|
    requires forall j :: 0 <= j < k ==> c[j] <= u
    requires k < |c| ==> u < c[k]
    ensures Select(c, u) == k
  {
  }

  /** A draw below the grand total always selects an index in range. */
  lemma SelectInRange(c: seq<real>, u: real)
    requires |c| > 0 && u < c[|c| - 1]
    ensures Select(c, u) < |c|
  {
  }

  /**
   * Inverse-CDF sampling: over strictly increasing totals, index `k` is
   * selected exactly for the draws in `[c[k-1], c[k])` (`[.., c[0])` for
   * `k == 0`), an interval whose width is the weight of `k`.
   */
  lemma SelectInterval(c: seq<real>, u: real, k: nat)
    requires StrictlyIncreasing(c) && k < |c|
    ensures Select(c, u) == k <==> (k == 0 || c[k - 1] <= u) && u < c[k]
  {
    if (k == 0 || c[k - 1] <= u) && u < c[k] {
      forall j | 0 <= j < k ensures c[j] <= u {
        assert j == k - 1 || c[j] < c[k - 1];
      }
      SelectUnique(c, u, k);
    }
  }
}
