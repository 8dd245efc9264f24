/**
 * The point estimates the sampler reports: a count smoothed by a symmetric
 * Dirichlet prior, `(x + prior) / (total + size * prior)`.  Theta uses the
 * document/topic counts with `alpha` over `K` topics, phi the word/topic
 * counts with `beta` over `V` words.
 */
module Estimates {
  import opened Counting
  import opened Sampling

  /** `(x + prior) / (total + size * prior)`: never zero, and at most 1 while `x` is part of `total`. */
  function Smoothed(x: nat, total: nat, size: nat, prior: real): (e: real)
    requires prior > 0.0 && size > 0
    ensures 0.0 < e
    ensures x <= total ==> e <= 1.0
  {
    SmoothedBounds(x, total, size, prior);
    (x as real + prior) / (total as real + size as real * prior)
  }

  lemma SmoothedBounds(x: nat, total: nat, size: nat, prior: real)
    requires prior > 0.0 && size > 0
    ensures total as real + size as real * prior > 0.0
    ensures 0.0 < (x as real + prior) / (total as real + size as real * prior)
    ensures x <= total ==> (x as real + prior) / (total as real + size as real * prior) <= 1.0
  {
    AtLeastOnce(size, prior);
    if x <= total {
      NumeratorAtMostDenominator(x, total, size, prior);
      DivAtMostOne(x as real + prior, total as real + size as real * prior);
    }
  }

  lemma NumeratorAtMostDenominator(x: nat, total: nat, size: nat, prior: real)
    requires prior > 0.0 && size > 0 && x <= total
    ensures x as real + prior <= total as real + size as real * prior
  {
    AtLeastOnce(size, prior);
    var q := size as real * prior;
    assert q >= prior;
    assert x as real <= total as real;
  }

  lemma DivAtMostOne(a: real, d: real)
    requires 0.0 < a <= d
    ensures a / d <= 1.0
  {
    assert a / d * d == a;
  }

  /** The denominator of a smoothed estimate is at least the prior. */
  lemma AtLeastOnce(size: nat, prior: real)
    requires prior > 0.0 && size > 0
    ensures size as real * prior >= prior
  {
    assert size as real * prior == prior + (size - 1) as real * prior;
    assert (size - 1) as real * prior >= 0.0;
  }

  lemma AddFractions(a: real, b: real, d: real)
    requires d != 0.0
    ensures a / d + b / d == (a + b) / d
  {
  }

  /** The smoothed estimate of every entry of `c` against the denominator of `total`. */
  function Smoothing(c: seq<nat>, total: nat, prior: real): seq<real>
    requires prior > 0.0
  {
    seq(|c|, i requires 0 <= i < |c| => Smoothed(c[i], total, |c|, prior))
  }

  /** The numerators `c[i] + prior` of a smoothed count vector. */
  function Numerators(c: seq<nat>, prior: real): seq<real>
  {
    seq(|c|, i requires 0 <= i < |c| => c[i] as real + prior)
  }

  /** Every entry of `xs` divided by `d`. */
  function Scale(xs: seq<real>, d: real): seq<real>
    requires d != 0.0
  {
    seq(|xs|, i requires 0 <= i < |xs| => xs[i] / d)
  }

  /** The numerators add up to the total count plus one prior per entry. */
  lemma {:induction false} NumeratorsSum(c: seq<nat>, prior: real)
    ensures Sum(Numerators(c, prior)) == SumNat(c) as real + |c| as real * prior
  {
    if |c| > 0 {
      var n := |c|;
      assert Numerators(c, prior)[..n - 1] == Numerators(c[..n - 1], prior);
      NumeratorsSum(c[..n - 1], prior);
      var q := (n - 1) as real * prior;
      assert q + prior == n as real * prior;
    }
  }

  /** Dividing every entry by `d` divides the sum by `d`. */
  lemma {:induction false} SumScale(xs: seq<real>, d: real)
    requires d != 0.0
    ensures Sum(Scale(xs, d)) == Sum(xs) / d
  {
    if |xs| > 0 {
      var n := |xs|;
      assert Scale(xs, d)[..n - 1] == Scale(xs[..n - 1], d);
      SumScale(xs[..n - 1], d);
      AddFractions(Sum(xs[..n - 1]), xs[n - 1], d);
    }
  }

  /**
   * A count vector smoothed against its own total is a probability
   * distribution: its entries sum to exactly 1, whatever the counts.
   */
  lemma SmoothedSumsToOne(c: seq<nat>, prior: real)
    requires prior > 0.0 && |c| > 0
    ensures Sum(Smoothing(c, SumNat(c), prior)) == 1.0
  {
    var d := SumNat(c) as real + |c| as real * prior;
    SmoothedBounds(0, SumNat(c), |c|, prior);
    var xs := Numerators(c, prior);
    SmoothingIsScaled(c, SumNat(c), prior);
    assert Sum(xs) == d by {
      NumeratorsSum(c, prior);
    }
    SumScale(xs, d);
    DivSelf(d);
  }

  /** Each smoothed entry is its numerator over the common denominator. */
  lemma SmoothingIsScaled(c: seq<nat>, total: nat, prior: real)
    requires prior > 0.0 && |c| > 0
    ensures total as real + |c| as real * prior != 0.0
    ensures Smoothing(c, total, prior) == Scale(Numerators(c, prior), total as real + |c| as real * prior)
  {
    SmoothedBounds(0, total, |c|, prior);
  }

  lemma DivSelf(d: real)
    requires d != 0.0
    ensures d / d == 1.0
  {
  }

  // ---------------------------------------------------------------------------
  // The estimates of a whole assignment, and the running sums of snapshots.
  // ---------------------------------------------------------------------------

  /** `x` has `rows` rows of `cols` entries each. */
  predicate Shape(x: seq<seq<real>>, rows: nat, cols: nat)
  {
    |x| == rows && forall i :: 0 <= i < |x| ==> |x[i]| == cols
  }

  /**
   * Theta of an assignment: row `m` is the per-topic count of document `m`
   * smoothed by `alpha` against the document's length, over `k` topics.
   */
  function Theta(docs: seq<seq<int>>, zs: seq<seq<int>>, k: nat, alpha: real): (theta: seq<seq<real>>)
    requires SameShape(docs, zs) && alpha > 0.0
    ensures Shape(theta, |docs|, k)
  {
    seq(|docs|, m requires 0 <= m < |docs| => Smoothing(TopicCounts(zs[m], k), |docs[m]|, alpha))
  }

  /**
   * Phi of an assignment: row `t` is the per-word count of topic `t` smoothed
   * by `beta` against the topic's total, over `v` words.
   */
  function Phi(docs: seq<seq<int>>, zs: seq<seq<int>>, v: nat, k: nat, beta: real): (phi: seq<seq<real>>)
    requires SameShape(docs, zs) && beta > 0.0
    ensures Shape(phi, k, v)
  {
    seq(k, t requires 0 <= t < k => Smoothing(WordCounts(docs, zs, v, t), TopicTotal(zs, t), beta))
  }

  /** Every row of `x` sums to `s`. */
  predicate RowsSumTo(x: seq<seq<real>>, s: real)
  {
    forall i :: 0 <= i < |x| ==> Sum(x[i]) == s
  }

  /** With topics in range, every row of theta is a distribution over the `k > 0` topics. */
  lemma ThetaRowsSumToOne(docs: seq<seq<int>>, zs: seq<seq<int>>, k: nat, alpha: real)
    requires SameShape(docs, zs) && InRange(zs, k) && alpha > 0.0 && k > 0
    ensures RowsSumTo(Theta(docs, zs, k, alpha), 1.0)
  {
    var theta := Theta(docs, zs, k, alpha);
    forall m | 0 <= m < |theta| ensures Sum(theta[m]) == 1.0 {
      assert RowInRange(zs[m], k);
      TopicCountsPartition(zs[m], k);
      SmoothedSumsToOne(TopicCounts(zs[m], k), alpha);
    }
  }

  /** Over a well-formed corpus, every row of phi is a distribution over the `v > 0` words. */
  lemma PhiRowsSumToOne(docs: seq<seq<int>>, zs: seq<seq<int>>, v: nat, k: nat, beta: real)
    requires SameShape(docs, zs) && WellFormed(docs, v) && beta > 0.0 && v > 0
    ensures RowsSumTo(Phi(docs, zs, v, k, beta), 1.0)
  {
    var phi := Phi(docs, zs, v, k, beta);
    forall t | 0 <= t < |phi| ensures Sum(phi[t]) == 1.0 {
      WordCountsPartition(docs, zs, v, t);
      SmoothedSumsToOne(WordCounts(docs, zs, v, t), beta);
    }
  }

  /** Entry-wise sum of two matrices of the same shape. */
  function AddRows(x: seq<seq<real>>, y: seq<seq<real>>): (r: seq<seq<real>>)
    requires |x| == |y| && forall i :: 0 <= i < |x| ==> |x[i]| == |y[i]|
    ensures |r| == |x| && forall i :: 0 <= i < |x| ==> |r[i]| == |x[i]|
  {
    seq(|x|, i requires 0 <= i < |x| => Add(x[i], y[i]))
  }

  /** Entry-wise sum of two vectors of the same length. */
  function Add(a: seq<real>, b: seq<real>): seq<real>
    requires |a| == |b|
  {
    seq(|a|, i requires 0 <= i < |a| => a[i] + b[i])
  }

  /** The sum of an entry-wise sum is the sum of the sums. */
  lemma {:induction false} SumAdd(a: seq<real>, b: seq<real>)
    requires |a| == |b|
    ensures Sum(Add(a, b)) == Sum(a) + Sum(b)
  {
    if |a| > 0 {
      var n := |a| - 1;
      assert Add(a, b)[..n] == Add(a[..n], b[..n]);
      SumAdd(a[..n], b[..n]);
    }
  }

  /** Adding a matrix whose rows sum to `t` raises every row sum by `t`. */
  lemma AddRowsSums(x: seq<seq<real>>, y: seq<seq<real>>, s: real, t: real)
    requires |x| == |y| && forall i :: 0 <= i < |x| ==> |x[i]| == |y[i]|
    requires RowsSumTo(x, s) && RowsSumTo(y, t)
    ensures RowsSumTo(AddRows(x, y), s + t)
  {
    forall i | 0 <= i < |x| ensures Sum(AddRows(x, y)[i]) == s + t {
      SumAdd(x[i], y[i]);
    }
  }

  /** Every entry of `x` divided by the number of snapshots `n`. */
  function MeanRows(x: seq<seq<real>>, n: nat): (r: seq<seq<real>>)
    requires n > 0
    ensures |r| == |x| && forall i :: 0 <= i < |x| ==> |r[i]| == |x[i]|
  {
    seq(|x|, i requires 0 <= i < |x| => Scale(x[i], n as real))
  }

  /** The mean of `n` snapshots whose rows each sum to 1 has rows that sum to 1. */
  lemma MeanRowsSumToOne(x: seq<seq<real>>, n: nat)
    requires n > 0 && RowsSumTo(x, n as real)
    ensures RowsSumTo(MeanRows(x, n), 1.0)
  {
    forall i | 0 <= i < |x| ensures Sum(MeanRows(x, n)[i]) == 1.0 {
      SumScale(x[i], n as real);
      DivSelf(n as real);
    }
  }

  /** An all-zero matrix of the given shape. */
  function ZeroRows(rows: nat, cols: nat): (x: seq<seq<real>>)
    ensures Shape(x, rows, cols) && RowsSumTo(x, 0.0)
  {
    var x := seq(rows, _ => seq(cols, _ => 0.0));
    forall i | 0 <= i < rows ensures Sum(x[i]) == 0.0 {
      SumZeros(cols);
    }
    x
  }

  lemma {:induction false} SumZeros(n: nat)
    ensures Sum(seq(n, _ => 0.0)) == 0.0
  {
    if n > 0 {
      assert seq(n, _ => 0.0)[..n - 1] == seq(n - 1, _ => 0.0);
      SumZeros(n - 1);
    }
  }
}
