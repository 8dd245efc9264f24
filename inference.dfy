/**
 * Topic inference for one new document against a pre-trained topic/word
 * matrix `phi`.  The chain runs over the tokens of the document only: the
 * word side of the full conditional is read from `phi` instead of being
 * counted, and the result is the smoothed topic mixture of the document.
 *
 * As in the sampler, `Math.random()` is the stream `random`, read from its
 * `d`-th value on: first one value per token for the initial topics, then
 * one value per token in every sweep.
 */
module Inference {
  import opened Counting
  import opened Sampling
  import opened Estimates
  import Lda

  datatype Result<T> = Success(value: T) | Failure(error: string)

  /** The message of the exception thrown when the scan runs past the last topic. */
  const TooFewTopics := "the param K or topic is set too small"

  /**
   * Every array access the inference makes is in bounds: there is at least
   * one topic (`phi[0]` is read for the vocabulary size), and every word of
   * the document indexes the first row of `phi` (the size of the local
   * word/topic counts) and every other row.
   */
  predicate Indexable(phi: seq<seq<real>>, doc: seq<int>)
  {
    && |phi| > 0
    && (forall n :: 0 <= n < |doc| ==> 0 <= doc[n] < |phi[0]|)
    && (forall k, n :: 0 <= k < |phi| && 0 <= n < |doc| ==> doc[n] < |phi[k]|)
  }

  /**
   * The unnormalised weights for a token of word `w`: for every topic `k`,
   * the pre-trained probability of `w` under `k` times the smoothed share of
   * `k` among the `rest` other tokens of the document, counted in `counts`.
   */
  function TokenWeights(phi: seq<seq<real>>, w: int, counts: seq<nat>, rest: nat, alpha: real): (p: seq<real>)
    requires |counts| == |phi| && alpha > 0.0
    requires 0 <= w && forall k :: 0 <= k < |phi| ==> w < |phi[k]|
    ensures |p| == |phi|
  {
    seq(|phi|, k requires 0 <= k < |phi| => phi[k][w] * Smoothed(counts[k], rest, |phi|, alpha))
  }

  /**
   * The topic drawn for token `n` of `doc` under the assignment `z` with the
   * uniform value `r`: the scan over the running totals of the token's
   * weights, counted with the token itself left out.  The result is `|phi|`
   * when the scan finds no running total above the draw.
   */
  ghost function Redrawn(phi: seq<seq<real>>, doc: seq<int>, z: seq<int>, n: nat, alpha: real, r: Fraction): (t: nat)
    requires Indexable(phi, doc) && |z| == |doc| && n < |doc| && alpha > 0.0
    ensures t <= |phi|
  {
    var ws := TokenWeights(phi, doc[n], TopicCounts(z[n := -1], |phi|), |doc| - 1, alpha);
    Lda.PickIsSelect(ws, r);
    Lda.Pick(ws, r)
  }

  /**
   * The assignment a sweep leaves when it resumes at token `n` of `z` with
   * the `d`-th random value next, or the failure raised by the first token
   * whose scan runs past the last topic.
   */
  ghost function SweepFrom(phi: seq<seq<real>>, doc: seq<int>, z: seq<int>, n: nat, alpha: real,
                           random: nat -> Fraction, d: nat): (res: Result<seq<int>>)
    requires Indexable(phi, doc) && |z| == |doc| && n <= |doc| && alpha > 0.0
    ensures res.Success? ==> |res.value| == |doc|
    ensures res.Failure? ==> res.error == TooFewTopics
    decreases |doc| - n
  {
    if n == |doc| then Success(z)
    else
      var t := Redrawn(phi, doc, z, n, alpha, random(d));
      if t == |phi| then Failure(TooFewTopics)
      else SweepFrom(phi, doc, z[n := t], n + 1, alpha, random, d + 1)
  }

  /** The assignment after sweeps `i` up to `iterations`, the first of them reading the stream from `d`. */
  ghost function RunFrom(phi: seq<seq<real>>, doc: seq<int>, z: seq<int>, i: int, iterations: int, alpha: real,
                         random: nat -> Fraction, d: nat): (res: Result<seq<int>>)
    requires Indexable(phi, doc) && |z| == |doc| && alpha > 0.0
    ensures res.Success? ==> |res.value| == |doc|
    ensures res.Failure? ==> res.error == TooFewTopics
    decreases iterations - i
  {
    if i >= iterations then Success(z)
    else
      match SweepFrom(phi, doc, z, 0, alpha, random, d)
      case Failure(e) => Failure(e)
      case Success(b) => RunFrom(phi, doc, b, i + 1, iterations, alpha, random, d + |doc|)
  }

  /**
   * What inference returns: the topics drawn uniformly for the tokens, then
   * `iterations` sweeps, then every topic's count in the document smoothed
   * by `alpha` against the document's length.
   */
  ghost function Inferred(alpha: real, phi: seq<seq<real>>, doc: seq<int>, iterations: int,
                          random: nat -> Fraction, d: nat): (res: Result<seq<real>>)
    requires Indexable(phi, doc) && alpha > 0.0
    ensures res.Success? ==> |res.value| == |phi|
  {
    match RunFrom(phi, doc, Lda.DrawRow(|doc|, |phi|, random, d), 0, iterations, alpha, random, d + |doc|)
    case Failure(e) => Failure(e)
    case Success(z) => Success(Smoothing(TopicCounts(z, |phi|), |doc|, alpha))
  }

  // ---------------------------------------------------------------------------
  // Properties of the specification.
  // ---------------------------------------------------------------------------

  /** A drawn topic that is not a failure is a topic. */
  lemma {:induction false} SweepFromInRange(phi: seq<seq<real>>, doc: seq<int>, z: seq<int>, n: nat, alpha: real,
                                            random: nat -> Fraction, d: nat)
    requires Indexable(phi, doc) && |z| == |doc| && n <= |doc| && alpha > 0.0 && RowInRange(z, |phi|)
    ensures SweepFrom(phi, doc, z, n, alpha, random, d).Success? ==>
              RowInRange(SweepFrom(phi, doc, z, n, alpha, random, d).value, |phi|)
    decreases |doc| - n
  {
    if n < |doc| {
      var t := Redrawn(phi, doc, z, n, alpha, random(d));
      if t < |phi| {
        SweepFromInRange(phi, doc, z[n := t], n + 1, alpha, random, d + 1);
      }
    }
  }

  /** Every sweep of a successful run keeps the topics below `|phi|`. */
  lemma {:induction false} RunFromInRange(phi: seq<seq<real>>, doc: seq<int>, z: seq<int>, i: int, iterations: int,
                                          alpha: real, random: nat -> Fraction, d: nat)
    requires Indexable(phi, doc) && |z| == |doc| && alpha > 0.0 && RowInRange(z, |phi|)
    ensures RunFrom(phi, doc, z, i, iterations, alpha, random, d).Success? ==>
              RowInRange(RunFrom(phi, doc, z, i, iterations, alpha, random, d).value, |phi|)
    decreases iterations - i
  {
    if i < iterations {
      SweepFromInRange(phi, doc, z, 0, alpha, random, d);
      var s := SweepFrom(phi, doc, z, 0, alpha, random, d);
      if s.Success? {
        RunFromInRange(phi, doc, s.value, i + 1, iterations, alpha, random, d + |doc|);
      }
    }
  }

  /**
   * A successful inference returns a distribution over the topics: one
   * entry per topic, each in `(0, 1]`, summing to exactly 1.
   */
  lemma InferredIsDistribution(alpha: real, phi: seq<seq<real>>, doc: seq<int>, iterations: int,
                               random: nat -> Fraction, d: nat)
    requires Indexable(phi, doc) && alpha > 0.0
    requires Inferred(alpha, phi, doc, iterations, random, d).Success?
    ensures var theta := Inferred(alpha, phi, doc, iterations, random, d).value;
            |theta| == |phi| && Sum(theta) == 1.0 && forall k :: 0 <= k < |theta| ==> 0.0 < theta[k] <= 1.0
  {
    var z0 := Lda.DrawRow(|doc|, |phi|, random, d);
    RunFromInRange(phi, doc, z0, 0, iterations, alpha, random, d + |doc|);
    var z := RunFrom(phi, doc, z0, 0, iterations, alpha, random, d + |doc|).value;
    TopicCountsPartition(z, |phi|);
    SmoothedSumsToOne(TopicCounts(z, |phi|), alpha);
  }

  /**
   * The local `ndsum` is the sum of the local `nd`: the document's length
   * while every token is counted, one less while token `n` is taken out.
   * The methods below keep `nd` equal to these counts, so `ndsum` is the
   * constant `|doc|` (and `|doc| - 1` inside a token step) in the model.
   */
  lemma LocalTotals(z: seq<int>, n: nat, k: nat)
    requires RowInRange(z, k) && n < |z|
    ensures SumNat(TopicCounts(z, k)) == |z|
    ensures SumNat(TopicCounts(z[n := -1], k)) == |z| - 1
  {
    TopicCountsPartition(z, k);
    var out := TopicCounts(z[n := -1], k);
    var one := Indicator(k, z[n], true);
    forall t | 0 <= t < k ensures TopicCounts(z, k)[t] == out[t] + one[t] {
      CountUpdate(z, n, -1, t);
    }
    SumNatAdd(out, one, TopicCounts(z, k));
    SumNatIndicator(k, z[n], true);
  }

  /** Every token of the document has positive weight under every topic in `phi`. */
  predicate PositiveOnDocument(phi: seq<seq<real>>, doc: seq<int>)
    requires Indexable(phi, doc)
  {
    forall k, n :: 0 <= k < |phi| && 0 <= n < |doc| ==> phi[k][doc[n]] > 0.0
  }

  /** With positive weights the scan always stops on a topic. */
  lemma RedrawnInRange(phi: seq<seq<real>>, doc: seq<int>, z: seq<int>, n: nat, alpha: real, r: Fraction)
    requires Indexable(phi, doc) && |z| == |doc| && n < |doc| && alpha > 0.0 && PositiveOnDocument(phi, doc)
    ensures Redrawn(phi, doc, z, n, alpha, r) < |phi|
  {
    var ws := TokenWeights(phi, doc[n], TopicCounts(z[n := -1], |phi|), |doc| - 1, alpha);
    forall k | 0 <= k < |ws| ensures ws[k] > 0.0 {
      Lda.ProductPositive(phi[k][doc[n]], Smoothed(TopicCounts(z[n := -1], |phi|)[k], |doc| - 1, |phi|, alpha));
    }
    GrandTotal(ws);
    Lda.PickIsSelect(ws, r);
    SelectInRange(PrefixSums(ws), ScaleDraw(r, Sum(ws)));
  }

  lemma {:induction false} SweepFromSucceeds(phi: seq<seq<real>>, doc: seq<int>, z: seq<int>, n: nat, alpha: real,
                                             random: nat -> Fraction, d: nat)
    requires Indexable(phi, doc) && |z| == |doc| && n <= |doc| && alpha > 0.0 && PositiveOnDocument(phi, doc)
    ensures SweepFrom(phi, doc, z, n, alpha, random, d).Success?
    decreases |doc| - n
  {
    if n < |doc| {
      var t := Redrawn(phi, doc, z, n, alpha, random(d));
      RedrawnInRange(phi, doc, z, n, alpha, random(d));
      SweepFromSucceeds(phi, doc, z[n := t], n + 1, alpha, random, d + 1);
    }
  }

  lemma {:induction false} RunFromSucceeds(phi: seq<seq<real>>, doc: seq<int>, z: seq<int>, i: int, iterations: int,
                                           alpha: real, random: nat -> Fraction, d: nat)
    requires Indexable(phi, doc) && |z| == |doc| && alpha > 0.0 && PositiveOnDocument(phi, doc)
    ensures RunFrom(phi, doc, z, i, iterations, alpha, random, d).Success?
    decreases iterations - i
  {
    if i < iterations {
      SweepFromSucceeds(phi, doc, z, 0, alpha, random, d);
      var s := SweepFrom(phi, doc, z, 0, alpha, random, d);
      RunFromSucceeds(phi, doc, s.value, i + 1, iterations, alpha, random, d + |doc|);
    }
  }

  /**
   * The exception is never raised when `phi` gives every word of the
   * document a positive probability under every topic (as a `phi` estimated
   * with a positive `beta` does).
   */
  lemma NeverFailsOnPositivePhi(alpha: real, phi: seq<seq<real>>, doc: seq<int>, iterations: int,
                                random: nat -> Fraction, d: nat)
    requires Indexable(phi, doc) && alpha > 0.0 && PositiveOnDocument(phi, doc)
    ensures Inferred(alpha, phi, doc, iterations, random, d).Success?
  {
    RunFromSucceeds(phi, doc, Lda.DrawRow(|doc|, |phi|, random, d), 0, iterations, alpha, random, d + |doc|);
  }

  lemma {:induction false} SumOfZeros(ws: seq<real>)
    requires forall k :: 0 <= k < |ws| ==> ws[k] == 0.0
    ensures Sum(ws) == 0.0
  {
    if |ws| > 0 {
      SumOfZeros(ws[..|ws| - 1]);
    }
  }

  /** A token whose word has probability zero under every topic makes the scan run past the last topic. */
  lemma RedrawnFailsOnZeroColumn(phi: seq<seq<real>>, doc: seq<int>, z: seq<int>, n: nat, alpha: real, r: Fraction)
    requires Indexable(phi, doc) && |z| == |doc| && n < |doc| && alpha > 0.0
    requires forall k :: 0 <= k < |phi| ==> phi[k][doc[n]] == 0.0
    ensures Redrawn(phi, doc, z, n, alpha, r) == |phi|
  {
    var ws := TokenWeights(phi, doc[n], TopicCounts(z[n := -1], |phi|), |doc| - 1, alpha);
    assert forall k :: 0 <= k < |ws| ==> ws[k] == 0.0;
    var c := PrefixSums(ws);
    forall k | 0 <= k < |c| ensures c[k] == 0.0 {
      SumOfZeros(ws[..k + 1]);
    }
    SumOfZeros(ws);
    Lda.PickIsSelect(ws, r);
  }

  lemma {:induction false} SweepFromFailsAt(phi: seq<seq<real>>, doc: seq<int>, z: seq<int>, j: nat, n: nat, alpha: real,
                                            random: nat -> Fraction, d: nat)
    requires Indexable(phi, doc) && |z| == |doc| && j <= n < |doc| && alpha > 0.0
    requires forall k :: 0 <= k < |phi| ==> phi[k][doc[n]] == 0.0
    ensures SweepFrom(phi, doc, z, j, alpha, random, d).Failure?
    decreases n - j
  {
    var t := Redrawn(phi, doc, z, j, alpha, random(d));
    if j == n {
      RedrawnFailsOnZeroColumn(phi, doc, z, n, alpha, random(d));
    } else if t < |phi| {
      SweepFromFailsAt(phi, doc, z[j := t], j + 1, n, alpha, random, d + 1);
    }
  }

  /**
   * Conversely, with at least one sweep, a word of the document that has
   * probability zero under every topic always raises the exception.
   */
  lemma FailsOnZeroColumn(alpha: real, phi: seq<seq<real>>, doc: seq<int>, iterations: int,
                          random: nat -> Fraction, d: nat, n: nat)
    requires Indexable(phi, doc) && alpha > 0.0 && iterations > 0 && n < |doc|
    requires forall k :: 0 <= k < |phi| ==> phi[k][doc[n]] == 0.0
    ensures Inferred(alpha, phi, doc, iterations, random, d).Failure?
  {
    SweepFromFailsAt(phi, doc, Lda.DrawRow(|doc|, |phi|, random, d), 0, n, alpha, random, d + |doc|);
  }

  lemma {:induction false} RunFromEmpty(phi: seq<seq<real>>, z: seq<int>, i: int, iterations: int,
                                        alpha: real, random: nat -> Fraction, d: nat)
    requires Indexable(phi, []) && z == [] && alpha > 0.0
    ensures RunFrom(phi, [], z, i, iterations, alpha, random, d) == Success([])
    decreases iterations - i
  {
    if i < iterations {
      RunFromEmpty(phi, z, i + 1, iterations, alpha, random, d);
    }
  }

  /** An empty document gets the uniform mixture `1 / K` over the `K` topics. */
  lemma EmptyDocumentUniform(alpha: real, phi: seq<seq<real>>, iterations: int, random: nat -> Fraction, d: nat)
    requires Indexable(phi, []) && alpha > 0.0
    ensures Inferred(alpha, phi, [], iterations, random, d) == Success(seq(|phi|, _ => 1.0 / |phi| as real))
  {
    assert Lda.DrawRow(0, |phi|, random, d) == [];
    RunFromEmpty(phi, [], 0, iterations, alpha, random, d);
    var k := |phi| as real;
    var theta := Smoothing(TopicCounts([], |phi|), 0, alpha);
    forall t | 0 <= t < |phi| ensures theta[t] == 1.0 / k {
      assert TopicCounts([], |phi|)[t] == 0;
      assert theta[t] == (0 as real + alpha) / (0 as real + k * alpha);
      QuotientCancels(alpha, k);
    }
    assert theta == seq(|phi|, _ => 1.0 / k);
  }

  lemma QuotientCancels(a: real, k: real)
    requires a > 0.0 && k > 0.0
    ensures a / (k * a) == 1.0 / k
  {
    assert (1.0 / k) * (k * a) == a;
  }

  // ---------------------------------------------------------------------------
  // The inference itself, over arrays.
  // ---------------------------------------------------------------------------

  /**
   * The local arrays of the inference, zero-filled as Java allocates them:
   * the topic of every token, the word/topic counts `nw`, the topic counts
   * `nd` of the document and the topic totals `nwsum`.
   */
  method AllocateLocals(phi: seq<seq<real>>, doc: seq<int>)
    returns (z: array<int>, nw: array2<int>, nd: array<nat>, nwsum: array<int>)
    requires |phi| > 0
    ensures fresh(z) && fresh(nw) && fresh(nd) && fresh(nwsum) && z != nwsum
    ensures z.Length == |doc| && nd.Length == |phi| && nwsum.Length == |phi|
    ensures nw.Length0 == |phi[0]| && nw.Length1 == |phi|
    ensures forall k :: 0 <= k < |phi| ==> nd[k] == 0
  {
    var K := |phi|;
    var V := |phi[0]|;
    nw := new int[V, K];
    nd := Lda.Zeros(K);
    nwsum := new int[K];
    z := new int[|doc|];
  }

  /**
   * The initial topics: one uniform draw below `|phi|` per token, counted
   * into `nd`.  `nw` and `nwsum`, the word/topic and topic counts, are
   * kept as the source keeps them but never read.
   */
  method DrawInitial(phi: seq<seq<real>>, doc: seq<int>, z: array<int>, nw: array2<int>, nd: array<nat>,
                     nwsum: array<int>, random: nat -> Fraction, d: nat)
    requires Indexable(phi, doc) && z != nwsum
    requires z.Length == |doc| && nd.Length == |phi| && nwsum.Length == |phi|
    requires nw.Length0 == |phi[0]| && nw.Length1 == |phi|
    requires forall k :: 0 <= k < |phi| ==> nd[k] == 0
    modifies z, nw, nd, nwsum
    ensures z[..] == Lda.DrawRow(|doc|, |phi|, random, d)
    ensures forall k :: 0 <= k < |phi| ==> nd[k] == Count(z[..], k)
  {
    var K := |phi|;
    var N := |doc|;
    var n := 0;
    while n < N
      invariant n <= N
      invariant forall j :: 0 <= j < n ==> z[j] == TopicOf(random(d + j), K)
      invariant forall k :: 0 <= k < K ==> nd[k] == Count(z[..n], k)
    {
      var topic := TopicOf(random(d + n), K);
      z[n] := topic;
      nw[doc[n], topic] := nw[doc[n], topic] + 1;
      nd[topic] := nd[topic] + 1;
      nwsum[topic] := nwsum[topic] + 1;
      assert z[..n + 1][..n] == z[..n];
      n := n + 1;
    }
    assert z[..N] == z[..];
  }

  /** The weights of a token of word `w`, computed into a new array. */
  method ComputeWeights(phi: seq<seq<real>>, w: int, nd: array<nat>, ndsum: nat, alpha: real) returns (p: array<real>)
    requires nd.Length == |phi| && alpha > 0.0
    requires 0 <= w && forall k :: 0 <= k < |phi| ==> w < |phi[k]|
    ensures fresh(p)
    ensures p[..] == TokenWeights(phi, w, nd[..], ndsum, alpha)
  {
    var K := |phi|;
    p := new real[K];
    var k := 0;
    while k < K
      invariant k <= K
      invariant forall j :: 0 <= j < k ==> p[j] == TokenWeights(phi, w, nd[..], ndsum, alpha)[j]
    {
      var row := phi[k];
      p[k] := row[w] * Smoothed(nd[k], ndsum, K, alpha);
      k := k + 1;
    }
  }

  /** Removes token `n` from the counts: its topic loses one token. */
  method TakeOutToken(phi: seq<seq<real>>, doc: seq<int>, z: array<int>, nw: array2<int>, nd: array<nat>,
                      nwsum: array<int>, n: nat)
    requires Indexable(phi, doc) && n < |doc| && z != nwsum
    requires z.Length == |doc| && nd.Length == |phi| && nwsum.Length == |phi|
    requires nw.Length0 == |phi[0]| && nw.Length1 == |phi|
    requires RowInRange(z[..], |phi|)
    requires forall k :: 0 <= k < |phi| ==> nd[k] == Count(z[..], k)
    modifies nw, nd, nwsum
    ensures forall k :: 0 <= k < |phi| ==> nd[k] == Count(z[..][n := -1], k)
  {
    ghost var a := z[..];
    forall k | 0 <= k < |phi| ensures Count(a[n := -1], k) + (if a[n] == k then 1 else 0) == Count(a, k) {
      CountUpdate(a, n, -1, k);
    }
    var topic := z[n];
    nw[doc[n], topic] := nw[doc[n], topic] - 1;
    nd[topic] := nd[topic] - 1;
    nwsum[topic] := nwsum[topic] - 1;
  }

  /**
   * Draws the new topic of token `n`, taken out of the counts `nd`, with the
   * uniform value `r`: the weights, their running totals in place, and the
   * scan for the first total above `r` times the grand total.
   */
  method DrawToken(phi: seq<seq<real>>, doc: seq<int>, z: array<int>, nd: array<nat>, n: nat, alpha: real, r: Fraction)
    returns (topic: nat)
    requires Indexable(phi, doc) && alpha > 0.0 && n < |doc|
    requires z.Length == |doc| && nd.Length == |phi|
    requires forall k :: 0 <= k < |phi| ==> nd[k] == Count(z[..][n := -1], k)
    ensures topic == Redrawn(phi, doc, z[..], n, alpha, r)
  {
    var K := |phi|;
    var ndsum := |doc| - 1;
    assert nd[..] == TopicCounts(z[..][n := -1], K);
    var p := ComputeWeights(phi, doc[n], nd, ndsum, alpha);
    ghost var ws := p[..];
    Lda.Cumulate(p);
    assert ws[..K] == ws;
    var u := ScaleDraw(r, p[K - 1]);
    topic := Lda.Scan(p, u);
    Lda.PickIsSelect(ws, r);
  }

  /** Puts token `n` back under `topic`. */
  method PutBackToken(phi: seq<seq<real>>, doc: seq<int>, z: array<int>, nw: array2<int>, nd: array<nat>,
                      nwsum: array<int>, n: nat, topic: nat)
    requires Indexable(phi, doc) && n < |doc| && topic < |phi| && z != nwsum
    requires z.Length == |doc| && nd.Length == |phi| && nwsum.Length == |phi|
    requires nw.Length0 == |phi[0]| && nw.Length1 == |phi|
    requires RowInRange(z[..], |phi|)
    requires forall k :: 0 <= k < |phi| ==> nd[k] == Count(z[..][n := -1], k)
    modifies z, nw, nd, nwsum
    ensures z[..] == old(z[..])[n := topic]
    ensures RowInRange(z[..], |phi|) && forall k :: 0 <= k < |phi| ==> nd[k] == Count(z[..], k)
  {
    ghost var rest := z[..][n := -1];
    forall k | 0 <= k < |phi| ensures Count(rest[n := topic], k) == Count(rest, k) + (if topic == k then 1 else 0) {
      CountUpdate(rest, n, topic, k);
    }
    assert rest[n := topic] == z[..][n := topic];
    nw[doc[n], topic] := nw[doc[n], topic] + 1;
    nd[topic] := nd[topic] + 1;
    nwsum[topic] := nwsum[topic] + 1;
    z[n] := topic;
  }

  /**
   * Token `n`: take it out of the counts, draw its new topic with the
   * uniform value `r`, and put it back under that topic.  Fails when the
   * scan runs past the last topic, with the token still out of the counts.
   */
  method ResampleToken(phi: seq<seq<real>>, doc: seq<int>, z: array<int>, nw: array2<int>, nd: array<nat>,
                       nwsum: array<int>, n: nat, alpha: real, r: Fraction) returns (ok: bool)
    requires Indexable(phi, doc) && alpha > 0.0 && n < |doc| && z != nwsum
    requires z.Length == |doc| && nd.Length == |phi| && nwsum.Length == |phi|
    requires nw.Length0 == |phi[0]| && nw.Length1 == |phi|
    requires RowInRange(z[..], |phi|)
    requires forall k :: 0 <= k < |phi| ==> nd[k] == Count(z[..], k)
    modifies z, nw, nd, nwsum
    ensures ok <==> Redrawn(phi, doc, old(z[..]), n, alpha, r) < |phi|
    ensures ok ==> z[..] == old(z[..])[n := Redrawn(phi, doc, old(z[..]), n, alpha, r)]
    ensures ok ==> RowInRange(z[..], |phi|) && forall k :: 0 <= k < |phi| ==> nd[k] == Count(z[..], k)
  {
    TakeOutToken(phi, doc, z, nw, nd, nwsum, n);
    var topic := DrawToken(phi, doc, z, nd, n, alpha, r);
    if topic == |phi| {
      return false;
    }
    PutBackToken(phi, doc, z, nw, nd, nwsum, n, topic);
    ok := true;
  }

  /** One sweep over the tokens of the document, reading the stream from `d`. */
  method SweepTokens(phi: seq<seq<real>>, doc: seq<int>, z: array<int>, nw: array2<int>, nd: array<nat>,
                     nwsum: array<int>, alpha: real, random: nat -> Fraction, d: nat) returns (ok: bool)
    requires Indexable(phi, doc) && alpha > 0.0 && z != nwsum
    requires z.Length == |doc| && nd.Length == |phi| && nwsum.Length == |phi|
    requires nw.Length0 == |phi[0]| && nw.Length1 == |phi|
    requires RowInRange(z[..], |phi|)
    requires forall k :: 0 <= k < |phi| ==> nd[k] == Count(z[..], k)
    modifies z, nw, nd, nwsum
    ensures ok <==> SweepFrom(phi, doc, old(z[..]), 0, alpha, random, d).Success?
    ensures ok ==> z[..] == SweepFrom(phi, doc, old(z[..]), 0, alpha, random, d).value
    ensures ok ==> RowInRange(z[..], |phi|) && forall k :: 0 <= k < |phi| ==> nd[k] == Count(z[..], k)
  {
    ghost var target := SweepFrom(phi, doc, z[..], 0, alpha, random, d);
    var n := 0;
    while n < z.Length
      invariant n <= |doc|
      invariant RowInRange(z[..], |phi|) && forall k :: 0 <= k < |phi| ==> nd[k] == Count(z[..], k)
      invariant SweepFrom(phi, doc, z[..], n, alpha, random, d + n) == target
    {
      ok := ResampleToken(phi, doc, z, nw, nd, nwsum, n, alpha, random(d + n));
      if !ok {
        return;
      }
      n := n + 1;
    }
    ok := true;
  }

  /**
   * Sweeps `i` up to `iterations`, the first reading the stream from `d`;
   * fails as soon as one sweep fails.
   */
  method RunSweeps(phi: seq<seq<real>>, doc: seq<int>, z: array<int>, nw: array2<int>, nd: array<nat>,
                   nwsum: array<int>, alpha: real, iterations: int, random: nat -> Fraction, d: nat) returns (ok: bool)
    requires Indexable(phi, doc) && alpha > 0.0 && z != nwsum
    requires z.Length == |doc| && nd.Length == |phi| && nwsum.Length == |phi|
    requires nw.Length0 == |phi[0]| && nw.Length1 == |phi|
    requires RowInRange(z[..], |phi|)
    requires forall k :: 0 <= k < |phi| ==> nd[k] == Count(z[..], k)
    modifies z, nw, nd, nwsum
    ensures ok <==> RunFrom(phi, doc, old(z[..]), 0, iterations, alpha, random, d).Success?
    ensures ok ==> z[..] == RunFrom(phi, doc, old(z[..]), 0, iterations, alpha, random, d).value
    ensures ok ==> forall k :: 0 <= k < |phi| ==> nd[k] == Count(z[..], k)
  {
    ghost var target := RunFrom(phi, doc, z[..], 0, iterations, alpha, random, d);
    var next: nat := d;
    var i := 0;
    while i < iterations
      invariant RowInRange(z[..], |phi|) && forall k :: 0 <= k < |phi| ==> nd[k] == Count(z[..], k)
      invariant RunFrom(phi, doc, z[..], i, iterations, alpha, random, next) == target
    {
      ok := SweepTokens(phi, doc, z, nw, nd, nwsum, alpha, random, next);
      if !ok {
        return;
      }
      i := i + 1;
      next := next + |doc|;
    }
    ok := true;
  }

  /** The smoothed topic mixture of a document of `ndsum` tokens whose topic counts are `nd`. */
  method Mixture(nd: array<nat>, ndsum: nat, alpha: real) returns (theta: array<real>)
    requires nd.Length > 0 && alpha > 0.0
    ensures fresh(theta)
    ensures theta[..] == Smoothing(nd[..], ndsum, alpha)
  {
    var K := nd.Length;
    theta := new real[K];
    var k := 0;
    while k < K
      invariant k <= K
      invariant forall j :: 0 <= j < k ==> theta[j] == Smoothed(nd[j], ndsum, K, alpha)
    {
      theta[k] := Smoothed(nd[k], ndsum, K, alpha);
      k := k + 1;
    }
  }

  /**
   * Infers the topic mixture of `doc` from the pre-trained `phi`, with the
   * document/topic prior `alpha`, over `iterations` sweeps (the sampler's
   * shared iteration count).  `beta` is accepted and not used.
   */
  method Infer(alpha: real, beta: real, phi: seq<seq<real>>, doc: seq<int>, iterations: int,
               random: nat -> Fraction, d: nat) returns (res: Result<seq<real>>)
    requires Indexable(phi, doc) && alpha > 0.0
    ensures res == Inferred(alpha, phi, doc, iterations, random, d)
  {
    var N := |doc|;
    var z, nw, nd, nwsum := AllocateLocals(phi, doc);
    DrawInitial(phi, doc, z, nw, nd, nwsum, random, d);
    var ndsum := N;
    var ok := RunSweeps(phi, doc, z, nw, nd, nwsum, alpha, iterations, random, d + N);
    if !ok {
      return Failure(TooFewTopics);
    }
    var theta := Mixture(nd, ndsum, alpha);
    assert nd[..] == TopicCounts(z[..], |phi|);
    res := Success(theta[..]);
  }

  /** The overload with the default priors `alpha = 2.0` and `beta = 0.5`. */
  method InferDefault(phi: seq<seq<real>>, doc: seq<int>, iterations: int, random: nat -> Fraction, d: nat)
    returns (res: Result<seq<real>>)
    requires Indexable(phi, doc)
    ensures res == Inferred(2.0, phi, doc, iterations, random, d)
  {
    res := Infer(2.0, 0.5, phi, doc, iterations, random, d);
  }
}
