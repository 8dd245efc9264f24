/**
 * Collapsed Gibbs sampler for Latent Dirichlet Allocation.
 *
 * The sampler keeps a topic for every token (`z`) and four count arrays that
 * must agree with it at all times: `nw[w, k]` tokens of word `w` under topic
 * `k`, `nd[m, k]` tokens of document `m` under topic `k`, `nwsum[k]` tokens
 * under topic `k`, and `ndsum[m]` tokens in document `m`.  Each step of the
 * chain removes one token from the counts, draws a new topic for it from the
 * full conditional distribution and puts it back.
 *
 * `Math.random()` is the stream `random`: the `j`-th call returns
 * `random(j)`, and `drawn` counts the calls made so far.
 */
module Lda {
  import opened Counting
  import opened Sampling
  import opened Estimates
  import opened Schedules

  /** The entries of a matrix of reals, row by row. */
  ghost function Entries(a: array2<real>): (x: seq<seq<real>>)
    reads a
    ensures Shape(x, a.Length0, a.Length1)
  {
    seq(a.Length0, i requires 0 <= i < a.Length0 reads a =>
      seq(a.Length1, j requires 0 <= j < a.Length1 reads a => a[i, j]))
  }

  /**
   * The unnormalised full conditional of token `(m, n)` of `docs` under the
   * assignment `a`: for every topic `k`, the smoothed share of word
   * `docs[m][n]` in topic `k` times the smoothed share of topic `k` in
   * document `m`, both counted with the token itself left out (its topic is
   * set to -1, which no topic count sees).
   */
  ghost function FullConditional(docs: seq<seq<int>>, a: seq<seq<int>>, m: nat, n: nat,
                                 v: nat, k: nat, alpha: real, beta: real): (p: seq<real>)
    requires SameShape(docs, a) && m < |docs| && n < |docs[m]|
    requires 0 <= docs[m][n] < v && k > 0 && alpha > 0.0 && beta > 0.0
    ensures |p| == k
  {
    var rest := a[m := a[m][n := -1]];
    assert SameShape(docs, rest);
    seq(k, t requires 0 <= t < k =>
      Smoothed(WordTopicCount(docs, rest, docs[m][n], t), TopicTotal(rest, t), v, beta)
      * Smoothed(Count(rest[m], t), |docs[m]| - 1, k, alpha))
  }

  /**
   * Everything a run of the chain depends on besides the assignment: the
   * corpus, the vocabulary size, the number of topics, the two priors and
   * the stream of random values.
   */
  datatype Chain = Chain(docs: seq<seq<int>>, v: nat, k: nat, alpha: real, beta: real, random: nat -> Fraction)

  /** The chain can be run: tokens index the vocabulary, there is a topic for them, and the priors are positive. */
  ghost predicate Runnable(c: Chain)
  {
    WellFormed(c.docs, c.v) && (c.k > 0 || NoTokens(c.docs)) && c.alpha > 0.0 && c.beta > 0.0
  }

  /**
   * `t` is what inverse-CDF sampling picks from the weights `ws` with the
   * uniform value `r`: the scan's result for the draw `r * Sum(ws)`.
   */
  ghost predicate Picks(ws: seq<real>, r: Fraction, t: nat)
  {
    forall u :: u == ScaleDraw(r, Sum(ws)) ==> t == Select(PrefixSums(ws), u)
  }

  /** The index inverse-CDF sampling picks from the weights `ws` with the uniform value `r`. */
  ghost function Pick(ws: seq<real>, r: Fraction): (t: nat)
    ensures t <= |ws|
  {
    assert Picks(ws, r, Select(PrefixSums(ws), ScaleDraw(r, Sum(ws))));
    var t :| Picks(ws, r, t);
    assert t == Select(PrefixSums(ws), ScaleDraw(r, Sum(ws)));
    t
  }

  /** The pick is the scan over the running totals for the draw `r * Sum(ws)`. */
  lemma PickIsSelect(ws: seq<real>, r: Fraction)
    ensures Pick(ws, r) == Select(PrefixSums(ws), ScaleDraw(r, Sum(ws)))
  {
    var u := ScaleDraw(r, Sum(ws));
    assert Picks(ws, r, Pick(ws, r));
  }

  /**
   * The topic the chain draws for token `(m, n)` of assignment `a` with the
   * `d`-th random value: inverse-CDF sampling from the full conditional.
   */
  ghost function Resampled(c: Chain, a: seq<seq<int>>, m: nat, n: nat, d: nat): (t: nat)
    requires Runnable(c) && SameShape(c.docs, a) && m < |c.docs| && n < |c.docs[m]|
    ensures t <= c.k
  {
    Pick(FullConditional(c.docs, a, m, n, c.v, c.k, c.alpha, c.beta), c.random(d))
  }

  /**
   * The assignment a sweep leaves when it resumes at token `(m, n)` of `a`
   * with the `d`-th random value next: every remaining token, document by
   * document and in order, gets the topic drawn from its full conditional
   * given the topics drawn before it.
   */
  ghost function SweepFrom(c: Chain, a: seq<seq<int>>, m: nat, n: nat, d: nat): (b: seq<seq<int>>)
    requires Runnable(c) && SameShape(c.docs, a)
    requires m <= |c.docs| && (m < |c.docs| ==> n <= |c.docs[m]|)
    ensures SameShape(c.docs, b)
    decreases |c.docs| - m, if m < |c.docs| then |c.docs[m]| - n else 0
  {
    if m == |c.docs| then a
    else if n == |c.docs[m]| then SweepFrom(c, a, m + 1, 0, d)
    else
      var t := Resampled(c, a, m, n, d);
      SweepFrom(c, a[m := a[m][n := t]], m, n + 1, d + 1)
  }

  /** One token of a sweep: resampling it and resuming at the next token gives the same result. */
  lemma SweepStep(c: Chain, a: seq<seq<int>>, b: seq<seq<int>>, m: nat, n: nat, d: nat)
    requires Runnable(c) && SameShape(c.docs, a) && m < |c.docs| && n < |c.docs[m]|
    requires b == a[m := a[m][n := Resampled(c, a, m, n, d)]]
    ensures SameShape(c.docs, b)
    ensures SweepFrom(c, b, m, n + 1, d + 1) == SweepFrom(c, a, m, n, d)
  {
  }

  /** A sweep resuming at document `m` leaves the topics of the documents before `m` as they are. */
  lemma {:induction false} SweepFromKeepsEarlier(c: Chain, a: seq<seq<int>>, m: nat, n: nat, d: nat, i: nat)
    requires Runnable(c) && SameShape(c.docs, a)
    requires m <= |c.docs| && (m < |c.docs| ==> n <= |c.docs[m]|) && i < m
    ensures SweepFrom(c, a, m, n, d)[i] == a[i]
    decreases |c.docs| - m, if m < |c.docs| then |c.docs[m]| - n else 0
  {
    if m == |c.docs| {
    } else if n == |c.docs[m]| {
      SweepFromKeepsEarlier(c, a, m + 1, 0, d, i);
    } else {
      var t := Resampled(c, a, m, n, d);
      SweepFromKeepsEarlier(c, a[m := a[m][n := t]], m, n + 1, d + 1, i);
    }
  }

  /** The chain only ever draws a topic below `k`: the weights are positive, so the scan stops in range. */
  lemma ResampledInRange(c: Chain, a: seq<seq<int>>, m: nat, n: nat, d: nat)
    requires Runnable(c) && SameShape(c.docs, a) && m < |c.docs| && n < |c.docs[m]|
    ensures Resampled(c, a, m, n, d) < c.k
  {
    var ws := FullConditional(c.docs, a, m, n, c.v, c.k, c.alpha, c.beta);
    FullConditionalPositive(c.docs, a, m, n, c.v, c.k, c.alpha, c.beta);
    GrandTotal(ws);
    PickIsSelect(ws, c.random(d));
    SelectInRange(PrefixSums(ws), ScaleDraw(c.random(d), Sum(ws)));
  }

  /** A sweep keeps every topic below `k`, resuming anywhere. */
  lemma {:induction false} SweepFromInRange(c: Chain, a: seq<seq<int>>, m: nat, n: nat, d: nat)
    requires Runnable(c) && SameShape(c.docs, a) && InRange(a, c.k)
    requires m <= |c.docs| && (m < |c.docs| ==> n <= |c.docs[m]|)
    ensures InRange(SweepFrom(c, a, m, n, d), c.k)
    decreases |c.docs| - m, if m < |c.docs| then |c.docs[m]| - n else 0
  {
    if m == |c.docs| {
    } else if n == |c.docs[m]| {
      SweepFromInRange(c, a, m + 1, 0, d);
    } else {
      var t := Resampled(c, a, m, n, d);
      ResampledInRange(c, a, m, n, d);
      var b := a[m := a[m][n := t]];
      assert InRange(b, c.k);
      SweepFromInRange(c, b, m, n + 1, d + 1);
    }
  }

  /** The running sums of theta and phi snapshots, and how many were added. */
  datatype Stats = Stats(theta: seq<seq<real>>, phi: seq<seq<real>>, count: nat)

  /** Where the chain stands: the assignment, the statistics and the position in the stream. */
  datatype Outcome = Outcome(z: seq<seq<int>>, stats: Stats, drawn: nat)

  /** The sums have the shapes of theta (one row per document) and phi (one row per topic). */
  ghost predicate StatsFit(c: Chain, st: Stats)
  {
    Shape(st.theta, |c.docs|, c.k) && Shape(st.phi, c.k, c.v)
  }

  /** Each snapshot row is a distribution, so every row of the sums adds up to the number of snapshots. */
  ghost predicate StatsConsistent(c: Chain, st: Stats)
  {
    (c.k > 0 ==> RowsSumTo(st.theta, st.count as real))
    && (c.v > 0 ==> RowsSumTo(st.phi, st.count as real))
  }

  /** The statistics with the snapshot of theta and phi of assignment `a` added. */
  ghost function Accumulate(c: Chain, a: seq<seq<int>>, st: Stats): (r: Stats)
    requires Runnable(c) && SameShape(c.docs, a) && StatsFit(c, st)
    ensures StatsFit(c, r) && r.count == st.count + 1
  {
    Stats(AddRows(st.theta, Theta(c.docs, a, c.k, c.alpha)),
          AddRows(st.phi, Phi(c.docs, a, c.v, c.k, c.beta)),
          st.count + 1)
  }

  /** Adding a snapshot of an assignment with topics in range keeps the sums consistent. */
  lemma AccumulateConsistent(c: Chain, a: seq<seq<int>>, st: Stats)
    requires Runnable(c) && SameShape(c.docs, a) && InRange(a, c.k) && StatsFit(c, st)
    requires StatsConsistent(c, st)
    ensures StatsConsistent(c, Accumulate(c, a, st))
  {
    if c.k > 0 {
      ThetaRowsSumToOne(c.docs, a, c.k, c.alpha);
      AddRowsSums(st.theta, Theta(c.docs, a, c.k, c.alpha), st.count as real, 1.0);
    }
    if c.v > 0 {
      PhiRowsSumToOne(c.docs, a, c.v, c.k, c.beta);
      AddRowsSums(st.phi, Phi(c.docs, a, c.v, c.k, c.beta), st.count as real, 1.0);
    }
  }

  /**
   * Iteration `i` of `gibbs` from `o`: a sweep of the whole corpus, then a
   * snapshot of the new assignment when the schedule samples iteration `i`.
   */
  ghost function Step(c: Chain, s: Schedule, o: Outcome, i: int): (r: Outcome)
    requires Runnable(c) && SameShape(c.docs, o.z) && (s.sampleLag > 0 ==> StatsFit(c, o.stats))
    ensures SameShape(c.docs, r.z) && (s.sampleLag > 0 ==> StatsFit(c, r.stats))
  {
    var b := SweepFrom(c, o.z, 0, 0, o.drawn);
    Outcome(b, if Sampled(s, i) then Accumulate(c, b, o.stats) else o.stats, o.drawn + Tokens(c.docs))
  }

  /** The iterations `i`, `i + 1`, ... below `s.iterations` of `gibbs`, from `o`. */
  ghost function Run(c: Chain, s: Schedule, o: Outcome, i: int): (r: Outcome)
    requires Runnable(c) && SameShape(c.docs, o.z) && (s.sampleLag > 0 ==> StatsFit(c, o.stats))
    ensures SameShape(c.docs, r.z) && (s.sampleLag > 0 ==> StatsFit(c, r.stats))
    decreases s.iterations - i
  {
    if i >= s.iterations then o else Run(c, s, Step(c, s, o, i), i + 1)
  }

  /** Iterations from `i` on add one snapshot for each sampled iteration. */
  lemma {:induction false} RunCount(c: Chain, s: Schedule, o: Outcome, i: int)
    requires Runnable(c) && SameShape(c.docs, o.z) && (s.sampleLag > 0 ==> StatsFit(c, o.stats))
    requires 0 <= i <= s.iterations
    ensures Run(c, s, o, i).stats.count == o.stats.count + SamplesBefore(s, s.iterations) - SamplesBefore(s, i)
    decreases s.iterations - i
  {
    if i < s.iterations {
      RunCount(c, s, Step(c, s, o, i), i + 1);
    }
  }

  /** Every iteration reads one stream value per token. */
  lemma {:induction false} RunDrawn(c: Chain, s: Schedule, o: Outcome, i: int)
    requires Runnable(c) && SameShape(c.docs, o.z) && (s.sampleLag > 0 ==> StatsFit(c, o.stats))
    requires i <= s.iterations
    ensures Run(c, s, o, i).drawn == o.drawn + (s.iterations - i) * Tokens(c.docs)
    decreases s.iterations - i
  {
    if i < s.iterations {
      RunDrawn(c, s, Step(c, s, o, i), i + 1);
      assert (s.iterations - i) * Tokens(c.docs) == Tokens(c.docs) + (s.iterations - (i + 1)) * Tokens(c.docs);
    }
  }

  /**
   * The thinning interval only paces the progress display: a run with any
   * other interval yields the same assignment, sums and stream position.
   */
  lemma {:induction false} RunIgnoresThinInterval(c: Chain, s: Schedule, o: Outcome, i: int, thin: int)
    requires Runnable(c) && SameShape(c.docs, o.z) && (s.sampleLag > 0 ==> StatsFit(c, o.stats))
    ensures Run(c, s.(thinInterval := thin), o, i) == Run(c, s, o, i)
    decreases s.iterations - i
  {
    if i < s.iterations {
      assert Step(c, s.(thinInterval := thin), o, i) == Step(c, s, o, i);
      RunIgnoresThinInterval(c, s, Step(c, s, o, i), i + 1, thin);
    }
  }

  /**
   * A run keeps the topics below `k` and the sums consistent: after `gibbs`
   * every row of `thetasum` and of `phisum` adds up to `numstats`.
   */
  lemma {:induction false} RunConsistent(c: Chain, s: Schedule, o: Outcome, i: int)
    requires Runnable(c) && SameShape(c.docs, o.z) && InRange(o.z, c.k)
    requires s.sampleLag > 0 ==> StatsFit(c, o.stats)
    requires StatsConsistent(c, o.stats)
    ensures InRange(Run(c, s, o, i).z, c.k)
    ensures StatsConsistent(c, Run(c, s, o, i).stats)
    decreases s.iterations - i
  {
    if i < s.iterations {
      var b := SweepFrom(c, o.z, 0, 0, o.drawn);
      SweepFromInRange(c, o.z, 0, 0, o.drawn);
      if Sampled(s, i) {
        AccumulateConsistent(c, b, o.stats);
      }
      RunConsistent(c, s, Step(c, s, o, i), i + 1);
    }
  }

  /**
   * Where `gibbs` stands before its first iteration, started at stream
   * position `d` with sums `st`: the uniform initial assignment, fresh zero
   * sums when sample-lag sampling is on (the old ones otherwise), and the
   * stream past one value per token.
   */
  ghost function Initial(c: Chain, s: Schedule, d: nat, st: Stats): (o: Outcome)
    requires Runnable(c)
    ensures SameShape(c.docs, o.z) && InRange(o.z, c.k)
    ensures s.sampleLag > 0 ==> StatsFit(c, o.stats) && StatsConsistent(c, o.stats) && o.stats.count == 0
  {
    DrawnUpToShape(c.docs, c.k, c.random, d, |c.docs|);
    Outcome(UniformTopics(c.docs, c.k, c.random, d),
            if s.sampleLag > 0 then Stats(ZeroRows(|c.docs|, c.k), ZeroRows(c.k, c.v), 0) else st,
            d + Tokens(c.docs))
  }

  /**
   * What a complete `gibbs` run with sample-lag sampling yields: topics in
   * range, sums whose every row adds up to the number of snapshots, one
   * snapshot per sampled iteration, and one stream value per token for the
   * initialisation and for each iteration.
   */
  lemma GibbsOutcome(c: Chain, s: Schedule, d: nat, st: Stats)
    requires Runnable(c) && s.sampleLag > 0
    ensures var r := Run(c, s, Initial(c, s, d, st), 0);
      && InRange(r.z, c.k)
      && StatsConsistent(c, r.stats)
      && r.stats.count == SamplesBefore(s, s.iterations)
      && r.drawn == d + (1 + if s.iterations > 0 then s.iterations else 0) * Tokens(c.docs)
  {
    var o := Initial(c, s, d, st);
    var r := Run(c, s, o, 0);
    var tokens := Tokens(c.docs);
    RunConsistent(c, s, o, 0);
    if s.iterations >= 0 {
      RunCount(c, s, o, 0);
      RunDrawn(c, s, o, 0);
      assert r.drawn == d + tokens + s.iterations * tokens;
      assert (1 + s.iterations) * tokens == tokens + s.iterations * tokens;
    } else {
      NoSamplesIff(s, s.iterations);
      assert r == o;
      assert (1 + 0) * tokens == tokens;
    }
  }

  /** `len` topics drawn uniformly below `k` from the stream values `d`, `d + 1`, and so on. */
  function DrawRow(len: nat, k: nat, random: nat -> Fraction, d: nat): (row: seq<int>)
    ensures |row| == len
    ensures k > 0 ==> RowInRange(row, k)
  {
    var row := seq(len, j requires 0 <= j < len => TopicOf(random(d + j), k));
    assert forall j :: 0 <= j < len ==> row[j] == TopicOf(random(d + j), k);
    row
  }

  /**
   * The assignment once the initialisation, reading the stream `random` from
   * its `d`-th value on, has drawn the documents before `m`: document `i`
   * takes its topics from the values after the `d + TokensBefore(docs, i)`
   * already used, and the documents from `m` on have no topic yet.
   */
  function DrawnUpTo(docs: seq<seq<int>>, k: nat, random: nat -> Fraction, d: nat, m: nat): (zs: seq<seq<int>>)
    requires m <= |docs|
    ensures |zs| == |docs|
  {
    if m == 0 then Unassigned(docs)
    else DrawnUpTo(docs, k, random, d, m - 1)[m - 1 := DrawRow(|docs[m - 1]|, k, random, d + TokensBefore(docs, m - 1))]
  }

  /** The assignment the initialisation draws for the whole corpus. */
  function UniformTopics(docs: seq<seq<int>>, k: nat, random: nat -> Fraction, d: nat): seq<seq<int>>
  {
    DrawnUpTo(docs, k, random, d, |docs|)
  }

  /** With a topic available for every token, the initialisation gives every token one topic in `[0, k)`. */
  lemma UniformTopicsInRange(docs: seq<seq<int>>, k: nat, random: nat -> Fraction, d: nat)
    requires k > 0 || NoTokens(docs)
    ensures SameShape(docs, UniformTopics(docs, k, random, d)) && InRange(UniformTopics(docs, k, random, d), k)
  {
    DrawnUpToShape(docs, k, random, d, |docs|);
    var zs := UniformTopics(docs, k, random, d);
    assert forall m :: 0 <= m < |zs| ==> RowInRange(zs[m], k);
  }

  /**
   * Part-way through the initialisation the assignment has the corpus's
   * shape, the drawn documents hold topics below `k` and the others none.
   */
  lemma {:induction false} DrawnUpToShape(docs: seq<seq<int>>, k: nat, random: nat -> Fraction, d: nat, m: nat)
    requires m <= |docs| && (k > 0 || NoTokens(docs))
    ensures SameShape(docs, DrawnUpTo(docs, k, random, d, m))
    ensures DrawnBefore(DrawnUpTo(docs, k, random, d, m), m, k)
  {
    if m > 0 {
      DrawnUpToShape(docs, k, random, d, m - 1);
    }
  }

  /**
   * Each token gets its own value of the stream: token `n` of document `m`
   * takes topic `TopicOf` of value `d + t`, where `t` counts the tokens
   * before it in corpus order.
   */
  lemma {:induction false} UniformTopic(docs: seq<seq<int>>, k: nat, random: nat -> Fraction, d: nat, m: nat, n: nat)
    requires m < |docs| && n < |docs[m]|
    ensures |UniformTopics(docs, k, random, d)[m]| == |docs[m]|
    ensures UniformTopics(docs, k, random, d)[m][n] == TopicOf(random(d + TokensBefore(docs, m) + n), k)
  {
    DrawnLater(docs, k, random, d, m, |docs|);
  }

  /** Drawing later documents does not change document `m` once it is drawn. */
  lemma {:induction false} DrawnLater(docs: seq<seq<int>>, k: nat, random: nat -> Fraction, d: nat, m: nat, j: nat)
    requires m < j <= |docs|
    ensures DrawnUpTo(docs, k, random, d, j)[m] == DrawRow(|docs[m]|, k, random, d + TokensBefore(docs, m))
  {
    if j > m + 1 {
      DrawnLater(docs, k, random, d, m, j - 1);
    }
  }

  /** Every weight of the full conditional is strictly positive. */
  lemma FullConditionalPositive(docs: seq<seq<int>>, a: seq<seq<int>>, m: nat, n: nat,
                                v: nat, k: nat, alpha: real, beta: real)
    requires SameShape(docs, a) && m < |docs| && n < |docs[m]|
    requires 0 <= docs[m][n] < v && k > 0 && alpha > 0.0 && beta > 0.0
    ensures AllPositive(FullConditional(docs, a, m, n, v, k, alpha, beta))
  {
    var ws := FullConditional(docs, a, m, n, v, k, alpha, beta);
    var rest := a[m := a[m][n := -1]];
    forall t | 0 <= t < k ensures ws[t] > 0.0 {
      var x := Smoothed(WordTopicCount(docs, rest, docs[m][n], t), TopicTotal(rest, t), v, beta);
      var y := Smoothed(Count(rest[m], t), |docs[m]| - 1, k, alpha);
      assert ws[t] == x * y;
      ProductPositive(x, y);
    }
  }

  lemma ProductPositive(x: real, y: real)
    requires x > 0.0 && y > 0.0
    ensures x * y > 0.0
  {
  }

  /** Replaces the weights in `p` by their running totals, in place. */
  method Cumulate(p: array<real>)
    modifies p
    ensures p[..] == PrefixSums(old(p[..]))
  {
    ghost var w := p[..];
    var k := 1;
    while k < p.Length
      invariant 1 <= k
      invariant forall j :: 0 <= j < k && j < p.Length ==> p[j] == Sum(w[..j + 1])
      invariant forall j :: k <= j < p.Length ==> p[j] == w[j]
    {
      assert w[..k + 1][..k] == w[..k];
      p[k] := p[k] + p[k - 1];
      k := k + 1;
    }
    if p.Length > 0 {
      assert w[..1][..0] == [];
    }
  }

  /** The first index whose running total exceeds `u`, or `p.Length` when none does. */
  method Scan(p: array<real>, u: real) returns (topic: nat)
    ensures topic == Select(p[..], u)
  {
    topic := 0;
    while topic < p.Length
      invariant topic <= p.Length
      invariant forall j :: 0 <= j < topic ==> p[j] <= u
    {
      if u < p[topic] {
        break;
      }
      topic := topic + 1;
    }
    SelectUnique(p[..], u, topic);
  }

  /**
   * Inverse-CDF selection over the positive weights in `p`: turns them into
   * running totals in place, scales the uniform draw `r` to the grand total
   * and scans for the first running total above it.  The draw stays below
   * the grand total, so the scan ends on an index of `p`.
   */
  method Choose(p: array<real>, r: Fraction) returns (topic: nat)
    requires p.Length > 0 && AllPositive(p[..])
    modifies p
    ensures topic < p.Length
    ensures topic == Select(PrefixSums(old(p[..])), ScaleDraw(r, Sum(old(p[..]))))
  {
    ghost var ws := p[..];
    GrandTotal(ws);
    Cumulate(p);
    var total := p[p.Length - 1];
    var u := ScaleDraw(r, total);
    topic := Scan(p, u);
    SelectInRange(p[..], u);
  }

  /** A new zero-filled count vector (Java arrays start out zeroed). */
  method Zeros(len: nat) returns (a: array<nat>)
    ensures fresh(a) && a.Length == len
    ensures forall i :: 0 <= i < len ==> a[i] == 0
  {
    a := new nat[len](_ => 0);
  }

  /** A new zero-filled count matrix. */
  method Zeros2(rows: nat, cols: nat) returns (a: array2<nat>)
    ensures fresh(a) && a.Length0 == rows && a.Length1 == cols
    ensures forall i, j :: 0 <= i < rows && 0 <= j < cols ==> a[i, j] == 0
  {
    a := new nat[rows, cols]((_, _) => 0);
  }

  /** A new zero-filled matrix of reals. */
  method ZeroMatrix(rows: nat, cols: nat) returns (a: array2<real>)
    ensures fresh(a) && a.Length0 == rows && a.Length1 == cols
    ensures Entries(a) == ZeroRows(rows, cols)
  {
    a := new real[rows, cols]((_, _) => 0.0);
    assert forall i :: 0 <= i < rows ==> Entries(a)[i] == ZeroRows(rows, cols)[i];
  }

  class LdaGibbsSampler {
    /** The corpus: one sequence of vocabulary ids per document. */
    const documents: seq<seq<int>>
    /** Vocabulary size. */
    const V: nat
    /** Number of topics of the current run. */
    var K: nat
    /** Dirichlet prior on document/topic associations. */
    var alpha: real
    /** Dirichlet prior on topic/term associations. */
    var beta: real

    /** Topic of every token, one row per document. */
    var z: seq<seq<int>>
    var nw: array2<nat>
    var nd: array2<nat>
    var nwsum: array<nat>
    var ndsum: array<nat>

    /** Running sums of the theta and phi snapshots, and how many were added. */
    var thetasum: array2<real>
    var phisum: array2<real>
    var numstats: nat

    /** The run schedule (static fields in the Java code). */
    var schedule: Schedule

    /** The values successive calls of `Math.random()` return. */
    const random: nat -> Fraction
    var drawn: nat

    /** The count arrays have the shapes of a run with `k` topics and do not alias each other. */
    ghost predicate Shaped(k: nat)
      reads this`nw, this`nd, this`nwsum, this`ndsum
    {
      && nw.Length0 == V && nw.Length1 == k
      && nd.Length0 == |documents| && nd.Length1 == k
      && nwsum.Length == k && ndsum.Length == |documents|
      && nw != nd && nwsum != ndsum
    }

    /** `nw`, `nd` and `nwsum` hold exactly the counts of assignment `a`. */
    ghost predicate CountsAgree(a: seq<seq<int>>, k: nat)
      requires Shaped(k) && SameShape(documents, a)
      reads this`nw, this`nd, this`nwsum, this`ndsum, nw, nd, nwsum
    {
      && (forall w, t :: 0 <= w < V && 0 <= t < k ==> nw[w, t] == WordTopicCount(documents, a, w, t))
      && (forall m, t :: 0 <= m < |documents| && 0 <= t < k ==> nd[m, t] == Count(a[m], t))
      && (forall t :: 0 <= t < k ==> nwsum[t] == TopicTotal(a, t))
    }

    /**
     * The invariant of the chain for assignment `a` and `k` topics: every
     * topic is in range, the counts are those of `a`, and `ndsum` holds the
     * document lengths.
     */
    ghost predicate CountsMatch(a: seq<seq<int>>, k: nat)
      reads this`nw, this`nd, this`nwsum, this`ndsum, nw, nd, nwsum, ndsum
    {
      && Shaped(k) && SameShape(documents, a) && InRange(a, k)
      && CountsAgree(a, k)
      && (forall m :: 0 <= m < |documents| ==> ndsum[m] == |documents[m]|)
    }

    /** The sampler's state is consistent: tokens index the vocabulary and the counts match `z`. */
    ghost predicate Valid()
      reads this`z, this`K, this`nw, this`nd, this`nwsum, this`ndsum, nw, nd, nwsum, ndsum
    {
      WellFormed(documents, V) && (K > 0 || NoTokens(documents)) && CountsMatch(z, K)
    }

    /** Column `t` of `nw`: the count of every word under topic `t`. */
    ghost function WordColumn(t: nat): (c: seq<nat>)
      requires t < nw.Length1
      reads this`nw, nw
      ensures |c| == nw.Length0
    {
      var a := nw;
      seq(a.Length0, w requires 0 <= w < a.Length0 reads a => a[w, t])
    }

    /** Row `m` of `nd`: the count of every topic in document `m`. */
    ghost function TopicRow(m: nat): (r: seq<nat>)
      requires m < nd.Length0
      reads this`nd, nd
      ensures |r| == nd.Length1
    {
      var a := nd;
      seq(a.Length1, t requires 0 <= t < a.Length1 reads a => a[m, t])
    }

    /**
     * In a consistent state the arrays agree with each other: the words of
     * topic `t` in `nw` add up to `nwsum[t]`, and the topics of document `m`
     * in `nd` add up to `ndsum[m]`.
     */
    lemma Totals(t: nat, m: nat)
      requires Valid() && t < K && m < |documents|
      ensures SumNat(WordColumn(t)) == nwsum[t]
      ensures SumNat(TopicRow(m)) == ndsum[m]
    {
      assert WordColumn(t) == WordCounts(documents, z, V, t);
      WordCountsPartition(documents, z, V, t);
      assert RowInRange(z[m], K);
      assert TopicRow(m) == TopicCounts(z[m], K);
      TopicCountsPartition(z[m], K);
    }

    /** A consistent state with positive priors, as `gibbs` leaves it. */
    ghost predicate Ready()
      reads this`z, this`K, this`alpha, this`beta, this`nw, this`nd, this`nwsum, this`ndsum, nw, nd, nwsum, ndsum
    {
      Valid() && alpha > 0.0 && beta > 0.0
    }

    /** The parameters of the chain this sampler runs. */
    ghost function Params(): Chain
      reads this`K, this`alpha, this`beta
    {
      Chain(documents, V, K, alpha, beta, random)
    }

    constructor (documents: seq<seq<int>>, V: nat, random: nat -> Fraction)
      ensures this.documents == documents && this.V == V && this.random == random
      ensures K == 0 && alpha == 2.0 && beta == 0.5
      ensures numstats == 0 && drawn == 0 && schedule == DefaultSchedule
    {
      this.documents := documents;
      this.V := V;
      this.random := random;
      K := 0;
      alpha := 2.0;
      beta := 0.5;
      z := [];
      nw := new nat[0, 0];
      nd := new nat[0, 0];
      nwsum := new nat[0];
      ndsum := new nat[0];
      thetasum := new real[0, 0];
      phisum := new real[0, 0];
      numstats := 0;
      schedule := DefaultSchedule;
      drawn := 0;
    }

    /** `Math.random()`: the next value of the stream. */
    method NextRandom() returns (r: Fraction)
      modifies this`drawn
      ensures r == random(old(drawn)) && drawn == old(drawn) + 1
    {
      r := random(drawn);
      drawn := drawn + 1;
    }

    /** Replaces the run schedule. */
    method Configure(iterations: int, burnIn: int, thinInterval: int, sampleLag: int)
      modifies this`schedule
      ensures schedule == Schedule(iterations, burnIn, thinInterval, sampleLag)
    {
      schedule := Schedule(iterations, burnIn, thinInterval, sampleLag);
    }

    /**
     * Adds token `(m, n)`, which has no topic in `a`, to the counts under
     * topic `t`: the counts become those of `a` with the token assigned.
     */
    method CountToken(m: nat, n: nat, t: nat, k: nat, ghost a: seq<seq<int>>)
      requires WellFormed(documents, V) && Shaped(k) && SameShape(documents, a)
      requires m < |documents| && n < |documents[m]| && a[m][n] == -1 && t < k
      requires CountsAgree(a, k)
      modifies nw, nd, nwsum
      ensures SameShape(documents, a[m := a[m][n := t]])
      ensures CountsAgree(a[m := a[m][n := t]], k)
    {
      Reassign(documents, a, m, n, t);
      var w := documents[m][n];
      nw[w, t] := nw[w, t] + 1;
      nd[m, t] := nd[m, t] + 1;
      nwsum[t] := nwsum[t] + 1;
    }

    /**
     * Fresh zeroed count arrays for `k` topics and a corpus none of whose
     * tokens has a topic yet: the zero counts are exactly its counts.
     */
    method AllocateCounts(k: nat)
      modifies this`nw, this`nd, this`nwsum, this`ndsum, this`z
      ensures fresh(nw) && fresh(nd) && fresh(nwsum) && fresh(ndsum)
      ensures Shaped(k) && z == Unassigned(documents) && CountsAgree(z, k)
      ensures forall m :: 0 <= m < |documents| ==> ndsum[m] == 0
    {
      nw := Zeros2(V, k);
      nd := Zeros2(|documents|, k);
      nwsum := Zeros(k);
      ndsum := Zeros(|documents|);
      z := Unassigned(documents);
      forall w, t | 0 <= w < V && 0 <= t < k ensures nw[w, t] == WordTopicCount(documents, z, w, t) {
        UnassignedCountsNothing(documents, w, t);
      }
      forall t | 0 <= t < k ensures nwsum[t] == TopicTotal(z, t) {
        UnassignedCountsNothing(documents, 0, t);
      }
      forall m, t | 0 <= m < |documents| && 0 <= t < k ensures nd[m, t] == Count(z[m], t) {
        CountAbsent(z[m], t);
      }
    }

    /**
     * Draws a uniform topic below `k` for every token of document `m`, in
     * order, and counts it: the other documents keep their topics and the
     * counts stay those of `z`.
     */
    method DrawTopics(m: nat, k: nat)
      requires WellFormed(documents, V) && Shaped(k) && SameShape(documents, z)
      requires m < |documents| && RowUnassigned(z[m]) && (k > 0 || |documents[m]| == 0)
      requires CountsAgree(z, k)
      modifies nw, nd, nwsum, this`z, this`drawn
      ensures SameShape(documents, z) && CountsAgree(z, k)
      ensures z == old(z)[m := DrawRow(|documents[m]|, k, random, old(drawn))]
      ensures drawn == old(drawn) + |documents[m]|
    {
      var n := 0;
      while n < |documents[m]|
        modifies nw, nd, nwsum, this`z, this`drawn
        invariant 0 <= n <= |documents[m]| && drawn == old(drawn) + n
        invariant SameShape(documents, z) && CountsAgree(z, k)
        invariant z == old(z)[m := z[m]]
        invariant forall j :: 0 <= j < |z[m]| ==> z[m][j] == if j < n then TopicOf(random(old(drawn) + j), k) else -1
      {
        var r := NextRandom();
        var topic := TopicOf(r, k);
        CountToken(m, n, topic, k, z);
        z := z[m := z[m][n := topic]];
        n := n + 1;
      }
      assert z[m] == DrawRow(|documents[m]|, k, random, old(drawn));
    }

    /**
     * One document of the initialisation: its tokens get their topics and
     * are counted, and its length is recorded.  With the documents before
     * `m` drawn from stream position `d0` on, afterwards document `m` is
     * drawn as well.
     */
    method InitialDocument(m: nat, k: nat, ghost d0: nat)
      requires WellFormed(documents, V) && Shaped(k) && (k > 0 || NoTokens(documents))
      requires m < |documents| && z == DrawnUpTo(documents, k, random, d0, m)
      requires drawn == d0 + TokensBefore(documents, m)
      requires SameShape(documents, z) && CountsAgree(z, k)
      modifies nw, nd, nwsum, ndsum, this`z, this`drawn
      ensures z == DrawnUpTo(documents, k, random, d0, m + 1)
      ensures drawn == d0 + TokensBefore(documents, m + 1)
      ensures SameShape(documents, z) && CountsAgree(z, k)
      ensures ndsum[m] == |documents[m]|
      ensures forall i :: 0 <= i < ndsum.Length && i != m ==> ndsum[i] == old(ndsum[i])
    {
      DrawnUpToShape(documents, k, random, d0, m);
      DrawTopics(m, k);
      ndsum[m] := |documents[m]|;
    }

    /**
     * Draws every document in turn, starting from zero counts and a corpus
     * with no topics, the stream at position `d0`: afterwards `z` is the
     * uniform draw from that position and the counts are exactly its counts.
     */
    method DrawDocuments(k: nat, ghost d0: nat)
      requires WellFormed(documents, V) && (k > 0 || NoTokens(documents)) && Shaped(k)
      requires z == Unassigned(documents) && drawn == d0 && CountsAgree(z, k)
      requires forall i :: 0 <= i < |documents| ==> ndsum[i] == 0
      modifies nw, nd, nwsum, ndsum, this`z, this`drawn
      ensures z == UniformTopics(documents, k, random, d0)
      ensures drawn == d0 + Tokens(documents)
      ensures CountsMatch(z, k)
    {
      var m := 0;
      while m < |documents|
        modifies nw, nd, nwsum, ndsum, this`drawn, this`z
        invariant 0 <= m <= |documents|
        invariant z == DrawnUpTo(documents, k, random, d0, m)
        invariant drawn == d0 + TokensBefore(documents, m)
        invariant SameShape(documents, z) && CountsAgree(z, k)
        invariant forall i :: 0 <= i < |documents| ==> ndsum[i] == if i < m then |documents[i]| else 0
      {
        InitialDocument(m, k, d0);
        m := m + 1;
      }
      DrawnUpToShape(documents, k, random, d0, m);
    }

    /**
     * Fresh count arrays for `k` topics and a random topic for every token;
     * afterwards the counts are exactly those of the drawn assignment.
     * While a document is being drawn, its undrawn tokens hold -1.
     */
    method InitialState(k: nat)
      requires WellFormed(documents, V)
      requires k > 0 || NoTokens(documents)
      modifies this`nw, this`nd, this`nwsum, this`ndsum, this`z, this`drawn
      ensures fresh(nw) && fresh(nd) && fresh(nwsum) && fresh(ndsum)
      ensures z == UniformTopics(documents, k, random, old(drawn))
      ensures drawn == old(drawn) + Tokens(documents)
      ensures CountsMatch(z, k)
    {
      AllocateCounts(k);
      DrawDocuments(k, drawn);
    }

    /**
     * The weights of the full conditional of token `(m, n)`, computed from
     * the counts once that token has been taken out of them (`a` is the
     * assignment with the token at -1 and `ndsum[m]` is one short).
     */
    method Weights(m: nat, n: nat, ghost a: seq<seq<int>>) returns (p: array<real>)
      requires TokenOut(a, m, n)
      ensures fresh(p)
      ensures p[..] == FullConditional(documents, a, m, n, V, K, alpha, beta)
    {
      ghost var fc := FullConditional(documents, a, m, n, V, K, alpha, beta);
      assert a[m][n := -1] == a[m];
      assert a[m := a[m][n := -1]] == a;
      var w := documents[m][n];
      p := new real[K];
      var k := 0;
      while k < K
        modifies p
        invariant 0 <= k <= K
        invariant forall j :: 0 <= j < k ==> p[j] == fc[j]
      {
        p[k] := Smoothed(nw[w, k], nwsum[k], V, beta) * Smoothed(nd[m, k], ndsum[m], K, alpha);
        k := k + 1;
      }
    }

    /**
     * The selection step for token `(m, n)`, already taken out of the counts
     * (it is -1 in `a`): weights, their running totals, one uniform draw
     * scaled to the grand total, and the scan.  With positive priors the
     * draw lies below the grand total, so the scan always ends on a topic.
     */
    method Draw(m: nat, n: nat, ghost a: seq<seq<int>>) returns (topic: nat)
      requires TokenOut(a, m, n)
      modifies this`drawn
      ensures drawn == old(drawn) + 1
      ensures topic < K && topic == Resampled(Params(), a, m, n, old(drawn))
    {
      var p := Weights(m, n, a);
      FullConditionalPositive(documents, a, m, n, V, K, alpha, beta);
      var r := NextRandom();
      topic := Choose(p, r);
      PickIsSelect(FullConditional(documents, a, m, n, V, K, alpha, beta), r);
    }

    /**
     * Token `(m, n)` is out of the counts: it is -1 in `a` while every other
     * token has a topic below `K`, the counts are those of `a`, and
     * `ndsum[m]` is one short of the document's length.
     */
    ghost predicate TokenOut(a: seq<seq<int>>, m: nat, n: nat)
      reads this`K, this`alpha, this`beta, this`nw, this`nd, this`nwsum, this`ndsum, nw, nd, nwsum, ndsum
    {
      && WellFormed(documents, V) && Shaped(K) && SameShape(documents, a)
      && m < |documents| && n < |documents[m]| && a[m][n] == -1
      && (forall i, j :: 0 <= i < |a| && 0 <= j < |a[i]| && (i != m || j != n) ==> 0 <= a[i][j] < K)
      && CountsAgree(a, K)
      && K > 0 && alpha > 0.0 && beta > 0.0
      && (forall i :: 0 <= i < |documents| ==> ndsum[i] == |documents[i]| - if i == m then 1 else 0)
    }

    /**
     * Takes token `(m, n)` out of the counts: one unit less for its word and
     * topic, for its document and topic, for its topic and for its document.
     * None of them drops below zero, because the token is counted under the
     * topic it holds.
     */
    method TakeOut(m: nat, n: nat) returns (ghost a: seq<seq<int>>)
      requires Ready() && m < |documents| && n < |documents[m]|
      modifies nw, nd, nwsum, ndsum
      ensures a == z[m := z[m][n := -1]] && TokenOut(a, m, n)
    {
      a := z[m := z[m][n := -1]];
      var t := z[m][n];
      CountedUnderOwnTopic(documents, z, m, n);
      Reassign(documents, z, m, n, -1);
      var w := documents[m][n];
      nw[w, t] := nw[w, t] - 1;
      nd[m, t] := nd[m, t] - 1;
      nwsum[t] := nwsum[t] - 1;
      ndsum[m] := ndsum[m] - 1;
    }

    /** Counts token `(m, n)` again, under its new topic. */
    method PutBack(m: nat, n: nat, topic: nat, ghost a: seq<seq<int>>)
      requires TokenOut(a, m, n) && topic < K
      modifies nw, nd, nwsum, ndsum
      ensures CountsMatch(a[m := a[m][n := topic]], K)
    {
      CountToken(m, n, topic, K, a);
      ndsum[m] := ndsum[m] + 1;
    }

    /**
     * One step of the chain for token `(m, n)`: takes it out of the counts,
     * draws its new topic from the full conditional and counts it under that
     * topic.  `z` itself is left to the caller, as `sampleFullConditional` does; the
     * counts afterwards are those of `z` with the token moved to `topic`.
     */
    method SampleFullConditional(m: nat, n: nat) returns (topic: nat)
      requires Ready() && m < |documents| && n < |documents[m]|
      modifies nw, nd, nwsum, ndsum, this`drawn
      ensures drawn == old(drawn) + 1
      ensures topic < K && topic == Resampled(Params(), z, m, n, old(drawn))
      ensures CountsMatch(z[m := z[m][n := topic]], K)
    {
      ghost var a := TakeOut(m, n);
      Overwrite(z, m, n, -1, -1);
      topic := Draw(m, n, a);
      PutBack(m, n, topic, a);
      Overwrite(z, m, n, -1, topic);
    }

    /** The body of the sweep for token `(m, n)`: its topic becomes the one the step draws. */
    method Resample(m: nat, n: nat)
      requires Ready() && m < |documents| && n < |documents[m]|
      modifies nw, nd, nwsum, ndsum, this`z, this`drawn
      ensures Ready() && drawn == old(drawn) + 1
      ensures z == old(z)[m := old(z)[m][n := Resampled(Params(), old(z), m, n, old(drawn))]]
    {
      var topic := SampleFullConditional(m, n);
      z := z[m := z[m][n := topic]];
    }

    /** Resamples every token of document `m`, in order. */
    method SweepDocument(m: nat)
      requires Ready() && m < |documents|
      modifies nw, nd, nwsum, ndsum, this`z, this`drawn
      ensures Ready()
      ensures z == old(z)[m := SweepFrom(Params(), old(z), m, 0, old(drawn))[m]]
      ensures SweepFrom(Params(), z, m + 1, 0, drawn) == SweepFrom(Params(), old(z), m, 0, old(drawn))
      ensures drawn == old(drawn) + |documents[m]|
    {
      ghost var target := SweepFrom(Params(), z, m, 0, drawn);
      var n := 0;
      while n < |documents[m]|
        modifies nw, nd, nwsum, ndsum, this`z, this`drawn
        invariant 0 <= n <= |documents[m]| && Ready()
        invariant SweepFrom(Params(), z, m, n, drawn) == target
        invariant drawn == old(drawn) + n
        invariant |z| == |old(z)| && forall i :: 0 <= i < |z| && i != m ==> z[i] == old(z)[i]
      {
        ghost var before, d := z, drawn;
        Resample(m, n);
        SweepStep(Params(), before, z, m, n, d);
        n := n + 1;
      }
      SweepFromKeepsEarlier(Params(), z, m + 1, 0, drawn, m);
      assert z == old(z)[m := target[m]];
    }

    /**
     * One sweep of the chain: every token, document by document, is
     * resampled from its full conditional and gets the drawn topic.  The
     * counts keep matching the assignment throughout.
     */
    method Sweep()
      requires Ready()
      modifies nw, nd, nwsum, ndsum, this`z, this`drawn
      ensures Ready()
      ensures z == SweepFrom(Params(), old(z), 0, 0, old(drawn))
      ensures drawn == old(drawn) + Tokens(documents)
    {
      ghost var target := SweepFrom(Params(), z, 0, 0, drawn);
      var m := 0;
      while m < |documents|
        modifies nw, nd, nwsum, ndsum, this`z, this`drawn
        invariant 0 <= m <= |documents| && Ready()
        invariant SweepFrom(Params(), z, m, 0, drawn) == target
        invariant drawn == old(drawn) + TokensBefore(documents, m)
      {
        SweepDocument(m);
        m := m + 1;
      }
    }
  
    /** The running sums have the shapes of theta and phi for the current run and are two arrays. */
    ghost predicate StatsShaped()
      reads this`thetasum, this`phisum, this`K
    {
      && thetasum.Length0 == |documents| && thetasum.Length1 == K
      && phisum.Length0 == K && phisum.Length1 == V
      && thetasum != phisum
    }

    /** The running sums and their count, as values. */
    ghost function CurrentStats(): Stats
      reads this`thetasum, this`phisum, this`numstats, thetasum, phisum
    {
      Stats(Entries(thetasum), Entries(phisum), numstats)
    }

    /** Adds theta of the current assignment to `thetasum`, entry by entry. */
    method AccumulateTheta()
      requires Ready() && StatsShaped()
      modifies thetasum
      ensures Entries(thetasum) == AddRows(old(Entries(thetasum)), Theta(documents, z, K, alpha))
    {
      ghost var before := Entries(thetasum);
      ghost var theta := Theta(documents, z, K, alpha);
      var m := 0;
      while m < |documents|
        invariant 0 <= m <= |documents|
        invariant forall i, j :: 0 <= i < |documents| && 0 <= j < K ==>
          thetasum[i, j] == if i < m then before[i][j] + theta[i][j] else before[i][j]
      {
        var k := 0;
        while k < K
          invariant 0 <= k <= K
          invariant forall i, j :: 0 <= i < |documents| && 0 <= j < K ==>
            thetasum[i, j] == if i < m || (i == m && j < k) then before[i][j] + theta[i][j] else before[i][j]
        {
          assert theta[m][k] == Smoothed(nd[m, k], ndsum[m], K, alpha);
          thetasum[m, k] := thetasum[m, k] + Smoothed(nd[m, k], ndsum[m], K, alpha);
          k := k + 1;
        }
        m := m + 1;
      }
      assert forall i :: 0 <= i < |documents| ==> Entries(thetasum)[i] == AddRows(before, theta)[i];
    }

    /** Adds phi of the current assignment to `phisum`, entry by entry. */
    method AccumulatePhi()
      requires Ready() && StatsShaped()
      modifies phisum
      ensures Entries(phisum) == AddRows(old(Entries(phisum)), Phi(documents, z, V, K, beta))
    {
      ghost var before := Entries(phisum);
      ghost var phi := Phi(documents, z, V, K, beta);
      var k := 0;
      while k < K
        invariant 0 <= k <= K
        invariant forall i, j :: 0 <= i < K && 0 <= j < V ==>
          phisum[i, j] == if i < k then before[i][j] + phi[i][j] else before[i][j]
      {
        var w := 0;
        while w < V
          invariant 0 <= w <= V
          invariant forall i, j :: 0 <= i < K && 0 <= j < V ==>
            phisum[i, j] == if i < k || (i == k && j < w) then before[i][j] + phi[i][j] else before[i][j]
        {
          assert phi[k][w] == Smoothed(nw[w, k], nwsum[k], V, beta);
          phisum[k, w] := phisum[k, w] + Smoothed(nw[w, k], nwsum[k], V, beta);
          w := w + 1;
        }
        k := k + 1;
      }
      assert forall i :: 0 <= i < K ==> Entries(phisum)[i] == AddRows(before, phi)[i];
    }

    /** `updateParams`: adds a snapshot of theta and phi of the current state to the sums. */
    method UpdateParams()
      requires Ready() && StatsShaped()
      modifies thetasum, phisum, this`numstats
      ensures CurrentStats() == Accumulate(Params(), z, old(CurrentStats()))
    {
      AccumulateTheta();
      AccumulatePhi();
      numstats := numstats + 1;
    }

    /**
     * `getTheta`: with sample-lag sampling the mean of the sampled snapshots,
     * otherwise theta of the current assignment.
     */
    method GetTheta() returns (theta: array2<real>)
      requires Ready()
      requires schedule.sampleLag > 0 ==> StatsShaped() && numstats > 0
      ensures fresh(theta)
      ensures Entries(theta) == if schedule.sampleLag > 0 then MeanRows(Entries(thetasum), numstats)
                                else Theta(documents, z, K, alpha)
    {
      theta := new real[|documents|, K];
      ghost var target := if schedule.sampleLag > 0 then MeanRows(Entries(thetasum), numstats)
                          else Theta(documents, z, K, alpha);
      var m := 0;
      while m < |documents|
        invariant 0 <= m <= |documents|
        invariant forall i, j :: 0 <= i < m && 0 <= j < K ==> theta[i, j] == target[i][j]
      {
        var k := 0;
        while k < K
          invariant 0 <= k <= K
          invariant forall i, j :: 0 <= i < |documents| && 0 <= j < K && (i < m || (i == m && j < k)) ==>
            theta[i, j] == target[i][j]
        {
          if schedule.sampleLag > 0 {
            theta[m, k] := thetasum[m, k] / numstats as real;
          } else {
            assert target[m][k] == Smoothed(nd[m, k], ndsum[m], K, alpha);
            theta[m, k] := Smoothed(nd[m, k], ndsum[m], K, alpha);
          }
          k := k + 1;
        }
        m := m + 1;
      }
      assert forall i :: 0 <= i < |documents| ==> Entries(theta)[i] == target[i];
    }

    /**
     * `getPhi`: with sample-lag sampling the mean of the sampled snapshots,
     * otherwise phi of the current assignment.
     */
    method GetPhi() returns (phi: array2<real>)
      requires Ready()
      requires schedule.sampleLag > 0 ==> StatsShaped() && numstats > 0
      ensures fresh(phi)
      ensures Entries(phi) == if schedule.sampleLag > 0 then MeanRows(Entries(phisum), numstats)
                              else Phi(documents, z, V, K, beta)
    {
      phi := new real[K, V];
      ghost var target := if schedule.sampleLag > 0 then MeanRows(Entries(phisum), numstats)
                          else Phi(documents, z, V, K, beta);
      var k := 0;
      while k < K
        invariant 0 <= k <= K
        invariant forall i, j :: 0 <= i < k && 0 <= j < V ==> phi[i, j] == target[i][j]
      {
        var w := 0;
        while w < V
          invariant 0 <= w <= V
          invariant forall i, j :: 0 <= i < K && 0 <= j < V && (i < k || (i == k && j < w)) ==>
            phi[i, j] == target[i][j]
        {
          if schedule.sampleLag > 0 {
            phi[k, w] := phisum[k, w] / numstats as real;
          } else {
            assert target[k][w] == Smoothed(nw[w, k], nwsum[k], V, beta);
            phi[k, w] := Smoothed(nw[w, k], nwsum[k], V, beta);
          }
          w := w + 1;
        }
        k := k + 1;
      }
      assert forall i :: 0 <= i < K ==> Entries(phi)[i] == target[i];
    }
  
    /** Where the chain stands now. */
    ghost function Now(): Outcome
      reads this`z, this`drawn, this`thetasum, this`phisum, this`numstats, thetasum, phisum
    {
      Outcome(z, CurrentStats(), drawn)
    }

    /**
     * With sample-lag sampling on, fresh zero sums of the shapes of theta and
     * phi and no snapshot yet; otherwise the sums are left alone.
     */
    method ResetStats()
      modifies this`thetasum, this`phisum, this`numstats
      ensures schedule.sampleLag > 0 ==> fresh(thetasum) && fresh(phisum) && StatsShaped()
      ensures schedule.sampleLag <= 0 ==> thetasum == old(thetasum) && phisum == old(phisum)
      ensures CurrentStats() == if schedule.sampleLag > 0 then Stats(ZeroRows(|documents|, K), ZeroRows(K, V), 0)
                                else old(CurrentStats())
    {
      if schedule.sampleLag > 0 {
        thetasum := ZeroMatrix(|documents|, K);
        phisum := ZeroMatrix(K, V);
        numstats := 0;
      }
    }

    /** Iteration `i` of `gibbs`: a sweep, then a snapshot when the schedule samples `i`. */
    method Iteration(i: int)
      requires Ready() && (schedule.sampleLag > 0 ==> StatsShaped())
      modifies nw, nd, nwsum, ndsum, thetasum, phisum, this`z, this`drawn, this`numstats
      ensures Ready() && (schedule.sampleLag > 0 ==> StatsShaped())
      ensures Now() == Step(Params(), schedule, old(Now()), i)
    {
      Sweep();
      if i > schedule.burnIn && schedule.sampleLag > 0 && i % schedule.sampleLag == 0 {
        UpdateParams();
      }
    }

    /** The scheduled iterations of `gibbs`, one after the other. */
    method RunIterations()
      requires Ready() && (schedule.sampleLag > 0 ==> StatsShaped())
      modifies nw, nd, nwsum, ndsum, thetasum, phisum, this`z, this`drawn, this`numstats
      ensures Ready()
      ensures Now() == Run(Params(), schedule, old(Now()), 0)
    {
      ghost var target := Run(Params(), schedule, Now(), 0);
      var i := 0;
      while i < schedule.iterations
        modifies nw, nd, nwsum, ndsum, thetasum, phisum, this`z, this`drawn, this`numstats
        invariant Ready() && (schedule.sampleLag > 0 ==> StatsShaped())
        invariant Run(Params(), schedule, Now(), i) == target
      {
        Iteration(i);
        i := i + 1;
      }
    }

    /**
     * The start of `gibbs`: sets the number of topics and the priors,
     * allocates zero sums when sample-lag sampling is on, and draws the
     * initial state.
     */
    method StartRun(k: nat, alpha: real, beta: real)
      requires WellFormed(documents, V) && (k > 0 || NoTokens(documents))
      requires alpha > 0.0 && beta > 0.0
      modifies this`K, this`alpha, this`beta, this`thetasum, this`phisum, this`numstats
      modifies this`nw, this`nd, this`nwsum, this`ndsum, this`z, this`drawn
      ensures K == k && this.alpha == alpha && this.beta == beta
      ensures fresh(nw) && fresh(nd) && fresh(nwsum) && fresh(ndsum)
      ensures Ready() && (schedule.sampleLag > 0 ==> StatsShaped() && fresh(thetasum) && fresh(phisum))
      ensures schedule.sampleLag <= 0 ==> thetasum == old(thetasum) && phisum == old(phisum)
      ensures z == UniformTopics(documents, k, random, old(drawn)) && drawn == old(drawn) + Tokens(documents)
      ensures CurrentStats() == if schedule.sampleLag > 0 then Stats(ZeroRows(|documents|, k), ZeroRows(k, V), 0)
                                else old(CurrentStats())
    {
      K, this.alpha, this.beta := k, alpha, beta;
      ResetStats();
      InitialState(k);
    }

    /**
     * `gibbs`: sets the number of topics and the priors, allocates zero sums
     * when sample-lag sampling is on, draws the initial state and runs the
     * scheduled iterations.
     */
    method Gibbs(k: nat, alpha: real, beta: real)
      requires WellFormed(documents, V) && (k > 0 || NoTokens(documents))
      requires alpha > 0.0 && beta > 0.0
      requires DisplayDefined(schedule)
      modifies this`K, this`alpha, this`beta, this`thetasum, this`phisum, this`numstats
      modifies this`nw, this`nd, this`nwsum, this`ndsum, this`z, this`drawn, thetasum, phisum
      ensures K == k && this.alpha == alpha && this.beta == beta
      ensures Ready() && (schedule.sampleLag > 0 ==> StatsShaped())
      ensures Now() == Run(Params(), schedule, Initial(Params(), schedule, old(drawn), old(CurrentStats())), 0)
    {
      StartRun(k, alpha, beta);
      assert Now() == Initial(Params(), schedule, old(drawn), old(CurrentStats()));
      RunIterations();
    }

    /** `gibbs(K)`: a run with the default priors `alpha = 2.0` and `beta = 0.5`. */
    method GibbsDefault(k: nat)
      requires WellFormed(documents, V) && (k > 0 || NoTokens(documents))
      requires DisplayDefined(schedule)
      modifies this`K, this`alpha, this`beta, this`thetasum, this`phisum, this`numstats
      modifies this`nw, this`nd, this`nwsum, this`ndsum, this`z, this`drawn, thetasum, phisum
      ensures K == k && alpha == 2.0 && beta == 0.5
      ensures Ready() && (schedule.sampleLag > 0 ==> StatsShaped())
      ensures Now() == Run(Params(), schedule, Initial(Params(), schedule, old(drawn), old(CurrentStats())), 0)
    {
      Gibbs(k, 2.0, 0.5);
    }
  }
}
