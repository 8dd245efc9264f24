/**
 * Counting over topic assignments: the quantities that the sampler's count
 * arrays `nw`, `nd`, `nwsum` and `ndsum` are supposed to hold at all times.
 *
 * A corpus is a sequence of documents, each a sequence of vocabulary ids; an
 * assignment has the same shape and gives every token a topic.  All counting
 * functions recurse on the LAST element, which is the order in which the
 * initialisation loops visit tokens.
 */
module Counting {

  /** Every token of every document is a valid index into a vocabulary of `v` words. */
  predicate WellFormed(docs: seq<seq<int>>, v: nat)
  {
    forall m, n :: 0 <= m < |docs| && 0 <= n < |docs[m]| ==> 0 <= docs[m][n] < v
  }

  /** The corpus has no token at all (every document is empty). */
  predicate NoTokens(docs: seq<seq<int>>)
  {
    forall m :: 0 <= m < |docs| ==> |docs[m]| == 0
  }

  /** `zs` holds exactly one entry per token of `docs`. */
  predicate SameShape(docs: seq<seq<int>>, zs: seq<seq<int>>)
  {
    |docs| == |zs| && forall m :: 0 <= m < |docs| ==> |docs[m]| == |zs[m]|
  }

  /** Every topic in the assignment lies in `[0, k)`. */
  predicate InRange(zs: seq<seq<int>>, k: nat)
  {
    forall m, n :: 0 <= m < |zs| && 0 <= n < |zs[m]| ==> 0 <= zs[m][n] < k
  }

  /** Every entry of one document's assignment lies in `[0, k)`. */
  predicate RowInRange(s: seq<int>, k: nat)
  {
    forall n :: 0 <= n < |s| ==> 0 <= s[n] < k
  }

  /** No token of the row has a topic yet. */
  predicate RowUnassigned(s: seq<int>)
  {
    forall n :: 0 <= n < |s| ==> s[n] == -1
  }

  /** Rows before `m` hold topics below `k`; the others hold none yet. */
  predicate DrawnBefore(zs: seq<seq<int>>, m: nat, k: nat)
  {
    forall i :: 0 <= i < |zs| ==> if i < m then RowInRange(zs[i], k) else RowUnassigned(zs[i])
  }

  /** Number of positions of `s` that hold `k`: what `nd[m][k]` holds for `s == z[m]`, never more than the document's length. */
  function Count(s: seq<int>, k: int): (c: nat)
    ensures c <= |s|
  {
    if |s| == 0 then 0
    else Count(s[..|s| - 1], k) + (if s[|s| - 1] == k then 1 else 0)
  }

  /** Number of positions `n` with `ws[n] == w` and `zs[n] == k`. */
  function CountPairs(ws: seq<int>, zs: seq<int>, w: int, k: int): nat
    requires |ws| == |zs|
  {
    if |zs| == 0 then 0
    else CountPairs(ws[..|ws| - 1], zs[..|zs| - 1], w, k)
         + (if ws[|ws| - 1] == w && zs[|zs| - 1] == k then 1 else 0)
  }

  /** Number of tokens in the documents before `m`. */
  function TokensBefore(docs: seq<seq<int>>, m: nat): nat
    requires m <= |docs|
  {
    if m == 0 then 0 else TokensBefore(docs, m - 1) + |docs[m - 1]|
  }

  /** Number of tokens in the corpus. */
  function Tokens(docs: seq<seq<int>>): nat
  {
    TokensBefore(docs, |docs|)
  }

  /** Number of tokens, over the whole corpus, of word `w` assigned to topic `k`: what `nw[w][k]` holds. */
  function WordTopicCount(docs: seq<seq<int>>, zs: seq<seq<int>>, w: int, k: int): nat
    requires SameShape(docs, zs)
  {
    if |zs| == 0 then 0
    else WordTopicCount(docs[..|docs| - 1], zs[..|zs| - 1], w, k)
         + CountPairs(docs[|docs| - 1], zs[|zs| - 1], w, k)
  }

  /** Number of tokens, over the whole corpus, assigned to topic `k`: what `nwsum[k]` holds. */
  function TopicTotal(zs: seq<seq<int>>, k: int): nat
  {
    if |zs| == 0 then 0
    else TopicTotal(zs[..|zs| - 1], k) + Count(zs[|zs| - 1], k)
  }

  /** A word's count under a topic is part of the topic's total: `nw[w][k] <= nwsum[k]`. */
  lemma {:induction false} WordTopicCountAtMostTotal(docs: seq<seq<int>>, zs: seq<seq<int>>, w: int, k: int)
    requires SameShape(docs, zs)
    ensures WordTopicCount(docs, zs, w, k) <= TopicTotal(zs, k)
  {
    if |zs| > 0 {
      var last := |zs| - 1;
      WordTopicCountAtMostTotal(docs[..last], zs[..last], w, k);
      CountPairsAtMostCount(docs[last], zs[last], w, k);
    }
  }

  lemma {:induction false} CountPairsAtMostCount(ws: seq<int>, zs: seq<int>, w: int, k: int)
    requires |ws| == |zs|
    ensures CountPairs(ws, zs, w, k) <= Count(zs, k)
  {
    if |zs| > 0 {
      CountPairsAtMostCount(ws[..|ws| - 1], zs[..|zs| - 1], w, k);
    }
  }

  /** Sum of a sequence of counts. */
  function SumNat(s: seq<nat>): nat
  {
    if |s| == 0 then 0 else SumNat(s[..|s| - 1]) + s[|s| - 1]
  }

  /** The per-topic counts of one document, as a sequence indexed by topic. */
  function TopicCounts(s: seq<int>, k: nat): seq<nat>
  {
    seq(k, t => Count(s, t))
  }

  /** The counts of every word under topic `k`, as a sequence indexed by word. */
  function WordCounts(docs: seq<seq<int>>, zs: seq<seq<int>>, v: nat, k: int): seq<nat>
    requires SameShape(docs, zs)
  {
    seq(v, w => WordTopicCount(docs, zs, w, k))
  }

  // ---------------------------------------------------------------------------
  // Re-assigning one token moves exactly one unit between two topics.
  // ---------------------------------------------------------------------------

  /** Changing position `n` from `s[n]` to `t` removes one `s[n]` and adds one `t`. */
  lemma {:induction false} CountUpdate(s: seq<int>, n: nat, t: int, k: int)
    requires n < |s|
    ensures Count(s[n := t], k) + (if s[n] == k then 1 else 0)
         == Count(s, k) + (if t == k then 1 else 0)
  {
    var last := |s| - 1;
    if n == last {
      assert s[n := t][..last] == s[..last];
    } else {
      assert s[n := t][..last] == s[..last][n := t];
      CountUpdate(s[..last], n, t, k);
    }
  }

  /** The pair count of `(w, k)` changes only through the re-assigned token. */
  lemma {:induction false} CountPairsUpdate(ws: seq<int>, zs: seq<int>, n: nat, t: int, w: int, k: int)
    requires |ws| == |zs| && n < |zs|
    ensures CountPairs(ws, zs[n := t], w, k) + (if ws[n] == w && zs[n] == k then 1 else 0)
         == CountPairs(ws, zs, w, k) + (if ws[n] == w && t == k then 1 else 0)
  {
    var last := |zs| - 1;
    if n == last {
      assert zs[n := t][..last] == zs[..last];
    } else {
      assert zs[n := t][..last] == zs[..last][n := t];
      CountPairsUpdate(ws[..last], zs[..last], n, t, w, k);
    }
  }

  /** Re-assigning token `(m, n)` to `t` changes the corpus-wide word/topic count accordingly. */
  lemma {:induction false} WordTopicCountUpdate(docs: seq<seq<int>>, zs: seq<seq<int>>, m: nat, n: nat, t: int, w: int, k: int)
    requires SameShape(docs, zs) && m < |zs| && n < |zs[m]|
    ensures SameShape(docs, zs[m := zs[m][n := t]])
    ensures WordTopicCount(docs, zs[m := zs[m][n := t]], w, k)
            + (if docs[m][n] == w && zs[m][n] == k then 1 else 0)
         == WordTopicCount(docs, zs, w, k) + (if docs[m][n] == w && t == k then 1 else 0)
  {
    var zs' := zs[m := zs[m][n := t]];
    var last := |zs| - 1;
    if m == last {
      assert zs'[..last] == zs[..last];
      CountPairsUpdate(docs[last], zs[last], n, t, w, k);
    } else {
      assert zs'[..last] == zs[..last][m := zs[m][n := t]];
      WordTopicCountUpdate(docs[..last], zs[..last], m, n, t, w, k);
    }
  }

  /** Re-assigning token `(m, n)` to `t` moves one unit of the topic totals. */
  lemma {:induction false} TopicTotalUpdate(zs: seq<seq<int>>, m: nat, n: nat, t: int, k: int)
    requires m < |zs| && n < |zs[m]|
    ensures TopicTotal(zs[m := zs[m][n := t]], k) + (if zs[m][n] == k then 1 else 0)
         == TopicTotal(zs, k) + (if t == k then 1 else 0)
  {
    var zs' := zs[m := zs[m][n := t]];
    var last := |zs| - 1;
    if m == last {
      assert zs'[..last] == zs[..last];
      CountUpdate(zs[last], n, t, k);
    } else {
      assert zs'[..last] == zs[..last][m := zs[m][n := t]];
      TopicTotalUpdate(zs[..last], m, n, t, k);
    }
  }

  /** Re-assigning token `(m, n)` to `t`, all counts at once. */
  lemma Reassign(docs: seq<seq<int>>, zs: seq<seq<int>>, m: nat, n: nat, t: int)
    requires SameShape(docs, zs) && m < |zs| && n < |zs[m]|
    ensures SameShape(docs, zs[m := zs[m][n := t]])
    ensures forall w, k :: WordTopicCount(docs, zs[m := zs[m][n := t]], w, k)
                           + (if docs[m][n] == w && zs[m][n] == k then 1 else 0)
                         == WordTopicCount(docs, zs, w, k) + (if docs[m][n] == w && t == k then 1 else 0)
    ensures forall k :: Count(zs[m][n := t], k) + (if zs[m][n] == k then 1 else 0)
                     == Count(zs[m], k) + (if t == k then 1 else 0)
    ensures forall k :: TopicTotal(zs[m := zs[m][n := t]], k) + (if zs[m][n] == k then 1 else 0)
                     == TopicTotal(zs, k) + (if t == k then 1 else 0)
  {
    forall w, k ensures WordTopicCount(docs, zs[m := zs[m][n := t]], w, k)
                        + (if docs[m][n] == w && zs[m][n] == k then 1 else 0)
                      == WordTopicCount(docs, zs, w, k) + (if docs[m][n] == w && t == k then 1 else 0) {
      WordTopicCountUpdate(docs, zs, m, n, t, w, k);
    }
    forall k ensures Count(zs[m][n := t], k) + (if zs[m][n] == k then 1 else 0)
                  == Count(zs[m], k) + (if t == k then 1 else 0) {
      CountUpdate(zs[m], n, t, k);
    }
    forall k ensures TopicTotal(zs[m := zs[m][n := t]], k) + (if zs[m][n] == k then 1 else 0)
                  == TopicTotal(zs, k) + (if t == k then 1 else 0) {
      TopicTotalUpdate(zs, m, n, t, k);
    }
  }

  /** Setting one position twice keeps only the second value. */
  lemma Overwrite(zs: seq<seq<int>>, m: nat, n: nat, x: int, y: int)
    requires m < |zs| && n < |zs[m]|
    ensures zs[m := zs[m][n := x]][m := zs[m][n := x][n := y]] == zs[m := zs[m][n := y]]
  {
    assert zs[m][n := x][n := y] == zs[m][n := y];
  }

  /** Setting a position to the value it already holds changes nothing. */
  lemma SetSame(zs: seq<seq<int>>, m: nat, n: nat)
    requires m < |zs| && n < |zs[m]|
    ensures zs[m := zs[m][n := zs[m][n]]] == zs
  {
    assert zs[m][n := zs[m][n]] == zs[m];
  }

  /** The assignment of a corpus in which no token has a topic yet (every entry is -1). */
  function Unassigned(docs: seq<seq<int>>): (zs: seq<seq<int>>)
    ensures SameShape(docs, zs)
    ensures forall m, n :: 0 <= m < |zs| && 0 <= n < |zs[m]| ==> zs[m][n] == -1
  {
    seq(|docs|, m requires 0 <= m < |docs| => seq(|docs[m]|, _ => -1))
  }

  /** A topic that occurs nowhere in `s` is counted zero times. */
  lemma {:induction false} CountAbsent(s: seq<int>, k: int)
    requires forall n :: 0 <= n < |s| ==> s[n] != k
    ensures Count(s, k) == 0
  {
    if |s| > 0 {
      CountAbsent(s[..|s| - 1], k);
    }
  }

  lemma {:induction false} CountPairsAbsent(ws: seq<int>, zs: seq<int>, w: int, k: int)
    requires |ws| == |zs|
    requires forall n :: 0 <= n < |zs| ==> zs[n] != k
    ensures CountPairs(ws, zs, w, k) == 0
  {
    if |zs| > 0 {
      CountPairsAbsent(ws[..|ws| - 1], zs[..|zs| - 1], w, k);
    }
  }

  /** Before any topic is drawn, every count of every real topic is zero. */
  lemma {:induction false} UnassignedCountsNothing(docs: seq<seq<int>>, w: int, k: int)
    requires k >= 0
    ensures WordTopicCount(docs, Unassigned(docs), w, k) == 0
    ensures TopicTotal(Unassigned(docs), k) == 0
  {
    var zs := Unassigned(docs);
    if |docs| > 0 {
      var last := |docs| - 1;
      assert zs[..last] == Unassigned(docs[..last]);
      UnassignedCountsNothing(docs[..last], w, k);
      CountPairsAbsent(docs[last], zs[last], w, k);
      CountAbsent(zs[last], k);
    }
  }

  /** The token being removed is itself counted under its current topic. */
  lemma CountedUnderOwnTopic(docs: seq<seq<int>>, zs: seq<seq<int>>, m: nat, n: nat)
    requires SameShape(docs, zs) && m < |zs| && n < |zs[m]|
    ensures Count(zs[m], zs[m][n]) >= 1
    ensures WordTopicCount(docs, zs, docs[m][n], zs[m][n]) >= 1
    ensures TopicTotal(zs, zs[m][n]) >= 1
  {
    var k := zs[m][n];
    CountUpdate(zs[m], n, k + 1, k);
    WordTopicCountUpdate(docs, zs, m, n, k + 1, docs[m][n], k);
    TopicTotalUpdate(zs, m, n, k + 1, k);
  }

  // ---------------------------------------------------------------------------
  // The totals agree with the per-topic and per-word counts.
  // ---------------------------------------------------------------------------

  /** Summing two count vectors entry by entry sums their totals. */
  lemma {:induction false} SumNatAdd(a: seq<nat>, b: seq<nat>, c: seq<nat>)
    requires |a| == |b| == |c|
    requires forall i :: 0 <= i < |c| ==> c[i] == a[i] + b[i]
    ensures SumNat(c) == SumNat(a) + SumNat(b)
  {
    if |c| > 0 {
      var last := |c| - 1;
      SumNatAdd(a[..last], b[..last], c[..last]);
    }
  }

  /** The vector of length `len` that is 1 at index `x` when `hit`, and 0 elsewhere. */
  function Indicator(len: nat, x: int, hit: bool): seq<nat>
  {
    seq(len, i => if hit && i == x then 1 else 0)
  }

  /** An indicator vector sums to 1 exactly when it is hit at an index in range. */
  lemma {:induction false} SumNatIndicator(len: nat, x: int, hit: bool)
    ensures SumNat(Indicator(len, x, hit)) == (if hit && 0 <= x < len then 1 else 0)
  {
    if len > 0 {
      assert Indicator(len, x, hit)[..len - 1] == Indicator(len - 1, x, hit);
      SumNatIndicator(len - 1, x, hit);
    }
  }

  /** When all topics of a document lie in `[0, k)`, its per-topic counts add up to its length. */
  lemma {:induction false} TopicCountsPartition(s: seq<int>, k: nat)
    requires RowInRange(s, k)
    ensures SumNat(TopicCounts(s, k)) == |s|
  {
    if |s| > 0 {
      var last := |s| - 1;
      TopicCountsPartition(s[..last], k);
      SumNatAdd(TopicCounts(s[..last], k), Indicator(k, s[last], true), TopicCounts(s, k));
      SumNatIndicator(k, s[last], true);
    } else {
      assert TopicCounts(s, k) == Indicator(k, 0, false);
      SumNatIndicator(k, 0, false);
    }
  }

  /** Over a vocabulary covering every word of `ws`, the pair counts of topic `k` add up to `Count(zs, k)`. */
  lemma {:induction false} PairCountsPartition(ws: seq<int>, zs: seq<int>, v: nat, k: int)
    requires |ws| == |zs|
    requires forall n :: 0 <= n < |ws| ==> 0 <= ws[n] < v
    ensures SumNat(seq(v, w => CountPairs(ws, zs, w, k))) == Count(zs, k)
  {
    if |zs| > 0 {
      var last := |zs| - 1;
      PairCountsPartition(ws[..last], zs[..last], v, k);
      var hit := zs[last] == k;
      SumNatAdd(seq(v, w => CountPairs(ws[..last], zs[..last], w, k)), Indicator(v, ws[last], hit),
                seq(v, w => CountPairs(ws, zs, w, k)));
      SumNatIndicator(v, ws[last], hit);
    } else {
      assert seq(v, w => CountPairs(ws, zs, w, k)) == Indicator(v, 0, false);
      SumNatIndicator(v, 0, false);
    }
  }

  /** For a well-formed corpus, the word counts of topic `k` add up to the topic's total. */
  lemma {:induction false} WordCountsPartition(docs: seq<seq<int>>, zs: seq<seq<int>>, v: nat, k: int)
    requires SameShape(docs, zs) && WellFormed(docs, v)
    ensures SumNat(WordCounts(docs, zs, v, k)) == TopicTotal(zs, k)
  {
    if |zs| > 0 {
      var last := |zs| - 1;
      WordCountsPartition(docs[..last], zs[..last], v, k);
      PairCountsPartition(docs[last], zs[last], v, k);
      SumNatAdd(WordCounts(docs[..last], zs[..last], v, k),
                seq(v, w => CountPairs(docs[last], zs[last], w, k)),
                WordCounts(docs, zs, v, k));
    } else {
      assert WordCounts(docs, zs, v, k) == Indicator(v, 0, false);
      SumNatIndicator(v, 0, false);
    }
  }
}
