# LDA Gibbs sampler and n-gram builders, in Dafny

This project models two parts of a Java text-mining application and proves
properties of them.

**The collapsed Gibbs sampler for Latent Dirichlet Allocation**
(`LdaGibbsSampler`) keeps a topic for every token of an integer-encoded
corpus (`z`). It also keeps four count arrays that must agree with `z`:
- `nw[w][k]`: tokens of word `w` under topic `k`;
- `nd[m][k]`: tokens of document `m` under topic `k`;
- `nwsum[k]`: tokens under topic `k`;
- `ndsum[m]`: tokens of document `m`.

The sampler's operations:
- `initialState` draws a uniform topic for every token.
- `sampleFullConditional` takes one token out of the counts. It weighs every topic by the smoothed word/topic share times the smoothed document/topic share, turns the weights into running totals, scans for the first total above a uniform draw, and puts the token back under that topic.
- `gibbs` runs a fixed number of sweeps. After burn-in, every `SAMPLE_LAG`-th sweep folds the current theta and phi into running sums (`updateParams`).
- `getTheta` and `getPhi` return either the mean of those sums or the estimate of the current counts.
- `inference` runs the same kind of chain over one new document against a fixed `phi`.

**The n-gram builders of a review** (`VariablesJson`) slide windows of 2, 3,
4 and 5 words over the words of the cleaned text. Each window is joined with
single spaces.

Files:
- `counting.dfy` (`Counting`): what each count array should hold, as functions of the assignment. Also how re-assigning one token moves the counts, and the partition identities (`Σ_k nd[m][k] == |doc m|`, `Σ_w nw[w][k] == nwsum[k]`).
- `sampling.dfy` (`Sampling`): the uniform initial draw `(int)(Math.random() * K)` and inverse-CDF selection over running totals.
- `estimates.dfy` (`Estimates`): the smoothed estimates theta and phi, their row sums, and the running sums and their mean.
- `schedule.dfy` (`Schedules`): the run schedule and which sweeps take a snapshot.
- `sampler.dfy` (`Lda`):
  - the class `LdaGibbsSampler`, whose fields are those of the source; its methods change them in place and are proved against functions of the old state;
  - the value-level specification of a sweep (`SweepFrom`), an iteration (`Step`) and a run (`Run`, `Initial`).
- `inference.dfy` (`Inference`): the static inference over local arrays, proved against the function `Inferred`.
- `ngrams.dfy` (`NGrams`): the n-gram builders as loops, proved against `NGrams`, with the split/join round trip.

`Math.random()` is modelled as a stream `random: nat -> Fraction` (a real in
`[0, 1)`). The `j`-th call returns `random(j)`; the sampler counts the calls
made so far in `drawn`. Weights and estimates are exact reals.

Two details of the code that the model keeps:
- The code's inference allocates and updates `nw` and `nwsum` as well as `nd`, although it reads only `nd`; the model keeps all three.
- The code validates no configuration: it accepts `K < 1`, `iterations < 1`, `burnIn >= iterations` and an empty corpus. The model keeps these inputs and states only the preconditions without which the code throws.

## Model

| member | source | states |
|---|---|---|
| Counting.Count | src/main/java/application/LdaGibbsSampler.java:130 | the number of tokens of a document under topic `k`, what `nd[m][k]` holds, is at most the document's length `ndsum[m]` |
| Counting.WordTopicCount | src/main/java/application/LdaGibbsSampler.java:129 | the number of tokens of word `w` under topic `k`, what `nw[w][k]` holds |
| Counting.WordTopicCountAtMostTotal | src/main/java/application/LdaGibbsSampler.java:129-131 | `nw[w][k]` is at most the topic's total `nwsum[k]` |
| Counting.TopicTotal | src/main/java/application/LdaGibbsSampler.java:131 | the number of tokens under topic `k`, which `nwsum[k]` holds (no contract of its own; `WordCountsPartition` states its relation to `nw`) |
| Counting.Reassign | src/main/java/application/LdaGibbsSampler.java:201-224 | moving token (m, n) from its old topic to `t` changes only the word/topic count of word `documents[m][n]`, the document/topic count of `m` and the topic totals of the old topic and `t`, by one each; with `t` equal to the old topic nothing changes |
| Counting.CountedUnderOwnTopic | src/main/java/application/LdaGibbsSampler.java:201-205 | the token being removed is counted under its own topic in `nw`, `nd` and `nwsum`, so the decrements never go below zero |
| Counting.UnassignedCountsNothing | src/main/java/application/LdaGibbsSampler.java:116-119 | freshly zeroed count arrays are exactly the counts of a corpus whose tokens have no topic yet |
| Counting.TopicCountsPartition | src/main/java/application/LdaGibbsSampler.java:130-133 | with every topic in `[0, K)`, the per-topic counts of a document add up to its length, i.e. `Σ_k nd[m][k] == ndsum[m]` |
| Counting.WordCountsPartition | src/main/java/application/LdaGibbsSampler.java:129-131 | over a corpus whose ids are in `[0, V)`, the word/topic counts of topic `k` add up to its total: `Σ_w nw[w][k] == nwsum[k]` |
| Sampling.TopicOf | src/main/java/application/LdaGibbsSampler.java:127 | `(int) (Math.random() * K)` lies in `[0, K)` for `K > 0` |
| Sampling.TopicOfInterval | src/main/java/application/LdaGibbsSampler.java:127 | topic `j` is drawn exactly for the random values in `[j/K, (j+1)/K)`, so the initial draw is uniform |
| Sampling.ScaleDraw | src/main/java/application/LdaGibbsSampler.java:215 | `Math.random() * p[K-1]` lies in `[0, p[K-1])` when the grand total is positive |
| Sampling.PrefixSumsIncreasing | src/main/java/application/LdaGibbsSampler.java:212-214 | the running totals of positive weights are strictly increasing |
| Sampling.GrandTotal | src/main/java/application/LdaGibbsSampler.java:212-215 | the last running total is the sum of all weights, and it is positive |
| Sampling.Select | src/main/java/application/LdaGibbsSampler.java:216-219 | the scan returns the smallest index whose running total exceeds `u`, or the length when none does |
| Sampling.SelectUnique | src/main/java/application/LdaGibbsSampler.java:216-219 | the result of the scan is determined by those properties |
| Sampling.SelectInRange | src/main/java/application/LdaGibbsSampler.java:215-219 | a draw below the last running total selects an index below `K` |
| Sampling.SelectInterval | src/main/java/application/LdaGibbsSampler.java:212-219 | over increasing totals, topic `k` is selected exactly for the draws in `[p[k-1], p[k])`, an interval as wide as its weight |
| Estimates.Smoothed | src/main/java/application/LdaGibbsSampler.java:235 | `(x + prior) / (total + size * prior)` is positive, and at most 1 when `x` is part of `total` |
| Estimates.SmoothedSumsToOne | src/main/java/application/LdaGibbsSampler.java:265 | a count vector smoothed against its own total sums to exactly 1 |
| Estimates.Theta | src/main/java/application/LdaGibbsSampler.java:262-267 | theta of an assignment has one row per document and one entry per topic |
| Estimates.Phi | src/main/java/application/LdaGibbsSampler.java:287-292 | phi of an assignment has one row per topic and one entry per word |
| Estimates.ThetaRowsSumToOne | src/main/java/application/LdaGibbsSampler.java:262-267 | with topics in `[0, K)` and `K > 0`, every row of theta sums to exactly 1 |
| Estimates.PhiRowsSumToOne | src/main/java/application/LdaGibbsSampler.java:287-292 | over a corpus with ids in `[0, V)` and `V > 0`, every row of phi sums to exactly 1 |
| Estimates.AddRows | src/main/java/application/LdaGibbsSampler.java:233-242 | the entry-wise sum keeps the shape of the running sums |
| Estimates.AddRowsSums | src/main/java/application/LdaGibbsSampler.java:233-242 | adding a snapshot whose rows sum to 1 raises every row sum of the running sums by 1 |
| Estimates.MeanRows | src/main/java/application/LdaGibbsSampler.java:256-260 | dividing the running sums by `numstats` keeps their shape |
| Estimates.MeanRowsSumToOne | src/main/java/application/LdaGibbsSampler.java:256-260 | running sums whose rows add up to `numstats > 0`, divided by `numstats`, have rows summing to 1 |
| Estimates.ZeroRows | src/main/java/application/LdaGibbsSampler.java:155-158 | the freshly allocated sums have the shapes of theta and phi and rows summing to 0 |
| Schedules.Sampled | src/main/java/application/LdaGibbsSampler.java:179 | whether iteration `i` takes a snapshot: past `BURN_IN`, `SAMPLE_LAG > 0` and `i` a multiple of it (the condition itself; no contract) |
| Schedules.SamplesBefore | src/main/java/application/LdaGibbsSampler.java:165-181 | the number of snapshots taken by iterations `[0, n)`, at most `n` |
| Schedules.DisplayDefined | src/main/java/application/LdaGibbsSampler.java:172-181 | the schedules on which the display's `i % THIN_INTERVAL` never divides by zero (a condition; no contract) |
| Schedules.NoSamplesIff | src/main/java/application/LdaGibbsSampler.java:165-181 | `numstats` gains nothing exactly when no iteration in `[0, ITERATIONS)` is past burn-in and a multiple of a positive `SAMPLE_LAG` |
| Schedules.NoSamplesWhenDisabled | src/main/java/application/LdaGibbsSampler.java:179 | with `SAMPLE_LAG <= 0` no snapshot is ever taken |
| Schedules.NoSamplesDuringBurnIn | src/main/java/application/LdaGibbsSampler.java:179 | no snapshot is taken before the iteration after `BURN_IN` |
| Schedules.SamplesClosedForm | src/main/java/application/LdaGibbsSampler.java:165-181 | the number of snapshots before iteration `n` is `(n-1)/SAMPLE_LAG - BURN_IN/SAMPLE_LAG` |
| Lda.FullConditional | src/main/java/application/LdaGibbsSampler.java:207-211 | one weight per topic: the smoothed word/topic share times the smoothed document/topic share, counted with the token left out |
| Lda.Pick | src/main/java/application/LdaGibbsSampler.java:215-219 | the inverse-CDF pick from weights and one random value, an index no greater than the number of weights |
| Lda.Resampled | src/main/java/application/LdaGibbsSampler.java:207-219 | the chain's draw for one token, never above `K` (`ResampledInRange` sharpens this to below `K`) |
| Lda.FullConditionalPositive | src/main/java/application/LdaGibbsSampler.java:207-211 | with positive priors every weight of the full conditional is strictly positive |
| Lda.PickIsSelect | src/main/java/application/LdaGibbsSampler.java:215-219 | the topic drawn from weights and one random value is the scan over their running totals for that value times their sum |
| Lda.ResampledInRange | src/main/java/application/LdaGibbsSampler.java:207-219 | the topic the chain draws for a token is always below `K` |
| Lda.SweepFrom | src/main/java/application/LdaGibbsSampler.java:166-171 | a sweep keeps the shape of the assignment |
| Lda.SweepStep | src/main/java/application/LdaGibbsSampler.java:166-171 | resampling one token and resuming at the next gives the same sweep |
| Lda.SweepFromKeepsEarlier | src/main/java/application/LdaGibbsSampler.java:167-170 | a sweep resuming at document `m` leaves the topics of every earlier document unchanged |
| Lda.SweepFromInRange | src/main/java/application/LdaGibbsSampler.java:166-171 | a sweep keeps every topic in `[0, K)` |
| Lda.Accumulate | src/main/java/application/LdaGibbsSampler.java:232-244 | a snapshot keeps the shapes of the sums and adds one to their count |
| Lda.AccumulateConsistent | src/main/java/application/LdaGibbsSampler.java:232-244 | after a snapshot every row of `thetasum` and `phisum` still sums to `numstats` |
| Lda.Step | src/main/java/application/LdaGibbsSampler.java:166-181 | an iteration keeps the shapes of the assignment and of the sums |
| Lda.Run | src/main/java/application/LdaGibbsSampler.java:165-187 | the iterations keep the shapes of the assignment and of the sums |
| Lda.RunCount | src/main/java/application/LdaGibbsSampler.java:165-181 | iterations `i..ITERATIONS-1` add one snapshot per sampled iteration |
| Lda.RunDrawn | src/main/java/application/LdaGibbsSampler.java:165-171 | every iteration reads one random value per token |
| Lda.RunIgnoresThinInterval | src/main/java/application/LdaGibbsSampler.java:172-186 | the model's run never reads `THIN_INTERVAL`: changing it leaves the assignment, the sums and the stream as they are (in the code it paces only the display) |
| Lda.RunConsistent | src/main/java/application/LdaGibbsSampler.java:165-187 | a run keeps topics in `[0, K)` and rows of the sums adding up to `numstats` |
| Lda.Initial | src/main/java/application/LdaGibbsSampler.java:150-161 | the state `gibbs` starts its loop from: topics in `[0, K)` and, with `SAMPLE_LAG > 0`, sums of the right shapes with `numstats == 0` and every row adding up to it |
| Lda.GibbsOutcome | src/main/java/application/LdaGibbsSampler.java:150-189 | a whole run with `SAMPLE_LAG > 0` ends with topics in range, `numstats` equal to the number of sampled iterations, every sum row equal to `numstats`, and one random value per token for the initialisation and for each iteration |
| Lda.DrawRow | src/main/java/application/LdaGibbsSampler.java:126-128 | the topics drawn for a document are one per token, each below `K` |
| Lda.DrawnUpTo | src/main/java/application/LdaGibbsSampler.java:122-134 | part-way through the initialisation the assignment has one row per document |
| Lda.DrawnUpToShape | src/main/java/application/LdaGibbsSampler.java:122-134 | the documents drawn so far hold topics in `[0, K)`, the later ones none |
| Lda.UniformTopics | src/main/java/application/LdaGibbsSampler.java:122-134 | the assignment the initialisation draws from the stream, document by document (a definition; `UniformTopicsInRange` and `UniformTopic` state its properties) |
| Lda.UniformTopicsInRange | src/main/java/application/LdaGibbsSampler.java:122-134 | with a topic available for every token, the initialisation gives every token exactly one topic, in `[0, K)` |
| Lda.UniformTopic | src/main/java/application/LdaGibbsSampler.java:123-128 | token `n` of document `m` takes the topic of its own random value, the one after every earlier token's |
| Lda.Cumulate | src/main/java/application/LdaGibbsSampler.java:212-214 | the in-place loop leaves the running totals of the weights in `p` |
| Lda.Scan | src/main/java/application/LdaGibbsSampler.java:216-219 | the scan loop returns the first index whose running total exceeds `u`, or `p.length` |
| Lda.Choose | src/main/java/application/LdaGibbsSampler.java:212-219 | over positive weights, running totals plus scan return the inverse-CDF pick, always below `K` |
| Lda.LdaGibbsSampler.Totals | src/main/java/application/LdaGibbsSampler.java:129-133 | in a consistent state the arrays agree with each other: `Σ_w nw[w][t] == nwsum[t]` and `Σ_k nd[m][k] == ndsum[m]` |
| Lda.LdaGibbsSampler.constructor | src/main/java/application/LdaGibbsSampler.java:101-104 | stores the corpus and vocabulary size, with the default priors and schedule |
| Lda.LdaGibbsSampler.NextRandom | src/main/java/application/LdaGibbsSampler.java:127 | `Math.random()` returns the next stream value and advances the stream by one |
| Lda.LdaGibbsSampler.Configure | src/main/java/application/LdaGibbsSampler.java:343-348 | replaces iterations, burn-in, thinning interval and sample lag |
| Lda.LdaGibbsSampler.CountToken | src/main/java/application/LdaGibbsSampler.java:128-131 | counting a token without a topic under `t` leaves the counts of the assignment with that token at `t` |
| Lda.LdaGibbsSampler.AllocateCounts | src/main/java/application/LdaGibbsSampler.java:114-122 | fresh zeroed count arrays of the right shapes, which are the counts of the corpus with no topics |
| Lda.LdaGibbsSampler.DrawTopics | src/main/java/application/LdaGibbsSampler.java:124-132 | document `m` gets one uniform topic per token from the next stream values, and the counts follow |
| Lda.LdaGibbsSampler.InitialDocument | src/main/java/application/LdaGibbsSampler.java:123-134 | one pass of the document loop: document `m` drawn and counted, `ndsum[m]` set to its length |
| Lda.LdaGibbsSampler.DrawDocuments | src/main/java/application/LdaGibbsSampler.java:123-134 | afterwards `z` is the uniform draw from the stream and all four count arrays match it |
| Lda.LdaGibbsSampler.InitialState | src/main/java/application/LdaGibbsSampler.java:113-135 | fresh count arrays; every topic in `[0, K)`; `nd`, `nw`, `nwsum` are exactly the counts of `z`; `ndsum[m]` is the length of document `m`; one random value per token |
| Lda.LdaGibbsSampler.Weights | src/main/java/application/LdaGibbsSampler.java:207-211 | the weight array is the full conditional of the token, counted with the token left out |
| Lda.LdaGibbsSampler.Draw | src/main/java/application/LdaGibbsSampler.java:207-219 | the selected topic is below `K` and is the chain's draw for this token and stream value |
| Lda.LdaGibbsSampler.TakeOut | src/main/java/application/LdaGibbsSampler.java:201-205 | the four decrements leave the counts of the assignment with the token removed and `ndsum[m]` one short, none below zero |
| Lda.LdaGibbsSampler.PutBack | src/main/java/application/LdaGibbsSampler.java:221-224 | the four increments leave the counts of the assignment with the token under its new topic, `ndsum[m]` restored |
| Lda.LdaGibbsSampler.SampleFullConditional | src/main/java/application/LdaGibbsSampler.java:199-227 | returns the chain's draw, below `K`; the counts afterwards match `z` with the token moved to that topic; one random value is read |
| Lda.LdaGibbsSampler.Resample | src/main/java/application/LdaGibbsSampler.java:167-169 | the token's topic becomes the drawn one and the invariant holds again |
| Lda.LdaGibbsSampler.SweepDocument | src/main/java/application/LdaGibbsSampler.java:167-170 | the tokens of document `m` are resampled in order, as `SweepFrom` says: `z` changes only in row `m`, which becomes the row the sweep from `(m, 0)` leaves, and resuming at `m + 1` gives the same sweep |
| Lda.LdaGibbsSampler.Sweep | src/main/java/application/LdaGibbsSampler.java:166-171 | a full sweep leaves `SweepFrom` of the old assignment, with counts matching and one random value per token |
| Lda.LdaGibbsSampler.AccumulateTheta | src/main/java/application/LdaGibbsSampler.java:233-237 | `thetasum` becomes its old value plus theta of the current counts, entry by entry |
| Lda.LdaGibbsSampler.AccumulatePhi | src/main/java/application/LdaGibbsSampler.java:238-242 | `phisum` becomes its old value plus phi of the current counts, entry by entry |
| Lda.LdaGibbsSampler.UpdateParams | src/main/java/application/LdaGibbsSampler.java:232-244 | the sums and `numstats` become the snapshot `Accumulate` of the current assignment |
| Lda.LdaGibbsSampler.GetTheta | src/main/java/application/LdaGibbsSampler.java:252-271 | a fresh matrix holding `thetasum / numstats` when `SAMPLE_LAG > 0`, otherwise theta of the current counts |
| Lda.LdaGibbsSampler.GetPhi | src/main/java/application/LdaGibbsSampler.java:279-295 | a fresh matrix holding `phisum / numstats` when `SAMPLE_LAG > 0`, otherwise phi of the current counts |
| Lda.LdaGibbsSampler.ResetStats | src/main/java/application/LdaGibbsSampler.java:155-159 | with `SAMPLE_LAG > 0`, fresh zero sums of the shapes of theta and phi and `numstats == 0`; otherwise nothing changes |
| Lda.LdaGibbsSampler.Iteration | src/main/java/application/LdaGibbsSampler.java:165-186 | one iteration of `gibbs` takes the state to `Step` of the old state |
| Lda.LdaGibbsSampler.RunIterations | src/main/java/application/LdaGibbsSampler.java:165-187 | the iteration loop takes the state to `Run` of the old state |
| Lda.LdaGibbsSampler.StartRun | src/main/java/application/LdaGibbsSampler.java:150-161 | sets `K`, `alpha`, `beta`, resets the sums as the schedule says and draws the initial state |
| Lda.LdaGibbsSampler.Gibbs | src/main/java/application/LdaGibbsSampler.java:150-189 | the state after `gibbs` is `Run` from `Initial`, so `GibbsOutcome` applies to it, and the invariant holds |
| Lda.LdaGibbsSampler.GibbsDefault | src/main/java/application/LdaGibbsSampler.java:137-139 | `gibbs(K)` is `gibbs(K, 2.0, 0.5)` |
| Inference.Indexable | src/main/java/application/LdaGibbsSampler.java:358-359 | the inputs on which every array access of the inference is in bounds (a condition; no contract) |
| Inference.TokenWeights | src/main/java/application/LdaGibbsSampler.java:386-390 | one weight per topic of `phi` |
| Inference.Redrawn | src/main/java/application/LdaGibbsSampler.java:386-398 | the scan for a token ends at a topic or at `K` |
| Inference.SweepFrom | src/main/java/application/LdaGibbsSampler.java:378-407 | a sweep either keeps the document's length or fails with the message of the exception |
| Inference.RunFrom | src/main/java/application/LdaGibbsSampler.java:377-408 | the sweeps either keep the document's length or fail with the message of the exception |
| Inference.Inferred | src/main/java/application/LdaGibbsSampler.java:357-416 | a successful inference returns one entry per topic |
| Inference.LocalTotals | src/main/java/application/LdaGibbsSampler.java:376-405 | the local `ndsum` is `Σ_k nd[k]`: the document's length, one less while a token is taken out (`ndsum--` at 384, `ndsum++` at 405) |
| Inference.RunFromInRange | src/main/java/application/LdaGibbsSampler.java:377-408 | every `z[n]` stays in `[0, K)` with `K = phi.length` |
| Inference.InferredIsDistribution | src/main/java/application/LdaGibbsSampler.java:410-415 | the returned vector has length `K`, entries in `(0, 1]` and sums to exactly 1 |
| Inference.RedrawnInRange | src/main/java/application/LdaGibbsSampler.java:386-398 | with `phi` positive on the document's words the scan never reaches `K` |
| Inference.NeverFailsOnPositivePhi | src/main/java/application/LdaGibbsSampler.java:394-401 | with `phi` positive on the document's words the exception is never thrown |
| Inference.RedrawnFailsOnZeroColumn | src/main/java/application/LdaGibbsSampler.java:386-401 | a word with probability zero under every topic makes the scan reach `K` |
| Inference.FailsOnZeroColumn | src/main/java/application/LdaGibbsSampler.java:377-401 | with at least one iteration, such a word always makes inference throw |
| Inference.EmptyDocumentUniform | src/main/java/application/LdaGibbsSampler.java:367-415 | an empty document gets `1/K` for every topic |
| Inference.AllocateLocals | src/main/java/application/LdaGibbsSampler.java:358-368 | fresh local arrays of the shapes the code allocates, `nd` zeroed |
| Inference.DrawInitial | src/main/java/application/LdaGibbsSampler.java:369-376 | `z` holds one uniform topic per token from the stream and `nd` counts them |
| Inference.ComputeWeights | src/main/java/application/LdaGibbsSampler.java:386-390 | the weight array is `phi[k][doc[n]]` times the smoothed share of `k` among the other tokens |
| Inference.TakeOutToken | src/main/java/application/LdaGibbsSampler.java:380-384 | `nd` becomes the counts of the document with the token removed |
| Inference.DrawToken | src/main/java/application/LdaGibbsSampler.java:386-398 | running totals plus scan give the specified draw |
| Inference.PutBackToken | src/main/java/application/LdaGibbsSampler.java:402-406 | `z[n]` becomes the drawn topic and `nd` counts `z` again |
| Inference.ResampleToken | src/main/java/application/LdaGibbsSampler.java:378-406 | succeeds exactly when the scan stops below `K`, and then moves the token to the drawn topic |
| Inference.SweepTokens | src/main/java/application/LdaGibbsSampler.java:378-407 | a sweep over local arrays succeeds exactly when the specified sweep does and leaves its assignment |
| Inference.RunSweeps | src/main/java/application/LdaGibbsSampler.java:377-408 | the iteration loop succeeds exactly when the specified run does and leaves its assignment |
| Inference.Mixture | src/main/java/application/LdaGibbsSampler.java:410-414 | the returned vector is the topic counts smoothed against `ndsum` |
| Inference.Infer | src/main/java/application/LdaGibbsSampler.java:357-416 | the result, theta or the exception, is exactly `Inferred` |
| Inference.InferDefault | src/main/java/application/LdaGibbsSampler.java:418-420 | the two-argument overload uses `alpha = 2.0` |
| NGrams.Split | src/main/java/application/VariablesJson.java:76 | the fields between the spaces, empty ones included: one field more than there are spaces |
| NGrams.JoinSplit | src/main/java/application/VariablesJson.java:76-78 | joining the fields of any text with single spaces gives the text back |
| NGrams.JavaSplit | src/main/java/application/VariablesJson.java:76 | Java's `split(" ")`: a text without a space is its own field, otherwise the fields with trailing empty ones dropped; no field holds a space |
| NGrams.JavaSplitJoin | src/main/java/application/VariablesJson.java:76-78 | Java's split of space-free words joined with single spaces gives them back when the last word is not empty |
| NGrams.JavaSplitDropsEmptyLastWord | src/main/java/application/VariablesJson.java:76 | on `"a "` the field-keeping split gives `["a", ""]` and Java's split `["a"]` |
| NGrams.CleanedWords | src/main/java/application/VariablesJson.java:41-51 | a text with whitespace collapsed to single spaces and trimmed splits the same under both splits, into non-empty words unless the text is empty |
| NGrams.NGramJavaSplits | src/main/java/application/VariablesJson.java:41-78 | for the words of a cleaned text, Java's split of entry `i` gives back exactly its window |
| NGrams.SplitWord | src/main/java/application/VariablesJson.java:76 | a word of the split, having no space, splits to itself |
| NGrams.SplitFirst | src/main/java/application/VariablesJson.java:76-78 | a word followed by a space splits off as the first field |
| NGrams.SplitJoin | src/main/java/application/VariablesJson.java:76-78 | the field-keeping split of space-free words joined with single spaces gives them back, empty words included |
| NGrams.JoinInjective | src/main/java/application/VariablesJson.java:76-78 | two windows have the same text exactly when they hold the same words |
| NGrams.NGrams | src/main/java/application/VariablesJson.java:77-78 | `max(0, |parts| - n + 1)` windows, none at all with fewer than `n` words |
| NGrams.NGramSplits | src/main/java/application/VariablesJson.java:76-78 | the field-keeping split of entry `i` gives back `parts[i..i+n]`, in order |
| NGrams.NGramsDistinctWindows | src/main/java/application/VariablesJson.java:89-90 | entries `i` and `j` are equal exactly when their windows are |
| NGrams.TwoSentences | src/main/java/application/VariablesJson.java:74-81 | the loop returns the bigram list: entry `i` is `parts[i] + " " + parts[i+1]` |
| NGrams.ThreeSentences | src/main/java/application/VariablesJson.java:86-93 | the loop returns the trigram list |
| NGrams.FourSentences | src/main/java/application/VariablesJson.java:98-105 | the loop returns the four-gram list |
| NGrams.Fivegrams | src/main/java/application/VariablesJson.java:110-117 | the loop returns the five-gram list (five words, despite its doc comment) |
| NGrams.AllNGrams | src/main/java/application/VariablesJson.java:62-69 | the list `getSentences` returns is empty exactly when there are fewer than two words |
| NGrams.Sentences | src/main/java/application/VariablesJson.java:62-69 | bigrams, then trigrams, then four-grams, then five-grams |
| NGrams.AllNGramsLayout | src/main/java/application/VariablesJson.java:62-69 | the length is the sum of the four lengths (`4p - 10` for `p >= 5` words), bigrams first and trigrams right after |

## Left out

- Floating point: weights, estimates and sums are exact reals, so rounding, underflow and `NaN` are not modelled. Because of this, the order in which the code multiplies and divides a weight does not matter.
- `Math.random()` is a stream of values in `[0, 1)` fixed by the caller; its distribution and the chain's convergence are not modelled.
- `Inference.Infer` takes the stream and a start position `d`. It does not return the stream position it leaves, because the code has no counter for it.
- Console output is not modelled: the progress `println`, the `dispcol` counter, `hist`, `shadeDouble`, `shades` and the number formats. None of it changes the sampler's state. The model's run never reads `THIN_INTERVAL` (`RunIgnoresThinInterval`); its one other effect in the code, the division by zero when it is 0, is a precondition below.
- `ITERATIONS`, `BURN_IN`, `THIN_INTERVAL` and `SAMPLE_LAG` are static fields shared by all samplers in the code. The model stores them in the instance field `schedule`, so `Configure` affects only its own sampler. `Infer` takes the iteration count as a parameter.
- `z` is a sequence of sequences that the methods reassign, not a jagged `int[][]`. The code never hands a row of `z` out, so aliasing is not modelled.
- `documents` is an immutable sequence. The code keeps the caller's `int[][]` by reference (line 102), so a caller that changes it after construction changes the corpus under the counts; that aliasing is not modelled.
- During the initialisation, a token not drawn yet holds -1, where the code's fresh row holds 0. The code never reads such a position before writing it.
- Lda.LdaGibbsSampler.InitialState requires every token id in `[0, V)` and, when there are tokens, `K > 0`. Otherwise the code throws an `ArrayIndexOutOfBoundsException`; these throws are not modelled.
- Lda.LdaGibbsSampler.Gibbs requires positive `alpha` and `beta`. The code accepts any double, and with non-positive priors its weights can be zero or negative; that behaviour is not modelled.
- Lda.LdaGibbsSampler.Gibbs also requires `DisplayDefined(schedule)`. With `THIN_INTERVAL == 0`, the display's `i % THIN_INTERVAL` throws at the first iteration other than `BURN_IN`.
- Lda.LdaGibbsSampler.GetTheta and Lda.LdaGibbsSampler.GetPhi require `numstats > 0` when `SAMPLE_LAG > 0`. Otherwise the code divides by zero and returns `NaN`.
- Lda.LdaGibbsSampler.GetTheta and Lda.LdaGibbsSampler.GetPhi require the state `gibbs` leaves, or the one `initialState(k)` leaves when the field `K` already equals `k` and the priors are positive. Before any run, the code's arrays are `null`.
- Lda.LdaGibbsSampler.GetTheta and Lda.LdaGibbsSampler.GetPhi: `initialState(k)` does not set the field `K` (0 on a fresh sampler), so after it alone the code returns a `documents.length × 0` theta and a `0 × V` phi. That case is not modelled.
- Inference.Infer requires `phi.length > 0` and every word of the document to be below `phi[0].length`. Otherwise the code throws an array exception (reading `phi[0]`, or `nw[doc[n]]` in the initialisation).
- Inference.Infer also requires every word to index every other row of `phi`. The code reads those rows only in the sweeps, so with `iterations <= 0` it returns normally on such a document; the model excludes that input anyway. It also requires `alpha > 0`.
- Inference.Infer accepts `beta` and does not use it, as in the code.
- Inference.ResampleToken, Inference.SweepTokens and Inference.RunSweeps state nothing about the local arrays when the scan reaches `K`. The code throws at that point and the arrays are discarded.
- Inference.DrawInitial: the local `nw` and `nwsum` of the inference are updated as in the code, but their contents are not stated, because the inference never reads them.
- `VariablesJson` works on the word sequence that `getCleanedContent().split(" ")` produces. Of the cleaning, only its result's shape is modelled (`Cleaned`: single spaces, trimmed); the regular expressions, Unicode normalisation, lower-casing, constructors, date formatting, getters, setters and `toString` are not part of this model.
- NGrams.SplitJoin and NGrams.NGramSplits are about the field-keeping `Split`, which keeps a trailing empty word; Java's `split(" ")` (`JavaSplit`) drops it (`JavaSplitDropsEmptyLastWord`). The Java round trip is `JavaSplitJoin`, for a non-empty last word, and `NGramJavaSplits` states it for every window of a cleaned text. The builders take any word sequence, including one with empty words.
- `ReadDataFromJSONFILE2`, `WordCount`, `WordSequencyCount` and `TemporalMapping` are not part of this model. They are JSON parsing and Hadoop job wiring.
