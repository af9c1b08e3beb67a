# matrixon engine — a Dafny model

matrixon builds grids of ad combinations. A row picks one value for each of
nine attributes (Pattern, Format, VisualStyle, Opening, Tone, Talent, CTA,
ProofDevice, Spec) for one vertical value of a main dimension. A rule pack
constrains the rows:

- hard rules (disallow, allowOnly, mustInclude) remove rows;
- soft rules (prefer, penalize) score them;
- quota rules cap, or flag, how often a value may appear in the whole set or
  in each vertical.

The budget decides how many rows each vertical gets. A generator then
oversamples allowed rows, removes near-duplicates, ranks them and picks a
diverse subset.

This project models that engine as pure Dafny functions and methods and
proves its contracts. It covers:

- the rule engine of `src/lib/ruleEngine.ts`;
- the sizing, splitting, compatibility, diversity, generation and CSV code of
  `src/lib/logic.ts`;
- the budget helpers of `src/lib/budget.ts`;
- the rule datatypes of `src/lib/types.ts`.

Four kinds of hidden input become explicit parameters:

- The engine's module-level configuration becomes a `Combos.Config` value: the
  merged rule pack, the legacy compat rules, the impact weights and the
  VOFirst×1:1 pipeline flag.
- The defaults of `src/lib/config.ts` are constants: the impact weights, the
  compat rules, the diversity target 2.2 and the flag, which defaults to off.
- The random generator is a stream `rand: nat -> Unit` of values in [0, 1),
  read through a cursor.
- Number-to-text conversion in the CSV export is a function parameter `num`.

| file | module | models |
|---|---|---|
| types.dfy | Types | fields, operators, IF/THEN clauses, the six rule kinds, rows |
| seqs.dfy | Seqs | sums, min/max, subsequences, filter and map, distinctness, suffixes (shared helpers) |
| sorting.dfy | Sorting | the stable descending sort used for ranking and for caps |
| rule_engine.dfy | RuleEngine | `matchesOp`, `match`, the three hard predicates, `satisfiesThen`, `scoreSoft`, `traceHits` |
| quotas.dfy | Quotas | `applyQuotas` with `enforceCap`, min share and min distinct |
| rank.dfy | Rank | `filterAndRank` |
| splits.dfy | Splits | `clamp`, `sliderToCount`, the even, pareto and stage splits |
| combos.dfy | Combos | `isComboAllowed`, `diversityDelta` |
| generator.dfy | Generator | `pickN`, `generateCombos` |
| budget.dfy | Budget | everything in `src/lib/budget.ts` |
| sizing.dfy | Sizing | the budget helpers of logic.ts, `deriveCountsWithBudget`, `splitRails` |
| csv.dfy | Csv | `csvEscape`, `rowsToCsv`, and a reader that is their partner |

Design decisions:

- **Absent values.** A field value is `Option<string>`. As in the code, null
  and the empty string both count as absent (`Types.Present`).
- **Operators.** An IF entry always names an operator; a THEN part's operator is optional. A name outside the three operators is kept as `Unknown` and never matches, as in the default branch of `matchesOp`.
- **Scalar clause values.** A scalar value given to `oneOf` is read as a
  one-element list.
- **Reals.** Weights, scores, shares, budgets and ratios are mathematical
  reals. `Math.floor` is `.Floor` and `Math.round(x)` is `(x + 0.5).Floor`.
- **JavaScript `%`.** It truncates toward zero, which `Splits.JsRem` writes
  out.
- **Division by zero.** In budget.ts, a zero minimum spend in
  `computeMaxConcurrent` yields Infinity. `Budget.Extended` has a
  `PosInfinity` case for it.
- **Quota rules.** A rule's cap order is a parameter
  (`Quotas.CapOrder`) so that the code as written and its intended behaviour
  can both be stated. The ranking pipeline (`Quotas.ApplyQuotas`,
  `Rank.FilterAndRank` and through it the generator) runs the order as
  written; `Quotas.ApplyQuotasIntended` and `Rank.IntendedFilterAndRank` run
  the corrected one. See Findings.
- **Empty operator.** A THEN part's operator name that is the empty string is
  falsy in JavaScript, so the op/value part counts as not given
  (`RuleEngine.OpPartGiven`).

## Model

| member | source | states |
|---|---|---|
| Types.FieldsAreNine | src/lib/types.ts:20-29 | the field enumeration lists exactly nine attributes, each once, and every field is among them |
| Types.OpsAreThree | src/lib/types.ts:31 | an operator is exactly one of equals, oneOf and startsWith |
| Types.QuotaScopeDefault | src/lib/types.ts:62-73 | a quota without a scope is global; a given scope is kept |
| Types.RuleKindsAreSix | src/lib/types.ts:53-73 | every rule is exactly one of hard, soft or quota; only the soft kinds (prefer, penalize) carry a weight |
| RuleEngine.MatchesOp | src/lib/ruleEngine.ts:35-44 | false on an absent value or an unknown operator; `equals` is strict equality with a scalar; `oneOf` is list membership with a scalar read as a singleton; `startsWith` is a prefix test |
| RuleEngine.Match | src/lib/ruleEngine.ts:46-54 | true iff every IF entry's field is present and passes its operator; true on an empty clause |
| RuleEngine.SomeFieldHits | src/lib/ruleEngine.ts:63-70 | the disallow/scoring loop is true iff some THEN field is present and satisfies any one of its startsWith, oneOf or op/value parts |
| RuleEngine.SomeFieldFails | src/lib/ruleEngine.ts:80-89 | the allowOnly loop is true iff some THEN field is absent or fails the first part it gives (oneOf, else a non-empty startsWith, else an op/value pair whose operator and value are both non-empty) |
| RuleEngine.SatisfiesThen | src/lib/ruleEngine.ts:133-149 | true iff every THEN field is present and passes its first given part, an empty startsWith, operator or value counting as not given; a field with no part accepts any present value; an empty clause is satisfied |
| RuleEngine.ViolatesDisallow | src/lib/ruleEngine.ts:57-72 | true iff the rule is a disallow, its IF matches, and the THEN is empty or some THEN field hits any of its parts |
| RuleEngine.ViolatesAllowOnly | src/lib/ruleEngine.ts:75-91 | true iff the rule is an allowOnly, its IF matches and some THEN field is absent or fails its first given part, empty parts counting as not given |
| RuleEngine.ViolatesMustInclude | src/lib/ruleEngine.ts:94-110 | true iff the rule is a mustInclude, its IF matches and some THEN field is absent or fails its first given part, empty parts counting as not given |
| RuleEngine.MustIncludeMirrorsAllowOnly | src/lib/ruleEngine.ts:75-110 | on the same clauses, mustInclude and allowOnly give the same verdict |
| RuleEngine.ScoreSoft | src/lib/ruleEngine.ts:112-129 | 0 for non-soft rules, when IF fails, or when no THEN field is satisfied; otherwise +weight for prefer and −weight for penalize, a missing weight being 0 |
| RuleEngine.EmptyOpIsSkipped | src/lib/ruleEngine.ts:63-107 | a THEN part whose operator is the empty string is ignored: allowOnly and mustInclude accept any present value, and disallow does not fire on it |
| RuleEngine.TraceHits | src/lib/ruleEngine.ts:152-168 | every hit comes from a rule of the rule pack, every rule that qualifies puts its hit in the trace, there are at most as many hits as rules, and no hit arises when no rule qualifies |
| RuleEngine.TraceHitsOne | src/lib/ruleEngine.ts:155-166 | one rule contributes its hit exactly when it qualifies, and nothing otherwise |
| RuleEngine.TraceHitsCons | src/lib/ruleEngine.ts:153-167 | the trace of a rule list is the first rule's contribution followed by the trace of the rest |
| RuleEngine.TraceHitsAppend | src/lib/ruleEngine.ts:153-167 | the trace of two rule lists in a row is the concatenation of their traces, so hits appear in rule order |
| RuleEngine.TraceHardRuleIffKept | src/lib/ruleEngine.ts:158-162 | when its IF matches, an allowOnly or mustInclude rule is in the trace exactly when the row does not violate it |
| RuleEngine.TraceOmitsDisallowAndQuota | src/lib/ruleEngine.ts:163-164 | disallow and quota rules never appear in the trace |
| RuleEngine.TraceHitScores | src/lib/ruleEngine.ts:152-157 | a soft rule in the trace whose THEN fields each give a part also adds its signed weight to the score |
| RuleEngine.ScoreOrTraceAnd | src/lib/ruleEngine.ts:112-157 | a concrete prefer rule that raises a row's score by 0.5 yet is absent from its trace (the score reads THEN with OR, the trace with AND) |
| Sorting.SortDesc | src/lib/ruleEngine.ts:348 | the sort is a permutation, ordered by non-increasing key, and rows with equal keys keep their input order |
| Quotas.ToleranceOf | src/lib/ruleEngine.ts:231 | the tolerance is never negative: 1 when absent or not finite, the given value when it is not negative, 0 when it is negative |
| Quotas.CapOf | src/lib/ruleEngine.ts:262-272 | a cap exists iff maxShare or maxPct is given; it lies between 0 and the bucket size; within range it is the floor of size × maxShare, or of size × maxPct / 100 when maxShare is absent; a share of 1 or more caps at the size, one of 0 or less at 0 |
| Quotas.MaxShareWins | src/lib/ruleEngine.ts:262-272 | when maxShare is given, any maxPct beside it has no effect on the cap |
| Quotas.KeepCount | src/lib/ruleEngine.ts:203-205 | a firing cap keeps the largest whole number within cap + tolerance |
| Quotas.BucketsFor | src/lib/ruleEngine.ts:234-244 | global scope has one bucket of all positions; per-vertical scope has, for every row, the bucket of exactly the positions sharing its vertical value |
| Quotas.Group | src/lib/ruleEngine.ts:252 | the target group is exactly the bucket positions whose value at the rule's field is targeted |
| Quotas.PlanCap | src/lib/ruleEngine.ts:197-224 | a group splits into `keepN` kept and the rest dropped; as written every kept row scores at most every dropped row, as intended at least |
| Quotas.FiredCap | src/lib/ruleEngine.ts:212-223 | a firing cap drops exactly group − allowed rows, all from the group; they leave the bucket; nothing outside the bucket changes and no drop mark is lost |
| Quotas.CapStep | src/lib/ruleEngine.ts:274-284 | the cap step drops nothing when the group is within cap + tolerance; otherwise it drops exactly group − allowed targeted rows of the bucket |
| Quotas.CapStepOrder | src/lib/ruleEngine.ts:198-205 | after a firing cap, as written each kept row scores at most each dropped row; as intended, at least |
| Quotas.CapStepBound | src/lib/ruleEngine.ts:274-276 | after the cap step, at most floor(cap + tolerance) targeted rows of the bucket remain undropped |
| Quotas.MinShareStep | src/lib/ruleEngine.ts:286-299 | with minPct set and the targeted count below floor(size·minPct/100) − tolerance, every row of the bucket gets a need note whose shortfall is what is missing; otherwise nothing changes; no row is dropped or made |
| Quotas.DistinctStep | src/lib/ruleEngine.ts:301-317 | only per-vertical scope checks min-distinct; with fewer distinct present values than max(1, required), every row of the bucket gets a need note; no row is dropped or made |
| Quotas.BucketStep | src/lib/ruleEngine.ts:246-318 | one bucket's cap, min-share and min-distinct steps keep rows and scores, lose no drop mark, and leave drop marks outside the bucket unchanged |
| Quotas.StepBucketsCap | src/lib/ruleEngine.ts:247-318 | after all buckets of a rule, every bucket with a cap holds at most its allowance of live targeted rows |
| Quotas.ApplyRules | src/lib/ruleEngine.ts:227-319 | the quota rules in rule order keep every row and score and lose no drop mark; rows marked dropped stay until the end |
| Quotas.Finalize | src/lib/ruleEngine.ts:321-323 | the final filter is an order-preserving subsequence free of dropped rows, and the identity when nothing is dropped |
| Quotas.FinalizeCount | src/lib/ruleEngine.ts:322 | counting rows after the final filter equals counting the undropped positions before it |
| Quotas.ApplyQuotasWith | src/lib/ruleEngine.ts:170-324 | an empty rule list returns the input; otherwise the output is an order-preserving subsequence of the input's (row, score) pairs with no dropped row, unchanged when no rule is a quota |
| Quotas.ApplyQuotas | src/lib/ruleEngine.ts:170-324 | `applyQuotas` as written (lowest scores kept by a cap): an empty rule list returns the input; otherwise an order-preserving subsequence of the input's (row, score) pairs with no dropped row, unchanged when no rule is a quota |
| Quotas.ApplyQuotasIntended | src/lib/ruleEngine.ts:170-324 | the same guarantees with the highest scores kept by a cap |
| Quotas.NoQuotaRulesNoDrops | src/lib/ruleEngine.ts:227-228 | a rule pack without quota rules changes nothing |
| Quotas.ApplyRulesCap | src/lib/ruleEngine.ts:227-319 | the bound a rule's cap sets on one of its buckets survives every rule before and after it |
| Quotas.GlobalCapHolds | src/lib/ruleEngine.ts:242-244 | with a global capped rule, the output holds at most floor(cap + tolerance) targeted rows, the cap computed on the whole input |
| Quotas.PerVerticalCapHolds | src/lib/ruleEngine.ts:235-241 | with a per-vertical capped rule, each vertical's targeted rows in the output number at most floor(cap + tolerance) of that vertical's input size |
| Quotas.OneInThreeFires | src/lib/ruleEngine.ts:262-276 | three targeted rows under a 34% cap with tolerance 0 give a cap of 1, which fires |
| Quotas.AsWrittenDropsTop | src/lib/ruleEngine.ts:198-222 | as written, a firing cap drops the group's strictly best-scored row |
| Quotas.AsWrittenCapDropsTopScore | src/lib/ruleEngine.ts:198-222 | as written, capping rows scored 3, 2, 1 at one drops the row scored 3 |
| Quotas.IntendedKeepsTop | src/lib/ruleEngine.ts:198-222 | with the intended order, a firing cap that keeps any row keeps the strictly best-scored one |
| Quotas.IntendedCapKeepsTopScore | src/lib/ruleEngine.ts:198-222 | with the intended order, the row scored 3 survives that cap |
| Rank.Candidates | src/lib/ruleEngine.ts:334-339 | the candidates are, in input order, exactly the rows no disallow, allowOnly or mustInclude rule rejects, each admissible row as often as in the input |
| Rank.SoftScoreIsTotal | src/lib/ruleEngine.ts:341-346 | summing prefer rules then penalize rules equals summing every rule's soft score |
| Rank.NoSoftRulesScoreZero | src/lib/ruleEngine.ts:341-346 | with no soft rules every row scores 0 |
| Rank.Scored | src/lib/ruleEngine.ts:341-345 | each candidate gets its summed soft score and no annotation |
| Rank.Ranked | src/lib/ruleEngine.ts:341-348 | before quotas, the rows are a permutation of the scored candidates, in non-increasing score, with ties in input order; all are admissible; every admissible input row is present |
| Rank.QuotaRules | src/lib/ruleEngine.ts:332 | exactly the quota rules of the rule pack |
| Rank.FilterAndRank | src/lib/ruleEngine.ts:326-352 | with the quota caps as written, the result is an order-preserving subsequence of the ranking; every row is admissible and carries its score; scores are non-increasing; without quota rules it is the ranking itself |
| Rank.IntendedFilterAndRank | src/lib/ruleEngine.ts:326-352 | the same guarantees with the corrected cap order |
| Rank.FilterAndRankRowsBelow | src/lib/ruleEngine.ts:326-352 | under either cap order, no row appears in the output more often than in the input |
| Rank.SurvivorsKeepRanking | src/lib/ruleEngine.ts:348-350 | what the quota pass keeps stays admissible, keeps its score and stays sorted |
| Rank.RankedGlobalCap | src/lib/ruleEngine.ts:350 | with the caps as written, a global capped quota rule bounds the targeted rows of the output by floor(cap + tolerance) of the ranked candidates |
| Rank.RankedRowsFrom | src/lib/ruleEngine.ts:326-352 | every output row is an input row |
| Splits.Clamp | src/lib/logic.ts:50 | the result lies in [lo, hi] when lo ≤ hi, is n when n already does, and is lo when the bounds cross |
| Splits.SliderToCount | src/lib/logic.ts:68-73 | 0 exactly when the level is not positive; otherwise the level's base count (2, 3 or 5) capped at max(max, 1), so between 1 and 5, and at most max when max ≥ 1 |
| Splits.SliderMonotone | src/lib/logic.ts:68-73 | a higher level never yields fewer items |
| Splits.JsRem | src/lib/logic.ts:76 | the JavaScript remainder agrees with `%` on non-negative dividends and lies in (−n, 0] on negative ones |
| Splits.EvenSplit | src/lib/logic.ts:74-78 | length max(n, 0); entries differ by at most one and never increase; for total ≥ 0 the entries are floor(total/n) plus 1 on the first total mod n, and sum to total |
| Splits.EvenSplitNegativeTotal | src/lib/logic.ts:74-78 | with total −5 over 2 the split is [−3, −3], summing to −6 |
| Splits.JsRound | src/lib/logic.ts:81 | the rounded value is within half a unit of its argument |
| Splits.WeightSum | src/lib/logic.ts:80 | the divisor is never 0; it is the weight sum whenever that is not 0 |
| Splits.Correct | src/lib/logic.ts:82-88 | the correction loop terminates, keeps the length, and on a non-empty list adds exactly the residual; a residual that fits moves each front entry by one step |
| Splits.ParetoSplit | src/lib/logic.ts:79-90 | the counts have the weights' length and, for a non-empty list, sum exactly to total |
| Splits.SharesSum | src/lib/logic.ts:80-81 | the exact shares sum to total whenever the weights do not sum to 0 |
| Splits.RoundedSum | src/lib/logic.ts:81 | rounding moves the sum by at most half a unit per entry |
| Splits.ParetoNearShare | src/lib/logic.ts:79-90 | each count is within 1.5 of its exact share of the total |
| Splits.ParetoCanGoNegative | src/lib/logic.ts:79-90 | total 1 over weights 0, 1, 1 gives [−1, 1, 1]: a count may be negative |
| Splits.StageWeights | src/lib/logic.ts:92 | a vertical missing from the weight map weighs 1 |
| Splits.StageWeighted | src/lib/logic.ts:91-94 | one count per vertical, summing to total when there are verticals |
| Splits.StageUnweighted | src/lib/logic.ts:91-94 | with no stage weights each vertical's count is within 1.5 of total / n |
| Splits.SplitCounts | src/lib/logic.ts:207-210 | the even split, the stage split (when stage weights are given) or the pareto split, as the distribution asks; a non-empty list of counts sums to a non-negative total |
| Combos.DisallowLoop | src/lib/logic.ts:103-117 | true iff no legacy disallow rule whose pinned values hold lists the row's Format, VisualStyle, ProofDevice or Spec |
| Combos.AllowOnlyLoop | src/lib/logic.ts:118-131 | true iff no legacy allowOnly rule whose pinned values hold has a Format, ProofDevice or Spec list missing the row's value |
| Combos.HardLoop | src/lib/logic.ts:134-147 | true iff no hard rule of the rule pack is violated |
| Combos.IsComboAllowed | src/lib/logic.ts:96-150 | allowed iff the VOFirst×1:1 flag does not apply, no legacy disallow hits, no legacy allowOnly fails, and no hard rule of the rule pack is violated |
| Combos.PipelineFlagEffect | src/lib/logic.ts:97-100 | the flag rejects every VOFirst 1:1 row and changes no other verdict |
| Combos.AllowedIsAdmissible | src/lib/logic.ts:133-149 | with no compat rules and the flag off, allowed means admissible under the rule pack |
| Combos.ScreenCaptureNeverStatic | src/tests/addendum.test.ts:61-99 | under the default compat rules a ScreenCapture proof never pairs with a static format |
| Combos.TestimonialOnlyOnItsFormats | src/lib/config.ts:99-101 | under the default compat rules a TestimonialStory row uses one of its three formats |
| Combos.DiversityDelta | src/lib/logic.ts:152-163 | 0 when either row is missing; otherwise the impact weights of the seven fields on which the rows differ |
| Combos.DiversityDeltaFacts | src/lib/logic.ts:152-163 | diversity is symmetric, 0 from a row to itself, and between 0 and the total weight for non-negative weights |
| Combos.DefaultTargetNeedsThreeFields | src/lib/config.ts:89-105 | under the default weights, rows at least 2.2 apart differ on three or more fields |
| Generator.Index | src/lib/logic.ts:46 | floor(u·n) for u in [0, 1) is a valid index |
| Generator.PickN | src/lib/logic.ts:41-49 | takes min(max(n, 0), |arr|) items, a sub-multiset of the input, all of it when n ≥ |arr|; one random value per pick |
| Generator.Draw | src/lib/logic.ts:249-257 | an empty pool gives null and reads no random value; otherwise one pool item, reading one value |
| Generator.Candidate | src/lib/logic.ts:249-273 | a candidate carries the main dimension, the vertical and the rail, and each attribute is null exactly when its pool is empty, otherwise one of its pool's ids |
| Generator.AppendNewKey | src/lib/logic.ts:277-283 | adding a row with an unused similarity key keeps the bucket's keys pairwise distinct |
| Generator.Sample | src/lib/logic.ts:247-284 | the attempt loop only ever adds rows to the bucket and only ever counts attempts up |
| Generator.SampleBounds | src/lib/logic.ts:247-284 | the loop makes at most the attempt limit, adds at most one row per attempt, never passes the target size, and stops short of the target only when the attempts run out |
| Generator.SampleCursor | src/lib/logic.ts:247-258 | the random stream only moves forward across the loop |
| Generator.SampleGood | src/lib/logic.ts:247-284 | every row the loop keeps passed the admissibility test, so any property of the admissible draws holds for the whole bucket |
| Generator.SampleDistinct | src/lib/logic.ts:277-283 | a row whose similarity key is already used is skipped, so the bucket's keys stay pairwise distinct |
| Generator.Oversample | src/lib/logic.ts:239-285 | at most max(need·500, 1500) attempts; the bucket stays within 3·need, only short when the attempts run out; every row is allowed and built from the picks; similarity keys are pairwise distinct; the stream only moves forward |
| Generator.ChosenFromBucket | src/lib/logic.ts:288-300 | the rows chosen from a ranked bucket keep the bucket's admissibility, provenance and distinct similarity keys |
| Generator.Greedy | src/lib/logic.ts:293-300 | the selection loop keeps what it has chosen in front and stops at need |
| Generator.GreedyInOrder | src/lib/logic.ts:293-300 | the rows the loop adds are ranked rows in ranked order |
| Generator.GreedySpreads | src/lib/logic.ts:295-299 | the loop keeps consecutive chosen rows at least the diversity target apart |
| Generator.GreedyCovers | src/lib/logic.ts:293-300 | when the loop ends short of need, every ranked row it passed over is within the target of a chosen row |
| Generator.SelectDiverse | src/lib/logic.ts:290-300 | at most need rows, a subsequence of the ranking, consecutive rows at least the target apart, the top-ranked row first, and every skipped row too close to a chosen one when short |
| Generator.RankBucket | src/lib/logic.ts:288 | `filterAndRank` as written when the rule pack is not empty, the bucket as drawn otherwise; no row more often than in the bucket |
| Generator.GenerateVertical | src/lib/logic.ts:236-302 | the bucket is the oversampling loop run on the stream where the vertical starts, and the chosen rows are exactly the diversity pass over that bucket's ranking: at most need rows, all allowed, built from the picks and carrying the vertical, consecutive rows at least the target apart, with pairwise distinct similarity keys |
| Generator.DrawnStep | src/lib/logic.ts:236-302 | drawing the next vertical from where the previous one left the stream extends the record of buckets, stream positions and chosen rows by one |
| Generator.Counts | src/lib/logic.ts:206-210 | the even split has one count per vertical; a non-empty list of counts sums to a non-negative total |
| Generator.PickAll | src/lib/logic.ts:221-232 | each of the nine kept pools is a sub-multiset of its pool, a missing proof or spec pool giving none; the stream advances by one value per item kept |
| Generator.VerticalStep | src/lib/logic.ts:236-303 | one more vertical keeps the loop's invariants: per-vertical bounds and diversity, total within the summed needs, all rows allowed |
| Generator.AllowedMembers | src/lib/logic.ts:306 | rows drawn from allowed rows of the verticals are allowed rows of the verticals |
| Generator.GenerateCombos | src/lib/logic.ts:188-326 | the verticals are drawn in list order from one shared stream that starts after the pool picks, each vertical's bucket starting where the previous one stopped; each vertical's rows are exactly the diversity pass over its ranked bucket and satisfy their need, diversity floor and admissibility with distinct similarity keys; the total is within the summed needs; the result is the final ranking of the merged rows, all allowed and from the given verticals; with distinct vertical names no two output rows of one vertical share a similarity key |
| Generator.CombosStep | src/lib/logic.ts:236-303 | one vertical's draw and choice keep every fact of the generation loop: the draw record, the per-vertical bounds, the total bound, admissibility and per-vertical key uniqueness |
| Generator.CombosDone | src/lib/logic.ts:305-306 | after the last vertical the final ranking of the merged rows is allowed, from the given verticals and, with distinct vertical names, free of repeated keys within a vertical |
| Budget.ComputeMSV | src/lib/budget.ts:1 | with the default factor 40 the spend is 40 × target CPA; non-negative inputs give a non-negative spend |
| Budget.ComputeMaxVariants | src/lib/budget.ts:3-4 | never negative; the whole number of max(msv, 1) in a non-negative budget; 0 below one such unit |
| Budget.ComputeMaxConcurrent | src/lib/budget.ts:6-7 | 0 unless the daily budget is positive; Infinity for a zero spend; otherwise floor of the daily budget over msv / max(readDays, 1), negative for a negative spend |
| Budget.FirstMax | src/lib/budget.ts:13 | the first index holding the maximum |
| Budget.ClampCountsToBudget | src/lib/budget.ts:9-19 | length kept; an entry changes only to a non-negative value; with non-negative counts no entry grows, the sum becomes min(sum, maxVariants), and only the largest entries are trimmed |
| Budget.EnforceMinPerVertical | src/lib/budget.ts:21-22 | length kept; an entry of at least min is kept and one below min becomes 0; the sum of non-negative counts does not grow |
| Budget.EnforceMinIdempotent | src/lib/budget.ts:21-22 | applying the floor twice is applying it once |
| Sizing.ComputeMinSpendPerVariant | src/lib/logic.ts:331-333 | equals budget.ts's `computeMSV` |
| Sizing.ComputeMaxVariants | src/lib/logic.ts:335-338 | 0 for a non-positive spend; otherwise the floor of budget over spend |
| Sizing.MaxVariantsAgree | src/lib/logic.ts:335-338 | the two `computeMaxVariants` agree once the spend is at least 1, and disagree on a non-positive spend |
| Sizing.ComputeMaxConcurrent | src/lib/logic.ts:340-343 | 0 unless all three inputs are positive; otherwise the largest n with n·msv ≤ daily·readDays |
| Sizing.Kept | src/lib/logic.ts:399-402 | the kept verticals are a subsequence; a vertical is kept exactly when some position holding it has a count of at least 3; when every vertical is kept, every count is at least 3 |
| Sizing.Missed | src/lib/logic.ts:401 | a vertical is dropped exactly when some position holding it has a count below 3 (or none) |
| Sizing.KeptMissedPartition | src/lib/logic.ts:399-402 | every vertical is either kept or dropped, and not both |
| Sizing.IndexOf | src/lib/logic.ts:418 | the first position of the value, or −1 when absent |
| Sizing.FilteredWeights | src/lib/logic.ts:416-420 | one weight per remaining vertical |
| Sizing.FilteredMapSameWeights | src/lib/logic.ts:411-414 | restricting the stage weights to the remaining verticals changes none of their weights |
| Sizing.Recount | src/lib/logic.ts:409-422 | one count per remaining vertical, summing to a non-negative total |
| Sizing.DropStep | src/lib/logic.ts:398-424 | one round conserves used + dropped and keeps used a subsequence; a vertical survives exactly when its count reaches 3, and every short one is put in front of the earlier drops; it either empties the list with counts [], total 0 and an added warning, or recounts with a balanced total |
| Sizing.DropStepProgress | src/lib/logic.ts:398-402 | a round that continues shrinks the verticals, unless the counts were longer than the verticals |
| Sizing.DropStepShrinks | src/lib/logic.ts:398-424 | with one count per vertical, each repeat strictly shrinks the verticals |
| Sizing.DropLoop | src/lib/logic.ts:426-428 | the loop terminates with every count at least 3, used a subsequence, verticals conserved, and either the total unchanged or everything emptied with a warning; a loop that runs keeps only verticals whose first-round count reached 3 |
| Sizing.DropLoopDrops | src/lib/logic.ts:398-428 | the loop only adds drops in front; each new drop was short in some round; a loop that runs drops every vertical short in its first round |
| Sizing.Finish | src/lib/logic.ts:430-443 | the drop warning is added last exactly when some vertical was dropped |
| Sizing.DeriveCountsWithBudget | src/lib/logic.ts:345-444 | spend and ceilings as computed; concurrency only with truthy daily budget and read days; the early warning first when the budget misses 3 per vertical; used + dropped = verticals; all counts at least 3; the total is maxVariants, or 0 with nothing left |
| Sizing.InitialState | src/lib/logic.ts:376-397 | before the first round, all verticals are used, none dropped, the total is maxVariants, and the early warning is there exactly when maxVariants < 3 per vertical |
| Sizing.DerivedDrops | src/lib/logic.ts:395-441 | every dropped vertical was short in some round; when the initial split leaves some vertical short, every such vertical is dropped and every used vertical had at least 3 initially |
| Sizing.AddendumBudgetExample | src/tests/addendum.test.ts:44-58 | 22000 at CPA 50 and factor 40 over four even verticals gives spend 2000, 11 variants, the warning, D dropped and counts 4, 4, 3 |
| Sizing.SplitRails | src/lib/logic.ts:449-453 | learn is floor(total·ratio), scale is never negative; for a ratio in [0, 1] and a non-negative total the rails share the total exactly |
| Sizing.SplitRailsExamples | src/lib/logic.ts:449-453 | 10 at 0.7 gives 7 and 3; 1 gives 0 and 1 |
| Csv.DoubleQuotes | src/lib/logic.ts:461 | doubling quotes never shortens and leaves a quote-free cell as it is |
| Csv.CsvEscape | src/lib/logic.ts:458-464 | a cell without comma, newline or quote is written unchanged; any other is wrapped in quotes |
| Csv.FieldRoundTrip | src/lib/logic.ts:458-464 | an escaped cell followed by a delimiter reads back as exactly the cell |
| Csv.EscapeExample | src/lib/logic.ts:458-464 | a lone comma is quoted; a plain word is not |
| Csv.RecordRoundTrip | src/lib/logic.ts:532 | a line of escaped cells joined by commas reads back as its cells |
| Csv.DocumentRoundTrip | src/lib/logic.ts:497-536 | lines joined by newlines read back as their records |
| Csv.HeadersNeedNoQuoting | src/lib/logic.ts:476-497 | the header line written without escaping reads like an escaped one |
| Csv.HitText | src/lib/logic.ts:505-510 | a hit prints as its type, with `:weight` for soft rules, and is never empty, so the empty-entry filter drops nothing |
| Csv.Cells | src/lib/logic.ts:499-530 | nineteen cells, one per header |
| Csv.CellsUnderHeaders | src/lib/logic.ts:476-530 | each of the nine attributes sits under the header that names it, empty when unset; the row's own rail wins over the option's |
| Csv.Table | src/lib/logic.ts:497-533 | the header followed by each row's cells, by row index |
| Csv.RowsToCsv | src/lib/logic.ts:466-537 | the document reads back as the header line followed by each row's nineteen cells, in order, whatever the cells contain |

## Left out

- The React UI, the API routes, persistence, and the global setters with their event wiring (`src/lib/logic.ts:12-23`, the runtime bridge, the stores). The configuration they install is a parameter instead.
- Mulberry32 and `Math.random` (`src/lib/logic.ts:52-61`). The random source is an input stream of values in [0, 1), so two runs with the same stream give the same rows by construction.
- IEEE-754 doubles, `toFixed`, and the runtime's number-to-text conversion. The model uses mathematical reals and a text function parameter; products such as 10·0.7 are exact here.
- NaN and non-finite inputs. A quota's numeric parts are `None` when absent or not finite. Other inputs are assumed finite.
- The try/catch trace attachment (`src/lib/logic.ts:308-323`) and the `__d`, `__simKey` and `__quota` annotations it copies. `traceHits` is modelled, and the CSV export takes each row's trace as an input.
- Clause keys that are not fields, and objects whose keys JavaScript orders specially. Clauses are lists of entries in key order.
- Quotas.BucketsFor: vertical names are ordinary keys here, including names of `Object.prototype` members such as "constructor", "toString" or "__proto__". In the code such a name breaks the plain-object maps: `(byV[v] ||= []).push(i)` (`src/lib/ruleEngine.ts:239`) finds the inherited function and throws, which aborts `applyQuotas`, `filterAndRank` and `generateCombos`. The same names make the weight lookups in Splits.StageWeights (`src/lib/logic.ts:92`) and Sizing.FilteredMap (`src/lib/logic.ts:413`) return that function instead of the default 1, so the counts become NaN, and make Csv.Cells (`src/lib/logic.ts:500`) print the function's text as the hypothesis. The model covers vertical names that are not prototype members.
- Quotas.VerticalBuckets: orders buckets by first appearance, whereas `Object.values` lists integer-like keys first. Buckets are disjoint and each step touches only its own bucket, so the order does not change the outcome.
- Generator.GenerateCombos: the final pass's `__trace` fields and the row objects' identity are not modelled. A row is a value, so two equal rows are indistinguishable.
- Splits.EvenSplit: the sum is promised only for a non-negative total. With a negative total the JavaScript remainder is not positive and the split falls short (Splits.EvenSplitNegativeTotal).
- Splits.ParetoSplit: entries may be negative (Splits.ParetoCanGoNegative). Only the sum, the length and the distance to the exact share are promised.
- Sizing.DropLoop: a round does not always shrink the verticals. When the pareto weights outnumber the verticals, the first round can keep every vertical while bringing the counts into step with them. From then on each repeat strictly shrinks the list (Sizing.DropStepProgress, Sizing.DropStepShrinks).
- Budget.ClampCountsToBudget: the sum and no-growth facts are stated for non-negative counts only. With a negative entry the code's running total and the entries' sum drift apart.
- Csv.RowsToCsv: cell text for numbers comes from the `num` parameter rather than from JavaScript's number formatting.

## Findings

| source | as written | input that shows it | evidently intended | confidence | as-written member | corrected member |
|---|---|---|---|---|---|---|
| src/lib/ruleEngine.ts:197-224 | `enforceCap` sorts the target group by ascending score and keeps the first `allowed` rows, so a firing cap keeps the lowest-scored matches and drops the best ones | three rows of one vertical, Pattern "P", scored 3, 2 and 1, with a quota of at most 34% Pattern "P" and tolerance 0: the cap is 1 and the row scored 3 is dropped | the comments at lines 198 and 131 say the lowest-scored rows go first, so the cap should keep the highest-scored rows | not executed | Quotas.AsWrittenCapDropsTopScore | Quotas.IntendedCapKeepsTopScore |

The ranking pipeline (`Quotas.ApplyQuotas`, `Rank.FilterAndRank`, and through
them the generator) keeps the code's order. `Quotas.ApplyQuotasIntended` and
`Rank.IntendedFilterAndRank` use the corrected order. `Quotas.AsWrittenDropsTop`
and `Quotas.IntendedKeepsTop` state the difference for every group whose best
row is unique.
