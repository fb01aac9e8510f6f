# OpenCritique: a verified model

OpenCritique evaluates the concerns that an automated review system raises about a manuscript against expert
references, queues what matches nothing for expert adjudication, and publishes scorecards. This project models
the algorithms and state machines behind that pipeline in Dafny and proves what they promise: for every input,
every run of service calls and every outcome of a shuffle. `dafny verify dfyconfig.toml` checks all of it.

The project follows the pipeline. What a specification function computes is stated a second time in terms of
the records it reads: which anchors, severities, confidences, answers and qualifications count, in the modules
named after meaning.

- **Matching and evaluation** (`Matching`, `Anchoring`, `ReferencePolicy`, `Engine`, `NovelQueue`,
  `Sensitivity`; theorems in `SortTheorems`, `MatchingTheorems`, `TieTheorems`, `EngineTheorems`,
  `IdTheorems`, `OrderTheorems`, `MetricMeaning`, `MatchMeaning`, `EvaluationMeaning`). Loops are methods
  proved against specification functions; the theorems are about those functions: half-optimality of the
  greedy matcher, the unique stable matching, exactly when the order of the input is irrelevant, threshold
  nesting, exactly which ids conserve the counts, bounds through rounding and what each published rate means.
- **Novel-concern adjudication** (`NovelDetermination`, `NovelRegistry`, `NovelService`; theorems in
  `NovelDesk`, `NovelInvariant`, `NovelTheorems`, `NovelMeaning`, `NovelProgress`, `NovelHistory`). The
  registry is a record of tables; every service call is a function from tables to tables or an error, and a
  run is any sequence of calls in which a failed one is rolled back. `NovelService` is the service itself, a
  class that updates its tables in place and restores them on error, proved call by call against those
  functions; its objects hold reachable tables, so the theorems about runs hold of them. The repository's
  auditor is modelled in `NovelConformance`, and `NovelSoundness` proves exactly which runs pass it.
- **Agreement and audit accounting** (`Kappa`, `KappaTheorems`, `MatcherAudit`, `AuditDiscovery`,
  `AuditSampling`). Two independent kappa implementations, the completion test, the count across sessions and
  the stratified sample for every shuffle.
- **Expert programme** (`ExpertTables`, `ExpertService`; `ExpertInvariant`, `ExpertTheorems`, `ExpertMeaning`,
  `ClaimMeaning`, `ExpertConformance`). Profiles, calibration, qualification, intakes, claim reconstruction,
  credit and compensation, in the same two layers, with the auditor of these tables.
- **Smaller algorithms** (`PdfSecurity`, `Extractors`, `MetricAuth`). The scan for PDF name tokens (sections
  7.2.2 and 7.3.5 of ISO 32000-1), the heading stack and table blocks, and the withholding of metrics.

## How the model reads the code

- Floating point is exact real arithmetic; `round(x, 6)` is modelled digit by digit, ties to even.
- Hashes are represented by what they hash (`Digest`, `CaseSetHash`, `ScorecardId`, `CandidateId`), so equal
  hashes mean equal contents. A digest supplied from outside may be of nothing known.
- Fresh identifiers are counters or row positions. A novel task is known by its candidate and slot, which the
  table keeps unique. Clocks are arguments, and the order of creation is the order of insertion.
- Normalization, case folding, tokenization, heading matches and the row-line test are arbitrary functions or
  given sequences.
- `random.shuffle` chooses freely among all permutations, and the sampling results hold for each of them.
- Exceptions are error results. A failed service call leaves the tables as they were, as the session is rolled
  back (`src/opencritique_registry/auth.py:82-92`).

## What the proofs found

- Conservation of counts fails when a local id or a reference id is repeated in a case, which nothing
  validates. It holds against every reference list, respectively every submission, exactly when the ids are
  distinct (`IdTheorems.SubmittedBalanceExactly`, `ReferenceBalanceExactly`); `RepeatedLocalIdLosesCount` and
  `RepeatedReferenceIdLosesCount` are evaluations with a lost count.
- The two kappa implementations differ exactly when the tolerance of the first fires although chance agreement
  is not certain (`KappaTheorems.KappasAgreeExactly`). They agree on all lists of n items exactly for n up to
  1,999,999,999,998 (`KappasAgreeUpTo`).
- The PDF-name scan is exact on all data if and only if every overlap of the name with itself continues with a
  delimiter (`PdfSecurity.ScanIsExactIff`); the five blocked names qualify.
- A judgment appended out of time order can undo the completion of an audit candidate
  (`MatcherAudit.RevertsExactly`, `EarlierDissentReverts`).
- The auditor reports a missing scorecard predecessor and then looks it up, so it ends in an error instead of a
  report (`NovelSoundness.UnregisteredPredecessor`); every run passes when scorecards name registered
  predecessors.
- One expert can claim both primary tasks of a candidate. Only the policy stops the second submission, and the
  candidate can then never become final (`NovelProgress.OneExpertCanHoldBoth`). A candidate can still become
  final exactly when it was seeded and its primary tasks are not both with one expert, and then six steps are
  enough (`NovelProgress.FinalReachableExactly`).
- After any run, a calibration attempt that passes in a domain without an expiry rule cannot be completed
  (`ExpertTheorems.RefusedExactly`, `FlawlessAnswerRefused`), and the required number of cases is always reached
  (`ExpertTheorems.CaseCountNeverFails`).
- Where records under one id agree, the matched pairs of a case depend on the order in which it lists them
  exactly when some accepted pair left out loses to no strictly better matched one
  (`TieTheorems.MatchedPairsForgetOrder`); two references that differ in their id alone are such a case
  (`TiesDependOnOrder`). Repeated anchor ids or local ids can make the order decide as well
  (`RepeatedAnchorIdDecides`, `RepeatedLocalIdDecides`); the anchor index and the resolutions of a case are
  independent of it exactly when records under one id agree (`OrderTheorems.IndexForgetsOrder`,
  `ResolutionsForgetOrder`).
- With the default configuration every match shares an anchor; with half of the default sensitivity grid a pair
  can be matched without one (`MetricMeaning.AnchorsNeededExactly`, `Sensitivity.DefaultGridAnchors`).

## Model

| member | source | states |
|---|---|---|
| `Matching.CollectHits` | src/opencritique_evaluation/matching.py:42-61 | the four hit lists hold exactly the anchors that are hits of each class, whatever the order and repetition of the reference anchors |
| `Matching.ResolveAnchor` | src/opencritique_evaluation/matching.py:41-84 | anchor resolution is a function of the set of reference anchors: the first non-empty class decides, several distinct anchors make it ambiguous |
| `Matching.Jaccard` | src/opencritique_evaluation/matching.py:33-38 | lies in the unit interval and is one exactly for equal token sets |
| `MetricMeaning.JaccardIsShare` | src/opencritique_evaluation/matching.py:33-38 | is the shared part of the union, zero exactly for disjoint sets that are not both empty, and symmetric |
| `MetricMeaning.RootIsPrefix` | src/opencritique_evaluation/matching.py:92-93 | the root of a type is its longest prefix without a dot |
| `Matching.ScoreCandidate` | src/opencritique_evaluation/matching.py:106-137 | every score and part score lies in the unit interval although weights may sum to slightly more than one |
| `MetricMeaning.AnchorsNeededExactly` | src/opencritique_evaluation/matching.py:106-157 | a pair at or above the threshold always shares an anchor exactly when the rounded weights of type and text fall short of the threshold |
| `MetricMeaning.TypesNeededExactly` | src/opencritique_evaluation/matching.py:106-157 | where case folding tells two types apart by their roots, such a pair always has types of one root exactly when the rounded weights of anchors and text fall short of it |
| `MetricMeaning.WordsNeededExactly` | src/opencritique_evaluation/matching.py:106-157 | where two texts have no word in common, such a pair is never that far apart exactly when the rounded weights of anchors and type fall short of it |
| `MetricMeaning.MatchesShareAnchors` | src/opencritique_evaluation/engine.py:327-341 | then every match of a case pairs a concern with a reference that cites an anchor the concern resolved to |
| `MatchMeaning.ResolutionMeans` | src/opencritique_evaluation/matching.py:41-84 | a submitted anchor stands for the anchors with its very text, failing these for those with its text up to normalization, failing these for those with its label, and failing these for those around its page; several ids make it ambiguous |
| `MatchMeaning.CitedTextIsFound` | src/opencritique_evaluation/matching.py:45-62 | citing an anchor by its own text finds it among the anchors with that text, alone exactly when no other id has that text |
| `MatchMeaning.CitedIsFound` | src/opencritique_evaluation/matching.py:41-84 | an anchor that can be cited by text, label or pages is never left without an anchor by its citation |
| `MatchMeaning.PoolMeans` | src/opencritique_evaluation/engine.py:132-147 | anchors are resolved against those the references cite, or against all of the case when they cite none that it has |
| `MatchMeaning.MatchesAreScored` | src/opencritique_evaluation/matching.py:106-137 | every match scores at least the threshold and reports, up to rounding, the shared part of the anchors, the type share (one, three quarters for a common root, zero), the shared part of the words, and their weighted sum |
| `MatchMeaning.AcceptedPairsAreCovered` | src/opencritique_evaluation/matching.py:140-170 | every pair at or above the threshold is matched or ruled out by a match that scores no lower |
| `Sensitivity.DefaultGridAnchors` | src/opencritique_evaluation/sensitivity.py:15-38 | of the default grid exactly the baseline, the high threshold and the anchor-heavy weights accept only pairs that share an anchor |
| `Matching.CollectCandidates` | src/opencritique_evaluation/matching.py:147-157 | the nested loops collect all scored pairs at or above the threshold, in source order |
| `Matching.GreedyMatch` | src/opencritique_evaluation/matching.py:140-170 | collecting, sorting and picking with two used-sets computes the specified selection |
| `SortTheorems.SortSorts` | src/opencritique_evaluation/matching.py:158 | the sort is a descending permutation |
| `SortTheorems.StableSortIsUnique` | src/opencritique_evaluation/matching.py:158 | any descending permutation that keeps equal scores in order is this sort |
| `SortTheorems.ThresholdCommutesWithSort` | src/opencritique_evaluation/matching.py:156-158 | filtering by a threshold before or after the stable sort is the same |
| `MatchingTheorems.SelectIsMaximal` | src/opencritique_evaluation/matching.py:159-170 | the selection is one-to-one, drawn from the candidates, and every rejected candidate shares an end with a selected one of equal or higher score |
| `MatchingTheorems.HalfOptimal` | src/opencritique_evaluation/matching.py:158-170 | no one-to-one set of candidates has more than twice the score or twice the size of the selection |
| `MatchingTheorems.MatcherHalfOptimal` | src/opencritique_evaluation/matching.py:140-170 | half-optimality for the scored pairs at or above the threshold, whose scores are non-negative |
| `TieTheorems.HalfIsTight` | src/opencritique_evaluation/matching.py:140-170 | two concerns and two references, for any texts, whose candidates hold a one-to-one set of exactly twice the total score and twice the size of the selection |
| `MatchingTheorems.StableMatchingIsSelected` | src/opencritique_evaluation/matching.py:159-170 | a matching in which every rejected candidate is beaten by a strictly better one is the selection |
| `MatchingTheorems.SelectIsTheStableMatching` | src/opencritique_evaluation/matching.py:158-170 | with distinct scores the selection is the one strictly stable matching |
| `MatchingTheorems.SelectForgetsOrder` | src/opencritique_evaluation/matching.py:158-170 | with distinct scores the selection does not depend on the order of the candidates |
| `TieTheorems.OrderFreeExactly` | src/opencritique_evaluation/matching.py:158-170 | every order of the candidates selects the same pairs exactly when every rejected candidate loses to a strictly better selected one, that is, exactly when the candidates have a strictly stable matching |
| `TieTheorems.GridOrderFreeExactly` | src/opencritique_evaluation/matching.py:140-170 | for given resolutions, every order of the concerns and of the references selects the same pairs exactly when every accepted pair left out loses to a strictly better selected one |
| `TieTheorems.MatchedPairsForgetOrder` | src/opencritique_evaluation/engine.py:327-341 | where records under one id agree, every order of the concerns, references and anchors of a case matches the same pairs exactly when every accepted pair left out loses to a strictly better matched one |
| `TieTheorems.TiesDependOnOrder` | src/opencritique_evaluation/matching.py:140-170 | two eligible references that differ in their id alone tie for every concern: the one listed first is matched, and swapping them changes the matches |
| `MatchingTheorems.ThresholdNesting` | src/opencritique_evaluation/matching.py:156-170 | the selection at a higher threshold is a prefix of the selection at a lower one, ties included |
| `Rounding.RoundIntoUnit` | src/opencritique_evaluation/models.py:582-587 | a weighted sum that overshoots one by the tolerated excess of the weights still rounds into the unit interval |
| `Anchoring.ReferenceAnchors` | src/opencritique_evaluation/engine.py:132-137 | collects the known anchors cited by the references |
| `Anchoring.Deduplicate` | src/opencritique_evaluation/engine.py:139-145 | keeps the same set of anchors, each once |
| `Anchoring.ResolveSubmitted` | src/opencritique_evaluation/engine.py:127-159 | resolves every submitted anchor against the cited anchors, or all when none is cited, in order |
| `OrderTheorems.IndexForgetsOrder` | src/opencritique_evaluation/engine.py:280 | the anchor index does not depend on the order of the anchors exactly when anchors under one id are one anchor; this is not validated |
| `OrderTheorems.ResolutionsForgetOrder` | src/opencritique_evaluation/engine.py:327-331 | for given references and anchor index, the resolutions by local id do not depend on the order of the submitted concerns exactly when concerns under one id resolve alike; local ids are not validated to be distinct |
| `TieTheorems.RepeatedAnchorIdDecides` | src/opencritique_evaluation/engine.py:280 | a repeated anchor id: swapping two anchors under one id decides whether a concern is matched |
| `TieTheorems.RepeatedLocalIdDecides` | src/opencritique_evaluation/engine.py:327-331 | a repeated local id: swapping two concerns under one id decides whether anything is matched |
| `OrderTheorems.MatchesForgetOrder` | src/opencritique_evaluation/engine.py:327-341 | the matches of a case are unchanged by permuting concerns, references and anchors when repeated ids are consistent and the scores above the threshold pairwise distinct |
| `ReferencePolicy.GoldWeight` | src/opencritique_evaluation/reference_policy.py:87-104 | fails on exactly the concerns that are not eligible |
| `ReferencePolicy.Eligible` | src/opencritique_evaluation/reference_policy.py:107-113 | keeps exactly the eligible concerns |
| `ReferencePolicy.EligiblePermutes` | src/opencritique_evaluation/reference_policy.py:107-113 | the eligible set is unchanged by the order of the concerns |
| `Engine.ResolveConcerns` | src/opencritique_evaluation/engine.py:327-334 | resolutions and anchor counters of a case, a repeated id keeping the last |
| `Engine.ScoreSubmitted` | src/opencritique_evaluation/engine.py:359-372 | the precision family and Brier counters of a case, only on complete reference sets |
| `Engine.ScoreReferences` | src/opencritique_evaluation/engine.py:374-378 | the weighted recall counters of a case; the gold weight never fails there |
| `Engine.SkipCase` | src/opencritique_evaluation/engine.py:283-324 | abstained and failed cases count every eligible reference as missed |
| `Engine.CompleteCase` | src/opencritique_evaluation/engine.py:326-393 | a completed case reports its matches, its unmatched and missed ids, and their counts |
| `Engine.EvaluateCase` | src/opencritique_evaluation/engine.py:272-393 | one case, with its two error conditions |
| `Engine.Evaluate` | src/opencritique_evaluation/engine.py:232-500 | the loop over the cases computes the specified evaluation or its first error |
| `EngineTheorems.OutsideCount` | src/opencritique_evaluation/engine.py:344-351 | used and unused ids add up to the list exactly when no used id occurs twice |
| `EngineTheorems.MatchedIds` | src/opencritique_evaluation/engine.py:342-343 | matches use as many distinct ids as there are matches, all of the case |
| `EngineTheorems.EvaluationsByCase` | src/opencritique_evaluation/engine.py:272-393 | the evaluations are those of the cases, one by one |
| `EngineTheorems.Conservation` | src/opencritique_evaluation/engine.py:482-500 | total equals completed plus abstained plus failed; every counter is the sum over the cases; for a given evaluation, submitted equals matched plus unmatched, and eligible equals matched plus missed, exactly when no matched id is repeated in its case |
| `EngineTheorems.ConservationForDistinctIds` | src/opencritique_evaluation/engine.py:482-500 | distinct ids per case are enough for both equations |
| `IdTheorems.SubmittedBalanceExactly` | src/opencritique_evaluation/engine.py:342-391 | the submitted concerns of a case split into matched and unmatched ones against every reference list and configuration, or against every one that cites anchors of the case, exactly when its local ids are distinct |
| `IdTheorems.ReferenceBalanceExactly` | src/opencritique_evaluation/engine.py:342-391 | the eligible references of a case split into matched and missed ones against every submission and configuration exactly when their ids are distinct |
| `IdTheorems.RepeatedLocalIdLosesCount` | src/opencritique_evaluation/models.py:479-492 | distinct local ids are not validated: an evaluation whose metrics publish two submitted, one matched and no unmatched concern |
| `IdTheorems.RepeatedReferenceIdLosesCount` | src/opencritique_evaluation/engine.py:342-351 | the same for reference ids: two eligible, one matched and no missed reference |
| `EngineTheorems.MetricBounds` | src/opencritique_evaluation/engine.py:395-480 | published rates and the Brier score lie in the unit interval; an empty gold set or an incomplete reference set withholds the precision family and Brier; recall is withheld exactly for an empty gold set |
| `EvaluationMeaning.PublishedCountsMean` | src/opencritique_evaluation/engine.py:326-480 | every published numerator and denominator is a count over records and matches: gold concerns by status, severity points of matched and unmatched concerns, unmatched criticals, squared confidence errors, and anchors that stand for exactly one; published values are these fractions up to rounding, and the precision family is published on complete sets with gold only |
| `EvaluationMeaning.BrierIsZeroExactly` | src/opencritique_evaluation/engine.py:362-372 | a published Brier score has the numerator zero exactly when every matched concern has confidence one and every other confidence zero |
| `EvaluationMeaning.EvaluationSucceedsExactly` | src/opencritique_evaluation/engine.py:241-280 | an evaluation succeeds exactly when the submission names benchmark and version, answers only its cases, and every case file is there and is that of the case |
| `EvaluationMeaning.CasesAreClassed` | src/opencritique_evaluation/engine.py:283-327 | a case counts as failed exactly when answered with a failure, as abstained exactly when left out or abstained from, and as completed otherwise |
| `MetricMeaning.TotalLosses` | src/opencritique_evaluation/engine.py:359-378 | each missed reference costs weighted recall between half a point and four, each unmatched concern weighted precision likewise on complete sets, and a false critical its full four |
| `MetricMeaning.PublishedRates` | src/opencritique_evaluation/engine.py:395-500 | each published rate is, up to rounding, its published numerator over its published denominator, the plain ones being the published counts; weighted recall is full exactly when nothing is missed, weighted precision on complete sets exactly when nothing is unmatched |
| `NovelQueue.BuildNovelQueue` | src/opencritique_evaluation/novel.py:21-64 | the nested loops compute the specified queue or its first failing lookup |
| `NovelQueue.QueueOfEvaluation` | src/opencritique_evaluation/novel.py:33-57 | on the result of an evaluation over an incomplete reference set no lookup fails, the queue has exactly the reported number of pending candidates, and with distinct local ids they are the unmatched concerns in order |
| `Sensitivity.CombinePairs` | src/opencritique_evaluation/sensitivity.py:94-95 | stable pairs are those of all runs, the union those of some run |
| `Sensitivity.MatchCounts` | src/opencritique_evaluation/sensitivity.py:109-110 | the reported minimum and maximum bound every run and are attained |
| `Sensitivity.MinAndMax` | src/opencritique_evaluation/sensitivity.py:99-114 | the extremes of precision or recall bound every published value, are attained, and are absent exactly when no run publishes one |
| `Sensitivity.AnalyzeSensitivity` | src/opencritique_evaluation/sensitivity.py:52-115 | its two own errors exactly under their conditions and otherwise the error of the first failing evaluation; each run is the evaluation of its configuration; the report describes the runs, retention in the unit interval |
| `Sensitivity.RunsHaveRates` | src/opencritique_evaluation/sensitivity.py:76-91 | the precision of a run is its matches over the submitted concerns and its recall its matches over the eligible references, up to rounding |
| `Sensitivity.PairsNest` | src/opencritique_evaluation/sensitivity.py:67-75 | with equal weights, pairs at a higher threshold are among those at a lower one |
| `Sensitivity.ThresholdGrid` | src/opencritique_evaluation/sensitivity.py:94-97 | on a threshold-only grid the stable pairs are those of the highest threshold and the union is that of the lowest |
| `Kappa.ChanceAgreement` | src/opencritique_evaluation/matcher_audit.py:741-745 | the loop over labels, in any order, sums the products of the two label frequencies |
| `Kappa.CohenKappa` | src/opencritique_evaluation/matcher_audit.py:735-748 | computes the specified kappa with its tolerance |
| `Kappa.PairKappa` | src/opencritique_registry/expert_service.py:261-274 | computes the specified kappa with its exact comparison |
| `Kappa.ProductsBound` | src/opencritique_evaluation/matcher_audit.py:741-745 | four times the sum of products of label counts is bounded through the joint counts, by inclusion-exclusion and squares per label |
| `Kappa.ChanceGap` | src/opencritique_registry/expert_service.py:268-272 | labels that are not unanimous leave a chance agreement of at most one minus one over n |
| `KappaTheorems.CohenKappaBounds` | src/opencritique_evaluation/matcher_audit.py:735-748 | kappa lies between minus one and one and equals one exactly when the lists agree everywhere |
| `KappaTheorems.PairKappaBounds` | src/opencritique_registry/expert_service.py:261-274 | the same for the other implementation, which yields a value on every non-empty input |
| `KappaTheorems.KappasAgreeExactly` | src/opencritique_evaluation/matcher_audit.py:746-748 | the two implementations differ exactly when the tolerance fires without certain chance agreement and the two agreements differ |
| `KappaTheorems.AgreementsMean` | src/opencritique_evaluation/matcher_audit.py:738-745 | observed agreement is the share of items with one label; chance agreement is the share of same-labelled pairs among all pairs of an item of one rater with an item of the other |
| `KappaTheorems.KappasMean` | src/opencritique_evaluation/matcher_audit.py:746-748 | both kappas are the excess of observed over chance agreement as a share of what chance leaves, and what they give where chance leaves nothing or less than the tolerance |
| `KappaTheorems.VariedProducts` | src/opencritique_evaluation/matcher_audit.py:741-745 | if neither rater says one label throughout, chance agreement falls short of certainty by at least two n minus two over n squared |
| `KappaTheorems.ConstantRaterAgreesByChance` | src/opencritique_evaluation/matcher_audit.py:738-745 | a rater with a single label agrees with the other exactly as often as by chance |
| `KappaTheorems.KappasAgree` | src/opencritique_evaluation/matcher_audit.py:735-748 | they agree on every input of up to 1,999,999,999,998 items |
| `KappaTheorems.KappasPart` | src/opencritique_evaluation/matcher_audit.py:746-747 | on lists of every larger size with one dissent per rater one kappa is zero and the other negative |
| `KappaTheorems.KappasAgreeUpTo` | src/opencritique_evaluation/matcher_audit.py:735-748 | they agree on all lists of a size exactly up to that bound |
| `KappaTheorems.KappasSymmetric` | src/opencritique_registry/expert_service.py:261-274 | both implementations are symmetric in the raters |
| `MatcherAudit.PrimaryJudgments` | src/opencritique_evaluation/matcher_audit.py:257-266 | finds the earliest judgments of the first two distinct auditors |
| `MatcherAudit.IsCandidateAdjudicationComplete` | src/opencritique_evaluation/matcher_audit.py:249-272 | true exactly for three or more auditors, or two whose earliest judgments agree |
| `MatcherAudit.RevertsExactly` | src/opencritique_evaluation/matcher_audit.py:249-272 | appending a judgment undoes completion exactly when two auditors agreed and it is an earlier, dissenting one of theirs |
| `MatcherAudit.EarlierDissentReverts` | src/opencritique_evaluation/matcher_audit.py:249-272 | such a judgment: two auditors agree and one of them adds a dissent dated before |
| `MatcherAudit.CompletionIsStable` | src/opencritique_evaluation/matcher_audit.py:249-272 | completion is never undone by judgments appended in time order |
| `AuditDiscovery.CollectSession` | src/opencritique_evaluation/matcher_audit.py:388-402 | adds exactly the candidates of the session that are complete in it |
| `AuditDiscovery.CountedMeans` | src/opencritique_evaluation/matcher_audit.py:363-392 | a session completes exactly the candidates it counts for: natural manifest that claims nothing, natural report of the same sample, completing judgments; each was judged by two auditors |
| `AuditDiscovery.DiscoverCompleted` | src/opencritique_evaluation/matcher_audit.py:358-421 | the completed candidates are exactly those complete in some accepted natural session; the contributing session ids exactly those of sessions that complete a candidate no earlier session completed; and the number of natural sessions |
| `AuditDiscovery.CountForgetsOrder` | src/opencritique_evaluation/matcher_audit.py:363-404 | the count does not depend on the order of the sessions |
| `AuditSampling.Shuffle` | src/opencritique_evaluation/matcher_audit.py:651-653 | any shuffle is a permutation |
| `AuditSampling.DeduplicateById` | src/opencritique_evaluation/matcher_audit.py:655-662 | keeps each candidate id once and loses none |
| `AuditSampling.EqualShares` | src/opencritique_evaluation/matcher_audit.py:638-662 | with distinct ids the sample has as many candidates as the equal shares of the non-empty groups come to, up to the target, and a target with room for every group takes from each its share or all it has |
| `AuditSampling.StratifySample` | src/opencritique_evaluation/matcher_audit.py:638-676 | for every outcome of the shuffles: drawn in equal shares of the groups, cut to the target, each id once; distinct ids, from the population, and the sample's own validator holds |
| `AuditSampling.DomainRepresentatives` | src/opencritique_evaluation/matcher_audit.py:620-636 | one row of every domain that occurs, and of no other |
| `AuditSampling.StratifyMatchDecisions` | src/opencritique_evaluation/matcher_audit.py:478-676 | the population is grouped into matches within a tenth of the threshold, matches beyond it and everything else; for every outcome of the shuffles the sample is drawn in equal shares of these, each candidate stands for a record of its stratum, the default denominator counts the population, and with it a manifest can be built |
| `AuditSampling.BuildSessionManifest` | src/opencritique_evaluation/matcher_audit.py:679-716 | fails exactly when the sample exceeds its denominator; the natural target is met exactly by a natural sample of at least a hundred candidates |
| `PdfSecurity.Find` | src/opencritique_ingestion/pdf_security.py:25 | finds the first occurrence from a position |
| `PdfSecurity.PdfNamePresent` | src/opencritique_ingestion/pdf_security.py:21-31 | the loop terminates and computes the specified scan |
| `PdfSecurity.ScanIsExact` | src/opencritique_ingestion/pdf_security.py:21-31 | true exactly when some occurrence ends the data or is followed by a listed delimiter, for every name whose overlaps are delimited |
| `PdfSecurity.OverlapHidesToken` | src/opencritique_ingestion/pdf_security.py:31 | for any other name there are data whose token the jump past a failed occurrence misses |
| `PdfSecurity.ScanIsExactIff` | src/opencritique_ingestion/pdf_security.py:21-31 | the scan is exact on all data if and only if every overlap of the name with itself continues with a delimiter |
| `PdfSecurity.UniqueFirstByte` | src/opencritique_ingestion/pdf_security.py:21-31 | names whose first byte occurs nowhere else in them meet that condition |
| `PdfSecurity.BlockedNamesAreSlashNames` | src/opencritique_ingestion/pdf_security.py:12-18 | all five blocked names are such names |
| `PdfSecurity.ScanPdfNames` | src/opencritique_ingestion/pdf_security.py:47-59 | the loop reports exactly the names that are present as tokens |
| `Extractors.PopTo` | src/opencritique_ingestion/extractors.py:132-133 | popping leaves exactly the open headings above the level |
| `Extractors.SectionDepths` | src/opencritique_ingestion/extractors.py:128-151 | after each heading the stack holds exactly the headings above everything since, strictly increasing in level, and its size is the reported depth |
| `Extractors.ParentIsNearest` | src/opencritique_ingestion/extractors.py:131-134 | the heading below the top is the nearest earlier one of a smaller level |
| `Extractors.MarkdownTableBlocks` | src/opencritique_ingestion/extractors.py:50-63 | returns exactly the maximal runs of row lines, disjoint and in order, with their text |
| `MetricAuth.ResolveAuthorizedMetrics` | src/opencritique_evaluation/metric_auth.py:141-181 | the loop resolves every declaration on its own |
| `MetricAuth.ResolvingIsAClosure` | src/opencritique_evaluation/metric_auth.py:141-181 | resolving twice is resolving once, and a declaration is either unchanged or downgraded from authorized to withheld |
| `MetricAuth.EffectiveAuthorization` | src/opencritique_evaluation/metric_auth.py:127-181 | a metric ends up authorized exactly when its last declaration is authorized and passes both completeness gates |
| `MetricAuth.WithholdingOnce` | src/opencritique_evaluation/metric_auth.py:184-200 | withholding removes the value, keeps numerator and denominator, mentions the reason, and is idempotent |
| `MetricAuth.ApplyMetricAuthorization` | src/opencritique_evaluation/scorecard.py:68-109 | the loop withholds exactly the rows whose metric is not authorized and changes nothing else |
| `MetricAuth.ApplicationIsIdempotent` | src/opencritique_evaluation/scorecard.py:68-109 | applying it a second time changes nothing |
| `MetricAuth.PublishedExactly` | src/opencritique_evaluation/scorecard.py:91-97 | a row keeps its value exactly when it had one and its metric is effectively authorized |
| `MetricAuth.RowsNeed` | src/opencritique_evaluation/scorecard.py:68-97 | the permission each of the seven rows needs, recall being seeded-defect recall on complete reference sets and reference recall on others, and its gates by name |
| `MetricAuth.SatisfiesIsOrder` | src/opencritique_evaluation/metric_auth.py:95-99 | a completeness requirement is met by its own completeness and every higher one |
| `MetricAuth.IncompletePublishesNoPrecision` | src/opencritique_evaluation/metric_auth.py:168-176 | whatever is declared, an incomplete reference set publishes no precision, weighted precision, false-critical or Brier value |
| `NovelDetermination.PairwiseRulesSymmetric` | src/opencritique_evaluation/novel_determination.py:86-118 | the pairwise rules do not distinguish the two adjudicators |
| `NovelDetermination.PoliciesAgree` | src/opencritique_registry/determination.py:61-108 | on logs with at most two primaries and one tie-break the two policies agree on severity, tie-break need and, when final, outcome; the novel policy refuses exactly the logs where one expert holds two roles |
| `NovelDetermination.PolicyForgetsOrder` | src/opencritique_evaluation/novel_determination.py:121-188 | for logs of any length the result does not depend on the order of the decisions |
| `NovelDetermination.PolicyIsBySlot` | src/opencritique_evaluation/novel_determination.py:121-188 | with at most one decision per slot the policy is a function of the three slots |
| `NovelDesk.ClaimKeepsOrder` | src/opencritique_registry/novel_service.py:193-216 | a claim keeps a candidate's tasks, decisions and determinations in step |
| `NovelDesk.SubmitKeepsOrder` | src/opencritique_registry/novel_service.py:254-318 | so does a submission, with the tie-break it may spawn and the determination it appends |
| `NovelDesk.OnlySameExpertRefused` | src/opencritique_evaluation/novel_determination.py:146-171 | of the policy's guards only the one against one expert in both primary slots can fire, and it fires exactly then |
| `NovelDesk.FinalIffDone` | src/opencritique_registry/novel_service.py:331-486 | a seeded candidate is final exactly when no task is left to do |
| `NovelInvariant.ClaimOnDesk` | src/opencritique_registry/novel_service.py:193-216 | a claim is a move on the candidate's own records and fails for the same reasons |
| `NovelInvariant.SubmitOnDesk` | src/opencritique_registry/novel_service.py:254-486 | so is a submission; with no scorecard attached it succeeds exactly when the move does |
| `NovelInvariant.StepKeepsGood` | src/opencritique_registry/novel_service.py:54-486 | every register, ingest, claim and submit step keeps the invariant, failed steps included |
| `NovelInvariant.RunsAreGood` | src/opencritique_registry/novel_service.py:48-486 | every run from an empty registry satisfies the invariant |
| `NovelTheorems.OnlySameExpertFires` | src/opencritique_evaluation/novel_determination.py:146-171 | after any run a submission is refused by the policy exactly when its caller holds the claimed task, the candidate is open and the caller gave the other primary decision |
| `NovelTheorems.PrimariesSettle` | src/opencritique_evaluation/novel_determination.py:86-185 | after any run two primary decisions have a tie-break task exactly when their validities differ in more than confirmed against qualified, or their severities differ with one critical or two levels apart; otherwise they have settled the candidate with the common validity or qualified, and the lower severity |
| `NovelMeaning.FinalOutcomeMeans` | src/opencritique_evaluation/novel_determination.py:121-188 | after any run a final outcome is the tie-break's decision where there is one, what the two primaries settle where two are needed, and the one primary's decision otherwise |
| `NovelMeaning.FinalStateMeans` | src/opencritique_registry/novel_service.py:466-486 | after any run a candidate with a final determination is accepted, qualified, rejected or unresolved exactly when the outcome is confirmed, qualified, rejected or unresolved |
| `NovelMeaning.OpenStateMeans` | src/opencritique_registry/novel_service.py:466-486 | without a final determination a candidate keeps the state it was ingested with |
| `NovelMeaning.SecondPrimaryExactly` | src/opencritique_registry/novel_service.py:161-180 | after any run a candidate has a second primary task exactly when it has a first one and its concern is major or critical |
| `NovelMeaning.IngestionMeans` | src/opencritique_registry/novel_service.py:122-191 | a successful ingestion stores every new candidate as it came, with its sources, and seeds its pending tasks |
| `NovelMeaning.ClaimExactly` | src/opencritique_registry/novel_service.py:193-216 | after any run a claim goes through exactly when the task is pending and its caller gave neither primary decision; it then assigns the task and changes nothing else |
| `NovelMeaning.SubmitExactly` | src/opencritique_registry/novel_service.py:254-318 | after any run a submission with no scorecard attached goes through exactly when its caller holds the claimed task, the candidate is not final and, off the tie-break, the caller gave no primary decision; it then records the decision as given |
| `NovelTheorems.TieBreakerIsNew` | src/opencritique_registry/novel_service.py:199-211 | after any run the holder of a tie-break gave neither primary decision |
| `NovelTheorems.FinalExactlyWhenDone` | src/opencritique_registry/novel_service.py:161-180 | a candidate ingested with seeded tasks is, in every later state, final exactly when all its tasks are completed |
| `NovelTheorems.FinalOnce` | src/opencritique_registry/novel_service.py:320-329 | no candidate ever has two final determinations nor more than three submissions |
| `NovelTheorems.AtMostSixPerCandidate` | src/opencritique_registry/novel_service.py:193-318 | a run has at most six successful claims and submissions per candidate in the registry |
| `NovelTheorems.InterleavingDoesNotMatter` | src/opencritique_registry/novel_service.py:331-350 | with no scorecard attached a run does to a candidate what that candidate's own steps do |
| `NovelTheorems.OutcomeOfOwnDecisions` | src/opencritique_registry/novel_service.py:338-350 | runs that leave the same decisions on a candidate, in any order, leave it the same final outcome, severity and state |
| `NovelProgress.StuckForever` | src/opencritique_registry/novel_service.py:193-318 | a candidate that was never seeded, or whose primary tasks are both with one expert, is final in no later state |
| `NovelProgress.SixStepsFinish` | src/opencritique_registry/novel_service.py:193-318 | any other candidate has a continuation of at most six claims and submissions that ends in a final determination |
| `NovelProgress.FinalReachableExactly` | src/opencritique_evaluation/novel_determination.py:148-149 | after any run a candidate can still become final exactly when it has a primary task and no expert is assigned to both of its primary tasks |
| `NovelProgress.OneExpertCanHoldBoth` | src/opencritique_registry/novel_service.py:199-216 | a concrete run in which one expert claims both primary tasks, only the policy stops the second submission, and the candidate can no longer become final |
| `NovelHistory.HistoryOnlyGrows` | src/opencritique_registry/novel_service.py:450-470 | over any run submissions and determinations are only appended, and registered scorecards, benchmark versions and candidate snapshots never change |
| `NovelHistory.SuccessorIsNew` | src/opencritique_evaluation/novel_determination.py:199-225 | a successor benchmark always has a new version, keeps the cases, and its hash determines what it succeeds |
| `NovelHistory.RecomputedIsLinked` | src/opencritique_evaluation/novel_determination.py:232-258 | a recomputed scorecard exists exactly under the three guards, names its predecessor with its hash, carries the successor and has an identifier of its own |
| `NovelHistory.DeterminationsAreTraceable` | src/opencritique_evaluation/novel_determination.py:282-322 | every appended determination names the candidate as ingested, all its decisions in order, and a successor benchmark and scorecard that are registered under their hashes; it has a successor exactly when it finally confirms with a scorecard attached |
| `NovelConformance.AuditCandidates` | src/opencritique_registry/conformance.py:201-214 | reports exactly the altered or misnamed candidates |
| `NovelConformance.AuditTasks` | src/opencritique_registry/conformance.py:220-239 | reports exactly the task faults |
| `NovelConformance.AuditDeterminations` | src/opencritique_registry/conformance.py:241-289 | reports exactly the determination faults |
| `NovelConformance.AuditFinals` | src/opencritique_registry/conformance.py:291-299 | reports exactly the candidates with conflicting final outcomes |
| `NovelConformance.AuditScorecards` | src/opencritique_registry/conformance.py:301-319 | reports exactly the mismatched predecessor hashes, and dies exactly when a predecessor is absent |
| `NovelConformance.AuditNovelDeterminations` | src/opencritique_registry/conformance.py:198-319 | the whole audit reports exactly the faults, and comes out empty exactly for consistent tables |
| `NovelConformance.CleanExactly` | src/opencritique_registry/conformance.py:198-319 | of any tables whatever, no fault and no failing lookup exactly when candidates, tasks, determinations, outcomes and scorecards are consistent, stated without the auditor |
| `NovelSoundness.OnlyScorecardsAtFault` | src/opencritique_registry/conformance.py:198-299 | in tables a run can reach only scorecards can be at fault |
| `NovelSoundness.CleanIffLinked` | src/opencritique_registry/conformance.py:301-319 | such tables pass the audit exactly when every scorecard is linked to its predecessor |
| `NovelSoundness.RegisteringLinked` | src/opencritique_registry/novel_service.py:54-88 | a new scorecard keeps the links exactly when it is linked itself |
| `NovelSoundness.AuditRun` | src/opencritique_registry/conformance.py:198-339 | from an empty registry every run passes the audit if its scorecards name registered predecessors with their hashes; in any case it passes exactly when they ended up linked |
| `NovelSoundness.UnregisteredPredecessor` | src/opencritique_registry/conformance.py:309-311 | one scorecard with an unregistered predecessor makes the audit fail on its own lookup |
| `NovelService.NovelDeterminationService.RegisterScorecard` | src/opencritique_registry/novel_service.py:54-88 | an identical registration returns the row, a differing one is refused, otherwise the row is added |
| `NovelService.NovelDeterminationService.RegisterBenchmark` | src/opencritique_registry/novel_service.py:90-120 | the same for benchmark versions by their case-set hash |
| `NovelService.NovelDeterminationService.IngestQueue` | src/opencritique_registry/novel_service.py:122-191 | the loop ingests the queue as specified and returns the stored rows, or undoes everything |
| `NovelService.NovelDeterminationService.ClaimTask` | src/opencritique_registry/novel_service.py:193-216 | claims as specified or changes nothing |
| `NovelService.NovelDeterminationService.HasFinalizedDetermination` | src/opencritique_registry/novel_service.py:320-329 | whether a final determination is recorded |
| `NovelService.NovelDeterminationService.PublishConfirmed` | src/opencritique_registry/novel_service.py:397-417 | registers the successor benchmark and the recomputed scorecard, or gives the error at which it stops |
| `NovelService.NovelDeterminationService.RecomputeDetermination` | src/opencritique_registry/novel_service.py:331-486 | computes the specified recomputation |
| `NovelService.NovelDeterminationService.SubmitDecision` | src/opencritique_registry/novel_service.py:254-318 | submits as specified and returns the appended determination, or rolls everything back; a policy refusal is always the one against one expert in both primary slots, and links between scorecards are kept when an attached one is registered |
| `NovelService.NovelDeterminationService.Audit` | src/opencritique_registry/conformance.py:198-319 | on the tables of the service as they stand only scorecards can be at fault, and the audit passes exactly when they are linked |
| `ExpertInvariant.TallyHolds` | src/opencritique_registry/expert_service.py:594-617 | scoring an attempt whose tasks are all in never misses a submission or a reference, and its counts are bounded by the number of tasks |
| `ExpertInvariant.ScoreIsGood` | src/opencritique_registry/expert_service.py:618-636 | accuracies and aggregate lie in the unit interval, the mean distance in zero to four, and the verdict is the set's rule |
| `ExpertInvariant.CalibrateKeepsGood` | src/opencritique_registry/expert_service.py:495-574 | a calibration judgment keeps the invariant, and the internal errors for missing sets or references never occur |
| `ExpertInvariant.TakeKeepsGood` | src/opencritique_registry/expert_service.py:799-836 | so does taking a claim task, marking expired qualifications on the way |
| `ExpertInvariant.StepKeepsGood` | src/opencritique_registry/expert_service.py:284-1100 | every step of the programme keeps the invariant, failed steps included |
| `ExpertInvariant.RunsAreGood` | src/opencritique_registry/expert_service.py:277-1100 | every run from empty tables satisfies the invariant |
| `ExpertTheorems.AttemptsCompleteOnTime` | src/opencritique_registry/expert_service.py:585-640 | after any run an attempt is completed exactly when all its tasks are, and then has a score in the unit interval |
| `ExpertTheorems.AggregateMeans` | src/opencritique_registry/expert_service.py:619-622 | the aggregate is one exactly for right validities at no distance, at least three quarters when all validities are right and at most a quarter when none is |
| `ExpertTheorems.FlawlessExactly` | src/opencritique_registry/expert_service.py:606-617 | the counts of an attempt are flawless exactly when every judgment is the reference decision |
| `ExpertTheorems.MostCommonWins` | src/opencritique_registry/expert_service.py:579-583 | the reference value occurs, and no value occurs more often |
| `ExpertTheorems.ReferenceIsConsensus` | src/opencritique_registry/expert_service.py:365-382 | for a case admitted to a calibration set the reference decision is the experts' consensus |
| `ExpertTheorems.LastTaskCompletes` | src/opencritique_registry/expert_service.py:553-591 | a submission completes its attempt exactly when it was the last one missing |
| `ExpertTheorems.CaseCountNeverFails` | src/opencritique_registry/expert_service.py:623-627 | a completed attempt covers every case of its set, so only score and false criticals decide whether it passes |
| `ExpertMeaning.TallyMeans` | src/opencritique_registry/expert_service.py:602-617 | the counts of an attempt are the numbers of its tasks, of right validities and severities and of criticals invented where the reference is not, and the sum of the levels off |
| `ExpertMeaning.CompletedScoresMean` | src/opencritique_registry/expert_service.py:585-640 | after any run the stored score of a completed attempt is that of its answers: shares of right validities and severities, mean levels off, invented criticals, three quarters of the validities plus a quarter of the nearness in severity, and the verdict of its set |
| `ExpertMeaning.InventedCriticalFails` | src/opencritique_registry/expert_service.py:614-627 | a set that allows no false critical never passes an attempt with an invented one, and an attempt without critical answers has none |
| `ClaimMeaning.CalibrateExactly` | src/opencritique_registry/expert_service.py:495-574 | after any run a judgment is recorded exactly when its task is an open one of its author's, it is fit, and it does not complete a passing attempt in a domain without an expiry rule |
| `ClaimMeaning.JudgmentMeans` | src/opencritique_registry/expert_service.py:553-670 | a recorded judgment is stored as given and credited; if it completes its attempt, its author becomes eligible exactly when it passed, and a pass without an active qualification grants one that lasts as the domain's rule says |
| `ExpertTheorems.RefusedExactly` | src/opencritique_registry/expert_service.py:642-665 | after any run a judgment past its input checks is refused exactly when it completes a passing attempt in a domain without an expiry rule |
| `ExpertTheorems.FlawlessAnswerRefused` | src/opencritique_registry/expert_service.py:642-665 | a run from empty tables after which an answer equal to the reference decision is refused for want of an expiry rule |
| `ExpertTheorems.QualificationsAreEarned` | src/opencritique_registry/expert_service.py:642-666 | after any run every qualification stems from a passed attempt of its holder in its domain, and nobody holds two active ones in a domain |
| `ExpertTheorems.NobodyHoldsTwo` | src/opencritique_registry/expert_service.py:812-823 | after any run no expert holds two claim tasks of one intake |
| `ClaimMeaning.CheckMeans` | src/opencritique_registry/service.py:500-524 | the qualification check holds exactly when no active calibration set covers the domain or the expert holds an active qualification that has not run out, and only marks rows of the expert that have |
| `ClaimMeaning.TakeExactly` | src/opencritique_registry/expert_service.py:799-836 | after any run an adjudicator is given the first pending task of an accepted intake in whose domain they may work and of which they hold no other task, and is refused exactly when there is none |
| `ExpertTheorems.TotalsBalance` | src/opencritique_registry/expert_service.py:1213-1222 | in every currency the total is what was approved less what was cancelled |
| `ExpertTheorems.CompensationTotals` | src/opencritique_registry/expert_service.py:1213-1222 | the loop yields the totals of exactly the currencies with approved or paid rows |
| `ExpertTheorems.NothingTwice` | src/opencritique_registry/expert_service.py:987-1055 | no task is paid for twice and no contribution credited twice |
| `ExpertConformance.CheckTaskState` | src/opencritique_registry/conformance.py:517-532 | the shared checks on a task report exactly its faults |
| `ExpertConformance.AuditExpertProgram` | src/opencritique_registry/conformance.py:342-514 | the audit reports exactly the faults, and none exactly for consistent tables |
| `ExpertConformance.CleanExactly` | src/opencritique_registry/conformance.py:342-514 | of any tables whatever, no fault exactly when every row is consistent, stated without the auditor |
| `ExpertConformance.AuditRun` | src/opencritique_registry/conformance.py:342-514 | with principals, cases and artifacts fixed, every run passes the audit |
| `ExpertService.ExpertProgramService.CreateCalibrationSet` | src/opencritique_registry/expert_service.py:343-404 | the loop over references refuses at the first unfit one |
| `ExpertService.ExpertProgramService.StartCalibration` | src/opencritique_registry/expert_service.py:406-451 | returns an open attempt or adds one with a task per reference |
| `ExpertService.ExpertProgramService.TallyAttempt` | src/opencritique_registry/expert_service.py:602-617 | the loop computes the specified counts |
| `ExpertService.ExpertProgramService.CompleteCalibrationIfReady` | src/opencritique_registry/expert_service.py:585-670 | scores the attempt, grants the qualification and moves the profile as specified |
| `ExpertService.ExpertProgramService.SubmitCalibration` | src/opencritique_registry/expert_service.py:495-574 | submits as specified or rolls everything back; a missing set or reference is never the error |
| `ExpertService.ExpertProgramService.Audit` | src/opencritique_registry/conformance.py:342-514 | the audit of the tables of the service as they stand finds nothing |
| `ExpertService.ExpertProgramService.AdjudicatorIsQualified` | src/opencritique_registry/service.py:500-524 | decides qualification and marks the expired ones |
| `ExpertService.ExpertProgramService.ClaimClaimTask` | src/opencritique_registry/expert_service.py:799-836 | takes the first eligible pending task, or undoes everything, expiries included |

## Left out

- Evaluate: the texts of withheld reasons are abbreviated, and the claim boundary, authorization object and result identifier of the result are not modelled; they are strings and copies.
- Evaluate: case files are a map from path to bundle, so reading and validating a file is not part of this model.
- ResolveAnchor: the sorted list of distinct anchor ids is its set.
- AnalyzeSensitivity: identifiers copied into the report; pairs are sets where the report sorts them.
- ScanPdfNames: the check for the PDF header and the tiny-font expression, which are single tests.
- SectionDepths: the paragraph labels of the second loop over Markdown blocks, whose stack is not reset, and the extraction of text from headings.
- DiscoverCompleted: the hash of the judgments and the detail text; unreadable sessions and reports are absent values.
- StratifyMatchDecisions: blinded payloads and the seed; a candidate id is represented by the joined text it is hashed from.
- PdfNamePresent: an empty name is excluded; on it the loop of the source never ends unless the data are empty or start with a delimiter, and all names it is called with are listed and not empty.
- BuildSessionManifest: session id, notes and hashes of the manifest.
- ApplyMetricAuthorization: building the scorecard around the metrics, its headline and disclosure; verification of the signed envelope decides only whether it is called.
- SubmitDecision: confidence, reasoning, blinded fields and content hash of a decision, and the rationale of a determination; no step reads them.
- SubmitDecision: the recompute factory is represented by the result it gives, and the metric withholding that building the recomputed scorecard performs is part of that result.
- IngestQueue: foreign keys to principals, audit events and timestamps.
- AuditNovelDeterminations: warnings about unregistered benchmark predecessors and the counters of checked rows; benchmark versions are a map, as their key is unique in the table.
- NovelService: the blinded payload of a task and the latest determination, which only read.
- AuditExpertProgram: counters of checked rows; identifiers inside submissions that no step can alter.
- ExpertProgramService: views, free-text fields, the check on the caller's role beyond adjudicators taking claim tasks, and statuses that no call sets (suspended, inactive, revoked, withdrawn).
- Metrics of the expert programme: agreement by domain is not modelled beyond the kappa it calls.
- Key policies, envelopes, signatures, canonical JSON and hashing: key policies are fixed lists of checks on single fields, and the rest is foreign code that the model represents by what it preserves (equal hashes mean equal contents).
- Routes, command lines, Studio, database plumbing, file staging, gate scripts, fixture generators, acquisition ledger, adapters and production manifests: input and output.
- Floating-point rounding of sums and quotients.
- FinalReachableExactly: that some continuation ends in a final determination is not that experts take it; fairness of the experts is not part of this model.
