/** Which ids of a case keep the evaluation counters balanced, and what a repeated id costs. */
module IdTheorems {
  import opened Wrappers
  import opened Models
  import opened Matching
  import opened SortTheorems
  import opened MatchingTheorems
  import opened ReferencePolicy
  import opened Anchoring
  import opened Engine
  import opened EngineTheorems

  ghost predicate AllEligible(refs: seq<Concern>) {
    forall r :: r in refs ==> IsEligible(r)
  }

  /** Every submitted concern of a completed case is counted as matched or as unmatched. */
  ghost predicate SubmittedBalance(t: Tally) {
    t.submitted == t.matched + t.unmatched
  }

  /** Every eligible reference of a completed case is counted as matched or as missed. */
  ghost predicate ReferencesBalance(t: Tally) {
    t.eligible == t.matched + t.missed
  }

  /** Every anchor the references cite is an anchor of the case. */
  ghost predicate CitesKnown(refs: seq<Concern>, index: AnchorIndex) {
    forall r, id :: r in refs && id in r.anchorIds ==> id in index
  }

  ghost predicate CaseBalances(ops: TextOps, ref: CaseRef, completeness: ReferenceCompleteness,
      concerns: seq<SubmittedConcern>, refs: seq<Concern>, index: AnchorIndex, config: MatcherConfig)
    requires AllEligible(refs)
  {
    SubmittedBalance(CompletedCase(ops, ref, completeness, concerns, refs, index, config).tally)
  }

  /** The case balances its submitted concerns against every reference list and configuration. */
  ghost predicate AlwaysBalancesSubmitted(ops: TextOps, ref: CaseRef, completeness: ReferenceCompleteness,
      concerns: seq<SubmittedConcern>, index: AnchorIndex)
  {
    forall refs, config: MatcherConfig :: AllEligible(refs) ==>
      CaseBalances(ops, ref, completeness, concerns, refs, index, config)
  }

  /** The same for the reference lists that cite anchors of the case only. */
  ghost predicate AlwaysBalancesCiting(ops: TextOps, ref: CaseRef, completeness: ReferenceCompleteness,
      concerns: seq<SubmittedConcern>, index: AnchorIndex)
  {
    forall refs, config: MatcherConfig :: AllEligible(refs) && CitesKnown(refs, index) ==>
      CaseBalances(ops, ref, completeness, concerns, refs, index, config)
  }

  /** The case balances its references against every submitted list and configuration. */
  ghost predicate AlwaysBalancesReferences(ops: TextOps, ref: CaseRef, completeness: ReferenceCompleteness,
      refs: seq<Concern>, index: AnchorIndex)
    requires AllEligible(refs)
  {
    forall concerns, config: MatcherConfig ::
      ReferencesBalance(CompletedCase(ops, ref, completeness, concerns, refs, index, config).tally)
  }

  // ---- Counting distinct ids ---------------------------------------------------------

  lemma {:induction false} IdsAtMost(ids: seq<string>)
    ensures |ToSet(ids)| <= |ids|
  {
    if ids != [] {
      IdsAtMost(ids[1..]);
      assert ids == [ids[0]] + ids[1..];
      ToSetCons(ids[0], ids[1..]);
    }
  }

  /** Fewer used ids than entries leave some entry's id out, or use up every one of them. */
  lemma SomeIdUnused(ids: seq<string>, used: set<string>, id: string)
    requires used <= ToSet(ids) && id in ids && id !in used
    ensures |used| < |ids|
  {
    IdsAtMost(ids);
    CardinalityMonotone(used, ToSet(ids) - {id});
  }

  lemma AllIdsUsed(ids: seq<string>, used: set<string>)
    requires Distinct(ids) && ToSet(ids) <= used
    ensures |used| >= |ids|
  {
    DistinctToSet(ids);
    CardinalityMonotone(ToSet(ids), used);
  }

  // ---- With threshold zero every pair is a candidate ----------------------------------

  lemma {:induction false} RowHas(ops: TextOps, s: SubmittedConcern, refs: seq<Concern>, resolved: set<string>,
      config: MatcherConfig, r: Concern)
    requires r in refs
    ensures ScoreCandidate(ops, s, r, resolved, config) in Row(ops, s, refs, resolved, config)
  {
    var init, last := refs[..|refs| - 1], refs[|refs| - 1];
    assert refs == init + [last];
    if r != last {
      RowHas(ops, s, init, resolved, config, r);
    }
  }

  lemma {:induction false} PairsHave(ops: TextOps, concerns: seq<SubmittedConcern>, refs: seq<Concern>,
      resolutions: Resolutions, config: MatcherConfig, s: SubmittedConcern, r: Concern)
    requires s in concerns && r in refs
    ensures ScoreCandidate(ops, s, r, ResolvedIds(resolutions, s.localId), config)
         in AllPairs(ops, concerns, refs, resolutions, config)
  {
    var init, last := concerns[..|concerns| - 1], concerns[|concerns| - 1];
    assert concerns == init + [last];
    if s == last {
      RowHas(ops, s, refs, ResolvedIds(resolutions, s.localId), config, r);
    } else {
      PairsHave(ops, init, refs, resolutions, config, s, r);
    }
  }

  /** Of a submitted concern and a reference, at least one is matched. */
  lemma NoPairLeftOver(ops: TextOps, concerns: seq<SubmittedConcern>, refs: seq<Concern>, resolutions: Resolutions,
      config: MatcherConfig, s: SubmittedConcern, r: Concern)
    requires config.threshold == 0.0 && s in concerns && r in refs
    ensures var ms := Select(Candidates(ops, concerns, refs, resolutions, config));
      s.localId in MatchedSubmitted(ms) || r.concernId in MatchedReference(ms)
  {
    var pairs := AllPairs(ops, concerns, refs, resolutions, config);
    var c := ScoreCandidate(ops, s, r, ResolvedIds(resolutions, s.localId), config);
    PairsHave(ops, concerns, refs, resolutions, config, s, r);
    AtLeastMember(pairs, config.threshold, c);
    var candidates := Candidates(ops, concerns, refs, resolutions, config);
    SelectIsMaximal(candidates);
    if c !in Select(candidates) {
      var g :| g in Select(candidates) && Conflict(g, c) && g.score >= c.score;
    }
  }

  /** With as many distinct references as concerns, every local id is matched. */
  lemma EveryLocalIdMatched(ops: TextOps, concerns: seq<SubmittedConcern>, refs: seq<Concern>, resolutions: Resolutions,
      config: MatcherConfig, s: SubmittedConcern)
    requires config.threshold == 0.0 && s in concerns
    requires Distinct(ConcernIds(refs)) && |refs| >= |concerns|
    ensures s.localId in MatchedSubmitted(Select(Candidates(ops, concerns, refs, resolutions, config)))
  {
    var ms := Select(Candidates(ops, concerns, refs, resolutions, config));
    MatchedIds(ops, concerns, refs, resolutions, config);
    if s.localId !in MatchedSubmitted(ms) {
      forall id | id in ToSet(ConcernIds(refs)) ensures id in MatchedReference(ms) {
        var j :| 0 <= j < |refs| && ConcernIds(refs)[j] == id;
        NoPairLeftOver(ops, concerns, refs, resolutions, config, s, refs[j]);
      }
      AllIdsUsed(ConcernIds(refs), MatchedReference(ms));
      LocalIdListed(concerns, s);
      SomeIdUnused(LocalIds(concerns), MatchedSubmitted(ms), s.localId);
    }
  }

  lemma LocalIdListed(concerns: seq<SubmittedConcern>, s: SubmittedConcern)
    requires s in concerns
    ensures s.localId in LocalIds(concerns)
  {
    var i :| 0 <= i < |concerns| && concerns[i] == s;
    assert LocalIds(concerns)[i] == s.localId;
  }

  /** With as many distinct concerns as references, every reference id is matched. */
  lemma EveryReferenceMatched(ops: TextOps, concerns: seq<SubmittedConcern>, refs: seq<Concern>, resolutions: Resolutions,
      config: MatcherConfig, r: Concern)
    requires config.threshold == 0.0 && r in refs
    requires Distinct(LocalIds(concerns)) && |concerns| >= |refs|
    ensures r.concernId in MatchedReference(Select(Candidates(ops, concerns, refs, resolutions, config)))
  {
    var ms := Select(Candidates(ops, concerns, refs, resolutions, config));
    MatchedIds(ops, concerns, refs, resolutions, config);
    if r.concernId !in MatchedReference(ms) {
      forall id | id in ToSet(LocalIds(concerns)) ensures id in MatchedSubmitted(ms) {
        var i :| 0 <= i < |concerns| && LocalIds(concerns)[i] == id;
        NoPairLeftOver(ops, concerns, refs, resolutions, config, concerns[i], r);
      }
      AllIdsUsed(LocalIds(concerns), MatchedSubmitted(ms));
      ConcernIdListed(refs, r);
      SomeIdUnused(ConcernIds(refs), MatchedReference(ms), r.concernId);
    }
  }

  lemma ConcernIdListed(refs: seq<Concern>, r: Concern)
    requires r in refs
    ensures r.concernId in ConcernIds(refs)
  {
    var i :| 0 <= i < |refs| && refs[i] == r;
    assert ConcernIds(refs)[i] == r.concernId;
  }

  // ---- As many distinct records as needed ---------------------------------------------

  const PREFIX := "occoncern_x"

  function Name(n: nat): (s: string)
    ensures |s| == |PREFIX| + n
  {
    PREFIX + seq(n, _ => 'x')
  }

  function SomeReferences(n: nat, anchorId: string): (refs: seq<Concern>)
    ensures |refs| == n && forall i :: 0 <= i < n ==> refs[i].concernId == Name(i) && IsEligible(refs[i])
  {
    seq(n, i requires 0 <= i =>
      Concern(Name(i), "a title", "the summary", "a type", [anchorId], Minor, Confirmed, None))
  }

  function SomeConcerns(n: nat): (concerns: seq<SubmittedConcern>)
    ensures |concerns| == n && forall i :: 0 <= i < n ==> concerns[i].localId == Name(i)
  {
    seq(n, i requires 0 <= i =>
      SubmittedConcern(Name(i), "a title", "the summary", "a type", Minor, 0.0, [SubmittedAnchor(Some(1), None, None)]))
  }

  lemma SomeReferencesDistinct(n: nat, anchorId: string)
    ensures var refs := SomeReferences(n, anchorId);
      Distinct(ConcernIds(refs)) && AllEligible(refs) && forall r :: r in refs ==> r.anchorIds == [anchorId]
  {
    var refs := SomeReferences(n, anchorId);
    forall i, j | 0 <= i < j < n ensures ConcernIds(refs)[i] != ConcernIds(refs)[j] {
      assert |Name(i)| != |Name(j)|;
    }
  }

  lemma SomeConcernsDistinct(n: nat)
    ensures Distinct(LocalIds(SomeConcerns(n)))
  {
    forall i, j | 0 <= i < j < n ensures LocalIds(SomeConcerns(n))[i] != LocalIds(SomeConcerns(n))[j] {
      assert |Name(i)| != |Name(j)|;
    }
  }

  const TAKE_ALL: MatcherConfig := MatcherSettings("take-all", 1.0, 0.0, 0.0, 0.0)

  // ---- Distinct ids are exactly what balance needs --------------------------------------

  lemma RepeatUnbalancesSubmitted(ops: TextOps, ref: CaseRef, completeness: ReferenceCompleteness,
      concerns: seq<SubmittedConcern>, index: AnchorIndex, anchorId: string)
    requires !Distinct(LocalIds(concerns))
    ensures var refs := SomeReferences(|concerns|, anchorId);
      AllEligible(refs) && !CaseBalances(ops, ref, completeness, concerns, refs, index, TAKE_ALL)
  {
    var refs := SomeReferences(|concerns|, anchorId);
    var i, j :| 0 <= i < j < |concerns| && LocalIds(concerns)[i] == LocalIds(concerns)[j];
    SomeReferencesDistinct(|concerns|, anchorId);
    EveryLocalIdMatched(ops, concerns, refs, ResolutionsOf(ops, concerns, ToSet(refs), index), TAKE_ALL, concerns[i]);
    CompletedCounts(ops, ref, completeness, concerns, refs, index, TAKE_ALL);
  }

  lemma RepeatUnbalancesReferences(ops: TextOps, ref: CaseRef, completeness: ReferenceCompleteness,
      refs: seq<Concern>, index: AnchorIndex)
    requires AllEligible(refs) && !Distinct(ConcernIds(refs))
    ensures var concerns := SomeConcerns(|refs|);
      !ReferencesBalance(CompletedCase(ops, ref, completeness, concerns, refs, index, TAKE_ALL).tally)
  {
    var concerns := SomeConcerns(|refs|);
    var i, j :| 0 <= i < j < |refs| && ConcernIds(refs)[i] == ConcernIds(refs)[j];
    SomeConcernsDistinct(|refs|);
    EveryReferenceMatched(ops, concerns, refs, ResolutionsOf(ops, concerns, ToSet(refs), index), TAKE_ALL, refs[i]);
    CompletedCounts(ops, ref, completeness, concerns, refs, index, TAKE_ALL);
  }

  /** Submitted concerns split into matched and unmatched ones, against whatever references and
      configuration, exactly when no local id of the case is repeated; references that cite anchors of
      the case are enough to tell. */
  lemma SubmittedBalanceExactly(ops: TextOps, ref: CaseRef, completeness: ReferenceCompleteness,
      concerns: seq<SubmittedConcern>, index: AnchorIndex)
    ensures AlwaysBalancesSubmitted(ops, ref, completeness, concerns, index) <==> Distinct(LocalIds(concerns))
    ensures index != map[] ==>
      (AlwaysBalancesCiting(ops, ref, completeness, concerns, index) <==> Distinct(LocalIds(concerns)))
  {
    if Distinct(LocalIds(concerns)) {
      DistinctBalances(ops, ref, completeness, concerns, index);
    } else {
      var anchorId := if index == map[] then "ocanchor_1" else var id :| id in index; id;
      RepeatBreaks(ops, ref, completeness, concerns, index, anchorId);
    }
  }

  lemma RepeatBreaks(ops: TextOps, ref: CaseRef, completeness: ReferenceCompleteness,
      concerns: seq<SubmittedConcern>, index: AnchorIndex, anchorId: string)
    requires !Distinct(LocalIds(concerns))
    ensures !AlwaysBalancesSubmitted(ops, ref, completeness, concerns, index)
    ensures anchorId in index ==> !AlwaysBalancesCiting(ops, ref, completeness, concerns, index)
  {
    SomeReferencesDistinct(|concerns|, anchorId);
    RepeatUnbalancesSubmitted(ops, ref, completeness, concerns, index, anchorId);
  }

  lemma DistinctBalances(ops: TextOps, ref: CaseRef, completeness: ReferenceCompleteness,
      concerns: seq<SubmittedConcern>, index: AnchorIndex)
    requires Distinct(LocalIds(concerns))
    ensures AlwaysBalancesSubmitted(ops, ref, completeness, concerns, index)
  {
    forall refs, config: MatcherConfig | AllEligible(refs)
      ensures CaseBalances(ops, ref, completeness, concerns, refs, index, config)
    {
      CompletedCounts(ops, ref, completeness, concerns, refs, index, config);
    }
  }

  /** Eligible references split into matched and missed ones, against whatever submission and
      configuration, exactly when no concern id of the case is repeated. */
  lemma ReferenceBalanceExactly(ops: TextOps, ref: CaseRef, completeness: ReferenceCompleteness,
      refs: seq<Concern>, index: AnchorIndex)
    requires AllEligible(refs)
    ensures AlwaysBalancesReferences(ops, ref, completeness, refs, index) <==> Distinct(ConcernIds(refs))
  {
    if Distinct(ConcernIds(refs)) {
      forall concerns, config: MatcherConfig
        ensures ReferencesBalance(CompletedCase(ops, ref, completeness, concerns, refs, index, config).tally)
      {
        CompletedCounts(ops, ref, completeness, concerns, refs, index, config);
      }
    } else {
      RepeatUnbalancesReferences(ops, ref, completeness, refs, index);
    }
  }

  // ---- Two evaluations with a repeated id ----------------------------------------------

  function BenchmarkOf(ref: CaseRef, completeness: ReferenceCompleteness): Benchmark {
    Benchmark("benchmark", "1", completeness, [ref])
  }

  function SubmissionOf(c: CaseSubmission): Submission {
    Submission("submission", "benchmark", "1", [c])
  }

  function Answer(ref: CaseRef, concerns: seq<SubmittedConcern>): CaseSubmission {
    CaseSubmission(ref.caseId, ref.caseVersion, concerns, false, None)
  }

  /** The evaluation of a benchmark of one case against a submission that answers it. */
  ghost function EvaluationOfOne(ops: TextOps, ref: CaseRef, completeness: ReferenceCompleteness,
      concerns: seq<SubmittedConcern>, refs: seq<Concern>, anchors: seq<Anchor>, config: MatcherConfig):
    Result<EvaluationResult, EvaluationError>
  {
    Evaluation(ops, BenchmarkOf(ref, completeness), map[ref.path := CaseBundle(ref.caseId, ref.caseVersion, refs, anchors)],
      SubmissionOf(Answer(ref, concerns)), config)
  }

  lemma KeyedCase(c: CaseSubmission)
    ensures CasesByKey([c]) == map[c.Key() := c]
  {
    assert [c][..0] == [];
  }

  lemma ScoredAlone(ops: TextOps, ref: CaseRef, completeness: ReferenceCompleteness, bundles: map<string, CaseBundle>,
      submitted: map<CaseKey, CaseSubmission>, config: MatcherConfig)
    requires ScoreCase(ops, ref, completeness, bundles, submitted, config).Ok?
    ensures var scored := ScoreCases(ops, [ref], completeness, bundles, submitted, config);
      && scored.Ok?
      && SameCounts(scored.value.tally, ScoreCase(ops, ref, completeness, bundles, submitted, config).value.tally)
  {
    assert [ref][..0] == [];
    assert ScoreCases(ops, [], completeness, bundles, submitted, config) == Ok(Progress([], ZERO));
  }

  lemma ScoredAsCompleted(ops: TextOps, ref: CaseRef, completeness: ReferenceCompleteness, c: CaseSubmission,
      bundle: CaseBundle, config: MatcherConfig)
    requires c.Key() == ref.Key() == (bundle.caseId, bundle.caseVersion) && !c.abstained && !c.Failed()
    ensures ScoreCase(ops, ref, completeness, map[ref.path := bundle], map[c.Key() := c], config)
         == Ok(CompletedCase(ops, ref, completeness, c.concerns, Eligible(bundle.concerns), AnchorsById(bundle.anchors), config))
  {
  }

  ghost predicate PublishedCounts(r: Result<EvaluationResult, EvaluationError>, t: Tally) {
    && r.Ok?
    && r.value.metrics.submittedConcerns == t.submitted && r.value.metrics.eligibleReferenceConcerns == t.eligible
    && r.value.metrics.matchedConcerns == t.matched && r.value.metrics.unmatchedSubmitted == t.unmatched
    && r.value.metrics.missedReference == t.missed
  }

  lemma PublishedAsScored(ops: TextOps, benchmark: Benchmark, bundles: map<string, CaseBundle>, submission: Submission,
      config: MatcherConfig, t: Tally)
    requires submission.benchmarkId == benchmark.benchmarkId && submission.benchmarkVersion == benchmark.version
    requires CasesByKey(submission.cases).Keys <= BenchmarkKeys(benchmark.cases)
    requires var scored := ScoreCases(ops, benchmark.cases, benchmark.completeness, bundles, CasesByKey(submission.cases), config);
      scored.Ok? && SameCounts(scored.value.tally, t)
    ensures PublishedCounts(Evaluation(ops, benchmark, bundles, submission, config), t)
  {
  }

  lemma OneCaseKeys(ref: CaseRef, c: CaseSubmission)
    requires c.Key() == ref.Key()
    ensures CasesByKey([c]).Keys <= BenchmarkKeys([ref])
  {
    KeyedCase(c);
    assert ref in [ref];
  }

  lemma OneCaseCounts(ops: TextOps, ref: CaseRef, completeness: ReferenceCompleteness, concerns: seq<SubmittedConcern>,
      refs: seq<Concern>, anchors: seq<Anchor>, config: MatcherConfig)
    ensures PublishedCounts(EvaluationOfOne(ops, ref, completeness, concerns, refs, anchors, config),
      CompletedCase(ops, ref, completeness, concerns, Eligible(refs), AnchorsById(anchors), config).tally)
  {
    var c := Answer(ref, concerns);
    var bundle := CaseBundle(ref.caseId, ref.caseVersion, refs, anchors);
    var bundles := map[ref.path := bundle];
    KeyedCase(c);
    OneCaseKeys(ref, c);
    ScoredAsCompleted(ops, ref, completeness, c, bundle, config);
    ScoredAlone(ops, ref, completeness, bundles, map[c.Key() := c], config);
    var t := CompletedCase(ops, ref, completeness, concerns, Eligible(refs), AnchorsById(anchors), config).tally;
    PublishedAsScored(ops, BenchmarkOf(ref, completeness), bundles, SubmissionOf(c), config, t);
  }

  lemma SomethingIsMatched(ops: TextOps, concerns: seq<SubmittedConcern>, refs: seq<Concern>, resolutions: Resolutions,
      config: MatcherConfig)
    requires config.threshold == 0.0 && concerns != [] && refs != []
    ensures |Select(Candidates(ops, concerns, refs, resolutions, config))| >= 1
  {
    NoPairLeftOver(ops, concerns, refs, resolutions, config, concerns[0], refs[0]);
  }

  lemma AtMostOneId(ids: set<string>, id: string)
    requires ids <= {id}
    ensures |ids| <= 1 && (|ids| == 1 ==> ids == {id})
  {
    CardinalityMonotone(ids, {id});
    if ids != {id} {
      assert ids == {};
    }
  }

  lemma OneMatch(ops: TextOps, concerns: seq<SubmittedConcern>, refs: seq<Concern>, index: AnchorIndex, config: MatcherConfig)
    requires config.threshold == 0.0 && concerns != [] && refs != []
    requires (exists id :: ToSet(LocalIds(concerns)) == {id}) || (exists id :: ToSet(ConcernIds(refs)) == {id})
    ensures |MatchesOf(ops, concerns, refs, index, config)| == 1
  {
    var resolutions := ResolutionsOf(ops, concerns, ToSet(refs), index);
    var ms := MatchesOf(ops, concerns, refs, index, config);
    SomethingIsMatched(ops, concerns, refs, resolutions, config);
    MatchedIds(ops, concerns, refs, resolutions, config);
    if id :| ToSet(LocalIds(concerns)) == {id} {
      AtMostOneId(MatchedSubmitted(ms), id);
    } else {
      var id :| ToSet(ConcernIds(refs)) == {id};
      AtMostOneId(MatchedReference(ms), id);
    }
  }

  lemma {:induction false} NoneOutside(ids: seq<string>, used: set<string>)
    requires ToSet(ids) <= used
    ensures Outside(ids, used) == []
  {
    if ids != [] {
      assert ids[0] in ToSet(ids);
      NoneOutside(ids[1..], used);
    }
  }

  lemma OneLocalIdCounts(ops: TextOps, ref: CaseRef, completeness: ReferenceCompleteness,
      concerns: seq<SubmittedConcern>, refs: seq<Concern>, index: AnchorIndex, config: MatcherConfig, id: string)
    requires AllEligible(refs) && config.threshold == 0.0 && concerns != [] && refs != []
    requires ToSet(LocalIds(concerns)) == {id}
    ensures var t := CompletedCase(ops, ref, completeness, concerns, refs, index, config).tally;
      t.submitted == |concerns| && t.matched == 1 && t.unmatched == 0
  {
    var ms := MatchesOf(ops, concerns, refs, index, config);
    OneMatch(ops, concerns, refs, index, config);
    MatchedIds(ops, concerns, refs, ResolutionsOf(ops, concerns, ToSet(refs), index), config);
    AtMostOneId(MatchedSubmitted(ms), id);
    NoneOutside(LocalIds(concerns), MatchedSubmitted(ms));
    CompletedCounts(ops, ref, completeness, concerns, refs, index, config);
  }

  lemma OneReferenceIdCounts(ops: TextOps, ref: CaseRef, completeness: ReferenceCompleteness,
      concerns: seq<SubmittedConcern>, refs: seq<Concern>, index: AnchorIndex, config: MatcherConfig, id: string)
    requires AllEligible(refs) && config.threshold == 0.0 && concerns != [] && refs != []
    requires ToSet(ConcernIds(refs)) == {id}
    ensures var t := CompletedCase(ops, ref, completeness, concerns, refs, index, config).tally;
      t.eligible == |refs| && t.matched == 1 && t.missed == 0
  {
    var ms := MatchesOf(ops, concerns, refs, index, config);
    OneMatch(ops, concerns, refs, index, config);
    MatchedIds(ops, concerns, refs, ResolutionsOf(ops, concerns, ToSet(refs), index), config);
    AtMostOneId(MatchedReference(ms), id);
    NoneOutside(ConcernIds(refs), MatchedReference(ms));
    CompletedCounts(ops, ref, completeness, concerns, refs, index, config);
  }

  /** Local ids are not validated to be distinct, and a repeated one loses a count in the published
      metrics: two concerns under one id against one reference are one match and no unmatched concern. */
  lemma RepeatedLocalIdLosesCount(ops: TextOps, ref: CaseRef, completeness: ReferenceCompleteness,
      s: SubmittedConcern, s': SubmittedConcern, r: Concern, anchors: seq<Anchor>, config: MatcherConfig)
    requires s.localId == s'.localId && IsEligible(r) && config.threshold == 0.0
    ensures var result := EvaluationOfOne(ops, ref, completeness, [s, s'], [r], anchors, config);
      && result.Ok?
      && result.value.metrics.submittedConcerns == 2
      && result.value.metrics.matchedConcerns == 1 && result.value.metrics.unmatchedSubmitted == 0
  {
    EligibleCons(r, []);
    assert [r] + [] == [r];
    assert LocalIds([s, s']) == [s.localId, s.localId];
    assert ToSet(LocalIds([s, s'])) == {s.localId};
    OneCaseCounts(ops, ref, completeness, [s, s'], [r], anchors, config);
    OneLocalIdCounts(ops, ref, completeness, [s, s'], [r], AnchorsById(anchors), config, s.localId);
  }

  /** The same for reference ids: two eligible references under one id against one concern are one
      match and no missed reference. */
  lemma RepeatedReferenceIdLosesCount(ops: TextOps, ref: CaseRef, completeness: ReferenceCompleteness,
      s: SubmittedConcern, r: Concern, r': Concern, anchors: seq<Anchor>, config: MatcherConfig)
    requires r.concernId == r'.concernId && IsEligible(r) && IsEligible(r') && config.threshold == 0.0
    ensures var result := EvaluationOfOne(ops, ref, completeness, [s], [r, r'], anchors, config);
      && result.Ok?
      && result.value.metrics.eligibleReferenceConcerns == 2
      && result.value.metrics.matchedConcerns == 1 && result.value.metrics.missedReference == 0
  {
    BothEligible(r, r');
    assert ConcernIds([r, r']) == [r.concernId, r.concernId];
    assert ToSet(ConcernIds([r, r'])) == {r.concernId};
    OneCaseCounts(ops, ref, completeness, [s], [r, r'], anchors, config);
    OneReferenceIdCounts(ops, ref, completeness, [s], [r, r'], AnchorsById(anchors), config, r.concernId);
  }
}
