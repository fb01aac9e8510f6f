/** Conservation of counts and bounds of metrics for evaluation. */
module EngineTheorems {
  import opened Wrappers
  import opened Models
  import opened Rounding
  import opened Matching
  import opened SortTheorems
  import opened MatchingTheorems
  import opened ReferencePolicy
  import opened Anchoring
  import opened Engine

  // ---- Counting ids that no match uses -----------------------------------------------

  /** No used id occurs twice in the list. */
  ghost predicate UsedOnce(ids: seq<string>, used: set<string>) {
    forall i, j :: 0 <= i < j < |ids| && ids[i] == ids[j] ==> ids[i] !in used
  }

  lemma {:induction false} OutsideWithout(ids: seq<string>, used: set<string>, h: string)
    requires h !in ids
    ensures Outside(ids, used) == Outside(ids, used - {h})
  {
    if ids != [] {
      OutsideWithout(ids[1..], used, h);
    }
  }

  /** Used and unused ids add up to the list exactly when no used id is repeated. */
  lemma {:induction false} OutsideCount(ids: seq<string>, used: set<string>)
    requires used <= ToSet(ids)
    ensures |Outside(ids, used)| + |used| <= |ids|
    ensures |Outside(ids, used)| + |used| == |ids| <==> UsedOnce(ids, used)
  {
    if ids == [] {
      assert used == {};
    } else {
      var h, rest := ids[0], ids[1..];
      assert ids == [h] + rest;
      if h !in used {
        OutsideCount(rest, used);
        UsedOnceTail(ids, used);
      } else if h in rest {
        OutsideCount(rest, used);
        var j :| 0 <= j < |rest| && rest[j] == h;
        assert ids[0] == ids[j + 1];
      } else {
        OutsideWithout(rest, used, h);
        OutsideCount(rest, used - {h});
        assert |used| == |used - {h}| + 1;
        UsedOnceTail(ids, used);
      }
    }
  }

  lemma UsedOnceTail(ids: seq<string>, used: set<string>)
    requires ids != [] && (ids[0] !in used || ids[0] !in ids[1..])
    ensures UsedOnce(ids, used) <==> UsedOnce(ids[1..], used - {ids[0]})
  {
  }

  lemma FreshHead(ms: seq<ConcernMatch>)
    requires ms != [] && forall i, j :: 0 <= i < j < |ms| ==> !Conflict(ms[i], ms[j])
    ensures ms[0].submittedLocalId !in MatchedSubmitted(ms[1..]) && ms[0].referenceConcernId !in MatchedReference(ms[1..])
  {
  }

  lemma HeadAdds(ms: seq<ConcernMatch>)
    requires ms != []
    ensures MatchedSubmitted(ms) == {ms[0].submittedLocalId} + MatchedSubmitted(ms[1..])
    ensures MatchedReference(ms) == {ms[0].referenceConcernId} + MatchedReference(ms[1..])
  {
    assert ms == [ms[0]] + ms[1..];
  }

  lemma {:induction false} DistinctProjection(ms: seq<ConcernMatch>)
    requires forall i, j :: 0 <= i < j < |ms| ==> !Conflict(ms[i], ms[j])
    ensures |MatchedSubmitted(ms)| == |ms| && |MatchedReference(ms)| == |ms|
  {
    if ms != [] {
      FreshHead(ms);
      HeadAdds(ms);
      DistinctProjection(ms[1..]);
    }
  }

  /** Matches use each id once, and only ids of the case. */
  lemma MatchedIds(ops: TextOps, concerns: seq<SubmittedConcern>, refs: seq<Concern>, resolutions: Resolutions,
      config: MatcherConfig)
    ensures var ms := Select(Candidates(ops, concerns, refs, resolutions, config));
      && |MatchedSubmitted(ms)| == |ms| && MatchedSubmitted(ms) <= ToSet(LocalIds(concerns))
      && |MatchedReference(ms)| == |ms| && MatchedReference(ms) <= ToSet(ConcernIds(refs))
  {
    var pairs := AllPairs(ops, concerns, refs, resolutions, config);
    var candidates := Candidates(ops, concerns, refs, resolutions, config);
    var ms := Select(candidates);
    GreedySound(SortDesc(candidates), {}, {});
    DistinctProjection(ms);
    SelectIsMaximal(candidates);
    PairsInRange(ops, concerns, refs, resolutions, config);
    forall m | m in ms ensures m.submittedLocalId in LocalIds(concerns) && m.referenceConcernId in ConcernIds(refs) {
      assert m in ToSet(candidates);
      AtLeastMember(pairs, config.threshold, m);
      var s :| s in concerns && m.submittedLocalId == s.localId;
      var i :| 0 <= i < |concerns| && concerns[i] == s;
      assert LocalIds(concerns)[i] == s.localId;
      var r :| r in refs && m.referenceConcernId == r.concernId;
      var j :| 0 <= j < |refs| && refs[j] == r;
      assert ConcernIds(refs)[j] == r.concernId;
    }
  }

  // ---- Tallies -----------------------------------------------------------------------

  /** Every ratio of the tally is a ratio of a part to its whole. */
  ghost predicate InRange(t: Tally) {
    && t.anchorResolved <= t.anchorTotal
    && t.matched <= t.submitted && t.matched <= t.eligible
    && 0.0 <= t.precisionNum <= t.precisionDen
    && 0.0 <= t.recallNum <= t.recallDen
    && 0.0 <= t.brierSum <= t.brierCount as real
  }

  /** A tally agrees with reported counts on the five counters they share. */
  ghost predicate SameCounts(t: Tally, c: Tally) {
    t.submitted == c.submitted && t.eligible == c.eligible && t.matched == c.matched
    && t.unmatched == c.unmatched && t.missed == c.missed
  }

  /** A contribution to ratios only. */
  ghost predicate RatioPart(t: Tally) {
    InRange(t) && SameCounts(t, ZERO) && t.completed == t.abstained == t.failed == 0
  }

  lemma {:induction false} AnchorPart(ops: TextOps, concerns: seq<SubmittedConcern>, refs: set<Concern>, index: AnchorIndex)
    ensures RatioPart(AnchorTally(ops, concerns, refs, index))
  {
    if concerns != [] {
      AnchorPart(ops, concerns[..|concerns| - 1], refs, index);
    }
  }

  lemma BrierTermInRange(confidence: real, outcome: real)
    requires 0.0 <= confidence <= 1.0 && (outcome == 0.0 || outcome == 1.0)
    ensures 0.0 <= Square(confidence - outcome) <= 1.0
  {
    if confidence >= outcome {
      UnitSquare(confidence - outcome);
    } else {
      UnitSquare(outcome - confidence);
      NegatedSquare(outcome - confidence);
      assert confidence - outcome == -(outcome - confidence);
    }
  }

  lemma UnitSquare(d: real)
    requires 0.0 <= d <= 1.0
    ensures 0.0 <= Square(d) <= 1.0
  {
    assert Weigh(d, d) == Square(d);
  }

  lemma NegatedSquare(d: real)
    ensures Square(-d) == Square(d)
  {
  }

  lemma ConcernPart(s: SubmittedConcern, used: set<string>)
    ensures RatioPart(ConcernTally(s, used))
  {
    if s.localId in used {
      BrierTermInRange(s.confidence, 1.0);
    } else {
      BrierTermInRange(s.confidence, 0.0);
    }
  }

  lemma {:induction false} PrecisionPart(concerns: seq<SubmittedConcern>, used: set<string>, completeness: ReferenceCompleteness)
    ensures RatioPart(PrecisionTally(concerns, used, completeness))
  {
    if concerns != [] {
      var s := concerns[|concerns| - 1];
      PrecisionPart(concerns[..|concerns| - 1], used, completeness);
      ConcernPart(s, used);
    }
  }

  lemma {:induction false} RecallPart(refs: seq<Concern>, used: set<string>)
    requires forall c :: c in refs ==> IsEligible(c)
    ensures RatioPart(RecallTally(refs, used))
  {
    if refs != [] {
      RecallPart(refs[..|refs| - 1], used);
    }
  }

  // ---- One case ----------------------------------------------------------------------

  /** The counts a case evaluation reports. */
  function Counts(e: CaseEvaluation): Tally {
    ZERO.(submitted := e.submittedCount, eligible := e.eligibleReferenceCount, matched := |e.matches|,
      unmatched := |e.unmatchedSubmittedIds|, missed := |e.missedReferenceIds|)
  }

  function ConcernsFor(submitted: map<CaseKey, CaseSubmission>, ref: CaseRef): seq<SubmittedConcern> {
    if ref.Key() in submitted then submitted[ref.Key()].concerns else []
  }

  function ReferencesFor(bundles: map<string, CaseBundle>, ref: CaseRef): seq<Concern> {
    if ref.path in bundles then Eligible(bundles[ref.path].concerns) else []
  }

  /** Submitted and eligible concerns are never fewer than the used and unused ones, and as many exactly under
      the two conditions. */
  predicate Balances(t: Tally, p: bool, q: bool) {
    && t.matched + t.unmatched <= t.submitted && (t.matched + t.unmatched == t.submitted <==> p)
    && t.matched + t.missed <= t.eligible && (t.matched + t.missed == t.eligible <==> q)
  }

  ghost predicate CaseCountsHold(score: CaseScore, concerns: seq<SubmittedConcern>, refs: seq<Concern>) {
    var t := score.tally;
    && InRange(t)
    && t.completed + t.abstained + t.failed == 1
    && SameCounts(t, Counts(score.evaluation))
    && Balances(t, UsedOnce(LocalIds(concerns), MatchedSubmitted(score.evaluation.matches)),
         UsedOnce(ConcernIds(refs), MatchedReference(score.evaluation.matches)))
  }

  lemma PartsAndCounts(anchors: Tally, precision: Tally, recall: Tally, counts: Tally)
    requires RatioPart(anchors) && RatioPart(precision) && RatioPart(recall)
    requires InRange(counts)
    ensures var t := anchors.Plus(precision).Plus(recall).Plus(counts);
      InRange(t) && SameCounts(t, counts)
      && t.completed == counts.completed && t.abstained == counts.abstained && t.failed == counts.failed
  {
  }

  lemma CompletedCounts(ops: TextOps, ref: CaseRef, completeness: ReferenceCompleteness, concerns: seq<SubmittedConcern>,
      refs: seq<Concern>, index: AnchorIndex, config: MatcherConfig)
    requires forall c :: c in refs ==> IsEligible(c)
    ensures CaseCountsHold(CompletedCase(ops, ref, completeness, concerns, refs, index, config), concerns, refs)
  {
    var resolutions := ResolutionsOf(ops, concerns, ToSet(refs), index);
    var ms := MatchesOf(ops, concerns, refs, index, config);
    MatchedIds(ops, concerns, refs, resolutions, config);
    OutsideCount(LocalIds(concerns), MatchedSubmitted(ms));
    OutsideCount(ConcernIds(refs), MatchedReference(ms));
    AnchorPart(ops, concerns, ToSet(refs), index);
    PrecisionPart(concerns, MatchedSubmitted(ms), completeness);
    RecallPart(refs, MatchedReference(ms));
    PartsAndCounts(AnchorTally(ops, concerns, ToSet(refs), index),
      PrecisionTally(concerns, MatchedSubmitted(ms), completeness),
      RecallTally(refs, MatchedReference(ms)),
      ZERO.(completed := 1, submitted := |concerns|, eligible := |refs|, matched := |ms|,
        unmatched := |Outside(LocalIds(concerns), MatchedSubmitted(ms))|,
        missed := |Outside(ConcernIds(refs), MatchedReference(ms))|));
  }

  lemma CaseCounts(ops: TextOps, ref: CaseRef, completeness: ReferenceCompleteness, bundles: map<string, CaseBundle>,
      submitted: map<CaseKey, CaseSubmission>, config: MatcherConfig)
    requires ScoreCase(ops, ref, completeness, bundles, submitted, config).Ok?
    ensures CaseCountsHold(ScoreCase(ops, ref, completeness, bundles, submitted, config).value,
      ConcernsFor(submitted, ref), ReferencesFor(bundles, ref))
  {
    var refs := ReferencesFor(bundles, ref);
    if ref.Key() !in submitted || submitted[ref.Key()].abstained {
      SkippedCounts(ref, refs, None);
    } else if submitted[ref.Key()].Failed() {
      SkippedCounts(ref, refs, submitted[ref.Key()].failure);
    } else {
      CompletedCounts(ops, ref, completeness, submitted[ref.Key()].concerns, refs, AnchorsById(bundles[ref.path].anchors), config);
    }
  }

  lemma SkippedCounts(ref: CaseRef, refs: seq<Concern>, failure: Option<string>)
    requires forall c :: c in refs ==> IsEligible(c)
    ensures CaseCountsHold(SkippedCase(ref, refs, failure), [], refs)
  {
    RecallPart(refs, {});
    SkippedTally(RecallTally(refs, {}), |refs|, failure.None?);
    assert MatchedSubmitted([]) == {} && MatchedReference([]) == {};
    assert UsedOnce(LocalIds([]), {}) && UsedOnce(ConcernIds(refs), {});
    assert |ConcernIds(refs)| == |refs|;
  }

  lemma SkippedTally(recall: Tally, n: nat, abstains: bool)
    requires RatioPart(recall)
    ensures var t := recall.Plus(ZERO.(abstained := if abstains then 1 else 0, failed := if abstains then 0 else 1, eligible := n, missed := n));
      && InRange(t) && t.completed + t.abstained + t.failed == 1 && Balances(t, true, true)
      && SameCounts(t, ZERO.(eligible := n, missed := n))
  {
  }

  // ---- All cases ---------------------------------------------------------------------

  ghost predicate EvaluationOf(ops: TextOps, ref: CaseRef, completeness: ReferenceCompleteness, bundles: map<string, CaseBundle>,
      submitted: map<CaseKey, CaseSubmission>, config: MatcherConfig, e: CaseEvaluation)
  {
    var scored := ScoreCase(ops, ref, completeness, bundles, submitted, config);
    scored.Ok? && e == scored.value.evaluation
  }

  ghost predicate EvaluatedBy(ops: TextOps, cases: seq<CaseRef>, completeness: ReferenceCompleteness,
      bundles: map<string, CaseBundle>,
      submitted: map<CaseKey, CaseSubmission>, config: MatcherConfig, es: seq<CaseEvaluation>)
  {
    |es| == |cases| && forall i :: 0 <= i < |cases| ==> EvaluationOf(ops, cases[i], completeness, bundles, submitted, config, es[i])
  }

  lemma EvaluatedSnoc(ops: TextOps, cases: seq<CaseRef>, completeness: ReferenceCompleteness, bundles: map<string, CaseBundle>,
      submitted: map<CaseKey, CaseSubmission>, config: MatcherConfig, es: seq<CaseEvaluation>, e: CaseEvaluation)
    requires cases != [] && EvaluatedBy(ops, cases[..|cases| - 1], completeness, bundles, submitted, config, es)
    requires EvaluationOf(ops, cases[|cases| - 1], completeness, bundles, submitted, config, e)
    ensures EvaluatedBy(ops, cases, completeness, bundles, submitted, config, es + [e])
  {
  }

  /** The evaluations of a successful run are those of its cases, one by one. */
  lemma {:induction false} EvaluationsByCase(ops: TextOps, cases: seq<CaseRef>, completeness: ReferenceCompleteness,
      bundles: map<string, CaseBundle>,
      submitted: map<CaseKey, CaseSubmission>, config: MatcherConfig)
    requires ScoreCases(ops, cases, completeness, bundles, submitted, config).Ok?
    ensures EvaluatedBy(ops, cases, completeness, bundles, submitted, config,
      ScoreCases(ops, cases, completeness, bundles, submitted, config).value.evaluations)
  {
    if cases != [] {
      var init, last := cases[..|cases| - 1], cases[|cases| - 1];
      EvaluationsByCase(ops, init, completeness, bundles, submitted, config);
      EvaluatedSnoc(ops, cases, completeness, bundles, submitted, config,
        ScoreCases(ops, init, completeness, bundles, submitted, config).value.evaluations,
        ScoreCase(ops, last, completeness, bundles, submitted, config).value.evaluation);
    }
  }

  function SumCounts(es: seq<CaseEvaluation>): Tally {
    if es == [] then ZERO else SumCounts(es[..|es| - 1]).Plus(Counts(es[|es| - 1]))
  }

  /** No matched local id is submitted twice in the case. */
  ghost predicate SubmittedOnce(submitted: map<CaseKey, CaseSubmission>, ref: CaseRef, e: CaseEvaluation) {
    UsedOnce(LocalIds(ConcernsFor(submitted, ref)), MatchedSubmitted(e.matches))
  }

  /** No matched reference id is listed twice in the case. */
  ghost predicate ReferencedOnce(bundles: map<string, CaseBundle>, ref: CaseRef, e: CaseEvaluation) {
    UsedOnce(ConcernIds(ReferencesFor(bundles, ref)), MatchedReference(e.matches))
  }

  /** In every case, no matched local id is submitted twice. */
  ghost predicate MatchedIdsUnique(cases: seq<CaseRef>, submitted: map<CaseKey, CaseSubmission>, es: seq<CaseEvaluation>)
    requires |es| == |cases|
  {
    forall i :: 0 <= i < |cases| ==> SubmittedOnce(submitted, cases[i], es[i])
  }

  /** In every case, no matched reference id is listed twice. */
  ghost predicate MatchedReferencesUnique(cases: seq<CaseRef>, bundles: map<string, CaseBundle>, es: seq<CaseEvaluation>)
    requires |es| == |cases|
  {
    forall i :: 0 <= i < |cases| ==> ReferencedOnce(bundles, cases[i], es[i])
  }

  ghost predicate TotalsHold(p: Progress, cases: seq<CaseRef>, bundles: map<string, CaseBundle>,
      submitted: map<CaseKey, CaseSubmission>) {
    var t := p.tally;
    && |p.evaluations| == |cases|
    && InRange(t)
    && t.completed + t.abstained + t.failed == |cases|
    && SameCounts(t, SumCounts(p.evaluations))
    && Balances(t, MatchedIdsUnique(cases, submitted, p.evaluations), MatchedReferencesUnique(cases, bundles, p.evaluations))
  }

  lemma BalancesAdd(t: Tally, u: Tally, p: bool, q: bool, p': bool, q': bool)
    requires Balances(t, p, q) && Balances(u, p', q')
    ensures Balances(t.Plus(u), p && p', q && q')
  {
  }

  lemma SubmittedSnoc(es: seq<CaseEvaluation>, e: CaseEvaluation, cases: seq<CaseRef>, submitted: map<CaseKey, CaseSubmission>)
    requires |cases| == |es| + 1
    ensures MatchedIdsUnique(cases, submitted, es + [e]) <==>
      (MatchedIdsUnique(cases[..|es|], submitted, es) && SubmittedOnce(submitted, cases[|es|], e))
  {
    var n, all := |es|, es + [e];
    assert all[n] == e && forall i :: 0 <= i < n ==> all[i] == es[i] && cases[i] == cases[..n][i];
  }

  lemma ReferencedSnoc(es: seq<CaseEvaluation>, e: CaseEvaluation, cases: seq<CaseRef>, bundles: map<string, CaseBundle>)
    requires |cases| == |es| + 1
    ensures MatchedReferencesUnique(cases, bundles, es + [e]) <==>
      (MatchedReferencesUnique(cases[..|es|], bundles, es) && ReferencedOnce(bundles, cases[|es|], e))
  {
    var n, all := |es|, es + [e];
    assert all[n] == e && forall i :: 0 <= i < n ==> all[i] == es[i] && cases[i] == cases[..n][i];
  }

  lemma OneMoreCase(p: Progress, score: CaseScore, cases: seq<CaseRef>, bundles: map<string, CaseBundle>,
      submitted: map<CaseKey, CaseSubmission>)
    requires cases != [] && TotalsHold(p, cases[..|cases| - 1], bundles, submitted)
    requires CaseCountsHold(score, ConcernsFor(submitted, cases[|cases| - 1]), ReferencesFor(bundles, cases[|cases| - 1]))
    ensures TotalsHold(Progress(p.evaluations + [score.evaluation], p.tally.Plus(score.tally)), cases, bundles, submitted)
  {
    var n := |cases| - 1;
    var es := p.evaluations;
    var e := score.evaluation;
    assert (es + [e])[..n] == es;
    SubmittedSnoc(es, e, cases, submitted);
    ReferencedSnoc(es, e, cases, bundles);
    BalancesAdd(p.tally, score.tally, MatchedIdsUnique(cases[..n], submitted, es), MatchedReferencesUnique(cases[..n], bundles, es),
      SubmittedOnce(submitted, cases[n], e), ReferencedOnce(bundles, cases[n], e));
    assert SumCounts(es + [e]) == SumCounts(es).Plus(Counts(e));
    OneMoreCount(p.tally, score.tally, SumCounts(es), Counts(e));
  }

  lemma OneMoreCount(t: Tally, u: Tally, c: Tally, d: Tally)
    requires InRange(t) && InRange(u) && SameCounts(t, c) && SameCounts(u, d)
    ensures InRange(t.Plus(u)) && SameCounts(t.Plus(u), c.Plus(d))
  {
  }

  lemma {:induction false} Totals(ops: TextOps, cases: seq<CaseRef>, completeness: ReferenceCompleteness,
      bundles: map<string, CaseBundle>,
      submitted: map<CaseKey, CaseSubmission>, config: MatcherConfig)
    requires ScoreCases(ops, cases, completeness, bundles, submitted, config).Ok?
    ensures TotalsHold(ScoreCases(ops, cases, completeness, bundles, submitted, config).value, cases, bundles, submitted)
  {
    if cases != [] {
      var init, last := cases[..|cases| - 1], cases[|cases| - 1];
      Totals(ops, init, completeness, bundles, submitted, config);
      CaseCounts(ops, last, completeness, bundles, submitted, config);
      OneMoreCase(ScoreCases(ops, init, completeness, bundles, submitted, config).value,
        ScoreCase(ops, last, completeness, bundles, submitted, config).value, cases, bundles, submitted);
    }
  }

  /** Counters are the sums over the cases, every case is in one class, and submitted and eligible
      concerns split into used and unused ones exactly when no matched id is repeated in its case. */
  lemma Conservation(ops: TextOps, benchmark: Benchmark, bundles: map<string, CaseBundle>, submission: Submission,
      config: MatcherConfig)
    requires Evaluation(ops, benchmark, bundles, submission, config).Ok?
    ensures var r := Evaluation(ops, benchmark, bundles, submission, config).value;
      var m, c := r.metrics, SumCounts(r.caseEvaluations);
      && |r.caseEvaluations| == |benchmark.cases|
      && m.casesTotal == m.casesCompleted + m.casesAbstained + m.casesFailed
      && m.submittedConcerns == c.submitted && m.eligibleReferenceConcerns == c.eligible
      && m.matchedConcerns == c.matched && m.unmatchedSubmitted == c.unmatched && m.missedReference == c.missed
      && (m.submittedConcerns == m.matchedConcerns + m.unmatchedSubmitted
          <==> MatchedIdsUnique(benchmark.cases, CasesByKey(submission.cases), r.caseEvaluations))
      && (m.eligibleReferenceConcerns == m.matchedConcerns + m.missedReference
          <==> MatchedReferencesUnique(benchmark.cases, bundles, r.caseEvaluations))
  {
    Totals(ops, benchmark.cases, benchmark.completeness, bundles, CasesByKey(submission.cases), config);
  }

  ghost predicate Distinct(ids: seq<string>) {
    forall i, j :: 0 <= i < j < |ids| ==> ids[i] != ids[j]
  }

  /** Distinct ids within every case, which a caller can check beforehand, are enough. */
  lemma ConservationForDistinctIds(ops: TextOps, benchmark: Benchmark, bundles: map<string, CaseBundle>,
      submission: Submission, config: MatcherConfig)
    requires Evaluation(ops, benchmark, bundles, submission, config).Ok?
    requires forall ref :: ref in benchmark.cases ==>
      Distinct(LocalIds(ConcernsFor(CasesByKey(submission.cases), ref))) && Distinct(ConcernIds(ReferencesFor(bundles, ref)))
    ensures var m := Evaluation(ops, benchmark, bundles, submission, config).value.metrics;
      m.submittedConcerns == m.matchedConcerns + m.unmatchedSubmitted
      && m.eligibleReferenceConcerns == m.matchedConcerns + m.missedReference
  {
    Conservation(ops, benchmark, bundles, submission, config);
    forall i | 0 <= i < |benchmark.cases| ensures
      Distinct(LocalIds(ConcernsFor(CasesByKey(submission.cases), benchmark.cases[i])))
      && Distinct(ConcernIds(ReferencesFor(bundles, benchmark.cases[i])))
    {
      assert benchmark.cases[i] in benchmark.cases;
    }
  }

  // ---- Bounds ------------------------------------------------------------------------

  ghost predicate InUnit(v: MetricValue) {
    v.value.Some? ==> 0.0 <= v.value.value <= 1.0
  }

  lemma MetricInUnit(numerator: real, denominator: real)
    requires 0.0 <= numerator <= denominator
    ensures InUnit(Metric(numerator, denominator))
  {
    if denominator > 0.0 {
      PartOverWhole(numerator, denominator);
      RoundIntoUnit(numerator / denominator);
    }
  }

  lemma PartOverWhole(part: real, whole: real)
    requires 0.0 <= part <= whole && 0.0 < whole
    ensures 0.0 <= part / whole <= 1.0
  {
    QuotientMonotone(0.0, part, whole);
    QuotientMonotone(part, whole, whole);
  }

  lemma TallyInUnit(t: Tally, completeness: ReferenceCompleteness, total: nat)
    requires InRange(t)
    ensures var m := Metrics(t, completeness, total);
      && InUnit(m.anchorResolutionRate) && InUnit(m.precision) && InUnit(m.recall)
      && InUnit(m.severityWeightedPrecision) && InUnit(m.severityWeightedRecall) && InUnit(m.referenceMatchBrierScore)
  {
    MetricInUnit(t.anchorResolved as real, t.anchorTotal as real);
    MetricInUnit(t.matched as real, t.submitted as real);
    MetricInUnit(t.matched as real, t.eligible as real);
    MetricInUnit(t.precisionNum, t.precisionDen);
    MetricInUnit(t.recallNum, t.recallDen);
    MetricInUnit(t.brierSum, t.brierCount as real);
  }

  /** Published rates lie in the unit interval; the precision family and the Brier score are withheld
      for an empty gold set or an incomplete reference set, and recall for an empty gold set. */
  lemma MetricBounds(ops: TextOps, benchmark: Benchmark, bundles: map<string, CaseBundle>, submission: Submission,
      config: MatcherConfig)
    requires Evaluation(ops, benchmark, bundles, submission, config).Ok?
    ensures var m := Evaluation(ops, benchmark, bundles, submission, config).value.metrics;
      && InUnit(m.anchorResolutionRate) && InUnit(m.precision) && InUnit(m.recall)
      && InUnit(m.severityWeightedPrecision) && InUnit(m.severityWeightedRecall) && InUnit(m.referenceMatchBrierScore)
      && (m.eligibleReferenceConcerns == 0 || !CompleteForPrecision(benchmark.completeness) ==>
            m.precision.value.None? && m.severityWeightedPrecision.value.None?
            && m.falseCriticalPerManuscript.value.None? && m.referenceMatchBrierScore.value.None?)
      && (m.eligibleReferenceConcerns == 0 <==> m.recall.value.None?)
  {
    var submitted := CasesByKey(submission.cases);
    Totals(ops, benchmark.cases, benchmark.completeness, bundles, submitted, config);
    TallyInUnit(ScoreCases(ops, benchmark.cases, benchmark.completeness, bundles, submitted, config).value.tally,
      benchmark.completeness, |benchmark.cases|);
  }
}
