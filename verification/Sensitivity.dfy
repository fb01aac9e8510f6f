/** Sensitivity of the matched pairs to the matcher configuration. */
module Sensitivity {
  import opened Wrappers
  import opened Models
  import opened Rounding
  import opened Matching
  import opened MatchingTheorems
  import opened Anchoring
  import opened Engine
  import opened EngineTheorems
  import opened MetricMeaning

  type MatchedPair = (string, string, string, string)

  function Pairs(es: seq<CaseEvaluation>): set<MatchedPair> {
    set e, m | e in es && m in e.matches :: (e.caseId, e.caseVersion, m.submittedLocalId, m.referenceConcernId)
  }

  datatype SensitivityRun = SensitivityRun(config: MatcherConfig, pairs: set<MatchedPair>, precision: Option<real>, recall: Option<real>)

  datatype SensitivityReport = SensitivityReport(
    runs: seq<SensitivityRun>,
    stablePairs: set<MatchedPair>,
    unstablePairs: set<MatchedPair>,
    baselineRetentionRate: real,
    matchCountMin: nat,
    matchCountMax: nat,
    precisionMin: Option<real>,
    precisionMax: Option<real>,
    recallMin: Option<real>,
    recallMax: Option<real>)

  datatype SensitivityError = TooFewConfigurations | RepeatedConfigId | EvaluationFailed(error: EvaluationError)

  const DEFAULT_GRID: seq<MatcherConfig> := [
    MatcherSettings("baseline", 0.50, 0.30, 0.20, 0.55),
    MatcherSettings("threshold-low", 0.50, 0.30, 0.20, 0.45),
    MatcherSettings("threshold-high", 0.50, 0.30, 0.20, 0.65),
    MatcherSettings("anchor-heavy", 0.65, 0.20, 0.15, 0.55),
    MatcherSettings("type-heavy", 0.35, 0.45, 0.20, 0.55),
    MatcherSettings("lexical-heavy", 0.35, 0.20, 0.45, 0.55)]

  /** The run of one configuration whose evaluation succeeds. */
  function RunOf(ops: TextOps, benchmark: Benchmark, bundles: map<string, CaseBundle>, submission: Submission,
      config: MatcherConfig): SensitivityRun
    requires Evaluation(ops, benchmark, bundles, submission, config).Ok?
  {
    var result := Evaluation(ops, benchmark, bundles, submission, config).value;
    SensitivityRun(config, Pairs(result.caseEvaluations), result.metrics.precision.value, result.metrics.recall.value)
  }

  ghost predicate InAll(runs: seq<SensitivityRun>, p: MatchedPair) {
    forall i :: 0 <= i < |runs| ==> p in runs[i].pairs
  }

  ghost predicate InSome(runs: seq<SensitivityRun>, p: MatchedPair) {
    exists i :: 0 <= i < |runs| && p in runs[i].pairs
  }

  function Precisions(runs: seq<SensitivityRun>): seq<Option<real>> {
    seq(|runs|, i requires 0 <= i < |runs| => runs[i].precision)
  }

  function Recalls(runs: seq<SensitivityRun>): seq<Option<real>> {
    seq(|runs|, i requires 0 <= i < |runs| => runs[i].recall)
  }

  /** The least and the greatest of the published values, where any value is published. */
  ghost predicate Extremes(values: seq<Option<real>>, low: Option<real>, high: Option<real>) {
    && (low.Some? <==> exists v :: v in values && v.Some?)
    && (high.Some? <==> low.Some?)
    && (low.Some? ==> low in values && high in values)
    && (forall v :: v in values && v.Some? ==> low.Some? && high.Some? && low.value <= v.value <= high.value)
  }

  /** What the report says about its runs. */
  ghost predicate Summarizes(r: SensitivityReport) {
    && |r.runs| >= 2
    && (forall p :: p in r.stablePairs <==> InAll(r.runs, p))
    && (forall p :: p in r.unstablePairs <==> InSome(r.runs, p) && !InAll(r.runs, p))
    && r.baselineRetentionRate == (if r.runs[0].pairs == {} then 1.0
         else Round6(|r.stablePairs| as real / |r.runs[0].pairs| as real))
    && 0.0 <= r.baselineRetentionRate <= 1.0
    && (forall i :: 0 <= i < |r.runs| ==> r.matchCountMin <= |r.runs[i].pairs| <= r.matchCountMax)
    && (exists i :: 0 <= i < |r.runs| && |r.runs[i].pairs| == r.matchCountMin)
    && (exists i :: 0 <= i < |r.runs| && |r.runs[i].pairs| == r.matchCountMax)
    && Extremes(Precisions(r.runs), r.precisionMin, r.precisionMax)
    && Extremes(Recalls(r.runs), r.recallMin, r.recallMax)
  }

  function Retention(stable: set<MatchedPair>, baseline: set<MatchedPair>): (rate: real)
    ensures 0.0 <= rate <= 1.0
  {
    if baseline == {} then RoundIntoUnit(1.0); Round6(1.0)
    else
      CardinalityMonotone(stable * baseline, baseline);
      RoundIntoUnit(Ratio(|stable * baseline|, |baseline|));
      Round6(Ratio(|stable * baseline|, |baseline|))
  }

  function ConfigIds(configs: seq<MatcherConfig>): set<string> {
    set c | c in configs :: c.configId
  }

  method CombinePairs(runs: seq<SensitivityRun>) returns (stable: set<MatchedPair>, union: set<MatchedPair>)
    requires |runs| >= 1
    ensures forall p :: p in stable <==> InAll(runs, p)
    ensures forall p :: p in union <==> InSome(runs, p)
  {
    stable, union := runs[0].pairs, runs[0].pairs;
    for i := 1 to |runs|
      invariant forall p :: p in stable <==> InAll(runs[..i], p)
      invariant forall p :: p in union <==> InSome(runs[..i], p)
    {
      assert runs[..i + 1] == runs[..i] + [runs[i]];
      stable := stable * runs[i].pairs;
      union := union + runs[i].pairs;
    }
    assert runs[..|runs|] == runs;
  }

  method MatchCounts(runs: seq<SensitivityRun>) returns (low: nat, high: nat)
    requires |runs| >= 1
    ensures forall i :: 0 <= i < |runs| ==> low <= |runs[i].pairs| <= high
    ensures exists i :: 0 <= i < |runs| && |runs[i].pairs| == low
    ensures exists i :: 0 <= i < |runs| && |runs[i].pairs| == high
  {
    low, high := |runs[0].pairs|, |runs[0].pairs|;
    for i := 1 to |runs|
      invariant forall k :: 0 <= k < i ==> low <= |runs[k].pairs| <= high
      invariant exists k :: 0 <= k < i && |runs[k].pairs| == low
      invariant exists k :: 0 <= k < i && |runs[k].pairs| == high
    {
      if |runs[i].pairs| < low {
        low := |runs[i].pairs|;
      }
      if |runs[i].pairs| > high {
        high := |runs[i].pairs|;
      }
    }
  }

  lemma ExtremesSnoc(values: seq<Option<real>>, v: Option<real>, low: Option<real>, high: Option<real>)
    requires Extremes(values, low, high)
    ensures v.None? ==> Extremes(values + [v], low, high)
    ensures v.Some? ==> Extremes(values + [v],
      if low.None? || v.value < low.value then v else low, if high.None? || v.value > high.value then v else high)
  {
    var all := values + [v];
    assert v in all && (forall w :: w in all <==> w in values || w == v);
  }

  method MinAndMax(values: seq<Option<real>>) returns (low: Option<real>, high: Option<real>)
    ensures Extremes(values, low, high)
  {
    low, high := None, None;
    for i := 0 to |values|
      invariant Extremes(values[..i], low, high)
    {
      var v := values[i];
      ExtremesSnoc(values[..i], v, low, high);
      assert values[..i + 1] == values[..i] + [v];
      if v.None? {
        continue;
      }
      if low.None? || v.value < low.value {
        low := v;
      }
      if high.None? || v.value > high.value {
        high := v;
      }
    }
    assert values[..|values|] == values;
  }

  method Summarize(runs: seq<SensitivityRun>) returns (r: SensitivityReport)
    requires |runs| >= 2
    ensures r.runs == runs && Summarizes(r)
  {
    var stable, union := CombinePairs(runs);
    var low, high := MatchCounts(runs);
    assert stable * runs[0].pairs == stable;
    RoundOne();
    var precisionMin, precisionMax := MinAndMax(Precisions(runs));
    var recallMin, recallMax := MinAndMax(Recalls(runs));
    r := SensitivityReport(runs, stable, union - stable, Retention(stable, runs[0].pairs), low, high,
      precisionMin, precisionMax, recallMin, recallMax);
  }

  lemma RoundOne()
    ensures Round6(1.0) == 1.0
  {
    assert 1.0 * SCALE == 1000000.0;
    assert RoundHalfEven(1000000.0) == 1000000;
  }

  ghost predicate IsRunOf(ops: TextOps, benchmark: Benchmark, bundles: map<string, CaseBundle>, submission: Submission,
      config: MatcherConfig, run: SensitivityRun) {
    Evaluation(ops, benchmark, bundles, submission, config).Ok? && run == RunOf(ops, benchmark, bundles, submission, config)
  }

  /** The evaluation of configuration i fails, and those of the configurations before it do not. */
  ghost predicate FirstFailure(ops: TextOps, benchmark: Benchmark, bundles: map<string, CaseBundle>, submission: Submission,
      configs: seq<MatcherConfig>, i: int, error: EvaluationError) {
    && 0 <= i < |configs| && Evaluation(ops, benchmark, bundles, submission, configs[i]) == Err(error)
    && forall k :: 0 <= k < i ==> Evaluation(ops, benchmark, bundles, submission, configs[k]).Ok?
  }

  ghost predicate AreRunsOf(ops: TextOps, benchmark: Benchmark, bundles: map<string, CaseBundle>, submission: Submission,
      configs: seq<MatcherConfig>, runs: seq<SensitivityRun>) {
    && |runs| == |configs|
    && forall i :: 0 <= i < |configs| ==> IsRunOf(ops, benchmark, bundles, submission, configs[i], runs[i])
  }

  /** One run per configuration, up to the first evaluation that fails. */
  method RunGrid(ops: TextOps, benchmark: Benchmark, bundles: map<string, CaseBundle>,
      submission: Submission, configs: seq<MatcherConfig>)
    returns (r: Result<seq<SensitivityRun>, EvaluationError>)
    ensures r.Ok? ==> AreRunsOf(ops, benchmark, bundles, submission, configs, r.value)
    ensures r.Err? ==> exists i :: FirstFailure(ops, benchmark, bundles, submission, configs, i, r.error)
  {
    var runs: seq<SensitivityRun> := [];
    for i := 0 to |configs|
      invariant |runs| == i
      invariant forall k :: 0 <= k < i ==> IsRunOf(ops, benchmark, bundles, submission, configs[k], runs[k])
    {
      var result := Evaluate(ops, benchmark, bundles, submission, configs[i]);
      if result.Err? {
        assert FirstFailure(ops, benchmark, bundles, submission, configs, i, result.error);
        return Err(result.error);
      }
      var run := SensitivityRun(configs[i], Pairs(result.value.caseEvaluations),
        result.value.metrics.precision.value, result.value.metrics.recall.value);
      assert IsRunOf(ops, benchmark, bundles, submission, configs[i], run);
      runs := runs + [run];
    }
    r := Ok(runs);
  }

  method AnalyzeSensitivity(ops: TextOps, benchmark: Benchmark, bundles: map<string, CaseBundle>,
      submission: Submission, requested: seq<MatcherConfig>)
    returns (r: Result<SensitivityReport, SensitivityError>)
    ensures var configs := if requested == [] then DEFAULT_GRID else requested;
      && (r == Err(TooFewConfigurations) <==> |configs| < 2)
      && (r == Err(RepeatedConfigId) <==> |configs| >= 2 && |ConfigIds(configs)| != |configs|)
      && (r.Ok? ==> Summarizes(r.value) && AreRunsOf(ops, benchmark, bundles, submission, configs, r.value.runs))
      && (r.Err? && r.error.EvaluationFailed? ==>
            exists i :: FirstFailure(ops, benchmark, bundles, submission, configs, i, r.error.error))
  {
    var configs := if requested == [] then DEFAULT_GRID else requested;
    if |configs| < 2 {
      return Err(TooFewConfigurations);
    }
    if |ConfigIds(configs)| != |configs| {
      return Err(RepeatedConfigId);
    }
    var runs := RunGrid(ops, benchmark, bundles, submission, configs);
    if runs.Err? {
      return Err(EvaluationFailed(runs.error));
    }
    var report := Summarize(runs.value);
    r := Ok(report);
  }

  /** The precision of a run is its matches over the submitted concerns and its recall its matches over the
      eligible references, up to rounding. */
  ghost predicate RatesOfRun(run: SensitivityRun, m: EvaluationMetrics) {
    && (run.precision.Some? ==>
          m.submittedConcerns > 0 && Near(run.precision.value, m.matchedConcerns as real / m.submittedConcerns as real))
    && (run.recall.Some? ==>
          m.eligibleReferenceConcerns > 0 && Near(run.recall.value, m.matchedConcerns as real / m.eligibleReferenceConcerns as real))
    && (run.recall.None? <==> m.eligibleReferenceConcerns == 0)
  }

  lemma RunsHaveRates(ops: TextOps, benchmark: Benchmark, bundles: map<string, CaseBundle>, submission: Submission,
      configs: seq<MatcherConfig>, runs: seq<SensitivityRun>, i: nat)
    requires AreRunsOf(ops, benchmark, bundles, submission, configs, runs) && i < |configs|
    ensures Evaluation(ops, benchmark, bundles, submission, configs[i]).Ok?
    ensures RatesOfRun(runs[i], Evaluation(ops, benchmark, bundles, submission, configs[i]).value.metrics)
  {
    assert IsRunOf(ops, benchmark, bundles, submission, configs[i], runs[i]);
    PublishedRates(ops, benchmark, bundles, submission, configs[i]);
    MetricBounds(ops, benchmark, bundles, submission, configs[i]);
  }

  lemma SixDigitsStay(n: int)
    ensures Round6(n as real / SCALE) == n as real / SCALE
  {
    var x := n as real / SCALE;
    assert x * SCALE == n as real;
    assert (n as real).Floor == n;
  }

  /** Of the default grid the baseline, the high threshold and the anchor-heavy weights accept only pairs
      that share an anchor; the other three accept pairs without. */
  lemma DefaultGridAnchors(ops: TextOps, i: nat)
    requires i < |DEFAULT_GRID|
    ensures AnchorsNeeded(ops, DEFAULT_GRID[i]) <==> DEFAULT_GRID[i].configId in {"baseline", "threshold-high", "anchor-heavy"}
  {
    AnchorsNeededExactly(ops, DEFAULT_GRID[i]);
    SixDigitsStay(500000);
    SixDigitsStay(350000);
    SixDigitsStay(650000);
    GridWeights(i);
  }

  lemma GridWeights(i: nat)
    requires i < |DEFAULT_GRID|
    ensures var c := DEFAULT_GRID[i];
      var rest := c.typeWeight + c.lexicalWeight;
      && rest == (if i < 3 then 500000.0 else if i == 3 then 350000.0 else 650000.0) / SCALE
      && c.threshold == (if i == 1 then 0.45 else if i == 2 then 0.65 else 0.55)
      && (c.configId in {"baseline", "threshold-high", "anchor-heavy"} <==> i in {0, 2, 3})
  {
  }

  // ---- Grids that vary only the threshold --------------------------------------------

  lemma SameScore(ops: TextOps, s: SubmittedConcern, ref: Concern, resolved: set<string>, a: MatcherConfig, b: MatcherConfig)
    requires a.SameWeights(b)
    ensures ScoreCandidate(ops, s, ref, resolved, a) == ScoreCandidate(ops, s, ref, resolved, b)
  {
  }

  lemma {:induction false} SameRow(ops: TextOps, s: SubmittedConcern, refs: seq<Concern>, resolved: set<string>,
      a: MatcherConfig, b: MatcherConfig)
    requires a.SameWeights(b)
    ensures Row(ops, s, refs, resolved, a) == Row(ops, s, refs, resolved, b)
  {
    if refs != [] {
      SameRow(ops, s, refs[..|refs| - 1], resolved, a, b);
      SameScore(ops, s, refs[|refs| - 1], resolved, a, b);
    }
  }

  lemma {:induction false} SamePairs(ops: TextOps, concerns: seq<SubmittedConcern>, refs: seq<Concern>,
      resolutions: Resolutions, a: MatcherConfig, b: MatcherConfig)
    requires a.SameWeights(b)
    ensures AllPairs(ops, concerns, refs, resolutions, a) == AllPairs(ops, concerns, refs, resolutions, b)
  {
    if concerns != [] {
      var s := concerns[|concerns| - 1];
      SamePairs(ops, concerns[..|concerns| - 1], refs, resolutions, a, b);
      SameRow(ops, s, refs, ResolvedIds(resolutions, s.localId), a, b);
    }
  }

  /** The matches of a case at a higher threshold are a prefix of those at a lower one. */
  lemma CaseNests(ops: TextOps, ref: CaseRef, completeness: ReferenceCompleteness, bundles: map<string, CaseBundle>,
      submitted: map<CaseKey, CaseSubmission>, low: MatcherConfig, high: MatcherConfig)
    requires low.SameWeights(high) && low.threshold <= high.threshold
    requires ScoreCase(ops, ref, completeness, bundles, submitted, low).Ok?
    requires ScoreCase(ops, ref, completeness, bundles, submitted, high).Ok?
    ensures var a := ScoreCase(ops, ref, completeness, bundles, submitted, low).value.evaluation;
      var b := ScoreCase(ops, ref, completeness, bundles, submitted, high).value.evaluation;
      a.caseId == b.caseId && a.caseVersion == b.caseVersion && b.matches <= a.matches
  {
    var refs := ReferencesFor(bundles, ref);
    var concerns := ConcernsFor(submitted, ref);
    var index := AnchorsById(bundles[ref.path].anchors);
    var resolutions := ResolutionsOf(ops, concerns, ToSet(refs), index);
    SamePairs(ops, concerns, refs, resolutions, low, high);
    ThresholdNesting(AllPairs(ops, concerns, refs, resolutions, low), low.threshold, high.threshold);
  }

  lemma PairsNest(ops: TextOps, benchmark: Benchmark, bundles: map<string, CaseBundle>, submission: Submission,
      low: MatcherConfig, high: MatcherConfig)
    requires low.SameWeights(high) && low.threshold <= high.threshold
    requires Evaluation(ops, benchmark, bundles, submission, low).Ok? && Evaluation(ops, benchmark, bundles, submission, high).Ok?
    ensures RunOf(ops, benchmark, bundles, submission, high).pairs <= RunOf(ops, benchmark, bundles, submission, low).pairs
  {
    var cases, submitted := benchmark.cases, CasesByKey(submission.cases);
    EvaluationsByCase(ops, cases, benchmark.completeness, bundles, submitted, low);
    EvaluationsByCase(ops, cases, benchmark.completeness, bundles, submitted, high);
    var a := ScoreCases(ops, cases, benchmark.completeness, bundles, submitted, low).value.evaluations;
    var b := ScoreCases(ops, cases, benchmark.completeness, bundles, submitted, high).value.evaluations;
    forall i | 0 <= i < |cases|
      ensures a[i].caseId == b[i].caseId && a[i].caseVersion == b[i].caseVersion && b[i].matches <= a[i].matches
    {
      assert EvaluationOf(ops, cases[i], benchmark.completeness, bundles, submitted, low, a[i]);
      assert EvaluationOf(ops, cases[i], benchmark.completeness, bundles, submitted, high, b[i]);
      CaseNests(ops, cases[i], benchmark.completeness, bundles, submitted, low, high);
    }
    PairsOfPrefixes(a, b);
  }

  lemma PairsOfPrefixes(a: seq<CaseEvaluation>, b: seq<CaseEvaluation>)
    requires |a| == |b|
    requires forall i :: 0 <= i < |a| ==>
      a[i].caseId == b[i].caseId && a[i].caseVersion == b[i].caseVersion && b[i].matches <= a[i].matches
    ensures Pairs(b) <= Pairs(a)
  {
  }

  /** On a threshold-only grid the stable pairs are those of the highest threshold and the union of
      stable and unstable pairs is that of the lowest. */
  lemma ThresholdGrid(ops: TextOps, benchmark: Benchmark, bundles: map<string, CaseBundle>, submission: Submission,
      configs: seq<MatcherConfig>, report: SensitivityReport, top: nat, bottom: nat)
    requires Summarizes(report) && |report.runs| == |configs| && top < |configs| && bottom < |configs|
    requires forall i :: 0 <= i < |configs| ==> IsRunOf(ops, benchmark, bundles, submission, configs[i], report.runs[i])
    requires forall i :: 0 <= i < |configs| ==>
      configs[i].SameWeights(configs[0]) && configs[bottom].threshold <= configs[i].threshold <= configs[top].threshold
    ensures report.stablePairs == report.runs[top].pairs
    ensures report.stablePairs + report.unstablePairs == report.runs[bottom].pairs
  {
    forall i | 0 <= i < |configs|
      ensures report.runs[top].pairs <= report.runs[i].pairs <= report.runs[bottom].pairs
    {
      assert forall j :: j in {i, top, bottom} ==> IsRunOf(ops, benchmark, bundles, submission, configs[j], report.runs[j]);
      PairsNest(ops, benchmark, bundles, submission, configs[i], configs[top]);
      PairsNest(ops, benchmark, bundles, submission, configs[bottom], configs[i]);
    }
    NestedRuns(report, top, bottom);
  }

  lemma NestedRuns(report: SensitivityReport, top: nat, bottom: nat)
    requires Summarizes(report) && top < |report.runs| && bottom < |report.runs|
    requires forall i :: 0 <= i < |report.runs| ==> report.runs[top].pairs <= report.runs[i].pairs <= report.runs[bottom].pairs
    ensures report.stablePairs == report.runs[top].pairs
    ensures report.stablePairs + report.unstablePairs == report.runs[bottom].pairs
  {
    forall p ensures p in report.stablePairs <==> p in report.runs[top].pairs {
      assert InAll(report.runs, p) <==> p in report.runs[top].pairs;
    }
    forall p ensures p in report.stablePairs + report.unstablePairs <==> p in report.runs[bottom].pairs {
      assert InSome(report.runs, p) <==> p in report.runs[bottom].pairs;
      assert InAll(report.runs, p) ==> p in report.runs[bottom].pairs;
    }
  }
}
