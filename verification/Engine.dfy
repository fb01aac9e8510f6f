/** Evaluating a submission against a benchmark: the fold of all cases into counters and metrics. */
module Engine {
  import opened Wrappers
  import opened Models
  import opened Rounding
  import opened Matching
  import opened ReferencePolicy
  import opened Anchoring

  // ---- Inputs ------------------------------------------------------------------------

  type CaseKey = (string, string)

  datatype CaseRef = CaseRef(caseId: string, caseVersion: string, path: string) {
    function Key(): CaseKey { (caseId, caseVersion) }
  }

  datatype CaseBundle = CaseBundle(
    caseId: string, caseVersion: string, concerns: seq<Concern>, anchors: seq<Anchor>)

  datatype CaseSubmissionFields = CaseSubmission(
    caseId: string, caseVersion: string, concerns: seq<SubmittedConcern>, abstained: bool, failure: Option<string>)
  {
    function Key(): CaseKey { (caseId, caseVersion) }
    predicate Failed() { failure.Some? && failure.value != "" }
  }

  /** Abstained and failed submissions carry no concerns. */
  type CaseSubmission = c: CaseSubmissionFields | c.abstained || c.Failed() ==> c.concerns == []
    witness CaseSubmission("", "", [], false, None)

  datatype BenchmarkFields = Benchmark(
    benchmarkId: string, version: string, completeness: ReferenceCompleteness, cases: seq<CaseRef>)

  type Benchmark = b: BenchmarkFields | forall i, j :: 0 <= i < j < |b.cases| ==> b.cases[i].Key() != b.cases[j].Key()
    witness Benchmark("", "", Unknown, [])

  datatype SubmissionFields = Submission(
    submissionId: string, benchmarkId: string, benchmarkVersion: string, cases: seq<CaseSubmission>)

  type Submission = s: SubmissionFields | forall i, j :: 0 <= i < j < |s.cases| ==> s.cases[i].Key() != s.cases[j].Key()
    witness Submission("", "", "", [])

  datatype EvaluationError =
    | BenchmarkMismatch
    | UnknownCases(keys: set<CaseKey>)
    | CaseFileMissing(path: string)
    | CaseIdentityMismatch(path: string)

  // ---- Outputs -----------------------------------------------------------------------

  datatype CaseEvaluation = CaseEvaluation(
    caseId: string,
    caseVersion: string,
    submittedCount: nat,
    eligibleReferenceCount: nat,
    matches: seq<ConcernMatch>,
    unmatchedSubmittedIds: seq<string>,
    missedReferenceIds: seq<string>,
    anchorResolutions: Resolutions,
    abstained: bool,
    failure: Option<string>)

  datatype EvaluationResult = EvaluationResult(
    benchmark: Benchmark,
    submissionId: string,
    caseEvaluations: seq<CaseEvaluation>,
    metrics: EvaluationMetrics)

  /** The counters that evaluation accumulates over the cases. */
  datatype Tally = Tally(
    completed: nat, abstained: nat, failed: nat,
    submitted: nat, eligible: nat, matched: nat, unmatched: nat, missed: nat,
    anchorResolved: nat, anchorTotal: nat,
    precisionNum: real, precisionDen: real, recallNum: real, recallDen: real,
    falseCritical: nat, brierSum: real, brierCount: nat)
  {
    function Plus(t: Tally): Tally {
      Tally(
        completed + t.completed, abstained + t.abstained, failed + t.failed,
        submitted + t.submitted, eligible + t.eligible, matched + t.matched,
        unmatched + t.unmatched, missed + t.missed,
        anchorResolved + t.anchorResolved, anchorTotal + t.anchorTotal,
        precisionNum + t.precisionNum, precisionDen + t.precisionDen,
        recallNum + t.recallNum, recallDen + t.recallDen,
        falseCritical + t.falseCritical, brierSum + t.brierSum, brierCount + t.brierCount)
    }
  }

  const ZERO := Tally(0, 0, 0, 0, 0, 0, 0, 0, 0, 0, 0.0, 0.0, 0.0, 0.0, 0, 0.0, 0)

  datatype CaseScore = CaseScore(evaluation: CaseEvaluation, tally: Tally)

  // ---- One case ----------------------------------------------------------------------

  function SeverityWeight(s: Severity): (w: real)
    ensures w >= 0.5
  {
    match s
    case Critical => 4.0
    case Major => 3.0
    case Moderate => 2.0
    case Minor => 1.0
    case Informational => 0.5
  }

  /** The gold weight never fails on an eligible reference. */
  function SeverityGoldWeight(c: Concern): (w: real)
    requires IsEligible(c)
    ensures w == SeverityWeight(c.severity)
  {
    SeverityWeight(c.severity) * GoldWeight(c).value
  }

  /** Resolutions by local id; a repeated id keeps the last concern's. */
  function ResolutionsOf(ops: TextOps, concerns: seq<SubmittedConcern>, refs: set<Concern>, index: AnchorIndex): Resolutions {
    if concerns == [] then map[]
    else
      var last := concerns[|concerns| - 1];
      ResolutionsOf(ops, concerns[..|concerns| - 1], refs, index)[last.localId := Resolve(ops, last, refs, index)]
  }

  function AnchorTally(ops: TextOps, concerns: seq<SubmittedConcern>, refs: set<Concern>, index: AnchorIndex): Tally {
    if concerns == [] then ZERO
    else
      var rs := Resolve(ops, concerns[|concerns| - 1], refs, index);
      AnchorTally(ops, concerns[..|concerns| - 1], refs, index).Plus(ZERO.(anchorResolved := ResolvedCount(rs), anchorTotal := |rs|))
  }

  function MatchesOf(ops: TextOps, concerns: seq<SubmittedConcern>, refs: seq<Concern>, index: AnchorIndex,
      config: MatcherConfig):
    seq<ConcernMatch>
  {
    Select(Candidates(ops, concerns, refs, ResolutionsOf(ops, concerns, ToSet(refs), index), config))
  }

  function MatchedSubmitted(ms: seq<ConcernMatch>): set<string> {
    set m | m in ms :: m.submittedLocalId
  }

  function MatchedReference(ms: seq<ConcernMatch>): set<string> {
    set m | m in ms :: m.referenceConcernId
  }

  function LocalIds(concerns: seq<SubmittedConcern>): seq<string> {
    seq(|concerns|, i requires 0 <= i < |concerns| => concerns[i].localId)
  }

  function ConcernIds(concerns: seq<Concern>): seq<string> {
    seq(|concerns|, i requires 0 <= i < |concerns| => concerns[i].concernId)
  }

  /** The ids not used by a match, in order. */
  function Outside(ids: seq<string>, used: set<string>): seq<string> {
    if ids == [] then [] else (if ids[0] in used then [] else [ids[0]]) + Outside(ids[1..], used)
  }

  function Square(x: real): real {
    x * x
  }

  /** What one submitted concern adds to the precision family and the Brier score. */
  function ConcernTally(s: SubmittedConcern, used: set<string>): Tally {
    var weight := SeverityWeight(s.severity);
    var hit := s.localId in used;
    ZERO.(
      precisionDen := weight,
      precisionNum := if hit then weight else 0.0,
      falseCritical := if !hit && s.severity == Critical then 1 else 0,
      brierSum := Square(s.confidence - (if hit then 1.0 else 0.0)),
      brierCount := 1)
  }

  /** Only complete reference sets feed the precision family. */
  function PrecisionTally(concerns: seq<SubmittedConcern>, used: set<string>, completeness: ReferenceCompleteness): Tally {
    if concerns == [] then ZERO
    else
      PrecisionTally(concerns[..|concerns| - 1], used, completeness)
      .Plus(if CompleteForPrecision(completeness) then ConcernTally(concerns[|concerns| - 1], used) else ZERO)
  }

  function RecallTally(refs: seq<Concern>, used: set<string>): Tally
    requires forall c :: c in refs ==> IsEligible(c)
  {
    if refs == [] then ZERO
    else
      var c := refs[|refs| - 1];
      var weight := SeverityGoldWeight(c);
      RecallTally(refs[..|refs| - 1], used)
      .Plus(ZERO.(recallDen := weight, recallNum := if c.concernId in used then weight else 0.0))
  }

  function SkippedCase(ref: CaseRef, refs: seq<Concern>, failure: Option<string>): CaseScore
    requires forall c :: c in refs ==> IsEligible(c)
  {
    CaseScore(
      CaseEvaluation(ref.caseId, ref.caseVersion, 0, |refs|, [], [], ConcernIds(refs), map[], failure.None?, failure),
      RecallTally(refs, {}).Plus(ZERO.(
        abstained := if failure.None? then 1 else 0,
        failed := if failure.None? then 0 else 1,
        eligible := |refs|, missed := |refs|)))
  }

  function CompletedCase(ops: TextOps, ref: CaseRef, completeness: ReferenceCompleteness, concerns: seq<SubmittedConcern>,
      refs: seq<Concern>, index: AnchorIndex, config: MatcherConfig): CaseScore
    requires forall c :: c in refs ==> IsEligible(c)
  {
    var resolutions := ResolutionsOf(ops, concerns, ToSet(refs), index);
    var matches := MatchesOf(ops, concerns, refs, index, config);
    var unmatched := Outside(LocalIds(concerns), MatchedSubmitted(matches));
    var missed := Outside(ConcernIds(refs), MatchedReference(matches));
    CaseScore(
      CaseEvaluation(ref.caseId, ref.caseVersion, |concerns|, |refs|, matches, unmatched, missed, resolutions, false, None),
      AnchorTally(ops, concerns, ToSet(refs), index)
      .Plus(PrecisionTally(concerns, MatchedSubmitted(matches), completeness))
      .Plus(RecallTally(refs, MatchedReference(matches)))
      .Plus(ZERO.(
        completed := 1, submitted := |concerns|, eligible := |refs|, matched := |matches|,
        unmatched := |unmatched|, missed := |missed|)))
  }

  function CasesByKey(cases: seq<CaseSubmission>): map<CaseKey, CaseSubmission> {
    if cases == [] then map[]
    else
      var last := cases[|cases| - 1];
      CasesByKey(cases[..|cases| - 1])[last.Key() := last]
  }

  function ScoreCase(ops: TextOps, ref: CaseRef, completeness: ReferenceCompleteness, bundles: map<string, CaseBundle>,
      submitted: map<CaseKey, CaseSubmission>, config: MatcherConfig): Result<CaseScore, EvaluationError>
  {
    if ref.path !in bundles then Err(CaseFileMissing(ref.path))
    else
      var bundle := bundles[ref.path];
      if (bundle.caseId, bundle.caseVersion) != ref.Key() then Err(CaseIdentityMismatch(ref.path))
      else
        var refs := Eligible(bundle.concerns);
        if ref.Key() !in submitted || submitted[ref.Key()].abstained then Ok(SkippedCase(ref, refs, None))
        else if submitted[ref.Key()].Failed() then Ok(SkippedCase(ref, refs, submitted[ref.Key()].failure))
        else Ok(CompletedCase(ops, ref, completeness, submitted[ref.Key()].concerns, refs, AnchorsById(bundle.anchors), config))
  }

  // ---- Metrics -----------------------------------------------------------------------

  const UNDEFINED := "undefined: denominator is zero"
  const NO_SCORED := "undefined: no scored submitted concerns"
  const EMPTY_GOLD := "withheld: no eligible gold references"
  const INCOMPLETE := "withheld: reference set is incomplete"
  const REFERENCE_RECALL_ONLY := "reference recall only: gold reference set is incomplete"

  function Metric(numerator: real, denominator: real): MetricValue {
    if denominator <= 0.0 then MetricValue(None, Some(numerator), Some(denominator), Some(UNDEFINED))
    else MetricValue(Some(Round6(numerator / denominator)), Some(numerator), Some(denominator), None)
  }

  function Withheld(reason: string, numerator: Option<real>, denominator: Option<real>): MetricValue {
    MetricValue(None, numerator, denominator, Some(reason))
  }

  function AsReferenceRecall(m: MetricValue): MetricValue {
    m.(withheldReason := Some(
      if m.withheldReason.Some? && m.withheldReason.value != ""
      then m.withheldReason.value + "; " + REFERENCE_RECALL_ONLY
      else REFERENCE_RECALL_ONLY))
  }

  function Metrics(t: Tally, completeness: ReferenceCompleteness, casesTotal: nat): EvaluationMetrics {
    var complete := CompleteForPrecision(completeness);
    var emptyGold := t.eligible == 0;
    var reason := if emptyGold then EMPTY_GOLD else INCOMPLETE;
    var withhold := emptyGold || !complete;
    var matched, eligible := t.matched as real, t.eligible as real;
    var recall :=
      if emptyGold then Withheld(EMPTY_GOLD, Some(matched), Some(eligible)) else Metric(matched, eligible);
    var weightedRecall :=
      if emptyGold then Withheld(EMPTY_GOLD, Some(t.recallNum), Some(t.recallDen)) else Metric(t.recallNum, t.recallDen);
    EvaluationMetrics(
      casesTotal, t.completed, t.abstained, t.failed,
      t.submitted, t.eligible, t.matched, t.unmatched, t.missed,
      Metric(t.anchorResolved as real, t.anchorTotal as real),
      if withhold then Withheld(reason, Some(matched), Some(t.submitted as real)) else Metric(matched, t.submitted as real),
      if complete then recall else AsReferenceRecall(recall),
      if withhold then Withheld(reason, Some(t.precisionNum), Some(t.precisionDen)) else Metric(t.precisionNum, t.precisionDen),
      if complete then weightedRecall else AsReferenceRecall(weightedRecall),
      if withhold then Withheld(reason, Some(t.falseCritical as real), Some(t.completed as real))
      else Metric(t.falseCritical as real, t.completed as real),
      if withhold then Withheld(reason, None, None)
      else if t.brierCount > 0 then
        MetricValue(Some(Round6(t.brierSum / t.brierCount as real)), Some(t.brierSum), Some(t.brierCount as real), None)
      else Withheld(NO_SCORED, Some(0.0), Some(0.0)),
      t.unmatched)
  }

  // ---- The whole evaluation ----------------------------------------------------------

  datatype Progress = Progress(evaluations: seq<CaseEvaluation>, tally: Tally)

  function ScoreCases(ops: TextOps, cases: seq<CaseRef>, completeness: ReferenceCompleteness, bundles: map<string, CaseBundle>,
      submitted: map<CaseKey, CaseSubmission>, config: MatcherConfig): Result<Progress, EvaluationError>
  {
    if cases == [] then Ok(Progress([], ZERO))
    else
      match ScoreCases(ops, cases[..|cases| - 1], completeness, bundles, submitted, config)
      case Err(e) => Err(e)
      case Ok(p) =>
        match ScoreCase(ops, cases[|cases| - 1], completeness, bundles, submitted, config)
        case Err(e) => Err(e)
        case Ok(score) => Ok(Progress(p.evaluations + [score.evaluation], p.tally.Plus(score.tally)))
  }

  function BenchmarkKeys(cases: seq<CaseRef>): set<CaseKey> {
    set c | c in cases :: c.Key()
  }

  function Evaluation(ops: TextOps, benchmark: Benchmark, bundles: map<string, CaseBundle>, submission: Submission,
      config: MatcherConfig):
    Result<EvaluationResult, EvaluationError>
  {
    var submitted := CasesByKey(submission.cases);
    if submission.benchmarkId != benchmark.benchmarkId || submission.benchmarkVersion != benchmark.version then
      Err(BenchmarkMismatch)
    else if submitted.Keys - BenchmarkKeys(benchmark.cases) != {} then
      Err(UnknownCases(submitted.Keys - BenchmarkKeys(benchmark.cases)))
    else
      match ScoreCases(ops, benchmark.cases, benchmark.completeness, bundles, submitted, config)
      case Err(e) => Err(e)
      case Ok(p) =>
        Ok(EvaluationResult(benchmark, submission.submissionId, p.evaluations,
          Metrics(p.tally, benchmark.completeness, |benchmark.cases|)))
  }

  // ---- Loops -------------------------------------------------------------------------

  method ResolveConcerns(ops: TextOps, concerns: seq<SubmittedConcern>, refs: seq<Concern>, index: AnchorIndex)
    returns (resolutions: Resolutions, resolved: nat, total: nat)
    ensures resolutions == ResolutionsOf(ops, concerns, ToSet(refs), index)
    ensures AnchorTally(ops, concerns, ToSet(refs), index) == ZERO.(anchorResolved := resolved, anchorTotal := total)
  {
    resolutions, resolved, total := map[], 0, 0;
    for i := 0 to |concerns|
      invariant resolutions == ResolutionsOf(ops, concerns[..i], ToSet(refs), index)
      invariant AnchorTally(ops, concerns[..i], ToSet(refs), index) == ZERO.(anchorResolved := resolved, anchorTotal := total)
    {
      assert concerns[..i + 1][..i] == concerns[..i];
      var rs := ResolveSubmitted(ops, concerns[i], refs, index);
      resolutions := resolutions[concerns[i].localId := rs];
      resolved := resolved + ResolvedCount(rs);
      total := total + |rs|;
    }
    assert concerns[..|concerns|] == concerns;
  }

  /** A contribution to the precision family and the Brier score only. */
  function PrecisionOnly(num: real, den: real, falseCritical: nat, brierSum: real, brierCount: nat): Tally {
    ZERO.(precisionNum := num, precisionDen := den, falseCritical := falseCritical, brierSum := brierSum, brierCount := brierCount)
  }

  lemma PrecisionOnlyAdds(num: real, den: real, falseCritical: nat, brierSum: real, brierCount: nat,
      num': real, den': real, falseCritical': nat, brierSum': real, brierCount': nat)
    ensures PrecisionOnly(num, den, falseCritical, brierSum, brierCount)
              .Plus(PrecisionOnly(num', den', falseCritical', brierSum', brierCount'))
         == PrecisionOnly(num + num', den + den', falseCritical + falseCritical', brierSum + brierSum', brierCount + brierCount')
  {
  }

  /** One more submitted concern, on a complete reference set. */
  lemma OneMoreConcern(concerns: seq<SubmittedConcern>, i: nat, used: set<string>, completeness: ReferenceCompleteness,
      num: real, den: real, falseCritical: nat, brierSum: real, brierCount: nat)
    requires i < |concerns| && CompleteForPrecision(completeness)
    requires PrecisionTally(concerns[..i], used, completeness) == PrecisionOnly(num, den, falseCritical, brierSum, brierCount)
    ensures var s := concerns[i];
      var weight, hit := SeverityWeight(s.severity), s.localId in used;
      PrecisionTally(concerns[..i + 1], used, completeness) == PrecisionOnly(
        num + (if hit then weight else 0.0), den + weight, falseCritical + (if !hit && s.severity == Critical then 1 else 0),
        brierSum + Square(s.confidence - (if hit then 1.0 else 0.0)), brierCount + 1)
  {
    var s := concerns[i];
    var weight, hit := SeverityWeight(s.severity), s.localId in used;
    assert concerns[..i + 1][..i] == concerns[..i];
    PrecisionOnlyAdds(num, den, falseCritical, brierSum, brierCount,
      if hit then weight else 0.0, weight, if !hit && s.severity == Critical then 1 else 0,
      Square(s.confidence - (if hit then 1.0 else 0.0)), 1);
  }

  lemma {:induction false} NothingScored(concerns: seq<SubmittedConcern>, used: set<string>, completeness: ReferenceCompleteness)
    requires !CompleteForPrecision(completeness)
    ensures PrecisionTally(concerns, used, completeness) == ZERO
  {
    if concerns != [] {
      NothingScored(concerns[..|concerns| - 1], used, completeness);
    }
  }

  method ScoreSubmitted(concerns: seq<SubmittedConcern>, used: set<string>, completeness: ReferenceCompleteness)
    returns (num: real, den: real, falseCritical: nat, brierSum: real, brierCount: nat)
    ensures PrecisionTally(concerns, used, completeness)
         == ZERO.(precisionNum := num, precisionDen := den, falseCritical := falseCritical, brierSum := brierSum, brierCount := brierCount)
  {
    num, den, falseCritical, brierSum, brierCount := 0.0, 0.0, 0, 0.0, 0;
    for i := 0 to |concerns|
      invariant PrecisionTally(concerns[..i], used, completeness) == PrecisionOnly(num, den, falseCritical, brierSum, brierCount)
    {
      var submitted := concerns[i];
      if !CompleteForPrecision(completeness) {
        NothingScored(concerns[..i], used, completeness);
        NothingScored(concerns[..i + 1], used, completeness);
        continue;
      }
      OneMoreConcern(concerns, i, used, completeness, num, den, falseCritical, brierSum, brierCount);
      var weight := SeverityWeight(submitted.severity);
      var outcome := if submitted.localId in used then 1.0 else 0.0;
      den := den + weight;
      if submitted.localId in used {
        num := num + weight;
      } else if submitted.severity == Critical {
        falseCritical := falseCritical + 1;
      }
      brierSum := brierSum + Square(submitted.confidence - outcome);
      brierCount := brierCount + 1;
    }
    assert concerns[..|concerns|] == concerns;
  }

  method ScoreReferences(refs: seq<Concern>, used: set<string>) returns (num: real, den: real)
    requires forall c :: c in refs ==> IsEligible(c)
    ensures RecallTally(refs, used) == ZERO.(recallNum := num, recallDen := den)
  {
    num, den := 0.0, 0.0;
    for i := 0 to |refs|
      invariant RecallTally(refs[..i], used) == ZERO.(recallNum := num, recallDen := den)
    {
      assert refs[..i + 1][..i] == refs[..i];
      assert refs[i] in refs;
      var weight := SeverityGoldWeight(refs[i]);
      den := den + weight;
      if refs[i].concernId in used {
        num := num + weight;
      }
    }
    assert refs[..|refs|] == refs;
  }

  method SkipCase(ref: CaseRef, refs: seq<Concern>, failure: Option<string>) returns (score: CaseScore)
    requires forall c :: c in refs ==> IsEligible(c)
    ensures score == SkippedCase(ref, refs, failure)
  {
    var _, den := ScoreReferences(refs, {});
    NothingRecalled(refs);
    var evaluation := CaseEvaluation(
      ref.caseId, ref.caseVersion, 0, |refs|, [], [], ConcernIds(refs), map[], failure.None?, failure);
    score := CaseScore(evaluation, ZERO.(
      abstained := if failure.None? then 1 else 0, failed := if failure.None? then 0 else 1,
      eligible := |refs|, missed := |refs|, recallDen := den));
  }

  lemma PartsAddUp(anchors: Tally, precision: Tally, recall: Tally, resolved: nat, total: nat, pNum: real, pDen: real,
      falseCritical: nat, brierSum: real, brierCount: nat, rNum: real, rDen: real,
      submitted: nat, eligible: nat, matched: nat, unmatched: nat, missed: nat)
    requires anchors == ZERO.(anchorResolved := resolved, anchorTotal := total)
    requires precision == ZERO.(precisionNum := pNum, precisionDen := pDen, falseCritical := falseCritical, brierSum := brierSum, brierCount := brierCount)
    requires recall == ZERO.(recallNum := rNum, recallDen := rDen)
    ensures anchors.Plus(precision).Plus(recall).Plus(ZERO.(
              completed := 1, submitted := submitted, eligible := eligible, matched := matched,
              unmatched := unmatched, missed := missed))
         == Tally(1, 0, 0, submitted, eligible, matched, unmatched, missed, resolved, total,
              pNum, pDen, rNum, rDen, falseCritical, brierSum, brierCount)
  {
  }

  method CompleteCase(ops: TextOps, ref: CaseRef, completeness: ReferenceCompleteness, concerns: seq<SubmittedConcern>,
      refs: seq<Concern>, index: AnchorIndex, config: MatcherConfig) returns (score: CaseScore)
    requires forall c :: c in refs ==> IsEligible(c)
    ensures score == CompletedCase(ops, ref, completeness, concerns, refs, index, config)
  {
    var resolutions, resolved, total := ResolveConcerns(ops, concerns, refs, index);
    var matches := GreedyMatch(ops, concerns, refs, resolutions, config);
    assert matches == MatchesOf(ops, concerns, refs, index, config);
    var usedSubmitted, usedReference := MatchedSubmitted(matches), MatchedReference(matches);
    var unmatched := Outside(LocalIds(concerns), usedSubmitted);
    var missed := Outside(ConcernIds(refs), usedReference);
    var pNum, pDen, falseCritical, brierSum, brierCount := ScoreSubmitted(concerns, usedSubmitted, completeness);
    var rNum, rDen := ScoreReferences(refs, usedReference);
    var evaluation := CaseEvaluation(
      ref.caseId, ref.caseVersion, |concerns|, |refs|, matches, unmatched, missed, resolutions, false, None);
    var tally := Tally(1, 0, 0, |concerns|, |refs|, |matches|, |unmatched|, |missed|, resolved, total,
      pNum, pDen, rNum, rDen, falseCritical, brierSum, brierCount);
    PartsAddUp(AnchorTally(ops, concerns, ToSet(refs), index), PrecisionTally(concerns, usedSubmitted, completeness),
      RecallTally(refs, usedReference), resolved, total, pNum, pDen, falseCritical, brierSum, brierCount, rNum, rDen,
      |concerns|, |refs|, |matches|, |unmatched|, |missed|);
    score := CaseScore(evaluation, tally);
  }

  method EvaluateCase(ops: TextOps, ref: CaseRef, completeness: ReferenceCompleteness, bundles: map<string, CaseBundle>,
      submitted: map<CaseKey, CaseSubmission>, config: MatcherConfig) returns (r: Result<CaseScore, EvaluationError>)
    ensures r == ScoreCase(ops, ref, completeness, bundles, submitted, config)
  {
    if ref.path !in bundles {
      return Err(CaseFileMissing(ref.path));
    }
    var bundle := bundles[ref.path];
    if (bundle.caseId, bundle.caseVersion) != ref.Key() {
      return Err(CaseIdentityMismatch(ref.path));
    }
    var index := AnchorsById(bundle.anchors);
    var refs := Eligible(bundle.concerns);
    var score: CaseScore;
    if ref.Key() !in submitted || submitted[ref.Key()].abstained {
      score := SkipCase(ref, refs, None);
    } else if submitted[ref.Key()].Failed() {
      score := SkipCase(ref, refs, submitted[ref.Key()].failure);
    } else {
      score := CompleteCase(ops, ref, completeness, submitted[ref.Key()].concerns, refs, index, config);
    }
    r := Ok(score);
  }

  lemma {:induction false} NothingRecalled(refs: seq<Concern>)
    requires forall c :: c in refs ==> IsEligible(c)
    ensures RecallTally(refs, {}).recallNum == 0.0
  {
    if refs != [] {
      NothingRecalled(refs[..|refs| - 1]);
    }
  }

  lemma {:induction false} FirstErrorStays(ops: TextOps, cases: seq<CaseRef>, completeness: ReferenceCompleteness,
      bundles: map<string, CaseBundle>,
      submitted: map<CaseKey, CaseSubmission>, config: MatcherConfig, n: nat)
    requires n <= |cases|
    requires ScoreCases(ops, cases[..n], completeness, bundles, submitted, config).Err?
    ensures ScoreCases(ops, cases, completeness, bundles, submitted, config)
         == ScoreCases(ops, cases[..n], completeness, bundles, submitted, config)
  {
    if n == |cases| {
      assert cases[..n] == cases;
    } else {
      assert cases[..|cases| - 1][..n] == cases[..n];
      FirstErrorStays(ops, cases[..|cases| - 1], completeness, bundles, submitted, config, n);
    }
  }

  method Evaluate(ops: TextOps, benchmark: Benchmark, bundles: map<string, CaseBundle>, submission: Submission,
      config: MatcherConfig)
    returns (r: Result<EvaluationResult, EvaluationError>)
    ensures r == Evaluation(ops, benchmark, bundles, submission, config)
  {
    if submission.benchmarkId != benchmark.benchmarkId || submission.benchmarkVersion != benchmark.version {
      return Err(BenchmarkMismatch);
    }
    var submitted := CasesByKey(submission.cases);
    var unknown := submitted.Keys - BenchmarkKeys(benchmark.cases);
    if unknown != {} {
      return Err(UnknownCases(unknown));
    }
    var cases := benchmark.cases;
    var evaluations: seq<CaseEvaluation> := [];
    var tally := ZERO;
    for i := 0 to |cases|
      invariant ScoreCases(ops, cases[..i], benchmark.completeness, bundles, submitted, config) == Ok(Progress(evaluations, tally))
    {
      assert cases[..i + 1][..i] == cases[..i];
      var score := EvaluateCase(ops, cases[i], benchmark.completeness, bundles, submitted, config);
      if score.Err? {
        FirstErrorStays(ops, cases, benchmark.completeness, bundles, submitted, config, i + 1);
        return Err(score.error);
      }
      evaluations := evaluations + [score.value.evaluation];
      tally := tally.Plus(score.value.tally);
    }
    assert cases[..|cases|] == cases;
    r := Ok(EvaluationResult(benchmark, submission.submissionId, evaluations,
      Metrics(tally, benchmark.completeness, |cases|)));
  }
}
