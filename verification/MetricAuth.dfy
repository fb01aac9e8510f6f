/** Withholding metrics that a claim authorization does not cover. */
module MetricAuth {
  import opened Wrappers
  import opened Models

  datatype MetricId =
    | AnchorIntegrity | SeededDefectRecall | ReferenceRecall | CriticalPrecision | MajorPrecision
    | Calibration | FalseCriticalRate | Cost | Latency

  datatype AuthStatus = Authorized | WithheldStatus | NotApplicable

  datatype CompletenessRequirement =
    | AnyCompleteness | NeedsCompleteSeeded | NeedsAdjudicatedOutput | NeedsPartialNatural | NeedsDiscoveryOpen

  datatype AuthorizedMetric = AuthorizedMetric(
    metricId: MetricId, status: AuthStatus, requirement: CompletenessRequirement, limitations: seq<string>)

  predicate PrecisionFamily(id: MetricId) {
    id == CriticalPrecision || id == MajorPrecision || id == Calibration || id == FalseCriticalRate
  }

  predicate Scientific(id: MetricId) {
    PrecisionFamily(id) || id == AnchorIntegrity || id == SeededDefectRecall || id == ReferenceRecall
  }

  predicate PrecisionForbidden(c: ReferenceCompleteness) {
    c == PartialNatural || c == DiscoveryOpen || c == Unknown
  }

  predicate Satisfies(actual: ReferenceCompleteness, requirement: CompletenessRequirement) {
    match requirement
    case AnyCompleteness => true
    case NeedsCompleteSeeded => actual == CompleteSeeded
    case NeedsAdjudicatedOutput => actual == CompleteSeeded || actual == AdjudicatedOutputComplete
    case NeedsPartialNatural =>
      actual == CompleteSeeded || actual == AdjudicatedOutputComplete || actual == PartialNatural
    case NeedsDiscoveryOpen =>
      actual == CompleteSeeded || actual == AdjudicatedOutputComplete || actual == PartialNatural || actual == DiscoveryOpen
  }

  const UNSATISFIED := "withheld: reference completeness does not satisfy the requirement"
  const FAMILY_FORBIDDEN := "withheld: precision/calibration families cannot be authorized"
  const UNAUTHORIZED := "withheld: metric not authorized by claim-authorization envelope"

  // ---- Resolving the declared permissions --------------------------------------------

  /** The gates a declared permission must pass to stay authorized. */
  predicate Permitted(item: AuthorizedMetric, c: ReferenceCompleteness) {
    Satisfies(c, item.requirement) && !(PrecisionFamily(item.metricId) && PrecisionForbidden(c))
  }

  function ResolveOne(item: AuthorizedMetric, c: ReferenceCompleteness): AuthorizedMetric {
    if item.status != Authorized || Permitted(item, c) then item
    else item.(
      status := WithheldStatus,
      limitations := item.limitations
        + (if Satisfies(c, item.requirement) then [] else [UNSATISFIED])
        + (if PrecisionFamily(item.metricId) && PrecisionForbidden(c) then [FAMILY_FORBIDDEN] else []))
  }

  function Resolved(declared: seq<AuthorizedMetric>, c: ReferenceCompleteness): seq<AuthorizedMetric> {
    seq(|declared|, i requires 0 <= i < |declared| => ResolveOne(declared[i], c))
  }

  method ResolveAuthorizedMetrics(declared: seq<AuthorizedMetric>, c: ReferenceCompleteness)
    returns (resolved: seq<AuthorizedMetric>)
    ensures resolved == Resolved(declared, c)
  {
    resolved := [];
    for i := 0 to |declared|
      invariant |resolved| == i
      invariant forall k :: 0 <= k < i ==> resolved[k] == ResolveOne(declared[k], c)
    {
      var item := declared[i];
      var limitations := item.limitations;
      var status := item.status;
      if status == Authorized {
        if !Satisfies(c, item.requirement) {
          status := WithheldStatus;
          limitations := limitations + [UNSATISFIED];
        }
        if PrecisionFamily(item.metricId) && PrecisionForbidden(c) {
          status := WithheldStatus;
          limitations := limitations + [FAMILY_FORBIDDEN];
        }
      }
      resolved := resolved + [item.(status := status, limitations := limitations)];
    }
  }

  /** The last entry for a metric id decides. */
  function Lookup(metrics: seq<AuthorizedMetric>, id: MetricId): Option<AuthorizedMetric> {
    if metrics == [] then None
    else if metrics[|metrics| - 1].metricId == id then Some(metrics[|metrics| - 1])
    else Lookup(metrics[..|metrics| - 1], id)
  }

  predicate IsAuthorized(metrics: seq<AuthorizedMetric>, id: MetricId) {
    Lookup(metrics, id).Some? && Lookup(metrics, id).value.status == Authorized
  }

  lemma {:induction false} LookupResolved(declared: seq<AuthorizedMetric>, c: ReferenceCompleteness, id: MetricId)
    ensures var before := Lookup(declared, id);
      Lookup(Resolved(declared, c), id) == if before.Some? then Some(ResolveOne(before.value, c)) else None
    ensures Lookup(declared, id).Some? ==> Lookup(declared, id).value.metricId == id
  {
    if declared != [] {
      var init := declared[..|declared| - 1];
      LookupResolved(init, c, id);
      assert Resolved(declared, c)[..|declared| - 1] == Resolved(init, c);
    }
  }

  /** A metric is effectively authorized exactly when its last declaration is and passes both gates. */
  lemma EffectiveAuthorization(declared: seq<AuthorizedMetric>, c: ReferenceCompleteness, id: MetricId)
    ensures IsAuthorized(Resolved(declared, c), id) <==>
      IsAuthorized(declared, id) && Permitted(Lookup(declared, id).value, c)
  {
    LookupResolved(declared, c, id);
  }

  /** Resolving is idempotent and never upgrades a status. */
  lemma ResolvingIsAClosure(declared: seq<AuthorizedMetric>, c: ReferenceCompleteness)
    ensures Resolved(Resolved(declared, c), c) == Resolved(declared, c)
    ensures |Resolved(declared, c)| == |declared|
    ensures forall i :: 0 <= i < |declared| ==>
      Resolved(declared, c)[i] == declared[i]
      || (declared[i].status == Authorized && Resolved(declared, c)[i].status == WithheldStatus)
  {
    forall i | 0 <= i < |declared| ensures ResolveOne(ResolveOne(declared[i], c), c) == ResolveOne(declared[i], c) {
    }
  }

  // ---- Withholding values ------------------------------------------------------------

  predicate PartAt(s: string, part: string, i: nat) {
    i + |part| <= |s| && s[i..i + |part|] == part
  }

  predicate Contains(s: string, part: string) {
    exists i: nat :: i <= |s| && PartAt(s, part, i)
  }

  function WithholdMetricValue(m: MetricValue, reason: string): MetricValue {
    if m.value.None? && m.withheldReason.Some? && m.withheldReason.value != "" then
      if Contains(m.withheldReason.value, reason) then m
      else m.(withheldReason := Some(m.withheldReason.value + "; " + reason))
    else MetricValue(None, m.numerator, m.denominator, Some(reason))
  }

  lemma SuffixIsContained(prefix: string, part: string)
    ensures Contains(prefix + part, part)
  {
    assert PartAt(prefix + part, part, |prefix|);
  }

  /** Withholding leaves no value, keeps the fraction, states the reason, and does so once. */
  lemma WithholdingOnce(m: MetricValue, reason: string)
    requires reason != ""
    ensures var w := WithholdMetricValue(m, reason);
      && w.value.None? && w.numerator == m.numerator && w.denominator == m.denominator
      && w.withheldReason.Some? && Contains(w.withheldReason.value, reason)
      && WithholdMetricValue(w, reason) == w
  {
    SuffixIsContained("", reason);
    assert "" + reason == reason;
    if m.withheldReason.Some? {
      SuffixIsContained(m.withheldReason.value + "; ", reason);
    }
  }

  // ---- Applying an authorization to a result -----------------------------------------

  datatype Field =
    | AnchorResolutionRate | Precision | SeverityWeightedPrecision | Recall | SeverityWeightedRecall
    | FalseCriticalPerManuscript | ReferenceMatchBrierScore

  function Get(m: EvaluationMetrics, f: Field): MetricValue {
    match f
    case AnchorResolutionRate => m.anchorResolutionRate
    case Precision => m.precision
    case SeverityWeightedPrecision => m.severityWeightedPrecision
    case Recall => m.recall
    case SeverityWeightedRecall => m.severityWeightedRecall
    case FalseCriticalPerManuscript => m.falseCriticalPerManuscript
    case ReferenceMatchBrierScore => m.referenceMatchBrierScore
  }

  function Set(m: EvaluationMetrics, f: Field, v: MetricValue): EvaluationMetrics {
    match f
    case AnchorResolutionRate => m.(anchorResolutionRate := v)
    case Precision => m.(precision := v)
    case SeverityWeightedPrecision => m.(severityWeightedPrecision := v)
    case Recall => m.(recall := v)
    case SeverityWeightedRecall => m.(severityWeightedRecall := v)
    case FalseCriticalPerManuscript => m.(falseCriticalPerManuscript := v)
    case ReferenceMatchBrierScore => m.(referenceMatchBrierScore := v)
  }

  function RecallMetricId(c: ReferenceCompleteness): MetricId {
    if CompleteForPrecision(c) then SeededDefectRecall else ReferenceRecall
  }

  /** The permission each published row needs. */
  function MetricFor(f: Field, c: ReferenceCompleteness): MetricId {
    match f
    case AnchorResolutionRate => AnchorIntegrity
    case Precision => CriticalPrecision
    case SeverityWeightedPrecision => MajorPrecision
    case Recall => RecallMetricId(c)
    case SeverityWeightedRecall => RecallMetricId(c)
    case FalseCriticalPerManuscript => FalseCriticalRate
    case ReferenceMatchBrierScore => Calibration
  }

  datatype ScoredResult = ScoredResult(
    completeness: ReferenceCompleteness,
    publicScope: bool,
    authorizationVerified: bool,
    authorized: seq<AuthorizedMetric>,
    metrics: EvaluationMetrics,
    performanceClaim: bool)

  function PerformanceClaim(publicScope: bool, verified: bool, metrics: seq<AuthorizedMetric>): bool {
    publicScope && verified && exists i :: 0 <= i < |metrics| && metrics[i].status == Authorized && Scientific(metrics[i].metricId)
  }

  const FIELDS := [AnchorResolutionRate, Precision, SeverityWeightedPrecision, Recall, SeverityWeightedRecall,
    FalseCriticalPerManuscript, ReferenceMatchBrierScore]

  /** The published row: the value when it is authorized, otherwise the row withheld. */
  function PublishedRow(m: EvaluationMetrics, f: Field, effective: seq<AuthorizedMetric>, c: ReferenceCompleteness): MetricValue {
    if IsAuthorized(effective, MetricFor(f, c)) then Get(m, f) else WithholdMetricValue(Get(m, f), UNAUTHORIZED)
  }

  predicate SameCounters(a: EvaluationMetrics, b: EvaluationMetrics) {
    && a.casesTotal == b.casesTotal && a.casesCompleted == b.casesCompleted
    && a.casesAbstained == b.casesAbstained && a.casesFailed == b.casesFailed
    && a.submittedConcerns == b.submittedConcerns && a.eligibleReferenceConcerns == b.eligibleReferenceConcerns
    && a.matchedConcerns == b.matchedConcerns && a.unmatchedSubmitted == b.unmatchedSubmitted
    && a.missedReference == b.missedReference
    && a.novelCandidatesPendingAdjudication == b.novelCandidatesPendingAdjudication
  }

  /** What one application says about its input and output. */
  ghost predicate Applied(r: ScoredResult, s: ScoredResult) {
    && s.completeness == r.completeness && s.publicScope == r.publicScope
    && s.authorizationVerified == r.authorizationVerified
    && s.authorized == Resolved(r.authorized, r.completeness)
    && s.performanceClaim == PerformanceClaim(r.publicScope, r.authorizationVerified, s.authorized)
    && (forall f :: Get(s.metrics, f) == PublishedRow(r.metrics, f, s.authorized, r.completeness))
    && SameCounters(s.metrics, r.metrics)
  }

  method ApplyMetricAuthorization(r: ScoredResult) returns (s: ScoredResult)
    ensures Applied(r, s)
  {
    var effective := ResolveAuthorizedMetrics(r.authorized, r.completeness);
    var metrics := r.metrics;
    for k := 0 to |FIELDS|
      invariant SameCounters(metrics, r.metrics)
      invariant forall j :: 0 <= j < k ==> Get(metrics, FIELDS[j]) == PublishedRow(r.metrics, FIELDS[j], effective, r.completeness)
      invariant forall j :: k <= j < |FIELDS| ==> Get(metrics, FIELDS[j]) == Get(r.metrics, FIELDS[j])
    {
      var field := FIELDS[k];
      if IsAuthorized(effective, MetricFor(field, r.completeness)) {
        continue;
      }
      metrics := Set(metrics, field, WithholdMetricValue(Get(r.metrics, field), UNAUTHORIZED));
    }
    s := r.(metrics := metrics, authorized := effective,
      performanceClaim := PerformanceClaim(r.publicScope, r.authorizationVerified, effective));
    forall f ensures Get(s.metrics, f) == PublishedRow(r.metrics, f, effective, r.completeness) {
      AllFields();
      assert f in FIELDS;
      var j :| 0 <= j < |FIELDS| && FIELDS[j] == f;
    }
  }

  lemma AllFields()
    ensures forall f: Field :: f in FIELDS
  {
    forall f: Field ensures f in FIELDS {
      match f
      case AnchorResolutionRate => assert FIELDS[0] == f;
      case Precision => assert FIELDS[1] == f;
      case SeverityWeightedPrecision => assert FIELDS[2] == f;
      case Recall => assert FIELDS[3] == f;
      case SeverityWeightedRecall => assert FIELDS[4] == f;
      case FalseCriticalPerManuscript => assert FIELDS[5] == f;
      case ReferenceMatchBrierScore => assert FIELDS[6] == f;
    }
  }

  /** Applying the authorization a second time changes nothing. */
  lemma ApplicationIsIdempotent(r: ScoredResult, s: ScoredResult, t: ScoredResult)
    requires Applied(r, s) && Applied(s, t)
    ensures t == s
  {
    ResolvingIsAClosure(r.authorized, r.completeness);
    forall f ensures Get(t.metrics, f) == Get(s.metrics, f) {
      WithholdingOnce(Get(r.metrics, f), UNAUTHORIZED);
    }
    SameRows(t.metrics, s.metrics);
  }

  lemma SameRows(a: EvaluationMetrics, b: EvaluationMetrics)
    requires SameCounters(a, b) && forall f :: Get(a, f) == Get(b, f)
    ensures a == b
  {
    assert Get(a, AnchorResolutionRate) == Get(b, AnchorResolutionRate);
    assert Get(a, Precision) == Get(b, Precision);
    assert Get(a, SeverityWeightedPrecision) == Get(b, SeverityWeightedPrecision);
    assert Get(a, Recall) == Get(b, Recall);
    assert Get(a, SeverityWeightedRecall) == Get(b, SeverityWeightedRecall);
    assert Get(a, FalseCriticalPerManuscript) == Get(b, FalseCriticalPerManuscript);
    assert Get(a, ReferenceMatchBrierScore) == Get(b, ReferenceMatchBrierScore);
  }

  /** A row keeps its value exactly when it had one and the last declaration for its metric is
      authorized and passes both gates; otherwise it comes out with no value and a reason. */
  lemma PublishedExactly(r: ScoredResult, s: ScoredResult, f: Field)
    requires Applied(r, s)
    ensures var id := MetricFor(f, r.completeness);
      (Get(s.metrics, f).value.Some? <==>
        Get(r.metrics, f).value.Some? && IsAuthorized(r.authorized, id) && Permitted(Lookup(r.authorized, id).value, r.completeness))
      && (Get(s.metrics, f).value.Some? ==> Get(s.metrics, f) == Get(r.metrics, f))
  {
    EffectiveAuthorization(r.authorized, r.completeness, MetricFor(f, r.completeness));
    WithholdingOnce(Get(r.metrics, f), UNAUTHORIZED);
  }

  /** How complete a reference set is. */
  function Rank(c: ReferenceCompleteness): int {
    match c
    case CompleteSeeded => 4
    case AdjudicatedOutputComplete => 3
    case PartialNatural => 2
    case DiscoveryOpen => 1
    case Unknown => 0
  }

  /** A requirement is met by its own completeness and every higher one. */
  lemma SatisfiesIsOrder(actual: ReferenceCompleteness, requirement: CompletenessRequirement)
    ensures Satisfies(actual, requirement) <==>
      match requirement
      case AnyCompleteness => true
      case NeedsCompleteSeeded => Rank(actual) >= 4
      case NeedsAdjudicatedOutput => Rank(actual) >= 3
      case NeedsPartialNatural => Rank(actual) >= 2
      case NeedsDiscoveryOpen => Rank(actual) >= 1
  {
  }

  /** The last declaration for the metric is authorized, its requirement is met, and a metric of the precision
      family has a reference set that is complete in one way or the other. */
  predicate Allowed(r: ScoredResult, id: MetricId) {
    && IsAuthorized(r.authorized, id) && Satisfies(r.completeness, Lookup(r.authorized, id).value.requirement)
    && (id in {CriticalPrecision, MajorPrecision, Calibration, FalseCriticalRate} ==>
          r.completeness in {CompleteSeeded, AdjudicatedOutputComplete})
  }

  /** The row comes out with its value exactly when it had one and the metric is allowed. */
  predicate Keeps(before: MetricValue, after: MetricValue, allowed: bool) {
    (after.value.Some? <==> before.value.Some? && allowed) && (after.value.Some? ==> after == before)
  }

  /** The permission each row needs: recall is seeded-defect recall on complete reference sets and reference
      recall on all others. */
  lemma RowsNeed(r: ScoredResult, s: ScoredResult)
    requires Applied(r, s)
    ensures var a, b := r.metrics, s.metrics;
      var recall := if r.completeness in {CompleteSeeded, AdjudicatedOutputComplete} then SeededDefectRecall else ReferenceRecall;
      && Keeps(a.anchorResolutionRate, b.anchorResolutionRate, Allowed(r, AnchorIntegrity))
      && Keeps(a.precision, b.precision, Allowed(r, CriticalPrecision))
      && Keeps(a.severityWeightedPrecision, b.severityWeightedPrecision, Allowed(r, MajorPrecision))
      && Keeps(a.recall, b.recall, Allowed(r, recall))
      && Keeps(a.severityWeightedRecall, b.severityWeightedRecall, Allowed(r, recall))
      && Keeps(a.falseCriticalPerManuscript, b.falseCriticalPerManuscript, Allowed(r, FalseCriticalRate))
      && Keeps(a.referenceMatchBrierScore, b.referenceMatchBrierScore, Allowed(r, Calibration))
  {
    RowNeeds(r, s, AnchorResolutionRate);
    RowNeeds(r, s, Precision);
    RowNeeds(r, s, SeverityWeightedPrecision);
    RowNeeds(r, s, Recall);
    RowNeeds(r, s, SeverityWeightedRecall);
    RowNeeds(r, s, FalseCriticalPerManuscript);
    RowNeeds(r, s, ReferenceMatchBrierScore);
  }

  lemma RowNeeds(r: ScoredResult, s: ScoredResult, f: Field)
    requires Applied(r, s)
    ensures Keeps(Get(r.metrics, f), Get(s.metrics, f), Allowed(r, MetricFor(f, r.completeness)))
  {
    PublishedExactly(r, s, f);
    LookupResolved(r.authorized, r.completeness, MetricFor(f, r.completeness));
  }

  /** Whatever is declared, an incomplete reference set publishes no precision, weighted-precision,
      false-critical or Brier value. */
  lemma IncompletePublishesNoPrecision(r: ScoredResult, s: ScoredResult)
    requires Applied(r, s) && PrecisionForbidden(r.completeness)
    ensures forall f :: f in {Precision, SeverityWeightedPrecision, FalseCriticalPerManuscript, ReferenceMatchBrierScore} ==>
      Get(s.metrics, f).value.None?
  {
    forall f | f in {Precision, SeverityWeightedPrecision, FalseCriticalPerManuscript, ReferenceMatchBrierScore}
      ensures Get(s.metrics, f).value.None?
    {
      PublishedExactly(r, s, f);
      LookupResolved(r.authorized, r.completeness, MetricFor(f, r.completeness));
    }
  }
}
