/** Records shared by the evaluation pipeline. */
module Models {
  import opened Wrappers

  datatype Severity = Critical | Major | Moderate | Minor | Informational

  function SeverityOrder(s: Severity): nat {
    match s
    case Informational => 0
    case Minor => 1
    case Moderate => 2
    case Major => 3
    case Critical => 4
  }

  datatype ConcernStatus =
    | Proposed | UnderReview | Confirmed | Qualified | Rejected | Unresolved | Superseded | Resolved

  datatype ResolutionDisposition = ManuscriptCorrection | Withdrawn | DispositionRejected

  datatype ReferenceCompleteness =
    | CompleteSeeded | AdjudicatedOutputComplete | PartialNatural | DiscoveryOpen | Unknown

  datatype Anchor = Anchor(
    anchorId: string,
    pageStart: Option<nat>,
    pageEnd: Option<nat>,
    sourceText: Option<string>,
    objectLabel: Option<string>)

  datatype Concern = Concern(
    concernId: string,
    title: string,
    summary: string,
    concernType: string,
    anchorIds: seq<string>,
    severity: Severity,
    status: ConcernStatus,
    disposition: Option<ResolutionDisposition>)

  datatype SubmittedAnchor = SubmittedAnchor(
    page: Option<nat>,
    sourceText: Option<string>,
    objectLabel: Option<string>)

  datatype SubmittedConcernFields = SubmittedConcern(
    localId: string,
    title: string,
    summary: string,
    concernType: string,
    severity: Severity,
    confidence: real,
    anchors: seq<SubmittedAnchor>)

  /** Confidence is validated to lie in the unit interval. */
  type SubmittedConcern = s: SubmittedConcernFields | 0.0 <= s.confidence <= 1.0
    witness SubmittedConcern("", "", "", "", Minor, 0.0, [])

  datatype AnchorResolutionStatus = Exact | Normalized | ObjectLabel | PageOnly | Ambiguous | NoAnchor

  /** The sorted list of distinct anchor ids is represented by its set. */
  datatype AnchorResolution = AnchorResolution(
    submittedIndex: nat,
    status: AnchorResolutionStatus,
    referenceAnchorIds: set<string>)

  datatype ConcernMatch = ConcernMatch(
    submittedLocalId: string,
    referenceConcernId: string,
    score: real,
    anchorScore: real,
    typeScore: real,
    lexicalScore: real)

  datatype MatcherSettings = MatcherSettings(
    configId: string,
    anchorWeight: real,
    typeWeight: real,
    lexicalWeight: real,
    threshold: real)
  {
    predicate Valid() {
      && 0.0 <= anchorWeight <= 1.0 && 0.0 <= typeWeight <= 1.0 && 0.0 <= lexicalWeight <= 1.0
      && 0.0 <= threshold <= 1.0
      && -0.000000001 <= anchorWeight + typeWeight + lexicalWeight - 1.0 <= 0.000000001
    }

    predicate SameWeights(other: MatcherSettings) {
      anchorWeight == other.anchorWeight && typeWeight == other.typeWeight
      && lexicalWeight == other.lexicalWeight
    }
  }

  type MatcherConfig = c: MatcherSettings | c.Valid()
    witness MatcherSettings("default-v0.2", 0.50, 0.30, 0.20, 0.55)

  /** Text handling the model takes as given: normalization, case folding and tokenization. */
  datatype TextOps = TextOps(
    normalize: string -> string,
    casefold: string -> string,
    tokens: string -> set<string>)

  /** A published metric row: withheld rows carry no value and say why. */
  datatype MetricValue = MetricValue(
    value: Option<real>,
    numerator: Option<real>,
    denominator: Option<real>,
    withheldReason: Option<string>)

  datatype EvaluationMetrics = EvaluationMetrics(
    casesTotal: nat,
    casesCompleted: nat,
    casesAbstained: nat,
    casesFailed: nat,
    submittedConcerns: nat,
    eligibleReferenceConcerns: nat,
    matchedConcerns: nat,
    unmatchedSubmitted: nat,
    missedReference: nat,
    anchorResolutionRate: MetricValue,
    precision: MetricValue,
    recall: MetricValue,
    severityWeightedPrecision: MetricValue,
    severityWeightedRecall: MetricValue,
    falseCriticalPerManuscript: MetricValue,
    referenceMatchBrierScore: MetricValue,
    novelCandidatesPendingAdjudication: nat)

  predicate CompleteForPrecision(c: ReferenceCompleteness) {
    c == CompleteSeeded || c == AdjudicatedOutputComplete
  }
}
