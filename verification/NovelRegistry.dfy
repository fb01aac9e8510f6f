/** The tables behind novel-concern adjudication and what each service call makes of them. A call
    that fails is rolled back, so it yields an error and no tables. */
module NovelRegistry {
  import opened Wrappers
  import M = Models
  import E = Engine
  import Q = NovelQueue
  import D = NovelDetermination

  /** A hash is represented by what was hashed; a hash supplied from outside may be of nothing known. */
  datatype Digest<T> = DigestOf(content: T) | Foreign(hex: string)

  type Candidate = Q.NovelCandidate<string>

  // ---- Benchmarks and scorecards -----------------------------------------------------

  datatype CaseSetHash =
    | GivenCaseSet(hex: string)
    | SuccessorCaseSet(benchmarkId: string, version: string, cases: seq<E.CaseRef>, predecessorVersion: string, predecessorHash: CaseSetHash)

  datatype Manifest = Manifest(benchmarkId: string, version: string, cases: seq<E.CaseRef>, caseSetHash: CaseSetHash, limitations: seq<string>)

  datatype BenchmarkKey = BenchmarkKey(benchmarkId: string, version: string)

  datatype BenchmarkRow = BenchmarkRow(
    manifest: Manifest, caseSetHash: CaseSetHash, predecessorVersion: Option<string>, createdFrom: Option<nat>)

  datatype EvaluatedResult = EvaluatedResult(
    resultId: string, benchmark: Manifest, predecessorResultId: Option<string>, scoringPolicy: Option<string>, body: string)

  /** Built scorecards are named after the digest of their own content. */
  datatype ScorecardId = Named(text: string) | Derived(of: Scorecard)

  datatype Scorecard = Scorecard(
    scorecardId: Option<ScorecardId>,
    result: EvaluatedResult,
    predecessorId: Option<ScorecardId>,
    predecessorHash: Option<Digest<Scorecard>>,
    referenceSetHash: Option<CaseSetHash>,
    scoringPolicy: Option<string>,
    immutable: bool)

  datatype ScorecardRow = ScorecardRow(
    hash: Digest<Scorecard>,
    card: Scorecard,
    referenceSetHash: CaseSetHash,
    scoringPolicy: string,
    predecessorId: Option<ScorecardId>,
    predecessorHash: Option<Digest<Scorecard>>)

  // ---- Candidates, tasks, submissions, determinations --------------------------------

  datatype Queue = Queue(candidates: seq<Candidate>, sourceResultHash: string, sourceSubmissionHash: string)

  datatype Matcher = Matcher(version: string, configId: string)

  datatype CandidateRow = CandidateRow(
    candidate: Candidate,
    hash: Digest<Candidate>,
    state: Q.CandidateState,
    sourceResultHash: string,
    sourceSubmissionHash: string,
    matcher: Matcher,
    benchmark: BenchmarkKey)

  /** A candidate has at most one task per slot, so a task goes by its candidate and slot. */
  datatype TaskKey = TaskKey(candidateId: string, slot: D.Slot)

  datatype TaskStatus = TaskPending | TaskClaimed | TaskCompleted

  datatype TaskRow = TaskRow(status: TaskStatus, assignedTo: Option<string>)

  datatype SubmissionRow = SubmissionRow(decisionId: nat, task: TaskKey, decision: D.Decision)

  datatype Determination = Determination(
    determinationId: nat,
    candidateId: string,
    policy: D.PolicyResult,
    decisionIds: seq<nat>,
    snapshotHash: Digest<Candidate>,
    sourceResultHash: string,
    sourceSubmissionHash: string,
    matcher: Matcher,
    benchmark: BenchmarkKey,
    successor: Option<(string, CaseSetHash)>,
    predecessorScorecard: Option<(Option<ScorecardId>, Digest<Scorecard>)>,
    recomputedScorecard: Option<(Option<ScorecardId>, Digest<Scorecard>)>)

  datatype DeterminationRow = DeterminationRow(
    determinationId: nat,
    candidateId: string,
    determination: Determination,
    hash: Digest<Determination>,
    outcome: D.Outcome,
    finalized: bool,
    requiresTieBreak: bool)

  datatype Tables = Tables(
    candidates: map<string, CandidateRow>,
    tasks: map<TaskKey, TaskRow>,
    submissions: seq<SubmissionRow>,
    determinations: seq<DeterminationRow>,
    scorecards: map<ScorecardId, ScorecardRow>,
    benchmarks: map<BenchmarkKey, BenchmarkRow>,
    nextId: nat)

  const EMPTY := Tables(map[], map[], [], [], map[], map[], 0)

  datatype ServiceError =
    | ScorecardIdRequired | ScorecardDiffers | BenchmarkDiffers | CandidateDiffers | IntegrityError
    | NotFound | NotPending | AlreadyAdjudicated | NotAssigned | NotClaimed | AlreadyFinalized
    | PolicyRefused(policy: D.PolicyError)
    | FactoryRaised | OriginalNotImmutable | WrongSuccessor

  type Outcome = Result<Tables, ServiceError>

  // ---- Registering scorecards and benchmarks -----------------------------------------

  const SCORING_POLICY_VERSION := "scoring-policy-v0.1"

  function ScorecardRowOf(card: Scorecard): ScorecardRow {
    ScorecardRow(DigestOf(card), card,
      if card.referenceSetHash.Some? then card.referenceSetHash.value else card.result.benchmark.caseSetHash,
      if card.scoringPolicy.Some? && card.scoringPolicy.value != "" then card.scoringPolicy.value else SCORING_POLICY_VERSION,
      card.predecessorId, card.predecessorHash)
  }

  function RegisterScorecard(t: Tables, card: Scorecard): Outcome {
    if card.scorecardId.None? then Err(ScorecardIdRequired)
    else
      var id := card.scorecardId.value;
      if id in t.scorecards then (if t.scorecards[id].hash != DigestOf(card) then Err(ScorecardDiffers) else Ok(t))
      else Ok(t.(scorecards := t.scorecards[id := ScorecardRowOf(card)]))
  }

  function RegisterBenchmark(t: Tables, manifest: Manifest, predecessor: Option<string>, determinationId: Option<nat>): Outcome {
    var key := BenchmarkKey(manifest.benchmarkId, manifest.version);
    if key in t.benchmarks then
      if t.benchmarks[key].caseSetHash != manifest.caseSetHash then Err(BenchmarkDiffers) else Ok(t)
    else
      Ok(t.(benchmarks := t.benchmarks[key := BenchmarkRow(manifest, manifest.caseSetHash, predecessor, determinationId)]))
  }

  // ---- Ingesting a queue -------------------------------------------------------------

  predicate TwoNeeded(c: Candidate) {
    D.RequiresTwoPrimaries(c.concern.severity)
  }

  predicate Differs(t: Tables, c: Candidate) {
    c.candidateId in t.candidates && t.candidates[c.candidateId].hash != DigestOf(c)
  }

  /** Two new rows with one key: the flush at the end of the call refuses them. */
  predicate RepeatsNew(t: Tables, cs: seq<Candidate>) {
    exists i, j :: 0 <= i < j < |cs| && cs[i].candidateId == cs[j].candidateId && cs[i].candidateId !in t.candidates
  }

  function SeededTasks(tasks: map<TaskKey, TaskRow>, c: Candidate): map<TaskKey, TaskRow> {
    var pending := TaskRow(TaskPending, None);
    var one := tasks[TaskKey(c.candidateId, D.Primary) := pending];
    if TwoNeeded(c) then one[TaskKey(c.candidateId, D.Secondary) := pending] else one
  }

  function AddCandidate(t: Tables, c: Candidate, q: Queue, matcher: Matcher, benchmark: BenchmarkKey, seedTasks: bool): Tables {
    if c.candidateId in t.candidates then t
    else
      t.(candidates := t.candidates[c.candidateId :=
           CandidateRow(c, DigestOf(c), c.state, q.sourceResultHash, q.sourceSubmissionHash, matcher, benchmark)],
         tasks := if seedTasks then SeededTasks(t.tasks, c) else t.tasks)
  }

  function AddCandidates(t: Tables, cs: seq<Candidate>, q: Queue, matcher: Matcher, benchmark: BenchmarkKey,
      seedTasks: bool): Tables
    decreases |cs|
  {
    if cs == [] then t
    else AddCandidates(AddCandidate(t, cs[0], q, matcher, benchmark, seedTasks), cs[1..], q, matcher, benchmark, seedTasks)
  }

  function IngestQueue(t: Tables, q: Queue, matcher: Matcher, benchmark: BenchmarkKey, seedTasks: bool): Outcome {
    if exists c :: c in q.candidates && Differs(t, c) then Err(CandidateDiffers)
    else if RepeatsNew(t, q.candidates) then Err(IntegrityError)
    else Ok(AddCandidates(t, q.candidates, q, matcher, benchmark, seedTasks))
  }

  // ---- Claiming ----------------------------------------------------------------------

  /** The decisions on a candidate in order of submission. */
  function Log(submissions: seq<SubmissionRow>, candidateId: string): seq<D.Decision> {
    if submissions == [] then []
    else
      (if submissions[0].task.candidateId == candidateId then [submissions[0].decision] else [])
      + Log(submissions[1..], candidateId)
  }

  function DecisionIds(submissions: seq<SubmissionRow>, candidateId: string): seq<nat> {
    if submissions == [] then []
    else
      (if submissions[0].task.candidateId == candidateId then [submissions[0].decisionId] else [])
      + DecisionIds(submissions[1..], candidateId)
  }

  predicate AdjudicatedBefore(log: seq<D.Decision>, actorId: string) {
    exists d :: d in D.Primaries(log) && d.adjudicatorId == actorId
  }

  function ClaimTask(t: Tables, key: TaskKey, actorId: string): Outcome {
    if key !in t.tasks then Err(NotFound)
    else if t.tasks[key].status != TaskPending then Err(NotPending)
    else if AdjudicatedBefore(Log(t.submissions, key.candidateId), actorId) then Err(AlreadyAdjudicated)
    else Ok(t.(tasks := t.tasks[key := TaskRow(TaskClaimed, Some(actorId))]))
  }

  // ---- Submitting a decision ---------------------------------------------------------

  /** What the caller's recompute factory makes of the successor benchmark, when there is one. */
  datatype Factory = NoFactory | Raises | Produces(result: EvaluatedResult)

  function StateFor(o: D.Outcome): Q.CandidateState {
    match o
    case Confirmed => Q.AcceptedNovel
    case Qualified => Q.StateQualified
    case Rejected => Q.StateRejected
    case Unresolved => Q.StateUnresolved
  }

  /** The finalized results recorded for a candidate, oldest first. */
  function Finals(rows: seq<DeterminationRow>, candidateId: string): seq<D.PolicyResult> {
    if rows == [] then []
    else
      (if rows[0].candidateId == candidateId && rows[0].finalized then [rows[0].determination.policy] else [])
      + Finals(rows[1..], candidateId)
  }

  predicate HasFinal(t: Tables, candidateId: string) {
    exists r :: r in t.determinations && r.candidateId == candidateId && r.finalized
  }

  /** The registered manifest of the candidate's benchmark, or a stub for it. */
  function BenchmarkFor(t: Tables, row: CandidateRow): Manifest {
    if row.benchmark in t.benchmarks then t.benchmarks[row.benchmark].manifest
    else Manifest(row.benchmark.benchmarkId, row.benchmark.version, [E.CaseRef(row.candidate.caseId, row.candidate.caseVersion, "case.json")],
      GivenCaseSet("0"), [])
  }

  function LastEight(s: string): string {
    if |s| <= 8 then s else s[|s| - 8..]
  }

  function BumpVersion(m: Manifest, version: string): Manifest {
    m.(version := version,
       caseSetHash := SuccessorCaseSet(m.benchmarkId, version, m.cases, m.version, m.caseSetHash),
       limitations := m.limitations + [m.version])
  }

  function SuccessorOf(m: Manifest, c: Candidate): Manifest {
    BumpVersion(m, m.version + "+novel-" + LastEight(c.candidateId))
  }

  function RecomputedScorecard(original: Scorecard, successor: Manifest,
      updated: EvaluatedResult): Result<Scorecard, ServiceError> {
    if !original.immutable then Err(OriginalNotImmutable)
    else if updated.benchmark.version != successor.version || updated.benchmark.caseSetHash != successor.caseSetHash then
      Err(WrongSuccessor)
    else
      var result := updated.(predecessorResultId := Some(original.result.resultId),
        scoringPolicy := Some(SCORING_POLICY_VERSION), benchmark := successor);
      var provisional := Scorecard(None, result, original.scorecardId, Some(DigestOf(original)),
        Some(successor.caseSetHash), Some(SCORING_POLICY_VERSION), true);
      Ok(provisional.(scorecardId := Some(Derived(provisional))))
  }

  datatype Published = Published(tables: Tables, successor: Option<Manifest>, recomputed: Option<Scorecard>)

  /** What a final confirmation with a scorecard publishes: a successor benchmark and, given a
      factory, a scorecard recomputed on it. */
  function Publish(t: Tables, benchmark: Manifest, c: Candidate, original: Scorecard, factory: Factory,
      determinationId: nat): Result<Published, ServiceError> {
    var successor := SuccessorOf(benchmark, c);
    match RegisterBenchmark(t, successor, Some(benchmark.version), Some(determinationId))
    case Err(e) => Err(e)
    case Ok(registered) =>
      match factory
      case NoFactory => Ok(Published(registered, Some(successor), None))
      case Raises => Err(FactoryRaised)
      case Produces(updated) =>
        match RecomputedScorecard(original, successor, updated)
        case Err(e) => Err(e)
        case Ok(card) =>
          match RegisterScorecard(registered, card)
          case Err(e) => Err(e)
          case Ok(both) => Ok(Published(both, Some(successor), Some(card)))
  }

  function PublishIfConfirmed(t: Tables, policy: D.PolicyResult, benchmark: Manifest, c: Candidate,
      original: Option<Scorecard>, factory: Factory, determinationId: nat): Result<Published, ServiceError> {
    if policy.finalized && policy.outcome == D.Confirmed && original.Some? then
      Publish(t, benchmark, c, original.value, factory, determinationId)
    else Ok(Published(t, None, None))
  }

  function CardRef(card: Option<Scorecard>): Option<(Option<ScorecardId>, Digest<Scorecard>)> {
    if card.None? then None else Some((card.value.scorecardId, DigestOf(card.value)))
  }

  function DeterminationRowOf(t: Tables, row: CandidateRow, policy: D.PolicyResult, benchmark: Manifest,
      original: Option<Scorecard>, p: Published, id: nat): DeterminationRow {
    var c := row.candidate;
    var determination := Determination(id, c.candidateId, policy, DecisionIds(t.submissions, c.candidateId), DigestOf(c),
      row.sourceResultHash, row.sourceSubmissionHash, row.matcher, BenchmarkKey(benchmark.benchmarkId, benchmark.version),
      if p.successor.None? then None else Some((p.successor.value.version, p.successor.value.caseSetHash)),
      CardRef(original), CardRef(p.recomputed));
    DeterminationRow(id, c.candidateId, determination, DigestOf(determination), policy.outcome, policy.finalized,
      policy.requiresTieBreak)
  }

  function TieBreakTasks(tasks: map<TaskKey, TaskRow>, candidateId: string, policy: D.PolicyResult): map<TaskKey, TaskRow> {
    var key := TaskKey(candidateId, D.TieBreak);
    if policy.requiresTieBreak && key !in tasks then tasks[key := TaskRow(TaskPending, None)] else tasks
  }

  function StateColumn(candidates: map<string, CandidateRow>, candidateId: string,
      policy: D.PolicyResult): map<string, CandidateRow>
    requires candidateId in candidates
  {
    if policy.finalized then candidates[candidateId := candidates[candidateId].(state := StateFor(policy.outcome))]
    else candidates
  }

  function Recompute(t: Tables, candidateId: string, original: Option<Scorecard>, factory: Factory): Outcome
    requires candidateId in t.candidates
  {
    var row := t.candidates[candidateId];
    match D.DetermineNovel(Log(t.submissions, candidateId), TwoNeeded(row.candidate))
    case Err(e) => Err(PolicyRefused(e))
    case Ok(policy) =>
      var benchmark := BenchmarkFor(t, row);
      match PublishIfConfirmed(t, policy, benchmark, row.candidate, original, factory, t.nextId)
      case Err(e) => Err(e)
      case Ok(p) =>
        Ok(t.(scorecards := p.tables.scorecards,
              benchmarks := p.tables.benchmarks,
              tasks := TieBreakTasks(t.tasks, row.candidate.candidateId, policy),
              determinations := t.determinations + [DeterminationRowOf(t, row, policy, benchmark, original, p, t.nextId)],
              candidates := StateColumn(t.candidates, candidateId, policy),
              nextId := t.nextId + 1))
  }

  datatype Verdict = Verdict(validity: D.Outcome, severity: M.Severity)

  function Recorded(t: Tables, key: TaskKey, actorId: string, verdict: Verdict): Tables {
    t.(submissions := t.submissions
         + [SubmissionRow(t.nextId, key, D.Decision(actorId, key.slot, verdict.validity, verdict.severity))],
       tasks := t.tasks[key := TaskRow(TaskCompleted, Some(actorId))],
       nextId := t.nextId + 1)
  }

  function SubmitDecision(t: Tables, key: TaskKey, actorId: string, verdict: Verdict, original: Option<Scorecard>,
      factory: Factory): Outcome {
    if key !in t.tasks then Err(NotFound)
    else if t.tasks[key].assignedTo != Some(actorId) then Err(NotAssigned)
    else if t.tasks[key].status != TaskClaimed then Err(NotClaimed)
    else if key.candidateId !in t.candidates then Err(NotFound)
    else if HasFinal(t, key.candidateId) then Err(AlreadyFinalized)
    else Recompute(Recorded(t, key, actorId, verdict), key.candidateId, original, factory)
  }

  // ---- Runs --------------------------------------------------------------------------

  datatype Step =
    | StepScorecard(card: Scorecard)
    | StepBenchmark(manifest: Manifest, predecessor: Option<string>, determinationId: Option<nat>)
    | StepIngest(queue: Queue, matcher: Matcher, benchmark: BenchmarkKey, seedTasks: bool)
    | StepClaim(key: TaskKey, actorId: string)
    | StepSubmit(key: TaskKey, actorId: string, verdict: Verdict, original: Option<Scorecard>, factory: Factory)

  function Execute(t: Tables, step: Step): Outcome {
    match step
    case StepScorecard(card) => RegisterScorecard(t, card)
    case StepBenchmark(manifest, predecessor, id) => RegisterBenchmark(t, manifest, predecessor, id)
    case StepIngest(queue, matcher, benchmark, seedTasks) => IngestQueue(t, queue, matcher, benchmark, seedTasks)
    case StepClaim(key, actorId) => ClaimTask(t, key, actorId)
    case StepSubmit(key, actorId, verdict, original, factory) => SubmitDecision(t, key, actorId, verdict, original, factory)
  }

  /** A failed step changes nothing. */
  function Apply(t: Tables, step: Step): Tables {
    var r := Execute(t, step);
    if r.Ok? then r.value else t
  }

  function Run(t: Tables, steps: seq<Step>): Tables
    decreases |steps|
  {
    if steps == [] then t else Run(Apply(t, steps[0]), steps[1..])
  }
}
