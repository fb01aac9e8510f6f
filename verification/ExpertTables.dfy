/** The tables of the expert programme and what each service call makes of them. Principals, cases,
    artifacts and adjudication tasks are fixed; a failed call yields an error and no tables. Rows are
    known by their position, which stands for the fresh identifier each row is given. */
module ExpertTables {
  import opened Wrappers
  import M = Models
  import D = NovelDetermination
  import R = NovelRegistry

  // ---- The fixed surroundings --------------------------------------------------------

  datatype Judgment = Judgment(validity: D.Outcome, severity: M.Severity)

  datatype CaseConcern = CaseConcern(caseId: string, caseVersion: string, concernId: string) {
    function Key(): (string, string) { (caseId, caseVersion) }
  }

  datatype ConcernFile = ConcernFile(domain: string, references: seq<Judgment>, evidence: set<string>)

  datatype Rights = Public | Contributed | Confidential | Restricted

  datatype Artifact = Artifact(createdBy: string, rights: Rights)

  datatype AdjudicationTask = AdjudicationTask(assignedTo: Option<string>, completed: bool)

  datatype WorldFields = World(
    principals: set<string>,
    adjudicators: set<string>,
    artifacts: map<string, Artifact>,
    cases: map<(string, string), map<string, ConcernFile>>,
    adjudicationTasks: map<nat, AdjudicationTask>,
    paidRatesSet: bool,
    expiryDays: map<string, nat>)

  type World = w: WorldFields | w.adjudicators <= w.principals
    witness World({}, {}, map[], map[], map[], false, map[])

  // ---- Rows --------------------------------------------------------------------------

  datatype ExpertStatus = InCalibration | Eligible

  datatype Profile = Profile(publicAttribution: bool, attributionName: Option<string>, currency: string, status: ExpertStatus)

  datatype CalibrationSet = CalibrationSet(
    domain: string, refs: seq<CaseConcern>, minCases: nat, passThreshold: real, maxFalseCritical: nat, active: bool)

  /** Counts over the tasks of an attempt. */
  datatype Tally = Tally(count: nat, validityCorrect: nat, severityCorrect: nat, distance: nat, falseCritical: nat)

  datatype Score = Score(
    completedCases: nat, validityAccuracy: real, severityAccuracy: real, meanDistance: real, falseCritical: nat,
    aggregate: real, passed: bool)

  datatype AttemptStatus = InProgress | Completed

  datatype Attempt = Attempt(setId: nat, adjudicatorId: string, status: AttemptStatus, score: Option<Score>, passed: Option<bool>)

  datatype CalibrationTask = CalibrationTask(attemptId: nat, ref: CaseConcern, status: R.TaskStatus)

  datatype CalibrationSubmission = CalibrationSubmission(adjudicatorId: string, decision: Judgment, hash: R.Digest<Judgment>)

  datatype QualificationStatus = Active | Expired

  datatype Qualification = Qualification(
    actorId: string, domain: string, status: QualificationStatus, sourceAttempt: nat, expiresAt: int)

  datatype Calibration = Calibration(
    sets: seq<CalibrationSet>,
    attempts: seq<Attempt>,
    tasks: seq<CalibrationTask>,
    submissions: map<nat, CalibrationSubmission>,
    qualifications: seq<Qualification>)

  datatype Use = OperationalProcessing | Retention | ExpertAdjudication | BenchmarkEvaluation | PublicRelease | OpenModelTraining

  datatype IntakeStatus = Submitted | NeedsChanges | Accepted | IntakeRejected

  datatype Intake = Intake(
    submittedBy: string, artifact: string, domain: string, uses: set<Use>, redistribution: bool, status: IntakeStatus,
    reviewedBy: Option<string>)

  datatype ClaimTask = ClaimTask(intakeId: nat, slot: D.Slot, status: R.TaskStatus, assignedTo: Option<string>, anchors: set<string>)

  datatype Claim = Claim(statement: string, anchorIds: set<string>)

  datatype ClaimSubmission = ClaimSubmission(taskId: nat, intakeId: nat, adjudicatorId: string, claim: Claim, hash: R.Digest<Claim>)

  datatype ClaimStatus = ClaimAccepted | NeedsTieBreak | ClaimUnresolved | ClaimRejected

  datatype ClaimDetermination = ClaimDetermination(intakeId: nat, status: ClaimStatus, canonical: Option<Claim>, submissionIds: seq<nat>)

  datatype Claims = Claims(
    intakes: seq<Intake>,
    tasks: seq<ClaimTask>,
    submissions: seq<ClaimSubmission>,
    determinations: seq<ClaimDetermination>)

  datatype CreditTarget = CalibrationCase(taskId: nat) | Reconstruction(submissionId: nat)

  datatype Credit = Credit(actorId: string, target: CreditTarget, publicName: Option<string>, public: bool)

  datatype TaskRef = OfAdjudication(taskId: nat) | OfCalibration(taskId: nat) | OfClaim(taskId: nat)

  datatype CompensationStatus = Approved | Paid | Cancelled

  datatype Compensation = Compensation(
    actorId: string, task: TaskRef, amount: int, currency: string, status: CompensationStatus, paidAt: Option<int>)

  datatype Program = Program(
    profiles: map<string, Profile>,
    calibration: Calibration,
    claims: Claims,
    credits: seq<Credit>,
    compensations: seq<Compensation>)

  const EMPTY := Program(map[], Calibration([], [], [], map[], []), Claims([], [], [], []), [], [])

  datatype ProgramError =
    | NotAdjudicator | CaseNotFound | ConcernNotFound | WrongDomain | TooFewReferences | NoConsensus
    | ProfileRequired | SetNotFound | IntegrityError
    | TaskNotFound | NotYours | TaskNotOpen | AnchorsNotReviewed | NoEvidenceCited | UnknownEvidence | ConflictUndisclosed
    | Disqualified | ReferenceMissing | UnknownDomain
    | ArtifactMissing | RightsMismatch | IntakeNotFound | IntakeClosed | IntakeNotAccepted | UseNotGranted
    | NoEligibleTask | UnknownAnchors | UnknownSubmissions | TwoReconstructionsNeeded
    | RatesUnset | NotCompleted | CompensationNotFound | CompensationFinal

  type Outcome = Result<Program, ProgramError>

  // ---- Profiles ----------------------------------------------------------------------

  predicate HasText(s: string) {
    exists c :: c in s && c !in " \t\r\n"
  }

  predicate Named(name: Option<string>) {
    name.Some? && HasText(name.value)
  }

  datatype ProfileFields = ProfileInput(publicAttribution: bool, attributionName: Option<string>, currency: string)

  /** Public attribution needs a name. */
  type ProfileInput = d: ProfileFields | d.publicAttribution ==> Named(d.attributionName)
    witness ProfileInput(false, None, "EUR")

  function UpsertProfile(w: World, p: Program, actorId: string, data: ProfileInput): Outcome {
    if actorId !in w.adjudicators then Err(NotAdjudicator)
    else
      var status := if actorId in p.profiles then p.profiles[actorId].status else InCalibration;
      Ok(p.(profiles := p.profiles[actorId := Profile(data.publicAttribution, data.attributionName, data.currency, status)]))
  }

  // ---- Calibration sets --------------------------------------------------------------

  datatype SetFields = SetInput(
    domain: string, refs: seq<CaseConcern>, minCases: nat, passThreshold: real, maxFalseCritical: nat, active: bool)

  type SetInput = d: SetFields | 1 <= d.minCases <= |d.refs| && 0.0 <= d.passThreshold <= 1.0
    witness SetInput("", [CaseConcern("", "", "")], 1, 0.8, 0, true)

  predicate Consensus(js: seq<Judgment>) {
    forall i, j :: 0 <= i < j < |js| ==> js[i] == js[j]
  }

  function RefError(w: World, ref: CaseConcern, domain: string): Option<ProgramError> {
    if ref.Key() !in w.cases then Some(CaseNotFound)
    else if ref.concernId !in w.cases[ref.Key()] then Some(ConcernNotFound)
    else
      var file := w.cases[ref.Key()][ref.concernId];
      if file.domain != domain then Some(WrongDomain)
      else if |file.references| < 2 then Some(TooFewReferences)
      else if !Consensus(file.references) then Some(NoConsensus)
      else None
  }

  /** The first reference that is refused decides the error. */
  function RefsError(w: World, refs: seq<CaseConcern>, domain: string): Option<ProgramError> {
    if refs == [] then None
    else if RefError(w, refs[0], domain).Some? then RefError(w, refs[0], domain)
    else RefsError(w, refs[1..], domain)
  }

  function CreateSet(w: World, p: Program, data: SetInput): Outcome {
    var e := RefsError(w, data.refs, data.domain);
    if e.Some? then Err(e.value)
    else
      Ok(p.(calibration := p.calibration.(sets := p.calibration.sets
        + [CalibrationSet(data.domain, data.refs, data.minCases, data.passThreshold, data.maxFalseCritical, data.active)])))
  }

  // ---- Attempts ----------------------------------------------------------------------

  predicate InProgressAttempt(a: Attempt, setId: nat, actorId: string) {
    a.setId == setId && a.adjudicatorId == actorId && a.status == InProgress
  }

  /** Two tasks of one attempt on one concern are refused by the table. */
  predicate RepeatsConcern(refs: seq<CaseConcern>) {
    exists i, j :: 0 <= i < j < |refs| && refs[i].concernId == refs[j].concernId
  }

  function TasksFor(attemptId: nat, refs: seq<CaseConcern>): seq<CalibrationTask> {
    seq(|refs|, i requires 0 <= i < |refs| => CalibrationTask(attemptId, refs[i], R.TaskPending))
  }

  function StartCalibration(p: Program, setId: nat, actorId: string): Outcome {
    var c := p.calibration;
    if actorId !in p.profiles then Err(ProfileRequired)
    else if setId >= |c.sets| || !c.sets[setId].active then Err(SetNotFound)
    else if exists a :: a in c.attempts && InProgressAttempt(a, setId, actorId) then Ok(p)
    else if RepeatsConcern(c.sets[setId].refs) then Err(IntegrityError)
    else
      Ok(p.(calibration := c.(
        attempts := c.attempts + [Attempt(setId, actorId, InProgress, None, None)],
        tasks := c.tasks + TasksFor(|c.attempts|, c.sets[setId].refs))))
  }

  // ---- Scoring an attempt ------------------------------------------------------------

  /** The most common element, the earliest of several. */
  function MostCommon<T(==)>(xs: seq<T>): T
    requires xs != []
  {
    if |xs| == 1 then xs[0]
    else
      var best := MostCommon(xs[..|xs| - 1]);
      if CountOf(xs, xs[|xs| - 1]) > CountOf(xs, best) then xs[|xs| - 1] else best
  }

  function Validities(js: seq<Judgment>): seq<D.Outcome> {
    seq(|js|, i requires 0 <= i < |js| => js[i].validity)
  }

  function Severities(js: seq<Judgment>): seq<M.Severity> {
    seq(|js|, i requires 0 <= i < |js| => js[i].severity)
  }

  function ReferenceDecision(w: World, ref: CaseConcern): Option<Judgment> {
    if ref.Key() !in w.cases || ref.concernId !in w.cases[ref.Key()] then None
    else
      var js := w.cases[ref.Key()][ref.concernId].references;
      if js == [] then None else Some(Judgment(MostCommon(Validities(js)), MostCommon(Severities(js))))
  }

  const ZERO := Tally(0, 0, 0, 0, 0)

  function AddJudgment(t: Tally, given: Judgment, reference: Judgment): Tally {
    Tally(t.count + 1,
      t.validityCorrect + if given.validity == reference.validity then 1 else 0,
      t.severityCorrect + if given.severity == reference.severity then 1 else 0,
      t.distance + D.Gap(given.severity, reference.severity),
      t.falseCritical + if given.severity == M.Critical && reference.severity != M.Critical then 1 else 0)
  }

  /** The tally of an attempt over the tasks before n. */
  function TallyUpTo(w: World, c: Calibration, attemptId: nat, n: nat): Result<Tally, ProgramError>
    requires n <= |c.tasks|
  {
    if n == 0 then Ok(ZERO)
    else
      match TallyUpTo(w, c, attemptId, n - 1)
      case Err(e) => Err(e)
      case Ok(t) =>
        if c.tasks[n - 1].attemptId != attemptId then Ok(t)
        else if n - 1 !in c.submissions || ReferenceDecision(w, c.tasks[n - 1].ref).None? then Err(ReferenceMissing)
        else Ok(AddJudgment(t, c.submissions[n - 1].decision, ReferenceDecision(w, c.tasks[n - 1].ref).value))
  }

  function Aggregate(t: Tally): real
    requires t.count > 0
  {
    0.75 * (t.validityCorrect as real / t.count as real) + 0.25 * (1.0 - t.distance as real / t.count as real / 4.0)
  }

  predicate Passes(t: Tally, s: CalibrationSet)
    requires t.count > 0
  {
    t.count >= s.minCases && Aggregate(t) >= s.passThreshold && t.falseCritical <= s.maxFalseCritical
  }

  function ScoreOf(t: Tally, s: CalibrationSet): Score
    requires t.count > 0
  {
    Score(t.count, t.validityCorrect as real / t.count as real, t.severityCorrect as real / t.count as real,
      t.distance as real / t.count as real, t.falseCritical, Aggregate(t), Passes(t, s))
  }

  predicate HasTask(c: Calibration, attemptId: nat) {
    exists i :: 0 <= i < |c.tasks| && c.tasks[i].attemptId == attemptId
  }

  predicate AllSubmitted(c: Calibration, attemptId: nat) {
    forall i :: 0 <= i < |c.tasks| && c.tasks[i].attemptId == attemptId ==> c.tasks[i].status == R.TaskCompleted
  }

  predicate HoldsActive(qs: seq<Qualification>, actorId: string, domain: string) {
    exists q :: q in qs && q.actorId == actorId && q.domain == domain && q.status == Active
  }

  /** The qualifications after a passed attempt: a new one unless one is active. */
  function Qualified(w: World, qs: seq<Qualification>, actorId: string, domain: string, attemptId: nat,
      now: int): Result<seq<Qualification>, ProgramError> {
    if HoldsActive(qs, actorId, domain) then Ok(qs)
    else if domain !in w.expiryDays then Err(UnknownDomain)
    else Ok(qs + [Qualification(actorId, domain, Active, attemptId, now + w.expiryDays[domain])])
  }

  function WithStatus(profiles: map<string, Profile>, actorId: string, status: ExpertStatus): map<string, Profile> {
    if actorId in profiles then profiles[actorId := profiles[actorId].(status := status)] else profiles
  }

  function Scored(p: Program, attemptId: nat, score: Score): Calibration
    requires attemptId < |p.calibration.attempts|
  {
    var c := p.calibration;
    c.(attempts := c.attempts[attemptId :=
         c.attempts[attemptId].(status := Completed, score := Some(score), passed := Some(score.passed))])
  }

  /** Scores the attempt once none of its tasks is open. */
  function CompleteIfReady(w: World, p: Program, attemptId: nat, now: int): Outcome
    requires attemptId < |p.calibration.attempts|
  {
    var c, attempt := p.calibration, p.calibration.attempts[attemptId];
    if !HasTask(c, attemptId) || !AllSubmitted(c, attemptId) then Ok(p)
    else if attempt.setId >= |c.sets| then Err(SetNotFound)
    else
      match TallyUpTo(w, c, attemptId, |c.tasks|)
      case Err(e) => Err(e)
      case Ok(t) =>
        if t.count == 0 then Ok(p)
        else
          var set_, score := c.sets[attempt.setId], ScoreOf(t, c.sets[attempt.setId]);
          if !score.passed then
            Ok(p.(calibration := Scored(p, attemptId, score), profiles := WithStatus(p.profiles, attempt.adjudicatorId, InCalibration)))
          else
            match Qualified(w, c.qualifications, attempt.adjudicatorId, set_.domain, attemptId, now)
            case Err(e) => Err(e)
            case Ok(qs) =>
              Ok(p.(calibration := Scored(p, attemptId, score).(qualifications := qs),
                    profiles := WithStatus(p.profiles, attempt.adjudicatorId, Eligible)))
  }

  // ---- Credit ------------------------------------------------------------------------

  function RecordCredit(p: Program, actorId: string, target: CreditTarget): Program {
    if exists c :: c in p.credits && c.actorId == actorId && c.target == target then p
    else
      var known := actorId in p.profiles;
      p.(credits := p.credits + [Credit(actorId, target,
        if known then p.profiles[actorId].attributionName else None, known && p.profiles[actorId].publicAttribution)])
  }

  // ---- Submitting a calibration judgment ---------------------------------------------

  datatype Disclosure = NoConflict | DisclosedConflict(described: bool) | DisqualifyingConflict

  datatype CalibrationInput = CalibrationInput(
    decision: Judgment, evidence: set<string>, followupRequested: bool, anchorsReviewed: bool, conflict: Disclosure)

  function InputError(w: World, ref: CaseConcern, data: CalibrationInput): Option<ProgramError> {
    if !data.anchorsReviewed then Some(AnchorsNotReviewed)
    else if data.evidence == {} && !data.followupRequested then Some(NoEvidenceCited)
    else if ref.Key() !in w.cases then Some(CaseNotFound)
    else if !(data.evidence <= if ref.concernId in w.cases[ref.Key()] then w.cases[ref.Key()][ref.concernId].evidence else {}) then
      Some(UnknownEvidence)
    else
      match data.conflict
      case NoConflict => None
      case DisclosedConflict(described) => if described then None else Some(ConflictUndisclosed)
      case DisqualifyingConflict => Some(Disqualified)
  }

  function Recorded(c: Calibration, taskId: nat, actorId: string, decision: Judgment): Calibration
    requires taskId < |c.tasks|
  {
    c.(tasks := c.tasks[taskId := c.tasks[taskId].(status := R.TaskCompleted)],
       submissions := c.submissions[taskId := CalibrationSubmission(actorId, decision, R.DigestOf(decision))])
  }

  function SubmitCalibration(w: World, p: Program, taskId: nat, data: CalibrationInput, actorId: string, now: int): Outcome {
    var c := p.calibration;
    if taskId >= |c.tasks| then Err(TaskNotFound)
    else
      var task := c.tasks[taskId];
      if task.attemptId >= |c.attempts| || c.attempts[task.attemptId].adjudicatorId != actorId then Err(NotYours)
      else if task.status != R.TaskPending then Err(TaskNotOpen)
      else if InputError(w, task.ref, data).Some? then Err(InputError(w, task.ref, data).value)
      else
        match CompleteIfReady(w, p.(calibration := Recorded(c, taskId, actorId, data.decision)), task.attemptId, now)
        case Err(e) => Err(e)
        case Ok(q) => Ok(RecordCredit(q, actorId, CalibrationCase(taskId)))
  }

  // ---- Intakes -----------------------------------------------------------------------

  const PUBLIC_USES := {PublicRelease, OpenModelTraining}

  datatype IntakeFields = IntakeInput(artifact: string, domain: string, rights: Rights, uses: set<Use>, redistribution: bool)

  type IntakeInput = d: IntakeFields |
      && d.uses != {}
      && (d.uses * PUBLIC_USES != {} ==> d.redistribution)
      && (d.rights in {Confidential, Restricted} ==> !d.redistribution)
    witness IntakeInput("", "", Public, {Retention}, false)

  function CreateIntake(w: World, p: Program, data: IntakeInput, actorId: string, isManager: bool): Outcome {
    if data.artifact !in w.artifacts then Err(ArtifactMissing)
    else if !isManager && w.artifacts[data.artifact].createdBy != actorId then Err(NotYours)
    else if w.artifacts[data.artifact].rights != data.rights then Err(RightsMismatch)
    else
      Ok(p.(claims := p.claims.(intakes := p.claims.intakes
        + [Intake(actorId, data.artifact, data.domain, data.uses, data.redistribution, Submitted, None)])))
  }

  datatype Review = AcceptIntake | AskForChanges | RejectIntake

  function StatusAfter(review: Review): IntakeStatus {
    match review
    case AcceptIntake => Accepted
    case AskForChanges => NeedsChanges
    case RejectIntake => IntakeRejected
  }

  function ReviewIntake(p: Program, intakeId: nat, review: Review, actorId: string): Outcome {
    var k := p.claims;
    if intakeId >= |k.intakes| then Err(IntakeNotFound)
    else if k.intakes[intakeId].status == IntakeRejected then Err(IntakeClosed)
    else
      Ok(p.(claims := k.(intakes := k.intakes[intakeId :=
        k.intakes[intakeId].(status := StatusAfter(review), reviewedBy := Some(actorId))])))
  }

  // ---- Claim reconstruction ----------------------------------------------------------

  function NewClaimTask(intakeId: nat, slot: D.Slot, anchors: set<string>): ClaimTask {
    ClaimTask(intakeId, slot, R.TaskPending, None, anchors)
  }

  function SeedClaimTasks(p: Program, intakeId: nat, anchors: set<string>): Outcome {
    var k := p.claims;
    if intakeId >= |k.intakes| then Err(IntakeNotFound)
    else if k.intakes[intakeId].status != Accepted then Err(IntakeNotAccepted)
    else if ExpertAdjudication !in k.intakes[intakeId].uses then Err(UseNotGranted)
    else if exists t :: t in k.tasks && t.intakeId == intakeId then Ok(p)
    else
      Ok(p.(claims := k.(tasks := k.tasks
        + [NewClaimTask(intakeId, D.Primary, anchors), NewClaimTask(intakeId, D.Secondary, anchors)])))
  }

  predicate SetActive(sets: seq<CalibrationSet>, domain: string) {
    exists s :: s in sets && s.domain == domain && s.active
  }

  predicate Due(q: Qualification, actorId: string, domain: string, now: int) {
    q.actorId == actorId && q.domain == domain && q.status == Active && q.expiresAt <= now
  }

  /** Checking a qualification marks the expired ones. */
  function ExpireDue(qs: seq<Qualification>, actorId: string, domain: string, now: int): seq<Qualification> {
    seq(|qs|, i requires 0 <= i < |qs| => if Due(qs[i], actorId, domain, now) then qs[i].(status := Expired) else qs[i])
  }

  /** Whether the adjudicator may work in the domain, and the calibration tables after looking. */
  function CheckQualified(c: Calibration, actorId: string, domain: string, now: int): (bool, Calibration) {
    if !SetActive(c.sets, domain) then (true, c)
    else
      var qs := ExpireDue(c.qualifications, actorId, domain, now);
      (HoldsActive(qs, actorId, domain), c.(qualifications := qs))
  }

  predicate HoldsAnother(tasks: seq<ClaimTask>, taskId: nat, actorId: string)
    requires taskId < |tasks|
  {
    exists j :: 0 <= j < |tasks| && j != taskId && tasks[j].intakeId == tasks[taskId].intakeId
      && tasks[j].assignedTo == Some(actorId) && tasks[j].status in {R.TaskClaimed, R.TaskCompleted}
  }

  /** Takes the first pending task from position i on that the adjudicator may hold. */
  function TakeFrom(p: Program, i: nat, actorId: string, now: int): Outcome
    decreases |p.claims.tasks| - i
  {
    var k := p.claims;
    if i >= |k.tasks| then Err(NoEligibleTask)
    else
      var task := k.tasks[i];
      if task.status != R.TaskPending then TakeFrom(p, i + 1, actorId, now)
      else if task.intakeId >= |k.intakes| || k.intakes[task.intakeId].status != Accepted then TakeFrom(p, i + 1, actorId, now)
      else
        var (qualified, c) := CheckQualified(p.calibration, actorId, k.intakes[task.intakeId].domain, now);
        var checked := p.(calibration := c);
        if !qualified || HoldsAnother(k.tasks, i, actorId) then TakeFrom(checked, i + 1, actorId, now)
        else Ok(checked.(claims := k.(tasks := k.tasks[i := task.(status := R.TaskClaimed, assignedTo := Some(actorId))])))
  }

  /** Only adjudicators reach the endpoint. */
  function ClaimClaimTask(w: World, p: Program, actorId: string, now: int): Outcome {
    if actorId !in w.adjudicators then Err(NotAdjudicator) else TakeFrom(p, 0, actorId, now)
  }

  function SubmitClaim(p: Program, taskId: nat, claim: Claim, actorId: string): Outcome {
    var k := p.claims;
    if taskId >= |k.tasks| then Err(TaskNotFound)
    else
      var task := k.tasks[taskId];
      if task.assignedTo != Some(actorId) then Err(NotYours)
      else if task.status != R.TaskClaimed then Err(TaskNotOpen)
      else if !(claim.anchorIds <= task.anchors) then Err(UnknownAnchors)
      else
        var after := p.(claims := k.(
          submissions := k.submissions + [ClaimSubmission(taskId, task.intakeId, actorId, claim, R.DigestOf(claim))],
          tasks := k.tasks[taskId := task.(status := R.TaskCompleted)]));
        Ok(RecordCredit(after, actorId, Reconstruction(|k.submissions|)))
  }

  datatype DeterminationFields = DeterminationInput(status: ClaimStatus, canonical: Option<Claim>, submissionIds: seq<nat>)

  type DeterminationInput = d: DeterminationFields | d.status == ClaimAccepted ==> d.canonical.Some?
    witness DeterminationInput(ClaimUnresolved, None, [])

  predicate SubmissionOf(k: Claims, intakeId: nat, id: nat) {
    id < |k.submissions| && k.submissions[id].intakeId == intakeId
  }

  function SubmissionCount(ss: seq<ClaimSubmission>, intakeId: nat): nat {
    if ss == [] then 0 else (if ss[0].intakeId == intakeId then 1 else 0) + SubmissionCount(ss[1..], intakeId)
  }

  function DetermineClaim(p: Program, intakeId: nat, data: DeterminationInput): Outcome {
    var k := p.claims;
    if intakeId >= |k.intakes| then Err(IntakeNotFound)
    else if exists id :: id in data.submissionIds && !SubmissionOf(k, intakeId, id) then Err(UnknownSubmissions)
    else if SubmissionCount(k.submissions, intakeId) < 2 && data.status != ClaimUnresolved then Err(TwoReconstructionsNeeded)
    else
      Ok(p.(claims := k.(determinations := k.determinations
        + [ClaimDetermination(intakeId, data.status, data.canonical, data.submissionIds)])))
  }

  // ---- Compensation ------------------------------------------------------------------

  type PositiveInt = x: int | x > 0 witness 1

  datatype CompensationInput = CompensationInput(actorId: string, task: TaskRef, amount: PositiveInt, currency: string)

  /** Who did the task, if anyone holds it, and whether it is completed. */
  function TaskHolder(w: World, p: Program, task: TaskRef): (Option<string>, bool) {
    match task
    case OfAdjudication(id) =>
      if id in w.adjudicationTasks then (w.adjudicationTasks[id].assignedTo, w.adjudicationTasks[id].completed) else (None, false)
    case OfCalibration(id) =>
      if id < |p.calibration.tasks| then
        var t := p.calibration.tasks[id];
        (if t.attemptId < |p.calibration.attempts| then Some(p.calibration.attempts[t.attemptId].adjudicatorId) else None,
         t.status == R.TaskCompleted)
      else (None, false)
    case OfClaim(id) =>
      if id < |p.claims.tasks| then (p.claims.tasks[id].assignedTo, p.claims.tasks[id].status == R.TaskCompleted) else (None, false)
  }

  predicate Compensated(rows: seq<Compensation>, task: TaskRef) {
    exists r :: r in rows && r.task == task
  }

  function CreateCompensation(w: World, p: Program, data: CompensationInput): Outcome {
    var (holder, completed) := TaskHolder(w, p, data.task);
    if !w.paidRatesSet then Err(RatesUnset)
    else if holder.None? then Err(TaskNotFound)
    else if holder.value != data.actorId then Err(NotYours)
    else if !completed then Err(NotCompleted)
    else if Compensated(p.compensations, data.task) then Ok(p)
    else
      Ok(p.(compensations := p.compensations
        + [Compensation(data.actorId, data.task, data.amount, data.currency, Approved, None)]))
  }

  datatype Settlement = Pay | Cancel

  function Settled(row: Compensation, settlement: Settlement, now: int): Compensation {
    match settlement
    case Pay => row.(status := Paid, paidAt := Some(now))
    case Cancel => row.(status := Cancelled)
  }

  function UpdateCompensation(p: Program, id: nat, settlement: Settlement, now: int): Outcome {
    if id >= |p.compensations| then Err(CompensationNotFound)
    else if p.compensations[id].status != Approved then Err(CompensationFinal)
    else Ok(p.(compensations := p.compensations[id := Settled(p.compensations[id], settlement, now)]))
  }

  // ---- Runs --------------------------------------------------------------------------

  datatype Step =
    | StepProfile(actorId: string, profile: ProfileInput)
    | StepSet(data: SetInput)
    | StepStart(setId: nat, actorId: string)
    | StepCalibrate(taskId: nat, input: CalibrationInput, actorId: string, now: int)
    | StepIntake(intake: IntakeInput, actorId: string, isManager: bool)
    | StepReview(intakeId: nat, review: Review, actorId: string)
    | StepSeed(intakeId: nat, anchors: set<string>)
    | StepTake(actorId: string, now: int)
    | StepReconstruct(taskId: nat, claim: Claim, actorId: string)
    | StepDetermine(intakeId: nat, determination: DeterminationInput)
    | StepCompensate(compensation: CompensationInput)
    | StepSettle(compensationId: nat, settlement: Settlement, now: int)

  function Execute(w: World, p: Program, step: Step): Outcome {
    match step
    case StepProfile(actorId, profile) => UpsertProfile(w, p, actorId, profile)
    case StepSet(data) => CreateSet(w, p, data)
    case StepStart(setId, actorId) => StartCalibration(p, setId, actorId)
    case StepCalibrate(taskId, input, actorId, now) => SubmitCalibration(w, p, taskId, input, actorId, now)
    case StepIntake(intake, actorId, isManager) => CreateIntake(w, p, intake, actorId, isManager)
    case StepReview(intakeId, review, actorId) => ReviewIntake(p, intakeId, review, actorId)
    case StepSeed(intakeId, anchors) => SeedClaimTasks(p, intakeId, anchors)
    case StepTake(actorId, now) => ClaimClaimTask(w, p, actorId, now)
    case StepReconstruct(taskId, claim, actorId) => SubmitClaim(p, taskId, claim, actorId)
    case StepDetermine(intakeId, determination) => DetermineClaim(p, intakeId, determination)
    case StepCompensate(compensation) => CreateCompensation(w, p, compensation)
    case StepSettle(id, settlement, now) => UpdateCompensation(p, id, settlement, now)
  }

  /** A failed step changes nothing. */
  function Apply(w: World, p: Program, step: Step): Program {
    var r := Execute(w, p, step);
    if r.Ok? then r.value else p
  }

  function Run(w: World, p: Program, steps: seq<Step>): Program
    decreases |steps|
  {
    if steps == [] then p else Run(w, Apply(w, p, steps[0]), steps[1..])
  }
}
