/** The expert programme service over its tables: methods change rows in place and roll back when a call
    fails. */
module ExpertService {
  import opened Wrappers
  import D = NovelDetermination
  import R = NovelRegistry
  import opened ExpertTables
  import I = ExpertInvariant
  import C = ExpertConformance

  ghost predicate Reachable(w: World, p: Program) {
    exists steps :: Run(w, EMPTY, steps) == p
  }

  lemma {:induction false} RunSnoc(w: World, p: Program, steps: seq<Step>, step: Step)
    ensures Run(w, p, steps + [step]) == Apply(w, Run(w, p, steps), step)
    decreases |steps|
  {
    if steps == [] {
      assert steps + [step] == [step] && [step][1..] == [];
    } else {
      assert (steps + [step])[1..] == steps[1..] + [step];
      RunSnoc(w, Apply(w, p, steps[0]), steps[1..], step);
    }
  }

  lemma ReachableStep(w: World, p: Program, step: Step)
    ensures Reachable(w, p) ==> Reachable(w, Apply(w, p, step))
  {
    if Reachable(w, p) {
      var steps :| Run(w, EMPTY, steps) == p;
      RunSnoc(w, EMPTY, steps, step);
      assert Run(w, EMPTY, steps + [step]) == Apply(w, p, step);
    }
  }

  /** What a run reaches satisfies the invariant of the tables. */
  lemma ReachableIsGood(w: World, p: Program)
    requires Reachable(w, p)
    ensures I.Good(w, p)
  {
    var steps :| Run(w, EMPTY, steps) == p;
    I.RunsAreGood(w, steps);
  }

  lemma ReachableCalibrates(w: World, p: Program, taskId: nat, data: CalibrationInput, actorId: string, now: int)
    requires Reachable(w, p)
    ensures var r := SubmitCalibration(w, p, taskId, data, actorId, now);
      r.Err? ==> r.error !in {ReferenceMissing, SetNotFound}
  {
    ReachableIsGood(w, p);
    I.CalibrateKeepsGood(w, p, taskId, data, actorId, now);
  }

  /** The conformance audit of reachable tables finds nothing. */
  method AuditReachable(w: World, p: Program) returns (failures: seq<C.Failure>)
    requires Reachable(w, p)
    ensures failures == []
  {
    ReachableIsGood(w, p);
    failures := C.AuditExpertProgram(w, p);
    forall f ensures f !in failures {
      C.NoFault(w, p, f);
    }
    NothingIn(failures);
  }

  /** The call did what the step does: the new tables, or the error and the old ones. */
  predicate Follows(before: Program, outcome: Outcome, after: Program, raised: Option<ProgramError>) {
    match outcome
    case Ok(p) => after == p && raised.None?
    case Err(e) => after == before && raised == Some(e)
  }

  lemma {:induction false} TallyErrorStays(w: World, c: Calibration, a: nat, n: nat, m: nat)
    requires n <= m <= |c.tasks| && TallyUpTo(w, c, a, n).Err?
    ensures TallyUpTo(w, c, a, m) == TallyUpTo(w, c, a, n)
  {
    if n < m {
      TallyErrorStays(w, c, a, n, m - 1);
    }
  }

  lemma RefsErrorAt(w: World, refs: seq<CaseConcern>, domain: string, i: nat)
    requires i <= |refs|
    ensures RefsError(w, refs[i..], domain)
         == if i == |refs| then None
            else if RefError(w, refs[i], domain).Some? then RefError(w, refs[i], domain)
            else RefsError(w, refs[i + 1..], domain)
  {
    if i < |refs| {
      assert refs[i..][1..] == refs[i + 1..];
    }
  }

  /** Valid objects hold tables that some run of service calls reaches. */
  class ExpertProgramService {
    const w: World
    var profiles: map<string, Profile>
    var sets: seq<CalibrationSet>
    var attempts: seq<Attempt>
    var tasks: seq<CalibrationTask>
    var submissions: map<nat, CalibrationSubmission>
    var qualifications: seq<Qualification>
    var intakes: seq<Intake>
    var claimTasks: seq<ClaimTask>
    var claimSubmissions: seq<ClaimSubmission>
    var claimDeterminations: seq<ClaimDetermination>
    var credits: seq<Credit>
    var compensations: seq<Compensation>

    function State(): Program
      reads this
    {
      Program(profiles, Calibration(sets, attempts, tasks, submissions, qualifications),
        Claims(intakes, claimTasks, claimSubmissions, claimDeterminations), credits, compensations)
    }

    ghost predicate Valid()
      reads this
    {
      Reachable(w, State())
    }

    constructor (world: World)
      ensures Valid() && w == world && State() == EMPTY
    {
      w := world;
      profiles, sets, attempts, tasks, submissions, qualifications := map[], [], [], [], map[], [];
      intakes, claimTasks, claimSubmissions, claimDeterminations := [], [], [], [];
      credits, compensations := [], [];
      new;
      assert Run(w, EMPTY, []) == EMPTY;
    }

    /** Everything the call did so far is undone. */
    method Rollback(saved: Program)
      modifies this
      ensures State() == saved
    {
      var c, k := saved.calibration, saved.claims;
      profiles, credits, compensations := saved.profiles, saved.credits, saved.compensations;
      sets, attempts, tasks, submissions, qualifications := c.sets, c.attempts, c.tasks, c.submissions, c.qualifications;
      intakes, claimTasks, claimSubmissions, claimDeterminations := k.intakes, k.tasks, k.submissions, k.determinations;
      assert State().calibration == c && State().claims == k;
    }

    /** The repository's conformance audit of the tables in place. */
    method Audit() returns (failures: seq<C.Failure>)
      requires Valid()
      ensures failures == []
    {
      failures := AuditReachable(w, State());
    }

    // ---- Profiles and calibration ----------------------------------------------------

    method UpsertProfile(actorId: string, data: ProfileInput) returns (raised: Option<ProgramError>)
      requires Valid()
      modifies this`profiles
      ensures Valid()
      ensures Follows(old(State()), Execute(w, old(State()), StepProfile(actorId, data)), State(), raised)
    {
      ReachableStep(w, State(), StepProfile(actorId, data));
      if actorId !in w.adjudicators {
        return Some(NotAdjudicator);
      }
      if actorId !in profiles {
        profiles := profiles[actorId := Profile(data.publicAttribution, data.attributionName, data.currency, InCalibration)];
      } else {
        profiles := profiles[actorId := profiles[actorId].(publicAttribution := data.publicAttribution,
                                                             attributionName := data.attributionName,
                                                             currency := data.currency)];
      }
      raised := None;
    }

    method FirstRefusal(refs: seq<CaseConcern>, domain: string) returns (refused: Option<ProgramError>)
      ensures refused == RefsError(w, refs, domain)
    {
      assert refs[0..] == refs;
      for i := 0 to |refs|
        invariant RefsError(w, refs, domain) == RefsError(w, refs[i..], domain)
      {
        RefsErrorAt(w, refs, domain, i);
        refused := RefError(w, refs[i], domain);
        if refused.Some? {
          return;
        }
      }
      refused := None;
    }

    method CreateCalibrationSet(data: SetInput) returns (raised: Option<ProgramError>)
      requires Valid()
      modifies this`sets
      ensures Valid()
      ensures Follows(old(State()), Execute(w, old(State()), StepSet(data)), State(), raised)
    {
      ReachableStep(w, State(), StepSet(data));
      var refused := FirstRefusal(data.refs, data.domain);
      if refused.Some? {
        return refused;
      }
      sets := sets + [CalibrationSet(data.domain, data.refs, data.minCases, data.passThreshold, data.maxFalseCritical, data.active)];
      raised := None;
    }

    method StartCalibration(setId: nat, actorId: string) returns (raised: Option<ProgramError>)
      requires Valid()
      modifies this`attempts, this`tasks
      ensures Valid()
      ensures Follows(old(State()), Execute(w, old(State()), StepStart(setId, actorId)), State(), raised)
    {
      ReachableStep(w, State(), StepStart(setId, actorId));
      if actorId !in profiles {
        return Some(ProfileRequired);
      }
      if setId >= |sets| || !sets[setId].active {
        return Some(SetNotFound);
      }
      if exists a :: a in attempts && InProgressAttempt(a, setId, actorId) {
        return None;
      }
      if RepeatsConcern(sets[setId].refs) {
        return Some(IntegrityError);
      }
      var attemptId, refs, before := |attempts|, sets[setId].refs, tasks;
      attempts := attempts + [Attempt(setId, actorId, InProgress, None, None)];
      for i := 0 to |refs|
        invariant tasks == before + TasksFor(attemptId, refs)[..i]
        invariant attempts == old(attempts) + [Attempt(setId, actorId, InProgress, None, None)]
      {
        tasks := tasks + [CalibrationTask(attemptId, refs[i], R.TaskPending)];
      }
      assert TasksFor(attemptId, refs)[..|refs|] == TasksFor(attemptId, refs);
      raised := None;
    }

    method RecordCredit(actorId: string, target: CreditTarget)
      modifies this`credits
      ensures State() == ExpertTables.RecordCredit(old(State()), actorId, target)
    {
      if exists c :: c in credits && c.actorId == actorId && c.target == target {
        return;
      }
      var known := actorId in profiles;
      credits := credits + [Credit(actorId, target,
        if known then profiles[actorId].attributionName else None, known && profiles[actorId].publicAttribution)];
    }

    method TallyAttempt(attemptId: nat) returns (r: Result<Tally, ProgramError>)
      ensures r == TallyUpTo(w, State().calibration, attemptId, |tasks|)
    {
      var t := ZERO;
      for n := 0 to |tasks|
        invariant TallyUpTo(w, State().calibration, attemptId, n) == Ok(t)
      {
        if tasks[n].attemptId == attemptId {
          var reference := ReferenceDecision(w, tasks[n].ref);
          if n !in submissions || reference.None? {
            TallyErrorStays(w, State().calibration, attemptId, n + 1, |tasks|);
            return Err(ReferenceMissing);
          }
          t := AddJudgment(t, submissions[n].decision, reference.value);
        }
      }
      r := Ok(t);
    }

    /** Scores the attempt once its last task is in; on an error the caller rolls back. */
    method CompleteCalibrationIfReady(attemptId: nat, now: int) returns (raised: Option<ProgramError>)
      requires attemptId < |attempts|
      modifies this
      ensures match CompleteIfReady(w, old(State()), attemptId, now) {
          case Ok(p) => State() == p && raised.None?
          case Err(e) => raised == Some(e)
        }
    {
      var p := State();
      if !HasTask(p.calibration, attemptId) || !AllSubmitted(p.calibration, attemptId) {
        return None;
      }
      var attempt := attempts[attemptId];
      if attempt.setId >= |sets| {
        return Some(SetNotFound);
      }
      var tally := TallyAttempt(attemptId);
      if tally.Err? {
        return Some(tally.error);
      }
      if tally.value.count == 0 {
        return None;
      }
      var score := ScoreOf(tally.value, sets[attempt.setId]);
      attempts := attempts[attemptId := attempt.(status := Completed, score := Some(score), passed := Some(score.passed))];
      if score.passed {
        var domain := sets[attempt.setId].domain;
        if !HoldsActive(qualifications, attempt.adjudicatorId, domain) {
          if domain !in w.expiryDays {
            return Some(UnknownDomain);
          }
          qualifications := qualifications
            + [Qualification(attempt.adjudicatorId, domain, Active, attemptId, now + w.expiryDays[domain])];
        }
      }
      profiles := WithStatus(profiles, attempt.adjudicatorId, if score.passed then Eligible else InCalibration);
      raised := None;
    }

    method SubmitCalibration(taskId: nat, data: CalibrationInput, actorId: string,
        now: int) returns (raised: Option<ProgramError>)
      requires Valid()
      modifies this
      ensures Valid()
      ensures Follows(old(State()), Execute(w, old(State()), StepCalibrate(taskId, data, actorId, now)), State(), raised)
      ensures raised !in {Some(SetNotFound), Some(ReferenceMissing)}
    {
      ReachableCalibrates(w, State(), taskId, data, actorId, now);
      ReachableStep(w, State(), StepCalibrate(taskId, data, actorId, now));
      if taskId >= |tasks| {
        return Some(TaskNotFound);
      }
      var task := tasks[taskId];
      if task.attemptId >= |attempts| || attempts[task.attemptId].adjudicatorId != actorId {
        return Some(NotYours);
      }
      if task.status != R.TaskPending {
        return Some(TaskNotOpen);
      }
      var refused := InputError(w, task.ref, data);
      if refused.Some? {
        return refused;
      }
      var saved := State();
      submissions := submissions[taskId := CalibrationSubmission(actorId, data.decision, R.DigestOf(data.decision))];
      tasks := tasks[taskId := task.(status := R.TaskCompleted)];
      assert State() == saved.(calibration := Recorded(saved.calibration, taskId, actorId, data.decision));
      raised := CompleteCalibrationIfReady(task.attemptId, now);
      if raised.Some? {
        Rollback(saved);
        return;
      }
      RecordCredit(actorId, CalibrationCase(taskId));
    }

    // ---- Intakes ---------------------------------------------------------------------

    method CreateIntake(data: IntakeInput, actorId: string, isManager: bool) returns (raised: Option<ProgramError>)
      requires Valid()
      modifies this`intakes
      ensures Valid()
      ensures Follows(old(State()), Execute(w, old(State()), StepIntake(data, actorId, isManager)), State(), raised)
    {
      ReachableStep(w, State(), StepIntake(data, actorId, isManager));
      if data.artifact !in w.artifacts {
        return Some(ArtifactMissing);
      }
      if !isManager && w.artifacts[data.artifact].createdBy != actorId {
        return Some(NotYours);
      }
      if w.artifacts[data.artifact].rights != data.rights {
        return Some(RightsMismatch);
      }
      intakes := intakes + [Intake(actorId, data.artifact, data.domain, data.uses, data.redistribution, Submitted, None)];
      raised := None;
    }

    method ReviewIntake(intakeId: nat, review: Review, actorId: string) returns (raised: Option<ProgramError>)
      requires Valid()
      modifies this`intakes
      ensures Valid()
      ensures Follows(old(State()), Execute(w, old(State()), StepReview(intakeId, review, actorId)), State(), raised)
    {
      ReachableStep(w, State(), StepReview(intakeId, review, actorId));
      if intakeId >= |intakes| {
        return Some(IntakeNotFound);
      }
      if intakes[intakeId].status == IntakeRejected {
        return Some(IntakeClosed);
      }
      intakes := intakes[intakeId := intakes[intakeId].(status := StatusAfter(review), reviewedBy := Some(actorId))];
      raised := None;
    }

    // ---- Claim reconstruction --------------------------------------------------------

    method SeedClaimTasks(intakeId: nat, anchors: set<string>) returns (raised: Option<ProgramError>)
      requires Valid()
      modifies this`claimTasks
      ensures Valid()
      ensures Follows(old(State()), Execute(w, old(State()), StepSeed(intakeId, anchors)), State(), raised)
    {
      ReachableStep(w, State(), StepSeed(intakeId, anchors));
      if intakeId >= |intakes| {
        return Some(IntakeNotFound);
      }
      if intakes[intakeId].status != Accepted {
        return Some(IntakeNotAccepted);
      }
      if ExpertAdjudication !in intakes[intakeId].uses {
        return Some(UseNotGranted);
      }
      if exists t :: t in claimTasks && t.intakeId == intakeId {
        return None;
      }
      claimTasks := claimTasks + [NewClaimTask(intakeId, D.Primary, anchors)];
      claimTasks := claimTasks + [NewClaimTask(intakeId, D.Secondary, anchors)];
      assert claimTasks == old(claimTasks) + [NewClaimTask(intakeId, D.Primary, anchors), NewClaimTask(intakeId, D.Secondary, anchors)];
      raised := None;
    }

    /** Looks for an active qualification and marks the expired ones on the way. */
    method AdjudicatorIsQualified(actorId: string, domain: string, now: int) returns (qualified: bool)
      modifies this`qualifications
      ensures var (q, c) := CheckQualified(old(State()).calibration, actorId, domain, now);
        qualified == q && State() == old(State()).(calibration := c)
    {
      if !SetActive(sets, domain) {
        return true;
      }
      var due := ExpireDue(qualifications, actorId, domain, now);
      for i := 0 to |qualifications|
        invariant |qualifications| == |due|
        invariant forall j :: 0 <= j < |due| ==> qualifications[j] == if j < i then due[j] else old(qualifications)[j]
      {
        if Due(qualifications[i], actorId, domain, now) {
          qualifications := qualifications[i := qualifications[i].(status := Expired)];
        }
      }
      assert qualifications == due;
      qualified := HoldsActive(qualifications, actorId, domain);
    }

    method ClaimClaimTask(actorId: string, now: int) returns (raised: Option<ProgramError>)
      requires Valid()
      modifies this
      ensures Valid()
      ensures Follows(old(State()), Execute(w, old(State()), StepTake(actorId, now)), State(), raised)
    {
      ReachableStep(w, State(), StepTake(actorId, now));
      if actorId !in w.adjudicators {
        return Some(NotAdjudicator);
      }
      var saved := State();
      for i := 0 to |claimTasks|
        invariant claimTasks == saved.claims.tasks && intakes == saved.claims.intakes
        invariant TakeFrom(State(), i, actorId, now) == TakeFrom(saved, 0, actorId, now)
      {
        var task := claimTasks[i];
        if task.status != R.TaskPending || task.intakeId >= |intakes| || intakes[task.intakeId].status != Accepted {
          continue;
        }
        var qualified := AdjudicatorIsQualified(actorId, intakes[task.intakeId].domain, now);
        if !qualified || HoldsAnother(claimTasks, i, actorId) {
          continue;
        }
        claimTasks := claimTasks[i := task.(status := R.TaskClaimed, assignedTo := Some(actorId))];
        return None;
      }
      Rollback(saved);
      raised := Some(NoEligibleTask);
    }

    method SubmitClaimReconstruction(taskId: nat, claim: Claim, actorId: string) returns (raised: Option<ProgramError>)
      requires Valid()
      modifies this`claimSubmissions, this`claimTasks, this`credits
      ensures Valid()
      ensures Follows(old(State()), Execute(w, old(State()), StepReconstruct(taskId, claim, actorId)), State(), raised)
    {
      ReachableStep(w, State(), StepReconstruct(taskId, claim, actorId));
      if taskId >= |claimTasks| {
        return Some(TaskNotFound);
      }
      var task := claimTasks[taskId];
      if task.assignedTo != Some(actorId) {
        return Some(NotYours);
      }
      if task.status != R.TaskClaimed {
        return Some(TaskNotOpen);
      }
      if !(claim.anchorIds <= task.anchors) {
        return Some(UnknownAnchors);
      }
      var submissionId := |claimSubmissions|;
      claimSubmissions := claimSubmissions + [ClaimSubmission(taskId, task.intakeId, actorId, claim, R.DigestOf(claim))];
      claimTasks := claimTasks[taskId := task.(status := R.TaskCompleted)];
      RecordCredit(actorId, Reconstruction(submissionId));
      raised := None;
    }

    method DetermineClaim(intakeId: nat, data: DeterminationInput) returns (raised: Option<ProgramError>)
      requires Valid()
      modifies this`claimDeterminations
      ensures Valid()
      ensures Follows(old(State()), Execute(w, old(State()), StepDetermine(intakeId, data)), State(), raised)
    {
      ReachableStep(w, State(), StepDetermine(intakeId, data));
      if intakeId >= |intakes| {
        return Some(IntakeNotFound);
      }
      if exists id :: id in data.submissionIds && !SubmissionOf(State().claims, intakeId, id) {
        return Some(UnknownSubmissions);
      }
      if SubmissionCount(claimSubmissions, intakeId) < 2 && data.status != ClaimUnresolved {
        return Some(TwoReconstructionsNeeded);
      }
      claimDeterminations := claimDeterminations + [ClaimDetermination(intakeId, data.status, data.canonical, data.submissionIds)];
      raised := None;
    }

    // ---- Compensation ----------------------------------------------------------------

    method CreateCompensation(data: CompensationInput) returns (raised: Option<ProgramError>)
      requires Valid()
      modifies this`compensations
      ensures Valid()
      ensures Follows(old(State()), Execute(w, old(State()), StepCompensate(data)), State(), raised)
    {
      ReachableStep(w, State(), StepCompensate(data));
      if !w.paidRatesSet {
        return Some(RatesUnset);
      }
      var (holder, completed) := TaskHolder(w, State(), data.task);
      if holder.None? {
        return Some(TaskNotFound);
      }
      if holder.value != data.actorId {
        return Some(NotYours);
      }
      if !completed {
        return Some(NotCompleted);
      }
      if Compensated(compensations, data.task) {
        return None;
      }
      compensations := compensations + [Compensation(data.actorId, data.task, data.amount, data.currency, Approved, None)];
      raised := None;
    }

    method UpdateCompensation(id: nat, settlement: Settlement, now: int) returns (raised: Option<ProgramError>)
      requires Valid()
      modifies this`compensations
      ensures Valid()
      ensures Follows(old(State()), Execute(w, old(State()), StepSettle(id, settlement, now)), State(), raised)
    {
      ReachableStep(w, State(), StepSettle(id, settlement, now));
      if id >= |compensations| {
        return Some(CompensationNotFound);
      }
      if compensations[id].status != Approved {
        return Some(CompensationFinal);
      }
      compensations := compensations[id := Settled(compensations[id], settlement, now)];
      raised := None;
    }
  }
}
