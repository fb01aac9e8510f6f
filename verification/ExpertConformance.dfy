/** The repository's own auditor of the expert programme, and the runs that pass it. */
module ExpertConformance {
  import opened Wrappers
  import R = NovelRegistry
  import opened ExpertTables
  import opened ExpertInvariant

  datatype ProfileFault = NotAnAdjudicator | AttributionUnnamed
  datatype SetFault = TooFewCases | CaseAbsent | ConcernAbsent
  datatype AttemptFault = SetAbsent | ProfileAbsent | Unscored
  datatype TaskFault =
    | PendingAssigned | ClaimedUnassigned | CompletedUnsubmitted | SubmittedUncompleted | ParentAbsent | TaskConcernAbsent | HashMismatch
  datatype IntakeFault = ArtifactAbsent | Unreviewed | PublicUseUnpermitted
  datatype DeterminationFault = SubmissionsMissing | NoCanonicalClaim
  datatype CreditFault = ActorAbsent | PublicUnnamed
  datatype CompensationFault = NotPositive | PaidUndated | TaskAbsent

  datatype Failure =
    | OfProfile(actorId: string, profile: ProfileFault)
    | OfSet(row: nat, calibrationSet: SetFault)
    | OfAttempt(row: nat, attempt: AttemptFault)
    | OfTask(row: nat, task: TaskFault)
    | OfQualification(row: nat)
    | OfIntake(row: nat, intake: IntakeFault)
    | OfClaimTask(row: nat, claimTask: TaskFault)
    | OfDetermination(row: nat, determination: DeterminationFault)
    | OfCredit(row: nat, credit: CreditFault)
    | OfCompensation(row: nat, compensation: CompensationFault)

  // ---- What the auditor calls a failure ----------------------------------------------

  predicate ConcernKnown(w: World, concernId: string) {
    exists key :: key in w.cases && concernId in w.cases[key]
  }

  /** The checks on a task that calibration and claim tasks share. */
  predicate StateFaulty(status: R.TaskStatus, held: bool, submitted: bool, f: TaskFault) {
    match f
    case PendingAssigned => status == R.TaskPending && held
    case ClaimedUnassigned => status == R.TaskClaimed && !held
    case CompletedUnsubmitted => status == R.TaskCompleted && !submitted
    case SubmittedUncompleted => submitted && status != R.TaskCompleted
    case _ => false
  }

  /** The auditor indexes claim submissions by task; the last one of a task stays. */
  function ByTask(ss: seq<ClaimSubmission>): map<nat, nat> {
    if ss == [] then map[] else ByTask(ss[..|ss| - 1])[ss[|ss| - 1].taskId := |ss| - 1]
  }

  lemma {:induction false} ByTaskPoints(ss: seq<ClaimSubmission>)
    ensures forall task :: task in ByTask(ss) ==> ByTask(ss)[task] < |ss| && ss[ByTask(ss)[task]].taskId == task
  {
    if ss != [] {
      ByTaskPoints(ss[..|ss| - 1]);
    }
  }

  predicate SetFaulty(w: World, s: CalibrationSet, f: SetFault) {
    match f
    case TooFewCases => s.minCases > |s.refs|
    case CaseAbsent => exists ref :: ref in s.refs && ref.Key() !in w.cases
    case ConcernAbsent => exists ref :: ref in s.refs && !ConcernKnown(w, ref.concernId)
  }

  predicate AttemptFaulty(p: Program, a: Attempt, f: AttemptFault) {
    match f
    case SetAbsent => a.setId >= |p.calibration.sets|
    case ProfileAbsent => a.adjudicatorId !in p.profiles
    case Unscored => a.status == Completed && (a.score.None? || a.passed.None?)
  }

  predicate TaskFaulty(w: World, c: Calibration, i: nat, f: TaskFault)
    requires i < |c.tasks|
  {
    var t := c.tasks[i];
    match f
    case ParentAbsent => t.attemptId >= |c.attempts|
    case TaskConcernAbsent => !ConcernKnown(w, t.ref.concernId)
    case HashMismatch => i in c.submissions && R.DigestOf(c.submissions[i].decision) != c.submissions[i].hash
    case _ => StateFaulty(t.status, false, i in c.submissions, f)
  }

  predicate Unearned(c: Calibration, q: Qualification) {
    q.status == Active && (q.sourceAttempt >= |c.attempts| || c.attempts[q.sourceAttempt].passed != Some(true))
  }

  predicate IntakeFaulty(w: World, i: Intake, f: IntakeFault) {
    match f
    case ArtifactAbsent => i.artifact !in w.artifacts
    case Unreviewed => i.status == Accepted && i.reviewedBy.None?
    case PublicUseUnpermitted => i.uses * PUBLIC_USES != {} && !i.redistribution
  }

  predicate ClaimTaskFaulty(k: Claims, i: nat, f: TaskFault)
    requires i < |k.tasks|
  {
    var t, byTask := k.tasks[i], ByTask(k.submissions);
    match f
    case ParentAbsent => t.intakeId >= |k.intakes|
    case TaskConcernAbsent => false
    case HashMismatch =>
      i in byTask && byTask[i] < |k.submissions|
      && R.DigestOf(k.submissions[byTask[i]].claim) != k.submissions[byTask[i]].hash
    case _ => StateFaulty(t.status, t.assignedTo.Some?, i in byTask, f)
  }

  predicate DeterminationFaulty(k: Claims, d: ClaimDetermination, f: DeterminationFault) {
    match f
    case SubmissionsMissing => exists id :: id in d.submissionIds && id !in ByTask(k.submissions).Values
    case NoCanonicalClaim => d.status == ClaimAccepted && d.canonical.None?
  }

  predicate CreditFaulty(w: World, c: Credit, f: CreditFault) {
    match f
    case ActorAbsent => c.actorId !in w.principals
    case PublicUnnamed => c.public && !Named(c.publicName)
  }

  predicate CompensationFaulty(w: World, p: Program, r: Compensation, f: CompensationFault) {
    match f
    case NotPositive => r.amount <= 0
    case PaidUndated => r.status == Paid && r.paidAt.None?
    case TaskAbsent => !TaskExists(w, |p.calibration.tasks|, |p.claims.tasks|, r.task)
  }

  predicate ProfileFaulty(w: World, actorId: string, profile: Profile, f: ProfileFault) {
    match f
    case NotAnAdjudicator => actorId !in w.adjudicators
    case AttributionUnnamed => profile.publicAttribution && !Named(profile.attributionName)
  }

  predicate Faulty(w: World, p: Program, f: Failure) {
    match f
    case OfProfile(a, g) => a in p.profiles && ProfileFaulty(w, a, p.profiles[a], g)
    case OfSet(i, g) => i < |p.calibration.sets| && SetFaulty(w, p.calibration.sets[i], g)
    case OfAttempt(i, g) => i < |p.calibration.attempts| && AttemptFaulty(p, p.calibration.attempts[i], g)
    case OfTask(i, g) => i < |p.calibration.tasks| && TaskFaulty(w, p.calibration, i, g)
    case OfQualification(i) => i < |p.calibration.qualifications| && Unearned(p.calibration, p.calibration.qualifications[i])
    case OfIntake(i, g) => i < |p.claims.intakes| && IntakeFaulty(w, p.claims.intakes[i], g)
    case OfClaimTask(i, g) => i < |p.claims.tasks| && ClaimTaskFaulty(p.claims, i, g)
    case OfDetermination(i, g) => i < |p.claims.determinations| && DeterminationFaulty(p.claims, p.claims.determinations[i], g)
    case OfCredit(i, g) => i < |p.credits| && CreditFaulty(w, p.credits[i], g)
    case OfCompensation(i, g) => i < |p.compensations| && CompensationFaulty(w, p, p.compensations[i], g)
  }

  // ---- The auditor -------------------------------------------------------------------

  method AuditProfiles(w: World, p: Program) returns (failures: seq<Failure>)
    ensures forall f :: f in failures <==> f.OfProfile? && Faulty(w, p, f)
  {
    failures := [];
    var left := p.profiles.Keys;
    while left != {}
      invariant left <= p.profiles.Keys
      invariant forall f :: f in failures <==> f.OfProfile? && f.actorId !in left && Faulty(w, p, f)
      decreases |left|
    {
      var a :| a in left;
      if a !in w.adjudicators {
        failures := failures + [OfProfile(a, NotAnAdjudicator)];
      }
      if p.profiles[a].publicAttribution && !Named(p.profiles[a].attributionName) {
        failures := failures + [OfProfile(a, AttributionUnnamed)];
      }
      left := left - {a};
    }
  }

  method AuditSets(w: World, p: Program) returns (failures: seq<Failure>)
    ensures forall f :: f in failures <==> f.OfSet? && Faulty(w, p, f)
  {
    failures := [];
    for i := 0 to |p.calibration.sets|
      invariant forall f :: f in failures <==> f.OfSet? && f.row < i && Faulty(w, p, f)
    {
      var s := p.calibration.sets[i];
      if s.minCases > |s.refs| {
        failures := failures + [OfSet(i, TooFewCases)];
      }
      ghost var before := failures;
      for j := 0 to |s.refs|
        invariant forall f :: f in failures <==> (
          || f in before
          || (f == OfSet(i, CaseAbsent) && exists ref :: ref in s.refs[..j] && ref.Key() !in w.cases)
          || (f == OfSet(i, ConcernAbsent) && exists ref :: ref in s.refs[..j] && !ConcernKnown(w, ref.concernId)))
      {
        var ref := s.refs[j];
        assert s.refs[..j + 1] == s.refs[..j] + [ref];
        assert ref in s.refs[..j + 1];
        if ref.Key() !in w.cases {
          failures := failures + [OfSet(i, CaseAbsent)];
        }
        if !ConcernKnown(w, ref.concernId) {
          failures := failures + [OfSet(i, ConcernAbsent)];
        }
      }
      assert s.refs[..|s.refs|] == s.refs;
    }
  }

  method AuditAttempts(w: World, p: Program) returns (failures: seq<Failure>)
    ensures forall f :: f in failures <==> f.OfAttempt? && Faulty(w, p, f)
  {
    failures := [];
    for i := 0 to |p.calibration.attempts|
      invariant forall f :: f in failures <==> f.OfAttempt? && f.row < i && Faulty(w, p, f)
    {
      var a := p.calibration.attempts[i];
      if a.setId >= |p.calibration.sets| {
        failures := failures + [OfAttempt(i, SetAbsent)];
      }
      if a.adjudicatorId !in p.profiles {
        failures := failures + [OfAttempt(i, ProfileAbsent)];
      }
      if a.status == Completed && (a.score.None? || a.passed.None?) {
        failures := failures + [OfAttempt(i, Unscored)];
      }
    }
  }

  function CheckTaskState(status: R.TaskStatus, held: bool, submitted: bool): (faults: seq<TaskFault>)
    ensures forall f :: f in faults <==> StateFaulty(status, held, submitted, f)
  {
    (if status == R.TaskPending && held then [PendingAssigned] else [])
    + (if status == R.TaskClaimed && !held then [ClaimedUnassigned] else [])
    + (if status == R.TaskCompleted && !submitted then [CompletedUnsubmitted] else [])
    + (if submitted && status != R.TaskCompleted then [SubmittedUncompleted] else [])
  }

  /** The faults of one calibration task, in the order the auditor looks for them. */
  function TaskFaults(w: World, c: Calibration, i: nat): (faults: seq<TaskFault>)
    requires i < |c.tasks|
    ensures forall f :: f in faults <==> TaskFaulty(w, c, i, f)
  {
    var t := c.tasks[i];
    CheckTaskState(t.status, false, i in c.submissions)
    + (if t.attemptId >= |c.attempts| then [ParentAbsent] else [])
    + (if !ConcernKnown(w, t.ref.concernId) then [TaskConcernAbsent] else [])
    + (if i in c.submissions && R.DigestOf(c.submissions[i].decision) != c.submissions[i].hash then [HashMismatch] else [])
  }

  method AuditTasks(w: World, p: Program) returns (failures: seq<Failure>)
    ensures forall f :: f in failures <==> f.OfTask? && Faulty(w, p, f)
  {
    failures := [];
    for i := 0 to |p.calibration.tasks|
      invariant forall f :: f in failures <==> f.OfTask? && f.row < i && Faulty(w, p, f)
    {
      var faults := TaskFaults(w, p.calibration, i);
      var found := seq(|faults|, j requires 0 <= j < |faults| => OfTask(i, faults[j]));
      forall f ensures f in found <==> f.OfTask? && f.row == i && f.task in faults {
        if f.OfTask? && f.row == i && f.task in faults {
          var j :| 0 <= j < |faults| && faults[j] == f.task;
          assert found[j] == f;
        }
      }
      failures := failures + found;
    }
  }

  method AuditQualifications(w: World, p: Program) returns (failures: seq<Failure>)
    ensures forall f :: f in failures <==> f.OfQualification? && Faulty(w, p, f)
  {
    failures := [];
    for i := 0 to |p.calibration.qualifications|
      invariant forall f :: f in failures <==> f.OfQualification? && f.row < i && Faulty(w, p, f)
    {
      var q := p.calibration.qualifications[i];
      if q.status == Active
         && (q.sourceAttempt >= |p.calibration.attempts| || p.calibration.attempts[q.sourceAttempt].passed != Some(true)) {
        failures := failures + [OfQualification(i)];
      }
    }
  }

  method AuditIntakes(w: World, p: Program) returns (failures: seq<Failure>)
    ensures forall f :: f in failures <==> f.OfIntake? && Faulty(w, p, f)
  {
    failures := [];
    for i := 0 to |p.claims.intakes|
      invariant forall f :: f in failures <==> f.OfIntake? && f.row < i && Faulty(w, p, f)
    {
      var intake := p.claims.intakes[i];
      if intake.artifact !in w.artifacts {
        failures := failures + [OfIntake(i, ArtifactAbsent)];
      }
      if intake.status == Accepted && intake.reviewedBy.None? {
        failures := failures + [OfIntake(i, Unreviewed)];
      }
      if intake.uses * PUBLIC_USES != {} && !intake.redistribution {
        failures := failures + [OfIntake(i, PublicUseUnpermitted)];
      }
    }
  }

  method IndexClaims(ss: seq<ClaimSubmission>) returns (byTask: map<nat, nat>)
    ensures byTask == ByTask(ss)
  {
    byTask := map[];
    for i := 0 to |ss|
      invariant byTask == ByTask(ss[..i])
    {
      assert ss[..i + 1][..i] == ss[..i];
      byTask := byTask[ss[i].taskId := i];
    }
    assert ss[..|ss|] == ss;
  }

  function ClaimTaskFaults(k: Claims, i: nat, byTask: map<nat, nat>): (faults: seq<TaskFault>)
    requires i < |k.tasks| && byTask == ByTask(k.submissions)
    ensures forall f :: f in faults <==> ClaimTaskFaulty(k, i, f)
  {
    var t := k.tasks[i];
    CheckTaskState(t.status, t.assignedTo.Some?, i in byTask)
    + (if t.intakeId >= |k.intakes| then [ParentAbsent] else [])
    + (if i in byTask && byTask[i] < |k.submissions|
          && R.DigestOf(k.submissions[byTask[i]].claim) != k.submissions[byTask[i]].hash then [HashMismatch] else [])
  }

  method AuditClaimTasks(w: World, p: Program, byTask: map<nat, nat>) returns (failures: seq<Failure>)
    requires byTask == ByTask(p.claims.submissions)
    ensures forall f :: f in failures <==> f.OfClaimTask? && Faulty(w, p, f)
  {
    failures := [];
    for i := 0 to |p.claims.tasks|
      invariant forall f :: f in failures <==> f.OfClaimTask? && f.row < i && Faulty(w, p, f)
    {
      var faults := ClaimTaskFaults(p.claims, i, byTask);
      var found := seq(|faults|, j requires 0 <= j < |faults| => OfClaimTask(i, faults[j]));
      forall f ensures f in found <==> f.OfClaimTask? && f.row == i && f.claimTask in faults {
        if f.OfClaimTask? && f.row == i && f.claimTask in faults {
          var j :| 0 <= j < |faults| && faults[j] == f.claimTask;
          assert found[j] == f;
        }
      }
      failures := failures + found;
    }
  }

  method AuditClaimDeterminations(w: World, p: Program, byTask: map<nat, nat>) returns (failures: seq<Failure>)
    requires byTask == ByTask(p.claims.submissions)
    ensures forall f :: f in failures <==> f.OfDetermination? && Faulty(w, p, f)
  {
    failures := [];
    for i := 0 to |p.claims.determinations|
      invariant forall f :: f in failures <==> f.OfDetermination? && f.row < i && Faulty(w, p, f)
    {
      var d := p.claims.determinations[i];
      if exists id :: id in d.submissionIds && id !in byTask.Values {
        failures := failures + [OfDetermination(i, SubmissionsMissing)];
      }
      if d.status == ClaimAccepted && d.canonical.None? {
        failures := failures + [OfDetermination(i, NoCanonicalClaim)];
      }
    }
  }

  function CreditFaults(w: World, c: Credit): (faults: seq<CreditFault>)
    ensures forall f :: f in faults <==> CreditFaulty(w, c, f)
  {
    (if c.actorId !in w.principals then [ActorAbsent] else [])
    + (if c.public && !Named(c.publicName) then [PublicUnnamed] else [])
  }

  method AuditCredits(w: World, p: Program) returns (failures: seq<Failure>)
    ensures forall f :: f in failures <==> f.OfCredit? && Faulty(w, p, f)
  {
    failures := [];
    for i := 0 to |p.credits|
      invariant forall f :: f in failures <==> f.OfCredit? && f.row < i && Faulty(w, p, f)
    {
      var faults := CreditFaults(w, p.credits[i]);
      var found := seq(|faults|, j requires 0 <= j < |faults| => OfCredit(i, faults[j]));
      forall f ensures f in found <==> f.OfCredit? && f.row == i && Faulty(w, p, f) {
        if f.OfCredit? && f.row == i && Faulty(w, p, f) {
          var j :| 0 <= j < |faults| && faults[j] == f.credit;
          assert found[j] == f;
        }
      }
      failures := failures + found;
    }
  }

  function CompensationFaults(w: World, p: Program, r: Compensation): (faults: seq<CompensationFault>)
    ensures forall f :: f in faults <==> CompensationFaulty(w, p, r, f)
  {
    (if r.amount <= 0 then [NotPositive] else [])
    + (if r.status == Paid && r.paidAt.None? then [PaidUndated] else [])
    + (if !TaskExists(w, |p.calibration.tasks|, |p.claims.tasks|, r.task) then [TaskAbsent] else [])
  }

  method AuditCompensation(w: World, p: Program) returns (failures: seq<Failure>)
    ensures forall f :: f in failures <==> f.OfCompensation? && Faulty(w, p, f)
  {
    failures := [];
    for i := 0 to |p.compensations|
      invariant forall f :: f in failures <==> f.OfCompensation? && f.row < i && Faulty(w, p, f)
    {
      var faults := CompensationFaults(w, p, p.compensations[i]);
      var found := seq(|faults|, j requires 0 <= j < |faults| => OfCompensation(i, faults[j]));
      forall f ensures f in found <==> f.OfCompensation? && f.row == i && Faulty(w, p, f) {
        if f.OfCompensation? && f.row == i && Faulty(w, p, f) {
          var j :| 0 <= j < |faults| && faults[j] == f.compensation;
          assert found[j] == f;
        }
      }
      failures := failures + found;
    }
  }

  // ---- What a clean audit guarantees ---------------------------------------------------

  predicate ProfileConsistent(w: World, actorId: string, profile: Profile) {
    actorId in w.adjudicators && (profile.publicAttribution ==> Named(profile.attributionName))
  }

  ghost predicate SetConsistent(w: World, s: CalibrationSet) {
    s.minCases <= |s.refs| && forall ref :: ref in s.refs ==> ref.Key() in w.cases && ConcernKnown(w, ref.concernId)
  }

  predicate AttemptConsistent(p: Program, a: Attempt) {
    a.setId < |p.calibration.sets| && a.adjudicatorId in p.profiles && (a.status == Completed ==> a.score.Some? && a.passed.Some?)
  }

  /** A calibration task has an attempt and a known concern, is never claimed, and is completed exactly when there
      is an unaltered judgment on it. */
  ghost predicate TaskConsistent(w: World, c: Calibration, i: nat)
    requires i < |c.tasks|
  {
    var t := c.tasks[i];
    && t.attemptId < |c.attempts| && ConcernKnown(w, t.ref.concernId) && t.status != R.TaskClaimed
    && (t.status == R.TaskCompleted <==> i in c.submissions)
    && (i in c.submissions ==> c.submissions[i].hash == R.DigestOf(c.submissions[i].decision))
  }

  predicate Earned(c: Calibration, q: Qualification) {
    q.status == Active ==> q.sourceAttempt < |c.attempts| && c.attempts[q.sourceAttempt].passed == Some(true)
  }

  predicate IntakeConsistent(w: World, i: Intake) {
    && i.artifact in w.artifacts && (i.status == Accepted ==> i.reviewedBy.Some?)
    && ((PublicRelease in i.uses || OpenModelTraining in i.uses) ==> i.redistribution)
  }

  predicate LastOfTask(ss: seq<ClaimSubmission>, i: int) {
    0 <= i < |ss| && forall j :: i < j < |ss| ==> ss[j].taskId != ss[i].taskId
  }

  /** A claim task has an intake, a holder once it is claimed and none before, and is completed exactly when there
      is a reconstruction for it, the last of which is unaltered. */
  ghost predicate ClaimTaskConsistent(k: Claims, i: nat)
    requires i < |k.tasks|
  {
    var t := k.tasks[i];
    && t.intakeId < |k.intakes|
    && (t.status == R.TaskPending ==> t.assignedTo.None?) && (t.status == R.TaskClaimed ==> t.assignedTo.Some?)
    && (t.status == R.TaskCompleted <==> HasSubmission(k, i))
    && forall j :: LastOfTask(k.submissions, j) && k.submissions[j].taskId == i ==>
         k.submissions[j].hash == R.DigestOf(k.submissions[j].claim)
  }

  ghost predicate DeterminationConsistent(k: Claims, d: ClaimDetermination) {
    (forall id :: id in d.submissionIds ==> LastOfTask(k.submissions, id)) && (d.status == ClaimAccepted ==> d.canonical.Some?)
  }

  predicate CreditConsistent(w: World, c: Credit) {
    c.actorId in w.principals && (c.public ==> Named(c.publicName))
  }

  predicate CompensationConsistent(w: World, p: Program, r: Compensation) {
    r.amount > 0 && (r.status == Paid ==> r.paidAt.Some?) && TaskExists(w, |p.calibration.tasks|, |p.claims.tasks|, r.task)
  }

  ghost predicate CalibrationConsistent(w: World, p: Program) {
    var c := p.calibration;
    && (forall i :: 0 <= i < |c.sets| ==> SetConsistent(w, c.sets[i]))
    && (forall i :: 0 <= i < |c.attempts| ==> AttemptConsistent(p, c.attempts[i]))
    && (forall i :: 0 <= i < |c.tasks| ==> TaskConsistent(w, c, i))
    && (forall i :: 0 <= i < |c.qualifications| ==> Earned(c, c.qualifications[i]))
  }

  ghost predicate ClaimsConsistent(w: World, k: Claims) {
    && (forall i :: 0 <= i < |k.intakes| ==> IntakeConsistent(w, k.intakes[i]))
    && (forall i :: 0 <= i < |k.tasks| ==> ClaimTaskConsistent(k, i))
    && (forall i :: 0 <= i < |k.determinations| ==> DeterminationConsistent(k, k.determinations[i]))
  }

  ghost predicate Consistent(w: World, p: Program) {
    && (forall a :: a in p.profiles ==> ProfileConsistent(w, a, p.profiles[a]))
    && CalibrationConsistent(w, p) && ClaimsConsistent(w, p.claims)
    && (forall i :: 0 <= i < |p.credits| ==> CreditConsistent(w, p.credits[i]))
    && (forall i :: 0 <= i < |p.compensations| ==> CompensationConsistent(w, p, p.compensations[i]))
  }

  lemma ProfileFaults(w: World, actorId: string, profile: Profile)
    ensures ProfileConsistent(w, actorId, profile) <==> forall f :: !ProfileFaulty(w, actorId, profile, f)
  {
    if !ProfileConsistent(w, actorId, profile) {
      assert ProfileFaulty(w, actorId, profile, NotAnAdjudicator) || ProfileFaulty(w, actorId, profile, AttributionUnnamed);
    }
  }

  lemma SetFaults(w: World, s: CalibrationSet)
    ensures SetConsistent(w, s) <==> forall f :: !SetFaulty(w, s, f)
  {
    if !SetConsistent(w, s) {
      assert SetFaulty(w, s, TooFewCases) || SetFaulty(w, s, CaseAbsent) || SetFaulty(w, s, ConcernAbsent);
    }
  }

  lemma AttemptFaults(p: Program, a: Attempt)
    ensures AttemptConsistent(p, a) <==> forall f :: !AttemptFaulty(p, a, f)
  {
    if !AttemptConsistent(p, a) {
      assert AttemptFaulty(p, a, SetAbsent) || AttemptFaulty(p, a, ProfileAbsent) || AttemptFaulty(p, a, Unscored);
    }
  }

  lemma CalibrationTaskFaults(w: World, c: Calibration, i: nat)
    requires i < |c.tasks|
    ensures TaskConsistent(w, c, i) <==> forall f :: !TaskFaulty(w, c, i, f)
  {
    if !TaskConsistent(w, c, i) {
      assert TaskFaulty(w, c, i, ParentAbsent) || TaskFaulty(w, c, i, TaskConcernAbsent) || TaskFaulty(w, c, i, HashMismatch)
        || TaskFaulty(w, c, i, ClaimedUnassigned) || TaskFaulty(w, c, i, CompletedUnsubmitted)
        || TaskFaulty(w, c, i, SubmittedUncompleted);
    }
  }

  lemma IntakeFaults(w: World, i: Intake)
    ensures IntakeConsistent(w, i) <==> forall f :: !IntakeFaulty(w, i, f)
  {
    assert i.uses * PUBLIC_USES != {} <==> PublicRelease in i.uses || OpenModelTraining in i.uses by {
      if PublicRelease in i.uses {
        assert PublicRelease in i.uses * PUBLIC_USES;
      }
      if OpenModelTraining in i.uses {
        assert OpenModelTraining in i.uses * PUBLIC_USES;
      }
    }
    if !IntakeConsistent(w, i) {
      assert IntakeFaulty(w, i, ArtifactAbsent) || IntakeFaulty(w, i, Unreviewed) || IntakeFaulty(w, i, PublicUseUnpermitted);
    }
  }

  lemma {:induction false} IndexedIsLast(ss: seq<ClaimSubmission>, j: int)
    ensures LastOfTask(ss, j) <==> j >= 0 && j < |ss| && ss[j].taskId in ByTask(ss) && ByTask(ss)[ss[j].taskId] == j
  {
    ByTaskPoints(ss);
    if ss != [] && 0 <= j < |ss| - 1 {
      var n := |ss| - 1;
      IndexedIsLast(ss[..n], j);
      ByTaskPoints(ss[..n]);
    }
  }

  lemma {:induction false} EveryTaskIndexed(k: Claims, ss: seq<ClaimSubmission>, task: nat)
    ensures task in ByTask(ss) <==> exists s :: s in ss && s.taskId == task
  {
    if ss != [] {
      var init, last := ss[..|ss| - 1], ss[|ss| - 1];
      assert ss == init + [last];
      EveryTaskIndexed(k, init, task);
    }
  }

  /** The last submission of a task is the one the auditor looks at. */
  lemma LastIsIndexed(k: Claims, i: nat)
    ensures i in ByTask(k.submissions) ==>
      && ByTask(k.submissions)[i] < |k.submissions|
      && forall j :: LastOfTask(k.submissions, j) && k.submissions[j].taskId == i <==> j == ByTask(k.submissions)[i]
    ensures i !in ByTask(k.submissions) ==> forall j :: LastOfTask(k.submissions, j) ==> k.submissions[j].taskId != i
    ensures i in ByTask(k.submissions) <==> HasSubmission(k, i)
  {
    ByTaskPoints(k.submissions);
    EveryTaskIndexed(k, k.submissions, i);
    forall j ensures LastOfTask(k.submissions, j) <==>
      j >= 0 && j < |k.submissions| && k.submissions[j].taskId in ByTask(k.submissions) && ByTask(k.submissions)[k.submissions[j].taskId] == j
    {
      IndexedIsLast(k.submissions, j);
    }
  }

  lemma ClaimTaskFaultsMean(k: Claims, i: nat)
    requires i < |k.tasks|
    ensures ClaimTaskConsistent(k, i) <==> forall f :: !ClaimTaskFaulty(k, i, f)
  {
    LastIsIndexed(k, i);
    if !ClaimTaskConsistent(k, i) {
      assert ClaimTaskFaulty(k, i, ParentAbsent) || ClaimTaskFaulty(k, i, HashMismatch)
        || ClaimTaskFaulty(k, i, PendingAssigned) || ClaimTaskFaulty(k, i, ClaimedUnassigned)
        || ClaimTaskFaulty(k, i, CompletedUnsubmitted) || ClaimTaskFaulty(k, i, SubmittedUncompleted);
    }
  }

  lemma IndexedValues(ss: seq<ClaimSubmission>, id: nat)
    ensures id in ByTask(ss).Values <==> LastOfTask(ss, id)
  {
    ByTaskPoints(ss);
    IndexedIsLast(ss, id);
    if id in ByTask(ss).Values {
      var task :| task in ByTask(ss) && ByTask(ss)[task] == id;
    }
  }

  lemma DeterminationFaults(k: Claims, d: ClaimDetermination)
    ensures DeterminationConsistent(k, d) <==> forall f :: !DeterminationFaulty(k, d, f)
  {
    forall id: nat ensures id in ByTask(k.submissions).Values <==> LastOfTask(k.submissions, id) {
      IndexedValues(k.submissions, id);
    }
    if !DeterminationConsistent(k, d) {
      assert DeterminationFaulty(k, d, SubmissionsMissing) || DeterminationFaulty(k, d, NoCanonicalClaim);
    }
  }

  lemma CreditFaultsMean(w: World, c: Credit)
    ensures CreditConsistent(w, c) <==> forall f :: !CreditFaulty(w, c, f)
  {
    if !CreditConsistent(w, c) {
      assert CreditFaulty(w, c, ActorAbsent) || CreditFaulty(w, c, PublicUnnamed);
    }
  }

  lemma CompensationFaultsMean(w: World, p: Program, r: Compensation)
    ensures CompensationConsistent(w, p, r) <==> forall f :: !CompensationFaulty(w, p, r, f)
  {
    if !CompensationConsistent(w, p, r) {
      assert CompensationFaulty(w, p, r, NotPositive) || CompensationFaulty(w, p, r, PaidUndated)
        || CompensationFaulty(w, p, r, TaskAbsent);
    }
  }

  ghost predicate Clean(w: World, p: Program) {
    forall f :: !Faulty(w, p, f)
  }

  lemma CleanCalibration(w: World, p: Program)
    requires Clean(w, p)
    ensures CalibrationConsistent(w, p)
  {
    var c := p.calibration;
    forall i | 0 <= i < |c.sets| ensures SetConsistent(w, c.sets[i]) {
      SetFaults(w, c.sets[i]);
      forall g ensures !SetFaulty(w, c.sets[i], g) {
        assert !Faulty(w, p, OfSet(i, g));
      }
    }
    forall i | 0 <= i < |c.attempts| ensures AttemptConsistent(p, c.attempts[i]) {
      AttemptFaults(p, c.attempts[i]);
      forall g ensures !AttemptFaulty(p, c.attempts[i], g) {
        assert !Faulty(w, p, OfAttempt(i, g));
      }
    }
    forall i | 0 <= i < |c.tasks| ensures TaskConsistent(w, c, i) {
      CalibrationTaskFaults(w, c, i);
      forall g ensures !TaskFaulty(w, c, i, g) {
        assert !Faulty(w, p, OfTask(i, g));
      }
    }
    forall i | 0 <= i < |c.qualifications| ensures Earned(c, c.qualifications[i]) {
      assert !Faulty(w, p, OfQualification(i));
    }
  }

  lemma CleanClaims(w: World, p: Program)
    requires Clean(w, p)
    ensures ClaimsConsistent(w, p.claims)
  {
    var k := p.claims;
    forall i | 0 <= i < |k.intakes| ensures IntakeConsistent(w, k.intakes[i]) {
      IntakeFaults(w, k.intakes[i]);
      forall g ensures !IntakeFaulty(w, k.intakes[i], g) {
        assert !Faulty(w, p, OfIntake(i, g));
      }
    }
    forall i | 0 <= i < |k.tasks| ensures ClaimTaskConsistent(k, i) {
      ClaimTaskFaultsMean(k, i);
      forall g ensures !ClaimTaskFaulty(k, i, g) {
        assert !Faulty(w, p, OfClaimTask(i, g));
      }
    }
    forall i | 0 <= i < |k.determinations| ensures DeterminationConsistent(k, k.determinations[i]) {
      DeterminationFaults(k, k.determinations[i]);
      forall g ensures !DeterminationFaulty(k, k.determinations[i], g) {
        assert !Faulty(w, p, OfDetermination(i, g));
      }
    }
  }

  lemma CleanIsConsistent(w: World, p: Program)
    requires Clean(w, p)
    ensures Consistent(w, p)
  {
    CleanCalibration(w, p);
    CleanClaims(w, p);
    forall a | a in p.profiles ensures ProfileConsistent(w, a, p.profiles[a]) {
      ProfileFaults(w, a, p.profiles[a]);
      forall g ensures !ProfileFaulty(w, a, p.profiles[a], g) {
        assert !Faulty(w, p, OfProfile(a, g));
      }
    }
    forall i | 0 <= i < |p.credits| ensures CreditConsistent(w, p.credits[i]) {
      CreditFaultsMean(w, p.credits[i]);
      forall g ensures !CreditFaulty(w, p.credits[i], g) {
        assert !Faulty(w, p, OfCredit(i, g));
      }
    }
    forall i | 0 <= i < |p.compensations| ensures CompensationConsistent(w, p, p.compensations[i]) {
      CompensationFaultsMean(w, p, p.compensations[i]);
      forall g ensures !CompensationFaulty(w, p, p.compensations[i], g) {
        assert !Faulty(w, p, OfCompensation(i, g));
      }
    }
  }

  lemma ConsistentHasNoFault(w: World, p: Program, f: Failure)
    requires Consistent(w, p)
    ensures !Faulty(w, p, f)
  {
    match f
    case OfProfile(a, g) => if a in p.profiles { ProfileFaults(w, a, p.profiles[a]); }
    case OfSet(i, g) => if i < |p.calibration.sets| { SetFaults(w, p.calibration.sets[i]); }
    case OfAttempt(i, g) => if i < |p.calibration.attempts| { AttemptFaults(p, p.calibration.attempts[i]); }
    case OfTask(i, g) => if i < |p.calibration.tasks| { CalibrationTaskFaults(w, p.calibration, i); }
    case OfQualification(i) =>
      assert i < |p.calibration.qualifications| ==> Earned(p.calibration, p.calibration.qualifications[i]);
    case OfIntake(i, g) => if i < |p.claims.intakes| { IntakeFaults(w, p.claims.intakes[i]); }
    case OfClaimTask(i, g) => if i < |p.claims.tasks| { ClaimTaskFaultsMean(p.claims, i); }
    case OfDetermination(i, g) => if i < |p.claims.determinations| { DeterminationFaults(p.claims, p.claims.determinations[i]); }
    case OfCredit(i, g) => if i < |p.credits| { CreditFaultsMean(w, p.credits[i]); }
    case OfCompensation(i, g) => if i < |p.compensations| { CompensationFaultsMean(w, p, p.compensations[i]); }
  }

  /** Of any tables whatever, the audit is clean exactly when they are consistent. */
  lemma CleanExactly(w: World, p: Program)
    ensures Clean(w, p) <==> Consistent(w, p)
  {
    if Clean(w, p) {
      CleanIsConsistent(w, p);
    }
    if Consistent(w, p) {
      forall f ensures !Faulty(w, p, f) {
        ConsistentHasNoFault(w, p, f);
      }
    }
  }

  lemma EveryTableIsAudited(f: Failure)
    ensures f.OfProfile? || f.OfSet? || f.OfAttempt? || f.OfTask? || f.OfQualification? || f.OfIntake? || f.OfClaimTask?
      || f.OfDetermination? || f.OfCredit? || f.OfCompensation?
  {
  }

  /** The audit reports exactly the failures, and none exactly for consistent tables. */
  method AuditExpertProgram(w: World, p: Program) returns (failures: seq<Failure>)
    ensures forall f :: f in failures <==> Faulty(w, p, f)
    ensures failures == [] <==> Consistent(w, p)
  {
    var profiles := AuditProfiles(w, p);
    var sets := AuditSets(w, p);
    var attempts := AuditAttempts(w, p);
    var tasks := AuditTasks(w, p);
    var qualifications := AuditQualifications(w, p);
    var intakes := AuditIntakes(w, p);
    var byTask := IndexClaims(p.claims.submissions);
    var claimTasks := AuditClaimTasks(w, p, byTask);
    var determinations := AuditClaimDeterminations(w, p, byTask);
    var credits := AuditCredits(w, p);
    var compensation := AuditCompensation(w, p);
    failures := profiles + sets + attempts + tasks + qualifications + intakes + claimTasks + determinations + credits + compensation;
    forall f ensures f in failures <==> Faulty(w, p, f) {
      EveryTableIsAudited(f);
    }
    NothingIn(failures);
    CleanExactly(w, p);
  }

  // ---- Good tables have no fault -----------------------------------------------------

  lemma RefsKnown(w: World, s: CalibrationSet, ref: CaseConcern)
    requires SetGood(w, s) && ref in s.refs
    ensures ref.Key() in w.cases && ConcernKnown(w, ref.concernId)
  {
    assert RefError(w, ref, s.domain).None?;
  }

  lemma NoSetFault(w: World, s: CalibrationSet, f: SetFault)
    requires SetGood(w, s)
    ensures !SetFaulty(w, s, f)
  {
  }

  lemma NoTaskFault(w: World, c: Calibration, i: nat, f: TaskFault)
    requires SetsGood(w, c.sets) && TasksGood(c) && SubmissionsGood(c) && i < |c.tasks|
    ensures !TaskFaulty(w, c, i, f)
  {
    assert TaskGood(c, i);
    var s := c.sets[c.attempts[c.tasks[i].attemptId].setId];
    assert SetGood(w, s);
    RefsKnown(w, s, c.tasks[i].ref);
  }

  lemma {:induction false} LastIndex(ss: seq<ClaimSubmission>)
    requires forall i, j :: 0 <= i < j < |ss| ==> ss[i].taskId != ss[j].taskId
    ensures forall i :: 0 <= i < |ss| ==> ss[i].taskId in ByTask(ss) && ByTask(ss)[ss[i].taskId] == i
  {
    if ss != [] {
      LastIndex(ss[..|ss| - 1]);
    }
  }

  lemma IndexedIffSubmitted(k: Claims, i: nat)
    requires ClaimSubmissionsGood(k)
    ensures i in ByTask(k.submissions) <==> HasSubmission(k, i)
  {
    LastIndex(k.submissions);
    ByTaskPoints(k.submissions);
    if i in ByTask(k.submissions) {
      assert k.submissions[ByTask(k.submissions)[i]] in k.submissions;
    }
  }

  lemma NoClaimTaskFault(w: World, k: Claims, i: nat, f: TaskFault)
    requires ClaimTasksGood(w, k) && ClaimSubmissionsGood(k) && i < |k.tasks|
    ensures !ClaimTaskFaulty(k, i, f)
  {
    assert ClaimTaskGood(w, k, i);
    LastIndex(k.submissions);
    ByTaskPoints(k.submissions);
    assert i in ByTask(k.submissions) <==> HasSubmission(k, i) by {
      IndexedIffSubmitted(k, i);
    }
  }

  lemma NoDeterminationFault(k: Claims, d: ClaimDetermination, f: DeterminationFault)
    requires ClaimSubmissionsGood(k) && DeterminationGood(k, d)
    ensures !DeterminationFaulty(k, d, f)
  {
    LastIndex(k.submissions);
    forall id | id in d.submissionIds ensures id in ByTask(k.submissions).Values {
      var task := k.submissions[id].taskId;
      assert task in ByTask(k.submissions) && ByTask(k.submissions)[task] == id;
    }
  }

  lemma NoFault(w: World, p: Program, f: Failure)
    requires Good(w, p)
    ensures !Faulty(w, p, f)
  {
    match f
    case OfProfile(a, g) =>
    case OfSet(i, g) =>
      if i < |p.calibration.sets| {
        NoSetFault(w, p.calibration.sets[i], g);
      }
    case OfAttempt(i, g) => assert i < |p.calibration.attempts| ==> AttemptGood(p.calibration, p.profiles, i);
    case OfTask(i, g) =>
      if i < |p.calibration.tasks| {
        NoTaskFault(w, p.calibration, i, g);
      }
    case OfQualification(i) =>
      assert i < |p.calibration.qualifications| ==> QualificationGood(p.calibration, p.calibration.qualifications[i]);
    case OfIntake(i, g) => assert i < |p.claims.intakes| ==> IntakeGood(w, p.claims.intakes[i]);
    case OfClaimTask(i, g) =>
      if i < |p.claims.tasks| {
        NoClaimTaskFault(w, p.claims, i, g);
      }
    case OfDetermination(i, g) =>
      if i < |p.claims.determinations| {
        NoDeterminationFault(p.claims, p.claims.determinations[i], g);
      }
    case OfCredit(i, g) =>
    case OfCompensation(i, g) =>
      assert i < |p.compensations| ==>
        CompensationGood(w, |p.calibration.tasks|, |p.claims.tasks|, p.compensations[i]);
  }

  /** From empty tables, with principals, cases and artifacts fixed, every run passes the audit. */
  method AuditRun(w: World, steps: seq<Step>) returns (failures: seq<Failure>)
    ensures failures == []
  {
    var p := Run(w, EMPTY, steps);
    RunsAreGood(w, steps);
    failures := AuditExpertProgram(w, p);
    forall f ensures f !in failures {
      NoFault(w, p, f);
    }
    NothingIn(failures);
  }
}
