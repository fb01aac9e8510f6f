/** What every step of the expert programme keeps. */
module ExpertInvariant {
  import opened Wrappers
  import D = NovelDetermination
  import R = NovelRegistry
  import opened ExpertTables

  // ---- Calibration -------------------------------------------------------------------

  predicate ProfilesGood(w: World, profiles: map<string, Profile>) {
    forall a :: a in profiles ==> a in w.adjudicators && (profiles[a].publicAttribution ==> Named(profiles[a].attributionName))
  }

  predicate SetGood(w: World, s: CalibrationSet) {
    && 1 <= s.minCases <= |s.refs| && 0.0 <= s.passThreshold <= 1.0
    && forall ref :: ref in s.refs ==> RefError(w, ref, s.domain).None?
  }

  predicate SetsGood(w: World, sets: seq<CalibrationSet>) {
    forall i :: 0 <= i < |sets| ==> SetGood(w, sets[i])
  }

  /** A score lies in the unit interval and its verdict is the set's own rule. */
  predicate ScoreGood(score: Score, s: CalibrationSet) {
    && 0 < score.completedCases && 0.0 <= score.aggregate <= 1.0
    && 0.0 <= score.validityAccuracy <= 1.0 && 0.0 <= score.severityAccuracy <= 1.0 && 0.0 <= score.meanDistance <= 4.0
    && score.falseCritical <= score.completedCases
    && (score.passed <==>
          score.completedCases >= s.minCases && score.aggregate >= s.passThreshold && score.falseCritical <= s.maxFalseCritical)
  }

  predicate AttemptGood(c: Calibration, profiles: map<string, Profile>, i: nat)
    requires i < |c.attempts|
  {
    var a := c.attempts[i];
    && a.setId < |c.sets| && a.adjudicatorId in profiles && HasTask(c, i)
    && (a.status == Completed <==> a.score.Some?)
    && a.passed == (if a.score.Some? then Some(a.score.value.passed) else None)
    && (a.score.Some? ==> ScoreGood(a.score.value, c.sets[a.setId]))
  }

  /** An attempt is completed exactly when all its tasks are. */
  predicate Timely(c: Calibration, i: nat)
    requires i < |c.attempts|
  {
    c.attempts[i].status == Completed <==> AllSubmitted(c, i)
  }

  predicate TaskGood(c: Calibration, i: nat)
    requires i < |c.tasks|
  {
    var t := c.tasks[i];
    && t.attemptId < |c.attempts|
    && c.attempts[t.attemptId].setId < |c.sets| && t.ref in c.sets[c.attempts[t.attemptId].setId].refs
    && t.status != R.TaskClaimed
    && (t.status == R.TaskCompleted <==> i in c.submissions)
  }

  predicate SubmissionsGood(c: Calibration) {
    forall i :: i in c.submissions ==> i < |c.tasks| && c.submissions[i].hash == R.DigestOf(c.submissions[i].decision)
  }

  /** A qualification comes from a passed attempt of the same expert in the same domain. */
  predicate QualificationGood(c: Calibration, q: Qualification) {
    && q.sourceAttempt < |c.attempts|
    && c.attempts[q.sourceAttempt].passed == Some(true) && c.attempts[q.sourceAttempt].adjudicatorId == q.actorId
    && c.attempts[q.sourceAttempt].setId < |c.sets| && c.sets[c.attempts[q.sourceAttempt].setId].domain == q.domain
  }

  predicate OneActive(qs: seq<Qualification>) {
    forall i, j :: 0 <= i < j < |qs| && qs[i].status == Active && qs[j].status == Active ==>
      qs[i].actorId != qs[j].actorId || qs[i].domain != qs[j].domain
  }

  predicate QualificationsGood(c: Calibration) {
    (forall i :: 0 <= i < |c.qualifications| ==> QualificationGood(c, c.qualifications[i])) && OneActive(c.qualifications)
  }

  predicate AttemptsGood(c: Calibration, profiles: map<string, Profile>) {
    forall i :: 0 <= i < |c.attempts| ==> AttemptGood(c, profiles, i)
  }

  predicate TasksGood(c: Calibration) {
    forall i :: 0 <= i < |c.tasks| ==> TaskGood(c, i)
  }

  predicate RowsGood(w: World, profiles: map<string, Profile>, c: Calibration) {
    SetsGood(w, c.sets) && AttemptsGood(c, profiles) && TasksGood(c) && SubmissionsGood(c) && QualificationsGood(c)
  }

  predicate AllTimely(c: Calibration) {
    forall i :: 0 <= i < |c.attempts| ==> Timely(c, i)
  }

  predicate CalibrationGood(w: World, profiles: map<string, Profile>, c: Calibration) {
    RowsGood(w, profiles, c) && AllTimely(c)
  }

  // ---- Claims ------------------------------------------------------------------------

  predicate IntakeGood(w: World, i: Intake) {
    && i.artifact in w.artifacts
    && (i.status == Accepted ==> i.reviewedBy.Some?)
    && (i.uses * PUBLIC_USES != {} ==> i.redistribution)
  }

  predicate HasSubmission(k: Claims, taskId: nat) {
    exists s :: s in k.submissions && s.taskId == taskId
  }

  predicate ClaimTaskGood(w: World, k: Claims, i: nat)
    requires i < |k.tasks|
  {
    var t := k.tasks[i];
    && t.intakeId < |k.intakes|
    && (t.status == R.TaskPending <==> t.assignedTo.None?)
    && (t.assignedTo.Some? ==> t.assignedTo.value in w.adjudicators)
    && (t.status == R.TaskCompleted <==> HasSubmission(k, i))
  }

  /** No expert holds two claim tasks of one intake. */
  predicate OneEach(tasks: seq<ClaimTask>) {
    forall i, j :: 0 <= i < j < |tasks| && tasks[i].intakeId == tasks[j].intakeId && tasks[i].assignedTo.Some? ==>
      tasks[i].assignedTo != tasks[j].assignedTo
  }

  predicate ClaimSubmissionsGood(k: Claims) {
    && (forall i :: 0 <= i < |k.submissions| ==>
          k.submissions[i].taskId < |k.tasks| && k.submissions[i].hash == R.DigestOf(k.submissions[i].claim)
          && k.submissions[i].intakeId == k.tasks[k.submissions[i].taskId].intakeId
          && k.tasks[k.submissions[i].taskId].assignedTo == Some(k.submissions[i].adjudicatorId))
    && (forall i, j :: 0 <= i < j < |k.submissions| ==> k.submissions[i].taskId != k.submissions[j].taskId)
  }

  predicate DeterminationGood(k: Claims, d: ClaimDetermination) {
    (forall id :: id in d.submissionIds ==> id < |k.submissions|) && (d.status == ClaimAccepted ==> d.canonical.Some?)
  }

  predicate IntakesGood(w: World, intakes: seq<Intake>) {
    forall i :: 0 <= i < |intakes| ==> IntakeGood(w, intakes[i])
  }

  predicate ClaimTasksGood(w: World, k: Claims) {
    (forall i :: 0 <= i < |k.tasks| ==> ClaimTaskGood(w, k, i)) && OneEach(k.tasks)
  }

  predicate DeterminationsGood(k: Claims) {
    forall i :: 0 <= i < |k.determinations| ==> DeterminationGood(k, k.determinations[i])
  }

  predicate ClaimsGood(w: World, k: Claims) {
    IntakesGood(w, k.intakes) && ClaimTasksGood(w, k) && ClaimSubmissionsGood(k) && DeterminationsGood(k)
  }

  // ---- Credit and compensation -------------------------------------------------------

  predicate CreditsGood(w: World, credits: seq<Credit>) {
    && (forall i :: 0 <= i < |credits| ==> credits[i].actorId in w.principals && (credits[i].public ==> Named(credits[i].publicName)))
    && (forall i, j :: 0 <= i < j < |credits| ==> credits[i].actorId != credits[j].actorId || credits[i].target != credits[j].target)
  }

  predicate TaskExists(w: World, calibrationTasks: nat, claimTasks: nat, task: TaskRef) {
    match task
    case OfAdjudication(id) => id in w.adjudicationTasks
    case OfCalibration(id) => id < calibrationTasks
    case OfClaim(id) => id < claimTasks
  }

  predicate CompensationGood(w: World, calibrationTasks: nat, claimTasks: nat, r: Compensation) {
    r.amount > 0 && (r.status == Paid ==> r.paidAt.Some?) && TaskExists(w, calibrationTasks, claimTasks, r.task)
  }

  predicate CompensationsGood(w: World, calibrationTasks: nat, claimTasks: nat, rows: seq<Compensation>) {
    && (forall i :: 0 <= i < |rows| ==> CompensationGood(w, calibrationTasks, claimTasks, rows[i]))
    && (forall i, j :: 0 <= i < j < |rows| ==> rows[i].task != rows[j].task)
  }

  predicate Good(w: World, p: Program) {
    && ProfilesGood(w, p.profiles)
    && CalibrationGood(w, p.profiles, p.calibration)
    && ClaimsGood(w, p.claims)
    && CreditsGood(w, p.credits)
    && CompensationsGood(w, |p.calibration.tasks|, |p.claims.tasks|, p.compensations)
  }

  // ---- Scores ------------------------------------------------------------------------

  lemma RatioBounds(a: nat, b: nat, k: nat)
    requires b > 0 && a <= k * b
    ensures 0.0 <= a as real / b as real <= k as real
  {
  }

  predicate TallyGood(t: Tally) {
    t.validityCorrect <= t.count && t.severityCorrect <= t.count && t.distance <= 4 * t.count && t.falseCritical <= t.count
  }

  lemma ScoreIsGood(t: Tally, s: CalibrationSet)
    requires TallyGood(t) && t.count > 0
    ensures ScoreGood(ScoreOf(t, s), s)
  {
    RatioBounds(t.validityCorrect, t.count, 1);
    RatioBounds(t.severityCorrect, t.count, 1);
    RatioBounds(t.distance, t.count, 4);
  }

  lemma ReferenceKnown(w: World, c: Calibration, i: nat)
    requires SetsGood(w, c.sets) && i < |c.tasks| && TaskGood(c, i)
    ensures ReferenceDecision(w, c.tasks[i].ref).Some?
  {
    var set_ := c.sets[c.attempts[c.tasks[i].attemptId].setId];
    assert SetGood(w, set_);
  }

  /** Scoring never fails: every task of the attempt has its submission and its reference. */
  lemma {:induction false} TallyHolds(w: World, c: Calibration, a: nat, n: nat)
    requires SetsGood(w, c.sets) && TasksGood(c) && AllSubmitted(c, a) && n <= |c.tasks|
    ensures TallyUpTo(w, c, a, n).Ok? && TallyGood(TallyUpTo(w, c, a, n).value)
    ensures TallyUpTo(w, c, a, n).value.count > 0 <==> exists i :: 0 <= i < n && c.tasks[i].attemptId == a
  {
    if n > 0 {
      TallyHolds(w, c, a, n - 1);
      assert TaskGood(c, n - 1);
      if c.tasks[n - 1].attemptId == a {
        ReferenceKnown(w, c, n - 1);
      }
    }
  }

  // ---- Profiles and sets -------------------------------------------------------------

  lemma ProfileKeepsGood(w: World, p: Program, actorId: string, data: ProfileInput)
    requires Good(w, p) && UpsertProfile(w, p, actorId, data).Ok?
    ensures Good(w, UpsertProfile(w, p, actorId, data).value)
  {
    var q := UpsertProfile(w, p, actorId, data).value;
    forall i | 0 <= i < |q.calibration.attempts| ensures AttemptGood(q.calibration, q.profiles, i) {
      assert AttemptGood(p.calibration, p.profiles, i);
    }
  }

  lemma {:induction false} NoRefError(w: World, refs: seq<CaseConcern>, domain: string)
    requires RefsError(w, refs, domain).None?
    ensures forall ref :: ref in refs ==> RefError(w, ref, domain).None?
  {
    if refs != [] {
      NoRefError(w, refs[1..], domain);
      assert refs == [refs[0]] + refs[1..];
    }
  }

  /** The calibration tables with rows added at the end keep what their rows say of each other. */
  lemma SetKeepsGood(w: World, p: Program, data: SetInput)
    requires Good(w, p) && CreateSet(w, p, data).Ok?
    ensures Good(w, CreateSet(w, p, data).value)
  {
    var q := CreateSet(w, p, data).value;
    var c, d := p.calibration, q.calibration;
    NoRefError(w, data.refs, data.domain);
    forall i | 0 <= i < |d.sets| ensures SetGood(w, d.sets[i]) {
      assert i < |c.sets| ==> SetGood(w, c.sets[i]);
    }
    forall i | 0 <= i < |d.attempts| ensures AttemptGood(d, q.profiles, i) && Timely(d, i) {
      assert AttemptGood(c, p.profiles, i) && Timely(c, i);
    }
    forall i | 0 <= i < |d.tasks| ensures TaskGood(d, i) {
      assert TaskGood(c, i);
    }
    forall i | 0 <= i < |d.qualifications| ensures QualificationGood(d, d.qualifications[i]) {
      assert QualificationGood(c, c.qualifications[i]);
    }
  }

  // ---- Starting an attempt -----------------------------------------------------------

  function Started(c: Calibration, setId: nat, actorId: string): Calibration
    requires setId < |c.sets|
  {
    c.(attempts := c.attempts + [Attempt(setId, actorId, InProgress, None, None)],
       tasks := c.tasks + TasksFor(|c.attempts|, c.sets[setId].refs))
  }

  lemma StartedTasks(w: World, profiles: map<string, Profile>, c: Calibration, setId: nat, actorId: string, i: nat)
    requires RowsGood(w, profiles, c) && setId < |c.sets| && i < |Started(c, setId, actorId).tasks|
    ensures TaskGood(Started(c, setId, actorId), i)
  {
    if i < |c.tasks| {
      assert TaskGood(c, i);
    }
  }

  lemma StartedAttempts(w: World, profiles: map<string, Profile>, c: Calibration, setId: nat, actorId: string, i: nat)
    requires CalibrationGood(w, profiles, c) && setId < |c.sets| && actorId in profiles && i <= |c.attempts|
    ensures AttemptGood(Started(c, setId, actorId), profiles, i) && Timely(Started(c, setId, actorId), i)
  {
    var d := Started(c, setId, actorId);
    if i < |c.attempts| {
      assert AttemptGood(c, profiles, i) && Timely(c, i);
      var j :| 0 <= j < |c.tasks| && c.tasks[j].attemptId == i;
      assert d.tasks[j] == c.tasks[j];
      assert forall k :: 0 <= k < |c.tasks| ==> d.tasks[k] == c.tasks[k];
      assert forall k :: |c.tasks| <= k < |d.tasks| ==> d.tasks[k].attemptId == |c.attempts|;
    } else {
      assert SetGood(w, c.sets[setId]);
      var first := d.tasks[|c.tasks|];
      assert first.attemptId == i && first.status == R.TaskPending;
    }
  }

  lemma StartedGood(w: World, profiles: map<string, Profile>, c: Calibration, setId: nat, actorId: string)
    requires CalibrationGood(w, profiles, c) && setId < |c.sets| && actorId in profiles
    ensures CalibrationGood(w, profiles, Started(c, setId, actorId))
  {
    var d := Started(c, setId, actorId);
    forall i | 0 <= i < |d.tasks| ensures TaskGood(d, i) {
      StartedTasks(w, profiles, c, setId, actorId, i);
    }
    forall i | 0 <= i < |d.attempts| ensures AttemptGood(d, profiles, i) && Timely(d, i) {
      StartedAttempts(w, profiles, c, setId, actorId, i);
    }
    forall i | 0 <= i < |d.qualifications| ensures QualificationGood(d, d.qualifications[i]) {
      assert QualificationGood(c, c.qualifications[i]);
    }
  }

  lemma MoreTasks(w: World, a: nat, b: nat, c: nat, d: nat, rows: seq<Compensation>)
    requires CompensationsGood(w, a, b, rows) && a <= c && b <= d
    ensures CompensationsGood(w, c, d, rows)
  {
  }

  lemma StartKeepsGood(w: World, p: Program, setId: nat, actorId: string)
    requires Good(w, p) && StartCalibration(p, setId, actorId).Ok?
    ensures Good(w, StartCalibration(p, setId, actorId).value)
  {
    var q := StartCalibration(p, setId, actorId).value;
    if q != p {
      StartedGood(w, p.profiles, p.calibration, setId, actorId);
      MoreTasks(w, |p.calibration.tasks|, |p.claims.tasks|, |q.calibration.tasks|, |q.claims.tasks|, p.compensations);
    }
  }

  // ---- Submitting a judgment ---------------------------------------------------------

  /** Recording a judgment on an open task keeps the rows; only its attempt may now be due for completion. */
  lemma RecordedRows(w: World, profiles: map<string, Profile>, c: Calibration, taskId: nat, actorId: string, decision: Judgment)
    requires RowsGood(w, profiles, c) && taskId < |c.tasks|
    ensures RowsGood(w, profiles, Recorded(c, taskId, actorId, decision))
  {
    var d := Recorded(c, taskId, actorId, decision);
    forall i | 0 <= i < |d.tasks| ensures TaskGood(d, i) {
      assert TaskGood(c, i);
    }
    forall i | 0 <= i < |d.attempts| ensures AttemptGood(d, profiles, i) {
      assert AttemptGood(c, profiles, i);
      var j :| 0 <= j < |c.tasks| && c.tasks[j].attemptId == i;
      assert d.tasks[j].attemptId == i;
    }
    forall i | 0 <= i < |d.qualifications| ensures QualificationGood(d, d.qualifications[i]) {
      assert QualificationGood(c, c.qualifications[i]);
    }
  }

  lemma RecordedTimely(c: Calibration, taskId: nat, actorId: string, decision: Judgment, i: nat)
    requires taskId < |c.tasks| && c.tasks[taskId].status == R.TaskPending && i < |c.attempts| && Timely(c, i)
    ensures i != c.tasks[taskId].attemptId ==> Timely(Recorded(c, taskId, actorId, decision), i)
    ensures i == c.tasks[taskId].attemptId ==> c.attempts[i].status == InProgress
  {
    var d := Recorded(c, taskId, actorId, decision);
    if i != c.tasks[taskId].attemptId {
      assert forall j :: 0 <= j < |c.tasks| && c.tasks[j].attemptId == i ==> d.tasks[j] == c.tasks[j];
      assert forall j :: 0 <= j < |c.tasks| ==> d.tasks[j].attemptId == c.tasks[j].attemptId;
    }
  }

  predicate TimelyBut(c: Calibration, a: nat) {
    forall i :: 0 <= i < |c.attempts| && i != a ==> Timely(c, i)
  }

  lemma StatusKeepsProfiles(w: World, profiles: map<string, Profile>, actorId: string, status: ExpertStatus)
    requires ProfilesGood(w, profiles)
    ensures ProfilesGood(w, WithStatus(profiles, actorId, status)) && WithStatus(profiles, actorId, status).Keys == profiles.Keys
  {
  }

  lemma KeysKeepRows(w: World, profiles: map<string, Profile>, other: map<string, Profile>, c: Calibration)
    requires RowsGood(w, profiles, c) && other.Keys == profiles.Keys
    ensures RowsGood(w, other, c)
  {
    forall i | 0 <= i < |c.attempts| ensures AttemptGood(c, other, i) {
      assert AttemptGood(c, profiles, i);
    }
  }

  lemma ScoredRows(w: World, p: Program, a: nat, score: Score)
    requires RowsGood(w, p.profiles, p.calibration) && a < |p.calibration.attempts|
    requires p.calibration.attempts[a].status == InProgress
    requires p.calibration.attempts[a].setId < |p.calibration.sets| && ScoreGood(score, p.calibration.sets[p.calibration.attempts[a].setId])
    ensures RowsGood(w, p.profiles, Scored(p, a, score))
  {
    var c, d := p.calibration, Scored(p, a, score);
    forall i | 0 <= i < |d.attempts| ensures AttemptGood(d, p.profiles, i) {
      assert AttemptGood(c, p.profiles, i);
    }
    forall i | 0 <= i < |d.tasks| ensures TaskGood(d, i) {
      assert TaskGood(c, i);
    }
    forall i | 0 <= i < |d.qualifications| ensures QualificationGood(d, d.qualifications[i]) {
      assert QualificationGood(c, c.qualifications[i]);
      assert AttemptGood(c, p.profiles, a);
    }
  }

  lemma ScoredTimely(p: Program, a: nat, score: Score)
    requires a < |p.calibration.attempts| && TimelyBut(p.calibration, a) && AllSubmitted(p.calibration, a)
    ensures AllTimely(Scored(p, a, score))
  {
    var c, d := p.calibration, Scored(p, a, score);
    forall i | 0 <= i < |d.attempts| ensures Timely(d, i) {
      assert i != a ==> Timely(c, i);
    }
  }

  lemma QualifiedGood(w: World, c: Calibration, a: nat, now: int)
    requires QualificationsGood(c) && a < |c.attempts| && c.attempts[a].passed == Some(true) && c.attempts[a].setId < |c.sets|
    ensures var r := Qualified(w, c.qualifications, c.attempts[a].adjudicatorId, c.sets[c.attempts[a].setId].domain, a, now);
      r.Ok? ==> QualificationsGood(c.(qualifications := r.value))
  {
  }

  /** Once recorded, the judgment completes its attempt or leaves it open, as it should; and the only
      thing that can go wrong is a passed attempt in a domain without an expiry rule. */
  lemma CompletionGood(w: World, p: Program, a: nat, now: int)
    requires ProfilesGood(w, p.profiles) && RowsGood(w, p.profiles, p.calibration)
    requires a < |p.calibration.attempts| && TimelyBut(p.calibration, a) && p.calibration.attempts[a].status == InProgress
    ensures var r := CompleteIfReady(w, p, a, now);
      && (r.Err? ==> r.error == UnknownDomain)
      && (r.Ok? ==> ProfilesGood(w, r.value.profiles) && CalibrationGood(w, r.value.profiles, r.value.calibration))
  {
    var c := p.calibration;
    assert AttemptGood(c, p.profiles, a);
    if !AllSubmitted(c, a) {
      assert Timely(c, a);
    } else {
      TallyHolds(w, c, a, |c.tasks|);
      CompletedGood(w, p, a, TallyUpTo(w, c, a, |c.tasks|).value, now);
    }
  }

  lemma CompletedGood(w: World, p: Program, a: nat, t: Tally, now: int)
    requires ProfilesGood(w, p.profiles) && RowsGood(w, p.profiles, p.calibration)
    requires a < |p.calibration.attempts| && TimelyBut(p.calibration, a) && p.calibration.attempts[a].status == InProgress
    requires HasTask(p.calibration, a) && AllSubmitted(p.calibration, a) && p.calibration.attempts[a].setId < |p.calibration.sets|
    requires TallyUpTo(w, p.calibration, a, |p.calibration.tasks|) == Ok(t) && TallyGood(t) && t.count > 0
    ensures var r := CompleteIfReady(w, p, a, now);
      && (r.Err? ==> r.error == UnknownDomain)
      && (r.Ok? ==> ProfilesGood(w, r.value.profiles) && CalibrationGood(w, r.value.profiles, r.value.calibration))
  {
    var attempt, r := p.calibration.attempts[a], CompleteIfReady(w, p, a, now);
    var set_ := p.calibration.sets[attempt.setId];
    var score := ScoreOf(t, set_);
    ScoreIsGood(t, set_);
    ScoredRows(w, p, a, score);
    ScoredTimely(p, a, score);
    var scored := Scored(p, a, score);
    var status := if score.passed then Eligible else InCalibration;
    StatusKeepsProfiles(w, p.profiles, attempt.adjudicatorId, status);
    KeysKeepRows(w, p.profiles, WithStatus(p.profiles, attempt.adjudicatorId, status), scored);
    if score.passed && r.Ok? {
      QualifiedGood(w, scored, a, now);
      MoreQualifications(w, r.value.profiles, scored, r.value.calibration.qualifications);
    }
  }

  lemma MoreQualifications(w: World, profiles: map<string, Profile>, c: Calibration, qs: seq<Qualification>)
    requires CalibrationGood(w, profiles, c) && QualificationsGood(c.(qualifications := qs))
    ensures CalibrationGood(w, profiles, c.(qualifications := qs))
  {
    var d := c.(qualifications := qs);
    forall i | 0 <= i < |d.attempts| ensures AttemptGood(d, profiles, i) && Timely(d, i) {
      assert AttemptGood(c, profiles, i) && Timely(c, i);
    }
    forall i | 0 <= i < |d.tasks| ensures TaskGood(d, i) {
      assert TaskGood(c, i);
    }
  }

  // ---- Credit ------------------------------------------------------------------------

  lemma CreditKeepsGood(w: World, p: Program, actorId: string, target: CreditTarget)
    requires Good(w, p) && actorId in w.principals
    ensures Good(w, RecordCredit(p, actorId, target))
  {
    if !(exists c :: c in p.credits && c.actorId == actorId && c.target == target) {
      assert forall i :: 0 <= i < |p.credits| ==> p.credits[i] in p.credits;
    }
  }

  lemma CompletionElsewhere(w: World, p: Program, a: nat, now: int)
    requires a < |p.calibration.attempts|
    ensures var r := CompleteIfReady(w, p, a, now);
      r.Ok? ==>
        && r.value.claims == p.claims && r.value.credits == p.credits && r.value.compensations == p.compensations
        && r.value.calibration.tasks == p.calibration.tasks
  {
  }

  lemma CalibrateSteps(w: World, p: Program, taskId: nat, data: CalibrationInput, actorId: string, now: int)
    requires Good(w, p) && taskId < |p.calibration.tasks| && p.calibration.tasks[taskId].status == R.TaskPending
    requires p.calibration.tasks[taskId].attemptId < |p.calibration.attempts|
    ensures var q := p.(calibration := Recorded(p.calibration, taskId, actorId, data.decision));
      var r := CompleteIfReady(w, q, p.calibration.tasks[taskId].attemptId, now);
      (r.Ok? ==> Good(w, r.value)) && (r.Err? ==> r.error == UnknownDomain)
  {
    var c, a := p.calibration, p.calibration.tasks[taskId].attemptId;
    var q := p.(calibration := Recorded(c, taskId, actorId, data.decision));
    RecordedRows(w, p.profiles, c, taskId, actorId, data.decision);
    assert Timely(c, a);
    RecordedTimely(c, taskId, actorId, data.decision, a);
    forall i | 0 <= i < |c.attempts| && i != a ensures Timely(q.calibration, i) {
      assert Timely(c, i);
      RecordedTimely(c, taskId, actorId, data.decision, i);
    }
    CompletionGood(w, q, a, now);
    CompletionElsewhere(w, q, a, now);
  }

  lemma CalibrateKeepsGood(w: World, p: Program, taskId: nat, data: CalibrationInput, actorId: string, now: int)
    requires Good(w, p)
    ensures var r := SubmitCalibration(w, p, taskId, data, actorId, now);
      (r.Ok? ==> Good(w, r.value)) && (r.Err? ==> r.error !in {ReferenceMissing, SetNotFound})
  {
    var c := p.calibration;
    if taskId < |c.tasks| && c.tasks[taskId].status == R.TaskPending {
      var a := c.tasks[taskId].attemptId;
      if a < |c.attempts| && c.attempts[a].adjudicatorId == actorId {
        CalibrateSteps(w, p, taskId, data, actorId, now);
        assert AttemptGood(c, p.profiles, a);
        assert actorId in w.principals;
        var r := CompleteIfReady(w, p.(calibration := Recorded(c, taskId, actorId, data.decision)), a, now);
        if r.Ok? {
          CreditKeepsGood(w, r.value, actorId, CalibrationCase(taskId));
        }
      }
    }
  }

  // ---- Intakes -----------------------------------------------------------------------

  lemma ClaimsWithIntakes(w: World, k: Claims, intakes: seq<Intake>)
    requires ClaimsGood(w, k) && |intakes| >= |k.intakes| && IntakesGood(w, intakes)
    ensures ClaimsGood(w, k.(intakes := intakes))
  {
    var l := k.(intakes := intakes);
    forall i | 0 <= i < |l.tasks| ensures ClaimTaskGood(w, l, i) {
      assert ClaimTaskGood(w, k, i);
    }
    forall i | 0 <= i < |l.determinations| ensures DeterminationGood(l, l.determinations[i]) {
      assert DeterminationGood(k, k.determinations[i]);
    }
  }

  lemma IntakeKeepsGood(w: World, p: Program, data: IntakeInput, actorId: string, isManager: bool)
    requires Good(w, p) && CreateIntake(w, p, data, actorId, isManager).Ok?
    ensures Good(w, CreateIntake(w, p, data, actorId, isManager).value)
  {
    var q := CreateIntake(w, p, data, actorId, isManager).value;
    ClaimsWithIntakes(w, p.claims, q.claims.intakes);
  }

  lemma ReviewKeepsGood(w: World, p: Program, intakeId: nat, review: Review, actorId: string)
    requires Good(w, p) && ReviewIntake(p, intakeId, review, actorId).Ok?
    ensures Good(w, ReviewIntake(p, intakeId, review, actorId).value)
  {
    var q := ReviewIntake(p, intakeId, review, actorId).value;
    forall i | 0 <= i < |q.claims.intakes| ensures IntakeGood(w, q.claims.intakes[i]) {
      assert IntakeGood(w, p.claims.intakes[i]);
    }
    ClaimsWithIntakes(w, p.claims, q.claims.intakes);
  }

  // ---- Claim tasks -------------------------------------------------------------------

  lemma SeededGood(w: World, k: Claims, intakeId: nat, anchors: set<string>)
    requires ClaimsGood(w, k) && intakeId < |k.intakes|
    ensures ClaimsGood(w, k.(tasks := k.tasks
      + [NewClaimTask(intakeId, D.Primary, anchors), NewClaimTask(intakeId, D.Secondary, anchors)]))
  {
    var l := k.(tasks := k.tasks + [NewClaimTask(intakeId, D.Primary, anchors), NewClaimTask(intakeId, D.Secondary, anchors)]);
    forall i | 0 <= i < |l.tasks| ensures ClaimTaskGood(w, l, i) {
      if i < |k.tasks| {
        assert ClaimTaskGood(w, k, i);
      } else {
        assert !HasSubmission(l, i);
      }
    }
    forall i | 0 <= i < |l.determinations| ensures DeterminationGood(l, l.determinations[i]) {
      assert DeterminationGood(k, k.determinations[i]);
    }
  }

  lemma SeedKeepsGood(w: World, p: Program, intakeId: nat, anchors: set<string>)
    requires Good(w, p) && SeedClaimTasks(p, intakeId, anchors).Ok?
    ensures Good(w, SeedClaimTasks(p, intakeId, anchors).value)
  {
    var q := SeedClaimTasks(p, intakeId, anchors).value;
    if q != p {
      SeededGood(w, p.claims, intakeId, anchors);
      MoreTasks(w, |p.calibration.tasks|, |p.claims.tasks|, |q.calibration.tasks|, |q.claims.tasks|, p.compensations);
    }
  }

  lemma ExpiringKeeps(c: Calibration, actorId: string, domain: string, now: int)
    requires QualificationsGood(c)
    ensures QualificationsGood(c.(qualifications := ExpireDue(c.qualifications, actorId, domain, now)))
  {
  }

  lemma CheckKeepsGood(w: World, p: Program, actorId: string, domain: string, now: int)
    requires Good(w, p)
    ensures Good(w, p.(calibration := CheckQualified(p.calibration, actorId, domain, now).1))
  {
    ExpiringKeeps(p.calibration, actorId, domain, now);
    MoreQualifications(w, p.profiles, p.calibration, ExpireDue(p.calibration.qualifications, actorId, domain, now));
    assert p.(calibration := p.calibration) == p;
  }

  function Taken(k: Claims, i: nat, actorId: string): Claims
    requires i < |k.tasks|
  {
    k.(tasks := k.tasks[i := k.tasks[i].(status := R.TaskClaimed, assignedTo := Some(actorId))])
  }

  lemma TakenTasks(w: World, k: Claims, i: nat, actorId: string, j: nat)
    requires ClaimsGood(w, k) && i < |k.tasks| && k.tasks[i].status == R.TaskPending && actorId in w.adjudicators && j < |k.tasks|
    ensures ClaimTaskGood(w, Taken(k, i, actorId), j)
  {
    assert ClaimTaskGood(w, k, j);
    assert HasSubmission(Taken(k, i, actorId), j) == HasSubmission(k, j);
  }

  lemma NobodyElse(w: World, k: Claims, i: nat, actorId: string)
    requires ClaimTasksGood(w, k) && i < |k.tasks| && !HoldsAnother(k.tasks, i, actorId)
    ensures forall j :: 0 <= j < |k.tasks| && j != i && k.tasks[j].intakeId == k.tasks[i].intakeId ==> k.tasks[j].assignedTo != Some(actorId)
  {
    forall j | 0 <= j < |k.tasks| && j != i && k.tasks[j].intakeId == k.tasks[i].intakeId ensures k.tasks[j].assignedTo != Some(actorId) {
      assert ClaimTaskGood(w, k, j);
    }
  }

  lemma NoSubmissionYet(w: World, k: Claims, i: nat, s: nat)
    requires ClaimsGood(w, k) && i < |k.tasks| && k.tasks[i].status != R.TaskCompleted && s < |k.submissions|
    ensures k.submissions[s].taskId != i
  {
    assert ClaimTaskGood(w, k, i);
    assert k.submissions[s] in k.submissions;
  }

  lemma TakenGood(w: World, k: Claims, i: nat, actorId: string)
    requires ClaimsGood(w, k) && i < |k.tasks| && k.tasks[i].status == R.TaskPending && actorId in w.adjudicators
    requires !HoldsAnother(k.tasks, i, actorId)
    ensures ClaimsGood(w, Taken(k, i, actorId))
  {
    var l := Taken(k, i, actorId);
    forall j | 0 <= j < |l.tasks| ensures ClaimTaskGood(w, l, j) {
      TakenTasks(w, k, i, actorId, j);
    }
    NobodyElse(w, k, i, actorId);
    forall s | 0 <= s < |k.submissions| ensures k.submissions[s].taskId != i {
      NoSubmissionYet(w, k, i, s);
    }
    forall d | 0 <= d < |l.determinations| ensures DeterminationGood(l, l.determinations[d]) {
      assert DeterminationGood(k, k.determinations[d]);
    }
  }

  lemma {:induction false} TakeKeepsGood(w: World, p: Program, i: nat, actorId: string, now: int)
    requires Good(w, p) && actorId in w.adjudicators && TakeFrom(p, i, actorId, now).Ok?
    ensures Good(w, TakeFrom(p, i, actorId, now).value)
    decreases |p.claims.tasks| - i
  {
    var k := p.claims;
    var task := k.tasks[i];
    if task.status != R.TaskPending || task.intakeId >= |k.intakes| || k.intakes[task.intakeId].status != Accepted {
      TakeKeepsGood(w, p, i + 1, actorId, now);
    } else {
      var domain := k.intakes[task.intakeId].domain;
      CheckKeepsGood(w, p, actorId, domain, now);
      var checked := p.(calibration := CheckQualified(p.calibration, actorId, domain, now).1);
      if !CheckQualified(p.calibration, actorId, domain, now).0 || HoldsAnother(k.tasks, i, actorId) {
        TakeKeepsGood(w, checked, i + 1, actorId, now);
      } else {
        TakenGood(w, k, i, actorId);
      }
    }
  }

  function Reconstructed(k: Claims, taskId: nat, claim: Claim, actorId: string): Claims
    requires taskId < |k.tasks|
  {
    k.(submissions := k.submissions + [ClaimSubmission(taskId, k.tasks[taskId].intakeId, actorId, claim, R.DigestOf(claim))],
       tasks := k.tasks[taskId := k.tasks[taskId].(status := R.TaskCompleted)])
  }

  lemma ReconstructedTasks(w: World, k: Claims, taskId: nat, claim: Claim, actorId: string, j: nat)
    requires ClaimsGood(w, k) && taskId < |k.tasks| && k.tasks[taskId].assignedTo == Some(actorId) && j < |k.tasks|
    ensures ClaimTaskGood(w, Reconstructed(k, taskId, claim, actorId), j)
  {
    var l := Reconstructed(k, taskId, claim, actorId);
    assert ClaimTaskGood(w, k, j);
    assert l.submissions == k.submissions + [l.submissions[|k.submissions|]];
    if j == taskId {
      assert l.submissions[|k.submissions|] in l.submissions;
    } else if HasSubmission(k, j) {
      var s :| s in k.submissions && s.taskId == j;
      assert s in l.submissions;
    }
  }

  lemma ReconstructedSubmissions(w: World, k: Claims, taskId: nat, claim: Claim, actorId: string)
    requires ClaimsGood(w, k) && taskId < |k.tasks| && k.tasks[taskId].assignedTo == Some(actorId)
    requires k.tasks[taskId].status == R.TaskClaimed
    ensures ClaimSubmissionsGood(Reconstructed(k, taskId, claim, actorId))
  {
    forall s | 0 <= s < |k.submissions| ensures k.submissions[s].taskId != taskId {
      NoSubmissionYet(w, k, taskId, s);
    }
  }

  lemma ReconstructedGood(w: World, k: Claims, taskId: nat, claim: Claim, actorId: string)
    requires ClaimsGood(w, k) && taskId < |k.tasks| && k.tasks[taskId].assignedTo == Some(actorId)
    requires k.tasks[taskId].status == R.TaskClaimed
    ensures ClaimsGood(w, Reconstructed(k, taskId, claim, actorId))
  {
    var l := Reconstructed(k, taskId, claim, actorId);
    forall j | 0 <= j < |l.tasks| ensures ClaimTaskGood(w, l, j) {
      ReconstructedTasks(w, k, taskId, claim, actorId, j);
    }
    ReconstructedSubmissions(w, k, taskId, claim, actorId);
    forall d | 0 <= d < |l.determinations| ensures DeterminationGood(l, l.determinations[d]) {
      assert DeterminationGood(k, k.determinations[d]);
    }
  }

  lemma ReconstructKeepsGood(w: World, p: Program, taskId: nat, claim: Claim, actorId: string)
    requires Good(w, p) && SubmitClaim(p, taskId, claim, actorId).Ok?
    ensures Good(w, SubmitClaim(p, taskId, claim, actorId).value)
  {
    ReconstructedGood(w, p.claims, taskId, claim, actorId);
    assert ClaimTaskGood(w, p.claims, taskId);
    CreditKeepsGood(w, p.(claims := Reconstructed(p.claims, taskId, claim, actorId)), actorId,
      Reconstruction(|p.claims.submissions|));
  }

  lemma DetermineKeepsGood(w: World, p: Program, intakeId: nat, data: DeterminationInput)
    requires Good(w, p) && DetermineClaim(p, intakeId, data).Ok?
    ensures Good(w, DetermineClaim(p, intakeId, data).value)
  {
    var k, l := p.claims, DetermineClaim(p, intakeId, data).value.claims;
    forall j | 0 <= j < |l.tasks| ensures ClaimTaskGood(w, l, j) {
      assert ClaimTaskGood(w, k, j);
    }
    forall d | 0 <= d < |l.determinations| ensures DeterminationGood(l, l.determinations[d]) {
      assert d < |k.determinations| ==> DeterminationGood(k, k.determinations[d]);
    }
  }

  // ---- Compensation ------------------------------------------------------------------

  lemma CompensateKeepsGood(w: World, p: Program, data: CompensationInput)
    requires Good(w, p) && CreateCompensation(w, p, data).Ok?
    ensures Good(w, CreateCompensation(w, p, data).value)
  {
    var q := CreateCompensation(w, p, data).value;
    if q != p {
      var a, b := |p.calibration.tasks|, |p.claims.tasks|;
      forall i | 0 <= i < |q.compensations| ensures CompensationGood(w, a, b, q.compensations[i]) {
        assert i < |p.compensations| ==> CompensationGood(w, a, b, p.compensations[i]);
      }
      assert forall i :: 0 <= i < |p.compensations| ==> p.compensations[i] in p.compensations;
    }
  }

  lemma SettleKeepsGood(w: World, p: Program, id: nat, settlement: Settlement, now: int)
    requires Good(w, p) && UpdateCompensation(p, id, settlement, now).Ok?
    ensures Good(w, UpdateCompensation(p, id, settlement, now).value)
  {
  }

  // ---- Runs --------------------------------------------------------------------------

  lemma StepKeepsGood(w: World, p: Program, step: Step)
    requires Good(w, p)
    ensures Good(w, Apply(w, p, step))
  {
    if Execute(w, p, step).Ok? {
      match step
      case StepProfile(actorId, profile) => ProfileKeepsGood(w, p, actorId, profile);
      case StepSet(data) => SetKeepsGood(w, p, data);
      case StepStart(setId, actorId) => StartKeepsGood(w, p, setId, actorId);
      case StepCalibrate(taskId, input, actorId, now) => CalibrateKeepsGood(w, p, taskId, input, actorId, now);
      case StepIntake(intake, actorId, isManager) => IntakeKeepsGood(w, p, intake, actorId, isManager);
      case StepReview(intakeId, review, actorId) => ReviewKeepsGood(w, p, intakeId, review, actorId);
      case StepSeed(intakeId, anchors) => SeedKeepsGood(w, p, intakeId, anchors);
      case StepTake(actorId, now) => TakeKeepsGood(w, p, 0, actorId, now);
      case StepReconstruct(taskId, claim, actorId) => ReconstructKeepsGood(w, p, taskId, claim, actorId);
      case StepDetermine(intakeId, determination) => DetermineKeepsGood(w, p, intakeId, determination);
      case StepCompensate(compensation) => CompensateKeepsGood(w, p, compensation);
      case StepSettle(id, settlement, now) => SettleKeepsGood(w, p, id, settlement, now);
    }
  }

  lemma {:induction false} RunKeepsGood(w: World, p: Program, steps: seq<Step>)
    requires Good(w, p)
    ensures Good(w, Run(w, p, steps))
    decreases |steps|
  {
    if steps != [] {
      StepKeepsGood(w, p, steps[0]);
      RunKeepsGood(w, Apply(w, p, steps[0]), steps[1..]);
    }
  }

  lemma RunsAreGood(w: World, steps: seq<Step>)
    ensures Good(w, Run(w, EMPTY, steps))
  {
    RunKeepsGood(w, EMPTY, steps);
  }
}
