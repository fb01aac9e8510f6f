/** What holds of every run of the expert programme. */
module ExpertTheorems {
  import opened Wrappers
  import D = NovelDetermination
  import R = NovelRegistry
  import opened ExpertTables
  import opened ExpertInvariant

  // ---- Calibration -------------------------------------------------------------------

  /** After any run an attempt is completed exactly when all its tasks are; it then has a score in the
      unit interval whose verdict is the set's rule. */
  lemma AttemptsCompleteOnTime(w: World, steps: seq<Step>, i: nat)
    requires i < |Run(w, EMPTY, steps).calibration.attempts|
    ensures var c := Run(w, EMPTY, steps).calibration;
      var a := c.attempts[i];
      && (a.status == Completed <==> AllSubmitted(c, i))
      && (a.status == Completed <==> a.score.Some?)
      && (a.score.Some? ==> a.setId < |c.sets| && ScoreGood(a.score.value, c.sets[a.setId]) && a.passed == Some(a.score.value.passed))
  {
    RunsAreGood(w, steps);
    var p := Run(w, EMPTY, steps);
    assert Timely(p.calibration, i) && AttemptGood(p.calibration, p.profiles, i);
  }

  predicate OthersSubmitted(c: Calibration, taskId: nat)
    requires taskId < |c.tasks|
  {
    forall j :: 0 <= j < |c.tasks| && j != taskId && c.tasks[j].attemptId == c.tasks[taskId].attemptId ==> c.tasks[j].status == R.TaskCompleted
  }

  lemma LastOpen(c: Calibration, d: Calibration, taskId: nat)
    requires taskId < |c.tasks| && d.tasks == c.tasks[taskId := c.tasks[taskId].(status := R.TaskCompleted)]
    ensures AllSubmitted(d, c.tasks[taskId].attemptId) <==> OthersSubmitted(c, taskId)
  {
    assert forall j :: 0 <= j < |c.tasks| ==> d.tasks[j].attemptId == c.tasks[j].attemptId;
    assert forall j :: 0 <= j < |c.tasks| && j != taskId ==> d.tasks[j] == c.tasks[j];
    assert d.tasks[taskId].status == R.TaskCompleted;
  }

  lemma SubmittedTasks(w: World, p: Program, taskId: nat, data: CalibrationInput, actorId: string, now: int)
    requires SubmitCalibration(w, p, taskId, data, actorId, now).Ok?
    ensures var after := SubmitCalibration(w, p, taskId, data, actorId, now).value.calibration;
      && after.tasks == p.calibration.tasks[taskId := p.calibration.tasks[taskId].(status := R.TaskCompleted)]
      && |after.attempts| == |p.calibration.attempts|
  {
    var a := p.calibration.tasks[taskId].attemptId;
    CompletionElsewhere(w, p.(calibration := Recorded(p.calibration, taskId, actorId, data.decision)), a, now);
  }

  /** A submission completes its attempt exactly when it was the last one missing. */
  lemma LastTaskCompletes(w: World, p: Program, taskId: nat, data: CalibrationInput, actorId: string, now: int)
    requires Good(w, p) && SubmitCalibration(w, p, taskId, data, actorId, now).Ok?
    ensures var after := SubmitCalibration(w, p, taskId, data, actorId, now).value.calibration;
      var a := p.calibration.tasks[taskId].attemptId;
      && p.calibration.attempts[a].status == InProgress && a < |after.attempts|
      && (after.attempts[a].status == Completed <==> OthersSubmitted(p.calibration, taskId))
  {
    var c, a := p.calibration, p.calibration.tasks[taskId].attemptId;
    var q := SubmitCalibration(w, p, taskId, data, actorId, now).value;
    SubmittedTasks(w, p, taskId, data, actorId, now);
    CalibrateKeepsGood(w, p, taskId, data, actorId, now);
    assert Timely(c, a);
    RecordedTimely(c, taskId, actorId, data.decision, a);
    assert Timely(q.calibration, a);
    LastOpen(c, q.calibration, taskId);
  }

  /** After any run every qualification, active or expired, stems from a passed attempt of its holder in
      its domain, and nobody has two active ones in a domain. */
  lemma QualificationsAreEarned(w: World, steps: seq<Step>, i: nat)
    requires i < |Run(w, EMPTY, steps).calibration.qualifications|
    ensures var c := Run(w, EMPTY, steps).calibration;
      QualificationGood(c, c.qualifications[i]) && OneActive(c.qualifications)
  {
    RunsAreGood(w, steps);
  }

  // ---- A set is worked through completely --------------------------------------------

  function TaskCount(tasks: seq<CalibrationTask>, a: nat): nat {
    if tasks == [] then 0 else (if tasks[0].attemptId == a then 1 else 0) + TaskCount(tasks[1..], a)
  }

  lemma {:induction false} TaskCountSum(xs: seq<CalibrationTask>, ys: seq<CalibrationTask>, a: nat)
    ensures TaskCount(xs + ys, a) == TaskCount(xs, a) + TaskCount(ys, a)
  {
    if xs == [] {
      assert xs + ys == ys;
    } else {
      assert (xs + ys)[1..] == xs[1..] + ys;
      TaskCountSum(xs[1..], ys, a);
    }
  }

  lemma {:induction false} TaskCountUpdate(xs: seq<CalibrationTask>, i: nat, x: CalibrationTask, a: nat)
    requires i < |xs| && x.attemptId == xs[i].attemptId
    ensures TaskCount(xs[i := x], a) == TaskCount(xs, a)
  {
    if i == 0 {
      assert xs[0 := x][1..] == xs[1..];
    } else {
      assert xs[i := x][1..] == xs[1..][i - 1 := x];
      TaskCountUpdate(xs[1..], i - 1, x, a);
    }
  }

  lemma {:induction false} NewTasksCount(attemptId: nat, refs: seq<CaseConcern>, a: nat)
    ensures TaskCount(TasksFor(attemptId, refs), a) == if a == attemptId then |refs| else 0
  {
    if refs != [] {
      assert TasksFor(attemptId, refs)[1..] == TasksFor(attemptId, refs[1..]);
      NewTasksCount(attemptId, refs[1..], a);
    }
  }

  lemma {:induction false} NoTasksCount(xs: seq<CalibrationTask>, a: nat)
    requires forall i :: 0 <= i < |xs| ==> xs[i].attemptId != a
    ensures TaskCount(xs, a) == 0
  {
    if xs != [] {
      NoTasksCount(xs[1..], a);
    }
  }

  lemma {:induction false} TallyCounts(w: World, c: Calibration, a: nat, n: nat)
    requires n <= |c.tasks| && TallyUpTo(w, c, a, n).Ok?
    ensures TallyUpTo(w, c, a, n).value.count == TaskCount(c.tasks[..n], a)
  {
    if n > 0 {
      TallyCounts(w, c, a, n - 1);
      assert c.tasks[..n] == c.tasks[..n - 1] + [c.tasks[n - 1]];
      TaskCountSum(c.tasks[..n - 1], [c.tasks[n - 1]], a);
    }
  }

  /** The attempt has one task per reference of its set, and its score, if any, covers them all. */
  predicate Covers(c: Calibration, i: nat)
    requires i < |c.attempts|
  {
    var a := c.attempts[i];
    a.setId < |c.sets| ==>
      && TaskCount(c.tasks, i) == |c.sets[a.setId].refs|
      && (a.score.Some? ==> a.score.value.completedCases == |c.sets[a.setId].refs|)
  }

  predicate AllCover(c: Calibration) {
    forall i :: 0 <= i < |c.attempts| ==> Covers(c, i)
  }

  lemma StartCovers(w: World, p: Program, setId: nat, actorId: string)
    requires Good(w, p) && AllCover(p.calibration) && setId < |p.calibration.sets|
    ensures AllCover(Started(p.calibration, setId, actorId))
  {
    var c, d := p.calibration, Started(p.calibration, setId, actorId);
    forall i | 0 <= i < |d.attempts| ensures Covers(d, i) {
      TaskCountSum(c.tasks, TasksFor(|c.attempts|, c.sets[setId].refs), i);
      NewTasksCount(|c.attempts|, c.sets[setId].refs, i);
      if i < |c.attempts| {
        assert Covers(c, i);
      } else {
        forall j | 0 <= j < |c.tasks| ensures c.tasks[j].attemptId != i {
          assert TaskGood(c, j);
        }
        NoTasksCount(c.tasks, i);
      }
    }
  }

  lemma CompleteCovers(w: World, p: Program, a: nat, now: int)
    requires a < |p.calibration.attempts| && AllCover(p.calibration) && CompleteIfReady(w, p, a, now).Ok?
    ensures AllCover(CompleteIfReady(w, p, a, now).value.calibration)
  {
    var c, d := p.calibration, CompleteIfReady(w, p, a, now).value.calibration;
    if TallyUpTo(w, c, a, |c.tasks|).Ok? {
      TallyCounts(w, c, a, |c.tasks|);
      assert c.tasks[..|c.tasks|] == c.tasks;
    }
    forall i | 0 <= i < |d.attempts| ensures Covers(d, i) {
      assert Covers(c, i);
    }
  }

  lemma CalibrateCovers(w: World, p: Program, taskId: nat, data: CalibrationInput, actorId: string, now: int)
    requires AllCover(p.calibration) && SubmitCalibration(w, p, taskId, data, actorId, now).Ok?
    ensures AllCover(SubmitCalibration(w, p, taskId, data, actorId, now).value.calibration)
  {
    var c, d := p.calibration, Recorded(p.calibration, taskId, actorId, data.decision);
    forall i | 0 <= i < |d.attempts| ensures Covers(d, i) {
      assert Covers(c, i);
      TaskCountUpdate(c.tasks, taskId, d.tasks[taskId], i);
    }
    CompleteCovers(w, p.(calibration := d), c.tasks[taskId].attemptId, now);
  }

  lemma {:induction false} TakeCovers(p: Program, i: nat, actorId: string, now: int)
    requires AllCover(p.calibration) && TakeFrom(p, i, actorId, now).Ok?
    ensures AllCover(TakeFrom(p, i, actorId, now).value.calibration)
    decreases |p.claims.tasks| - i
  {
    var k := p.claims;
    var task := k.tasks[i];
    if task.status != R.TaskPending || task.intakeId >= |k.intakes| || k.intakes[task.intakeId].status != Accepted {
      TakeCovers(p, i + 1, actorId, now);
    } else {
      var domain := k.intakes[task.intakeId].domain;
      var checked := p.(calibration := CheckQualified(p.calibration, actorId, domain, now).1);
      forall j | 0 <= j < |checked.calibration.attempts| ensures Covers(checked.calibration, j) {
        assert Covers(p.calibration, j);
      }
      if !CheckQualified(p.calibration, actorId, domain, now).0 || HoldsAnother(k.tasks, i, actorId) {
        TakeCovers(checked, i + 1, actorId, now);
      }
    }
  }

  lemma StepCovers(w: World, p: Program, step: Step)
    requires Good(w, p) && AllCover(p.calibration)
    ensures AllCover(Apply(w, p, step).calibration)
  {
    var c, d := p.calibration, Apply(w, p, step).calibration;
    if Execute(w, p, step).Ok? {
      match step
      case StepSet(data) =>
        forall i | 0 <= i < |d.attempts| ensures Covers(d, i) {
          assert Covers(c, i) && AttemptGood(c, p.profiles, i);
        }
      case StepStart(setId, actorId) => if d != c { StartCovers(w, p, setId, actorId); }
      case StepCalibrate(taskId, input, actorId, now) => CalibrateCovers(w, p, taskId, input, actorId, now);
      case StepTake(actorId, now) => TakeCovers(p, 0, actorId, now);
      case _ =>
    }
  }

  lemma {:induction false} RunCovers(w: World, p: Program, steps: seq<Step>)
    requires Good(w, p) && AllCover(p.calibration)
    ensures AllCover(Run(w, p, steps).calibration)
    decreases |steps|
  {
    if steps != [] {
      StepCovers(w, p, steps[0]);
      StepKeepsGood(w, p, steps[0]);
      RunCovers(w, Apply(w, p, steps[0]), steps[1..]);
    }
  }

  /** After any run a completed attempt covers every case of its set, so the required number of cases is
      always reached and only the score and the false criticals decide. */
  lemma CaseCountNeverFails(w: World, steps: seq<Step>, i: nat)
    requires i < |Run(w, EMPTY, steps).calibration.attempts|
    requires Run(w, EMPTY, steps).calibration.attempts[i].status == Completed
    ensures var c := Run(w, EMPTY, steps).calibration;
      var a := c.attempts[i];
      && a.score.Some? && a.setId < |c.sets|
      && a.score.value.completedCases == |c.sets[a.setId].refs| >= c.sets[a.setId].minCases
      && (a.passed == Some(true) <==>
            a.score.value.aggregate >= c.sets[a.setId].passThreshold && a.score.value.falseCritical <= c.sets[a.setId].maxFalseCritical)
  {
    RunsAreGood(w, steps);
    RunCovers(w, EMPTY, steps);
    var p := Run(w, EMPTY, steps);
    assert AttemptGood(p.calibration, p.profiles, i) && Covers(p.calibration, i);
    assert SetGood(w, p.calibration.sets[p.calibration.attempts[i].setId]);
  }

  // ---- What a score means ------------------------------------------------------------

  /** Right validities are worth three quarters, severity the rest, and only flawless answers score one. */
  lemma AggregateMeans(t: Tally)
    requires TallyGood(t) && t.count > 0
    ensures Aggregate(t) == 1.0 <==> t.validityCorrect == t.count && t.distance == 0
    ensures t.validityCorrect == t.count ==> Aggregate(t) >= 0.75
    ensures t.validityCorrect == 0 ==> Aggregate(t) <= 0.25
  {
    WholeRatio(t.validityCorrect, t.count);
    RatioBounds(t.validityCorrect, t.count, 1);
    RatioBounds(t.distance, t.count, 4);
    ZeroRatio(t.distance, t.count);
    ZeroRatio(t.validityCorrect, t.count);
  }

  lemma WholeRatio(a: nat, b: nat)
    requires b > 0
    ensures a as real / b as real == 1.0 <==> a == b
  {
  }

  lemma ZeroRatio(a: nat, b: nat)
    requires b > 0
    ensures a as real / b as real == 0.0 <==> a == 0
  {
  }

  /** The judgment given on a task is the reference. */
  predicate Right(w: World, c: Calibration, i: nat)
    requires i < |c.tasks|
  {
    i in c.submissions && Some(c.submissions[i].decision) == ReferenceDecision(w, c.tasks[i].ref)
  }

  predicate Flawless(t: Tally) {
    t.validityCorrect == t.severityCorrect == t.count && t.distance == 0 && t.falseCritical == 0
  }

  /** An attempt's counts are flawless exactly when every judgment is the reference. */
  lemma {:induction false} FlawlessExactly(w: World, c: Calibration, a: nat, n: nat)
    requires n <= |c.tasks| && TallyUpTo(w, c, a, n).Ok?
    ensures var t := TallyUpTo(w, c, a, n).value;
      && t.validityCorrect <= t.count && t.severityCorrect <= t.count
      && (Flawless(t) <==> forall i :: 0 <= i < n && c.tasks[i].attemptId == a ==> Right(w, c, i))
  {
    if n > 0 {
      FlawlessExactly(w, c, a, n - 1);
    }
  }

  lemma {:induction false} CountAll<T>(xs: seq<T>, x: T)
    requires forall i :: 0 <= i < |xs| ==> xs[i] == x
    ensures CountOf(xs, x) == |xs|
    ensures xs != [] ==> MostCommon(xs) == x
    decreases |xs|
  {
    if |xs| > 1 {
      CountAll(xs[1..], x);
      CountAll(xs[..|xs| - 1], x);
    }
  }

  /** The most common element occurs at least as often as any other. */
  lemma {:induction false} MostCommonWins<T>(xs: seq<T>, x: T)
    requires xs != []
    ensures MostCommon(xs) in xs && CountOf(xs, x) <= CountOf(xs, MostCommon(xs))
    decreases |xs|
  {
    if |xs| > 1 {
      var init, last := xs[..|xs| - 1], xs[|xs| - 1];
      assert xs == init + [last];
      MostCommonWins(init, x);
      MostCommonWins(init, last);
      CountSnoc(init, last, x);
      CountSnoc(init, last, last);
      CountSnoc(init, last, MostCommon(init));
    }
  }

  /** For a case admitted to a calibration set the reference decision is the experts' consensus. */
  lemma ReferenceIsConsensus(w: World, ref: CaseConcern, domain: string, k: nat)
    requires RefError(w, ref, domain).None?
    requires k < |w.cases[ref.Key()][ref.concernId].references|
    ensures ReferenceDecision(w, ref) == Some(w.cases[ref.Key()][ref.concernId].references[k])
  {
    var js := w.cases[ref.Key()][ref.concernId].references;
    assert forall i :: 0 <= i < |js| ==> js[i] == js[k];
    CountAll(Validities(js), js[k].validity);
    CountAll(Severities(js), js[k].severity);
  }

  // ---- The submission that cannot go through -----------------------------------------

  /** Whether the attempt's answers, all in, would pass. */
  predicate WouldPass(w: World, c: Calibration, a: nat)
    requires a < |c.attempts|
  {
    var t := TallyUpTo(w, c, a, |c.tasks|);
    t.Ok? && t.value.count > 0 && c.attempts[a].setId < |c.sets| && Passes(t.value, c.sets[c.attempts[a].setId])
  }

  /** Past its input checks a judgment is refused exactly when it is the last of a passing attempt, its
      author holds no active qualification in the domain, and the domain has no expiry rule. */
  lemma RefusedHere(w: World, p: Program, taskId: nat, data: CalibrationInput, actorId: string, now: int)
    requires Good(w, p) && taskId < |p.calibration.tasks| && p.calibration.tasks[taskId].status == R.TaskPending
    requires var a := p.calibration.tasks[taskId].attemptId;
      a < |p.calibration.attempts| && p.calibration.attempts[a].adjudicatorId == actorId
    requires InputError(w, p.calibration.tasks[taskId].ref, data).None?
    ensures var c, a := p.calibration, p.calibration.tasks[taskId].attemptId;
      && c.attempts[a].setId < |c.sets|
      && var domain := c.sets[c.attempts[a].setId].domain;
      SubmitCalibration(w, p, taskId, data, actorId, now).Err? <==>
        && OthersSubmitted(c, taskId) && WouldPass(w, Recorded(c, taskId, actorId, data.decision), a)
        && !HoldsActive(c.qualifications, actorId, domain) && domain !in w.expiryDays
  {
    var c, a := p.calibration, p.calibration.tasks[taskId].attemptId;
    var d := Recorded(c, taskId, actorId, data.decision);
    assert AttemptGood(c, p.profiles, a);
    RecordedRows(w, p.profiles, c, taskId, actorId, data.decision);
    assert AttemptGood(d, p.profiles, a);
    LastOpen(c, d, taskId);
    if AllSubmitted(d, a) {
      TallyHolds(w, d, a, |d.tasks|);
    }
  }

  /** Every qualification is in a domain with an expiry rule. */
  predicate UnderRules(w: World, qs: seq<Qualification>) {
    forall q :: q in qs ==> q.domain in w.expiryDays
  }

  lemma CompletionUnderRules(w: World, p: Program, a: nat, now: int)
    requires a < |p.calibration.attempts| && UnderRules(w, p.calibration.qualifications)
    ensures var r := CompleteIfReady(w, p, a, now);
      r.Ok? ==> UnderRules(w, r.value.calibration.qualifications)
  {
  }

  lemma {:induction false} TakeUnderRules(w: World, p: Program, i: nat, actorId: string, now: int)
    requires UnderRules(w, p.calibration.qualifications)
    ensures var r := TakeFrom(p, i, actorId, now);
      r.Ok? ==> UnderRules(w, r.value.calibration.qualifications)
    decreases |p.claims.tasks| - i
  {
    var k := p.claims;
    if i < |k.tasks| {
      var task := k.tasks[i];
      if task.status != R.TaskPending || task.intakeId >= |k.intakes| || k.intakes[task.intakeId].status != Accepted {
        TakeUnderRules(w, p, i + 1, actorId, now);
      } else {
        var (qualified, c) := CheckQualified(p.calibration, actorId, k.intakes[task.intakeId].domain, now);
        CheckUnderRules(w, p.calibration, actorId, k.intakes[task.intakeId].domain, now);
        TakeUnderRules(w, p.(calibration := c), i + 1, actorId, now);
      }
    }
  }

  lemma CheckUnderRules(w: World, c: Calibration, actorId: string, domain: string, now: int)
    requires UnderRules(w, c.qualifications)
    ensures UnderRules(w, CheckQualified(c, actorId, domain, now).1.qualifications)
  {
  }

  lemma OthersLeaveQualifications(w: World, p: Program, step: Step)
    requires !step.StepCalibrate? && !step.StepTake?
    ensures Apply(w, p, step).calibration.qualifications == p.calibration.qualifications
  {
  }

  lemma StepUnderRules(w: World, p: Program, step: Step)
    requires UnderRules(w, p.calibration.qualifications)
    ensures UnderRules(w, Apply(w, p, step).calibration.qualifications)
  {
    match step
    case StepCalibrate(taskId, input, actorId, now) =>
      if taskId < |p.calibration.tasks| && p.calibration.tasks[taskId].attemptId < |p.calibration.attempts| {
        var q := p.(calibration := Recorded(p.calibration, taskId, actorId, input.decision));
        CompletionUnderRules(w, q, p.calibration.tasks[taskId].attemptId, now);
      }
    case StepTake(actorId, now) => TakeUnderRules(w, p, 0, actorId, now);
    case _ => OthersLeaveQualifications(w, p, step);
  }

  lemma {:induction false} RunUnderRules(w: World, p: Program, steps: seq<Step>)
    requires UnderRules(w, p.calibration.qualifications)
    ensures UnderRules(w, Run(w, p, steps).calibration.qualifications)
    decreases |steps|
  {
    if steps != [] {
      StepUnderRules(w, p, steps[0]);
      RunUnderRules(w, Apply(w, p, steps[0]), steps[1..]);
    }
  }

  /** After any run, a calibration judgment that passes the checks on its input is still refused exactly
      when it is the last of a passing attempt in a domain that has no expiry rule. */
  lemma RefusedExactly(w: World, steps: seq<Step>, taskId: nat, data: CalibrationInput, actorId: string, now: int)
    requires var c := Run(w, EMPTY, steps).calibration;
      && taskId < |c.tasks| && c.tasks[taskId].status == R.TaskPending
      && c.tasks[taskId].attemptId < |c.attempts| && c.attempts[c.tasks[taskId].attemptId].adjudicatorId == actorId
      && InputError(w, c.tasks[taskId].ref, data).None?
    ensures var p := Run(w, EMPTY, steps);
      var c, a := p.calibration, p.calibration.tasks[taskId].attemptId;
      && c.attempts[a].setId < |c.sets|
      && (SubmitCalibration(w, p, taskId, data, actorId, now).Err? <==>
            && OthersSubmitted(c, taskId) && WouldPass(w, Recorded(c, taskId, actorId, data.decision), a)
            && c.sets[c.attempts[a].setId].domain !in w.expiryDays)
  {
    RunsAreGood(w, steps);
    RunUnderRules(w, EMPTY, steps);
    RefusedHere(w, Run(w, EMPTY, steps), taskId, data, actorId, now);
  }

  /** One expert, one case on which two reference experts agree, and no expiry rule for its domain. */
  function UnruledWorld(expert: string, domain: string, j: Judgment): World {
    World({expert}, {expert}, map[], map[("occase_1", "1") := map["occoncern_1" := ConcernFile(domain, [j, j], {"ocevidence_1"})]], map[], false, map[])
  }

  const ONLY := CaseConcern("occase_1", "1", "occoncern_1")

  function UnruledSet(domain: string): SetInput {
    SetInput(domain, [ONLY], 1, 1.0, 0, true)
  }

  function Answer(j: Judgment): CalibrationInput {
    CalibrationInput(j, {"ocevidence_1"}, false, true, NoConflict)
  }

  /** A profile, a calibration set and an attempt at it. */
  function AttemptSteps(expert: string, domain: string, profile: ProfileInput): seq<Step> {
    [StepProfile(expert, profile), StepSet(UnruledSet(domain)), StepStart(0, expert)]
  }

  lemma UnruledRefs(expert: string, domain: string, j: Judgment)
    ensures RefsError(UnruledWorld(expert, domain, j), [ONLY], domain).None?
    ensures ReferenceDecision(UnruledWorld(expert, domain, j), ONLY) == Some(j)
  {
    var w := UnruledWorld(expert, domain, j);
    assert RefError(w, ONLY, domain).None?;
    assert [ONLY][1..] == [];
    ReferenceIsConsensus(w, ONLY, domain, 0);
  }

  /** The tables after those steps. */
  function AttemptOpen(expert: string, domain: string, profile: ProfileInput): Program {
    EMPTY.(
      profiles := map[expert := Profile(profile.publicAttribution, profile.attributionName, profile.currency, InCalibration)],
      calibration := Calibration([CalibrationSet(domain, [ONLY], 1, 1.0, 0, true)],
        [Attempt(0, expert, InProgress, None, None)], [CalibrationTask(0, ONLY, R.TaskPending)], map[], []))
  }

  lemma RunOfThree(w: World, p: Program, a: Step, b: Step, c: Step)
    ensures Run(w, p, [a, b, c]) == Apply(w, Apply(w, Apply(w, p, a), b), c)
  {
    assert [a, b, c][1..] == [b, c] && [b, c][1..] == [c] && [c][1..] == [];
    assert Run(w, Apply(w, p, a), [b, c]) == Run(w, Apply(w, Apply(w, p, a), b), [c]);
  }

  lemma AttemptIsReached(expert: string, domain: string, profile: ProfileInput, j: Judgment)
    ensures Run(UnruledWorld(expert, domain, j), EMPTY, AttemptSteps(expert, domain, profile)) == AttemptOpen(expert, domain, profile)
  {
    var w, steps := UnruledWorld(expert, domain, j), AttemptSteps(expert, domain, profile);
    UnruledRefs(expert, domain, j);
    RunOfThree(w, EMPTY, steps[0], steps[1], steps[2]);
  }

  lemma TallyOfOne(w: World, c: Calibration, given: Judgment, j: Judgment)
    requires |c.tasks| == 1 && c.tasks[0].attemptId == 0 && 0 in c.submissions && c.submissions[0].decision == given
    requires ReferenceDecision(w, c.tasks[0].ref) == Some(j)
    ensures TallyUpTo(w, c, 0, 1) == Ok(AddJudgment(ZERO, given, j))
  {
    assert TallyUpTo(w, c, 0, 0) == Ok(ZERO);
  }

  lemma PerfectTally(j: Judgment)
    ensures AddJudgment(ZERO, j, j) == Tally(1, 1, 1, 0, 0)
    ensures Aggregate(Tally(1, 1, 1, 0, 0)) == 1.0
  {
    assert D.Gap(j.severity, j.severity) == 0;
    assert TallyGood(Tally(1, 1, 1, 0, 0));
    AggregateMeans(Tally(1, 1, 1, 0, 0));
  }

  /** A complete attempt that passes is not scored in a domain that has no expiry rule. */
  lemma PassingIsRefused(w: World, p: Program, t: Tally, now: int)
    requires var c := p.calibration;
      && |c.attempts| == 1 && |c.tasks| == 1 && |c.sets| == 1 && c.attempts[0].setId == 0 && c.qualifications == []
      && c.tasks[0].attemptId == 0 && c.tasks[0].status == R.TaskCompleted
      && TallyUpTo(w, c, 0, 1) == Ok(t) && t.count > 0 && Passes(t, c.sets[0]) && c.sets[0].domain !in w.expiryDays
    ensures CompleteIfReady(w, p, 0, now) == Err(UnknownDomain)
  {
    assert HasTask(p.calibration, 0);
  }

  lemma AnsweredIsRefused(w: World, p: Program, c: Calibration, expert: string, j: Judgment, now: int)
    requires w.expiryDays == map[] && ReferenceDecision(w, ONLY) == Some(j)
    requires c.tasks == [CalibrationTask(0, ONLY, R.TaskCompleted)] && 0 in c.submissions && c.submissions[0].decision == j
    requires c.attempts == [Attempt(0, expert, InProgress, None, None)] && c.qualifications == []
    requires |c.sets| == 1 && c.sets[0].minCases == 1 && c.sets[0].passThreshold == 1.0 && c.sets[0].maxFalseCritical == 0
    requires p.calibration == c
    ensures CompleteIfReady(w, p, 0, now) == Err(UnknownDomain)
  {
    TallyOfOne(w, c, j, j);
    PerfectTally(j);
    assert Passes(Tally(1, 1, 1, 0, 0), c.sets[0]);
    PassingIsRefused(w, p, Tally(1, 1, 1, 0, 0), now);
  }

  lemma AnswerAccepted(expert: string, domain: string, j: Judgment)
    ensures InputError(UnruledWorld(expert, domain, j), ONLY, Answer(j)).None?
  {
  }

  lemma RefusedAtEnd(w: World, p: Program, expert: string, j: Judgment, now: int)
    requires p.calibration.tasks == [CalibrationTask(0, ONLY, R.TaskPending)]
    requires p.calibration.attempts == [Attempt(0, expert, InProgress, None, None)]
    requires InputError(w, ONLY, Answer(j)).None?
    requires CompleteIfReady(w, p.(calibration := Recorded(p.calibration, 0, expert, j)), 0, now) == Err(UnknownDomain)
    ensures SubmitCalibration(w, p, 0, Answer(j), expert, now) == Err(UnknownDomain)
  {
  }

  /** The refusal is reached from empty tables: an expert whose only answer is the reference decision
      itself is refused in a domain with no expiry rule, so the attempt stays open. */
  lemma FlawlessAnswerRefused(expert: string, domain: string, profile: ProfileInput, j: Judgment, now: int)
    ensures var w := UnruledWorld(expert, domain, j);
      var p := Run(w, EMPTY, AttemptSteps(expert, domain, profile));
      && ReferenceDecision(w, ONLY) == Some(j)
      && SubmitCalibration(w, p, 0, Answer(j), expert, now) == Err(UnknownDomain)
  {
    var w, p := UnruledWorld(expert, domain, j), AttemptOpen(expert, domain, profile);
    AttemptIsReached(expert, domain, profile, j);
    UnruledRefs(expert, domain, j);
    AnswerAccepted(expert, domain, j);
    var d := Recorded(p.calibration, 0, expert, j);
    AnsweredIsRefused(w, p.(calibration := d), d, expert, j, now);
    RefusedAtEnd(w, p, expert, j, now);
  }

  // ---- Claim reconstruction ----------------------------------------------------------

  /** After any run no expert holds two claim tasks of one intake. */
  lemma NobodyHoldsTwo(w: World, steps: seq<Step>, i: nat, j: nat)
    requires i < j < |Run(w, EMPTY, steps).claims.tasks|
    ensures var tasks := Run(w, EMPTY, steps).claims.tasks;
      tasks[i].intakeId == tasks[j].intakeId && tasks[i].assignedTo.Some? ==> tasks[i].assignedTo != tasks[j].assignedTo
  {
    RunsAreGood(w, steps);
  }

  // ---- Compensation ------------------------------------------------------------------

  predicate Counts(r: Compensation, currency: string) {
    r.currency == currency && r.status in {Approved, Paid}
  }

  /** The sum of approved and paid amounts in a currency. */
  function Total(rows: seq<Compensation>, currency: string): int {
    if rows == [] then 0 else (if Counts(rows[0], currency) then rows[0].amount else 0) + Total(rows[1..], currency)
  }

  lemma {:induction false} TotalSnoc(rows: seq<Compensation>, r: Compensation, currency: string)
    ensures Total(rows + [r], currency) == Total(rows, currency) + if Counts(r, currency) then r.amount else 0
  {
    if rows == [] {
      assert rows + [r] == [r];
    } else {
      assert (rows + [r])[1..] == rows[1..] + [r];
      TotalSnoc(rows[1..], r, currency);
    }
  }

  lemma {:induction false} TotalUpdate(rows: seq<Compensation>, i: nat, r: Compensation, currency: string)
    requires i < |rows|
    ensures Total(rows[i := r], currency)
         == Total(rows, currency) - (if Counts(rows[i], currency) then rows[i].amount else 0) + if Counts(r, currency) then r.amount else 0
  {
    if i == 0 {
      assert rows[0 := r][1..] == rows[1..];
    } else {
      assert rows[i := r][1..] == rows[1..][i - 1 := r];
      TotalUpdate(rows[1..], i - 1, r, currency);
    }
  }

  /** The amount a step newly approves in a currency. */
  function CreatedBy(w: World, p: Program, step: Step, currency: string): int {
    if step.StepCompensate? && Execute(w, p, step).Ok? && !Compensated(p.compensations, step.compensation.task)
       && step.compensation.currency == currency then step.compensation.amount
    else 0
  }

  /** The amount a step cancels in a currency. */
  function CancelledBy(w: World, p: Program, step: Step, currency: string): int {
    if step.StepSettle? && step.settlement == Cancel && Execute(w, p, step).Ok?
       && p.compensations[step.compensationId].currency == currency then p.compensations[step.compensationId].amount
    else 0
  }

  function Created(w: World, p: Program, steps: seq<Step>, currency: string): int
    decreases |steps|
  {
    if steps == [] then 0
    else CreatedBy(w, p, steps[0], currency) + Created(w, Apply(w, p, steps[0]), steps[1..], currency)
  }

  function CancelledIn(w: World, p: Program, steps: seq<Step>, currency: string): int
    decreases |steps|
  {
    if steps == [] then 0
    else CancelledBy(w, p, steps[0], currency) + CancelledIn(w, Apply(w, p, steps[0]), steps[1..], currency)
  }

  lemma {:induction false} TakeLeavesCompensation(p: Program, i: nat, actorId: string, now: int)
    ensures TakeFrom(p, i, actorId, now).Ok? ==> TakeFrom(p, i, actorId, now).value.compensations == p.compensations
    decreases |p.claims.tasks| - i
  {
    if i < |p.claims.tasks| {
      var task := p.claims.tasks[i];
      TakeLeavesCompensation(p, i + 1, actorId, now);
      if task.intakeId < |p.claims.intakes| {
        TakeLeavesCompensation(
          p.(calibration := CheckQualified(p.calibration, actorId, p.claims.intakes[task.intakeId].domain, now).1), i + 1, actorId, now);
      }
    }
  }

  lemma OtherStepsLeaveCompensation(w: World, p: Program, step: Step)
    requires !step.StepCompensate? && !step.StepSettle?
    ensures Apply(w, p, step).compensations == p.compensations
  {
    match step
    case StepTake(actorId, now) => TakeLeavesCompensation(p, 0, actorId, now);
    case StepCalibrate(taskId, input, actorId, now) =>
      if Execute(w, p, step).Ok? {
        var a := p.calibration.tasks[taskId].attemptId;
        CompletionElsewhere(w, p.(calibration := Recorded(p.calibration, taskId, actorId, input.decision)), a, now);
      }
    case _ =>
  }

  lemma StepTotal(w: World, p: Program, step: Step, currency: string)
    ensures Total(Apply(w, p, step).compensations, currency)
         == Total(p.compensations, currency) + CreatedBy(w, p, step, currency) - CancelledBy(w, p, step, currency)
  {
    if step.StepCompensate? {
      if Execute(w, p, step).Ok? && !Compensated(p.compensations, step.compensation.task) {
        var d := step.compensation;
        TotalSnoc(p.compensations, Compensation(d.actorId, d.task, d.amount, d.currency, Approved, None), currency);
      }
    } else if step.StepSettle? {
      if Execute(w, p, step).Ok? {
        var id := step.compensationId;
        TotalUpdate(p.compensations, id, Settled(p.compensations[id], step.settlement, step.now), currency);
      }
    } else {
      OtherStepsLeaveCompensation(w, p, step);
    }
  }

  /** The books balance: in every currency the total is what was approved less what was cancelled. */
  lemma {:induction false} TotalsBalance(w: World, p: Program, steps: seq<Step>, currency: string)
    ensures Total(Run(w, p, steps).compensations, currency)
         == Total(p.compensations, currency) + Created(w, p, steps, currency) - CancelledIn(w, p, steps, currency)
    decreases |steps|
  {
    if steps != [] {
      StepTotal(w, p, steps[0], currency);
      TotalsBalance(w, Apply(w, p, steps[0]), steps[1..], currency);
    }
  }

  /** The totals published with the metrics. */
  method CompensationTotals(rows: seq<Compensation>) returns (totals: map<string, int>)
    ensures forall c :: c in totals <==> exists r :: r in rows && Counts(r, c)
    ensures forall c :: c in totals ==> totals[c] == Total(rows, c)
    ensures forall c :: c !in totals ==> Total(rows, c) == 0
  {
    totals := map[];
    for i := 0 to |rows|
      invariant forall c :: c in totals <==> exists r :: r in rows[..i] && Counts(r, c)
      invariant forall c :: (if c in totals then totals[c] else 0) == Total(rows[..i], c)
    {
      var r := rows[i];
      assert rows[..i + 1] == rows[..i] + [r];
      forall c ensures Total(rows[..i + 1], c) == Total(rows[..i], c) + if Counts(r, c) then r.amount else 0 {
        TotalSnoc(rows[..i], r, c);
      }
      if r.status in {Approved, Paid} {
        assert Counts(r, r.currency);
        totals := totals[r.currency := (if r.currency in totals then totals[r.currency] else 0) + r.amount];
      }
    }
    assert rows[..|rows|] == rows;
  }

  /** No task is paid for twice and no contribution credited twice. */
  lemma NothingTwice(w: World, steps: seq<Step>)
    ensures var p := Run(w, EMPTY, steps);
      && (forall i, j :: 0 <= i < j < |p.compensations| ==> p.compensations[i].task != p.compensations[j].task)
      && (forall i, j :: 0 <= i < j < |p.credits| ==>
            p.credits[i].actorId != p.credits[j].actorId || p.credits[i].target != p.credits[j].target)
  {
    RunsAreGood(w, steps);
  }
}
