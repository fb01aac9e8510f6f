/** What the rows of the expert programme say, in terms of the answers, references and qualifications. */
module ExpertMeaning {
  import opened Wrappers
  import M = Models
  import D = NovelDetermination
  import R = NovelRegistry
  import opened ExpertTables
  import opened ExpertInvariant
  import opened ExpertTheorems

  // ---- The answers of an attempt -----------------------------------------------------

  /** The tasks of an attempt among the first n. */
  function TasksOf(c: Calibration, a: nat, n: nat): set<nat>
    requires n <= |c.tasks|
  {
    set i: nat | i < n && c.tasks[i].attemptId == a
  }

  predicate Answered(w: World, c: Calibration, i: nat)
    requires i < |c.tasks|
  {
    i in c.submissions && ReferenceDecision(w, c.tasks[i].ref).Some?
  }

  function Given(c: Calibration, i: nat): Judgment
    requires i in c.submissions
  {
    c.submissions[i].decision
  }

  function Reference(w: World, c: Calibration, i: nat): Judgment
    requires i < |c.tasks| && Answered(w, c, i)
  {
    ReferenceDecision(w, c.tasks[i].ref).value
  }

  /** Tasks answered critical whose reference is not. */
  function InventedCritical(w: World, c: Calibration, a: nat, n: nat): set<nat>
    requires n <= |c.tasks|
  {
    set i | i in TasksOf(c, a, n) && Answered(w, c, i)
      && Given(c, i).severity == M.Critical && Reference(w, c, i).severity != M.Critical
  }

  function RightValidity(w: World, c: Calibration, a: nat, n: nat): set<nat>
    requires n <= |c.tasks|
  {
    set i | i in TasksOf(c, a, n) && Answered(w, c, i) && Given(c, i).validity == Reference(w, c, i).validity
  }

  function RightSeverity(w: World, c: Calibration, a: nat, n: nat): set<nat>
    requires n <= |c.tasks|
  {
    set i | i in TasksOf(c, a, n) && Answered(w, c, i) && Given(c, i).severity == Reference(w, c, i).severity
  }

  function Level(s: M.Severity): int {
    match s
    case Informational => 1
    case Minor => 2
    case Moderate => 3
    case Major => 4
    case Critical => 5
  }

  function LevelsApart(s: M.Severity, t: M.Severity): nat {
    if Level(s) < Level(t) then Level(t) - Level(s) else Level(s) - Level(t)
  }

  /** The levels between answers and references, over the tasks of the attempt. */
  function LevelsOff(w: World, c: Calibration, a: nat, n: nat): nat
    requires n <= |c.tasks|
  {
    if n == 0 then 0
    else
      LevelsOff(w, c, a, n - 1)
      + if c.tasks[n - 1].attemptId == a && Answered(w, c, n - 1)
        then LevelsApart(Given(c, n - 1).severity, Reference(w, c, n - 1).severity) else 0
  }

  /** A tally that counts the answers. */
  ghost predicate CountsAnswers(t: Tally, w: World, c: Calibration, a: nat, n: nat)
    requires n <= |c.tasks|
  {
    && t.count == |TasksOf(c, a, n)|
    && t.validityCorrect == |RightValidity(w, c, a, n)| && t.severityCorrect == |RightSeverity(w, c, a, n)|
    && t.falseCritical == |InventedCritical(w, c, a, n)| && t.distance == LevelsOff(w, c, a, n)
  }

  lemma GapIsLevels(s: M.Severity, t: M.Severity)
    ensures D.Gap(s, t) == LevelsApart(s, t)
  {
  }

  lemma Extend(xs: set<nat>, ys: set<nat>, x: nat, p: bool)
    requires x !in xs && ys == xs + if p then {x} else {}
    ensures |ys| == |xs| + if p then 1 else 0
  {
  }

  lemma TasksGrow(c: Calibration, a: nat, n: nat)
    requires 0 < n <= |c.tasks|
    ensures TasksOf(c, a, n) == TasksOf(c, a, n - 1) + (if c.tasks[n - 1].attemptId == a then {n - 1} else {})
  {
  }

  lemma ElsewhereStays(w: World, c: Calibration, a: nat, n: nat)
    requires 0 < n <= |c.tasks| && c.tasks[n - 1].attemptId != a
    ensures TasksOf(c, a, n) == TasksOf(c, a, n - 1) && InventedCritical(w, c, a, n) == InventedCritical(w, c, a, n - 1)
    ensures RightValidity(w, c, a, n) == RightValidity(w, c, a, n - 1) && RightSeverity(w, c, a, n) == RightSeverity(w, c, a, n - 1)
  {
    TasksGrow(c, a, n);
  }

  lemma RightValidityGrows(w: World, c: Calibration, a: nat, n: nat)
    requires 0 < n <= |c.tasks| && c.tasks[n - 1].attemptId == a && Answered(w, c, n - 1)
    ensures |RightValidity(w, c, a, n)| == |RightValidity(w, c, a, n - 1)|
      + if Given(c, n - 1).validity == Reference(w, c, n - 1).validity then 1 else 0
  {
    TasksGrow(c, a, n);
    Extend(RightValidity(w, c, a, n - 1), RightValidity(w, c, a, n), n - 1, Given(c, n - 1).validity == Reference(w, c, n - 1).validity);
  }

  lemma RightSeverityGrows(w: World, c: Calibration, a: nat, n: nat)
    requires 0 < n <= |c.tasks| && c.tasks[n - 1].attemptId == a && Answered(w, c, n - 1)
    ensures |RightSeverity(w, c, a, n)| == |RightSeverity(w, c, a, n - 1)|
      + if Given(c, n - 1).severity == Reference(w, c, n - 1).severity then 1 else 0
  {
    TasksGrow(c, a, n);
    Extend(RightSeverity(w, c, a, n - 1), RightSeverity(w, c, a, n), n - 1, Given(c, n - 1).severity == Reference(w, c, n - 1).severity);
  }

  lemma InventedCriticalGrows(w: World, c: Calibration, a: nat, n: nat)
    requires 0 < n <= |c.tasks| && c.tasks[n - 1].attemptId == a && Answered(w, c, n - 1)
    ensures |InventedCritical(w, c, a, n)| == |InventedCritical(w, c, a, n - 1)|
      + if Given(c, n - 1).severity == M.Critical && Reference(w, c, n - 1).severity != M.Critical then 1 else 0
  {
    TasksGrow(c, a, n);
    Extend(InventedCritical(w, c, a, n - 1), InventedCritical(w, c, a, n), n - 1, Given(c, n - 1).severity == M.Critical && Reference(w, c, n - 1).severity != M.Critical);
  }

  lemma AnswerCounts(w: World, c: Calibration, a: nat, n: nat, t: Tally)
    requires 0 < n <= |c.tasks| && c.tasks[n - 1].attemptId == a && Answered(w, c, n - 1)
    requires CountsAnswers(t, w, c, a, n - 1)
    ensures CountsAnswers(AddJudgment(t, Given(c, n - 1), Reference(w, c, n - 1)), w, c, a, n)
  {
    TasksGrow(c, a, n);
    Extend(TasksOf(c, a, n - 1), TasksOf(c, a, n), n - 1, true);
    RightValidityGrows(w, c, a, n);
    RightSeverityGrows(w, c, a, n);
    InventedCriticalGrows(w, c, a, n);
    GapIsLevels(Given(c, n - 1).severity, Reference(w, c, n - 1).severity);
  }

  lemma NothingCounted(w: World, c: Calibration, a: nat)
    ensures CountsAnswers(ZERO, w, c, a, 0)
  {
    assert TasksOf(c, a, 0) == {};
    assert RightValidity(w, c, a, 0) == {} && RightSeverity(w, c, a, 0) == {} && InventedCritical(w, c, a, 0) == {};
  }

  /** The tally of an attempt counts its tasks, its right validities and severities, its invented criticals
      and the levels its severities are off. */
  lemma {:induction false} TallyMeans(w: World, c: Calibration, a: nat, n: nat)
    requires n <= |c.tasks| && TallyUpTo(w, c, a, n).Ok?
    ensures CountsAnswers(TallyUpTo(w, c, a, n).value, w, c, a, n)
  {
    if n == 0 {
      NothingCounted(w, c, a);
    } else {
      TallyMeans(w, c, a, n - 1);
      if c.tasks[n - 1].attemptId == a {
        AnswerCounts(w, c, a, n, TallyUpTo(w, c, a, n - 1).value);
      } else {
        ElsewhereStays(w, c, a, n);
      }
    }
  }

  // ---- Scores stay true to the answers -----------------------------------------------

  /** A completed attempt has the score of its answers. */
  predicate ScoreKept(w: World, c: Calibration, a: nat)
    requires a < |c.attempts|
  {
    c.attempts[a].status == Completed && c.attempts[a].setId < |c.sets| ==>
      var t := TallyUpTo(w, c, a, |c.tasks|);
      t.Ok? && t.value.count > 0 && c.attempts[a].score == Some(ScoreOf(t.value, c.sets[c.attempts[a].setId]))
  }

  predicate ScoresKept(w: World, c: Calibration) {
    forall a :: 0 <= a < |c.attempts| ==> ScoreKept(w, c, a)
  }

  /** The first n tasks and the answers to those of the attempt are the same. */
  predicate SameAnswers(c: Calibration, d: Calibration, a: nat, n: nat) {
    && n <= |c.tasks| && n <= |d.tasks|
    && forall i :: 0 <= i < n ==>
         && d.tasks[i].attemptId == c.tasks[i].attemptId && d.tasks[i].ref == c.tasks[i].ref
         && (c.tasks[i].attemptId == a ==>
               (i in d.submissions <==> i in c.submissions) && (i in c.submissions ==> d.submissions[i] == c.submissions[i]))
  }

  lemma {:induction false} SameTally(w: World, c: Calibration, d: Calibration, a: nat, n: nat)
    requires SameAnswers(c, d, a, n)
    ensures TallyUpTo(w, d, a, n) == TallyUpTo(w, c, a, n)
  {
    if n > 0 {
      SameTally(w, c, d, a, n - 1);
    }
  }

  lemma {:induction false} OthersAddNothing(w: World, c: Calibration, a: nat, n: nat, m: nat)
    requires n <= m <= |c.tasks| && forall i :: n <= i < m ==> c.tasks[i].attemptId != a
    ensures TallyUpTo(w, c, a, m) == TallyUpTo(w, c, a, n)
  {
    if n < m {
      OthersAddNothing(w, c, a, n, m - 1);
    }
  }

  /** Later tables with the same answers and set keep the score. */
  lemma KeptAcross(w: World, c: Calibration, d: Calibration, a: nat)
    requires a < |c.attempts| && a < |d.attempts| && d.attempts[a] == c.attempts[a] && ScoreKept(w, c, a)
    requires c.attempts[a].setId < |c.sets| <= |d.sets| && d.sets[c.attempts[a].setId] == c.sets[c.attempts[a].setId]
    requires SameAnswers(c, d, a, |c.tasks|)
    requires forall i :: |c.tasks| <= i < |d.tasks| ==> d.tasks[i].attemptId != a
    ensures ScoreKept(w, d, a)
  {
    SameTally(w, c, d, a, |c.tasks|);
    OthersAddNothing(w, d, a, |c.tasks|, |d.tasks|);
  }

  lemma StartKeepsScores(w: World, p: Program, setId: nat, actorId: string)
    requires Good(w, p) && ScoresKept(w, p.calibration) && setId < |p.calibration.sets|
    ensures ScoresKept(w, Started(p.calibration, setId, actorId))
  {
    var c, d := p.calibration, Started(p.calibration, setId, actorId);
    forall a | 0 <= a < |d.attempts| ensures ScoreKept(w, d, a) {
      if a < |c.attempts| {
        assert AttemptGood(c, p.profiles, a) && ScoreKept(w, c, a);
        KeptAcross(w, c, d, a);
      }
    }
  }

  lemma RecordKeepsScores(w: World, p: Program, taskId: nat, actorId: string, decision: Judgment, a: nat)
    requires Good(w, p) && taskId < |p.calibration.tasks| && p.calibration.tasks[taskId].status == R.TaskPending
    requires a < |p.calibration.attempts| && ScoreKept(w, p.calibration, a)
    ensures ScoreKept(w, Recorded(p.calibration, taskId, actorId, decision), a)
  {
    var c, d := p.calibration, Recorded(p.calibration, taskId, actorId, decision);
    assert AttemptGood(c, p.profiles, a) && Timely(c, a);
    if c.attempts[a].status == Completed {
      KeptAcross(w, c, d, a);
    }
  }

  lemma CompleteKeepsScores(w: World, p: Program, a: nat, now: int)
    requires a < |p.calibration.attempts| && ScoresKept(w, p.calibration) && CompleteIfReady(w, p, a, now).Ok?
    requires forall i :: 0 <= i < |p.calibration.attempts| ==> p.calibration.attempts[i].setId < |p.calibration.sets|
    ensures ScoresKept(w, CompleteIfReady(w, p, a, now).value.calibration)
  {
    var c, d := p.calibration, CompleteIfReady(w, p, a, now).value.calibration;
    CompletionShape(w, p, a, now);
    forall i | 0 <= i < |d.attempts| ensures ScoreKept(w, d, i) {
      assert ScoreKept(w, c, i);
      SameTally(w, c, d, i, |c.tasks|);
    }
  }

  /** Completing an attempt touches its own row, the profile and the qualifications. */
  lemma CompletionShape(w: World, p: Program, a: nat, now: int)
    requires a < |p.calibration.attempts| && CompleteIfReady(w, p, a, now).Ok?
    ensures var c, d := p.calibration, CompleteIfReady(w, p, a, now).value.calibration;
      && d.tasks == c.tasks && d.submissions == c.submissions && d.sets == c.sets && |d.attempts| == |c.attempts|
      && (forall i :: 0 <= i < |c.attempts| && i != a ==> d.attempts[i] == c.attempts[i])
      && d.attempts[a].setId == c.attempts[a].setId
      && (d.attempts[a] != c.attempts[a] ==>
            && d.attempts[a].setId < |c.sets| && TallyUpTo(w, c, a, |c.tasks|).Ok? && TallyUpTo(w, c, a, |c.tasks|).value.count > 0
            && d.attempts[a].score == Some(ScoreOf(TallyUpTo(w, c, a, |c.tasks|).value, c.sets[c.attempts[a].setId])))
  {
  }

  lemma CalibrateKeepsScores(w: World, p: Program, taskId: nat, data: CalibrationInput, actorId: string, now: int)
    requires Good(w, p) && ScoresKept(w, p.calibration) && SubmitCalibration(w, p, taskId, data, actorId, now).Ok?
    ensures ScoresKept(w, SubmitCalibration(w, p, taskId, data, actorId, now).value.calibration)
  {
    var c, d := p.calibration, Recorded(p.calibration, taskId, actorId, data.decision);
    forall a | 0 <= a < |d.attempts| ensures ScoreKept(w, d, a) && d.attempts[a].setId < |d.sets| {
      assert ScoreKept(w, c, a) && AttemptGood(c, p.profiles, a);
      RecordKeepsScores(w, p, taskId, actorId, data.decision, a);
    }
    CompleteKeepsScores(w, p.(calibration := d), c.tasks[taskId].attemptId, now);
  }

  lemma SetKeepsScores(w: World, p: Program, data: SetInput)
    requires Good(w, p) && ScoresKept(w, p.calibration) && CreateSet(w, p, data).Ok?
    ensures ScoresKept(w, CreateSet(w, p, data).value.calibration)
  {
    var c, d := p.calibration, CreateSet(w, p, data).value.calibration;
    forall a | 0 <= a < |d.attempts| ensures ScoreKept(w, d, a) {
      assert ScoreKept(w, c, a) && AttemptGood(c, p.profiles, a);
      KeptAcross(w, c, d, a);
    }
  }

  /** Taking a claim task changes the calibration tables in the qualifications only. */
  lemma {:induction false} TakeLeavesAttempts(p: Program, i: nat, actorId: string, now: int)
    requires TakeFrom(p, i, actorId, now).Ok?
    ensures var c := p.calibration;
      TakeFrom(p, i, actorId, now).value.calibration
        == c.(qualifications := TakeFrom(p, i, actorId, now).value.calibration.qualifications)
    decreases |p.claims.tasks| - i
  {
    var k := p.claims;
    var task := k.tasks[i];
    if task.status != R.TaskPending || task.intakeId >= |k.intakes| || k.intakes[task.intakeId].status != Accepted {
      TakeLeavesAttempts(p, i + 1, actorId, now);
    } else {
      var (qualified, c) := CheckQualified(p.calibration, actorId, k.intakes[task.intakeId].domain, now);
      if !qualified || HoldsAnother(k.tasks, i, actorId) {
        TakeLeavesAttempts(p.(calibration := c), i + 1, actorId, now);
      }
    }
  }

  lemma QualificationsAside(w: World, c: Calibration, d: Calibration)
    requires ScoresKept(w, c) && d == c.(qualifications := d.qualifications)
    ensures ScoresKept(w, d)
  {
    forall a | 0 <= a < |d.attempts| ensures ScoreKept(w, d, a) {
      assert ScoreKept(w, c, a);
      SameTally(w, c, d, a, |c.tasks|);
    }
  }

  lemma OthersLeaveCalibration(w: World, p: Program, step: Step)
    requires !step.StepSet? && !step.StepStart? && !step.StepCalibrate? && !step.StepTake?
    ensures Apply(w, p, step).calibration == p.calibration
  {
  }

  lemma StepKeepsScores(w: World, p: Program, step: Step)
    requires Good(w, p) && ScoresKept(w, p.calibration)
    ensures ScoresKept(w, Apply(w, p, step).calibration)
  {
    if Execute(w, p, step).Ok? {
      match step
      case StepSet(data) => SetKeepsScores(w, p, data);
      case StepStart(setId, actorId) =>
        if Apply(w, p, step).calibration != p.calibration {
          StartKeepsScores(w, p, setId, actorId);
        }
      case StepCalibrate(taskId, input, actorId, now) => CalibrateKeepsScores(w, p, taskId, input, actorId, now);
      case StepTake(actorId, now) =>
        TakeLeavesAttempts(p, 0, actorId, now);
        QualificationsAside(w, p.calibration, Apply(w, p, step).calibration);
      case _ => OthersLeaveCalibration(w, p, step);
    }
  }

  lemma {:induction false} RunKeepsScores(w: World, p: Program, steps: seq<Step>)
    requires Good(w, p) && ScoresKept(w, p.calibration)
    ensures ScoresKept(w, Run(w, p, steps).calibration)
    decreases |steps|
  {
    if steps != [] {
      StepKeepsScores(w, p, steps[0]);
      StepKeepsGood(w, p, steps[0]);
      RunKeepsScores(w, Apply(w, p, steps[0]), steps[1..]);
    }
  }

  /** What the stored score of an attempt says of its answers. */
  ghost predicate ScoreMeans(w: World, c: Calibration, a: nat, score: Score, s: CalibrationSet) {
    var n := |TasksOf(c, a, |c.tasks|)|;
    && n > 0 && score.completedCases == n
    && score.validityAccuracy == |RightValidity(w, c, a, |c.tasks|)| as real / n as real
    && score.severityAccuracy == |RightSeverity(w, c, a, |c.tasks|)| as real / n as real
    && score.meanDistance == LevelsOff(w, c, a, |c.tasks|) as real / n as real
    && score.falseCritical == |InventedCritical(w, c, a, |c.tasks|)|
    && score.aggregate == 0.75 * score.validityAccuracy + 0.25 * (1.0 - score.meanDistance / 4.0)
    && (score.passed <==>
          n >= s.minCases && score.aggregate >= s.passThreshold && |InventedCritical(w, c, a, |c.tasks|)| <= s.maxFalseCritical)
  }

  lemma TallyScoreMeans(w: World, c: Calibration, a: nat, t: Tally, s: CalibrationSet)
    requires t.count > 0 && CountsAnswers(t, w, c, a, |c.tasks|)
    ensures ScoreMeans(w, c, a, ScoreOf(t, s), s)
  {
  }

  /** After any run the score of a completed attempt is that of its answers: the shares of right validities
      and severities, the mean of the levels off, the invented criticals, three quarters of the validities
      and a quarter of the nearness in severity, and the verdict of its set. */
  lemma CompletedScoresMean(w: World, steps: seq<Step>, a: nat)
    requires a < |Run(w, EMPTY, steps).calibration.attempts|
    requires Run(w, EMPTY, steps).calibration.attempts[a].status == Completed
    ensures var c := Run(w, EMPTY, steps).calibration;
      var attempt := c.attempts[a];
      && attempt.score.Some? && attempt.setId < |c.sets| && attempt.passed == Some(attempt.score.value.passed)
      && (forall i :: i in TasksOf(c, a, |c.tasks|) ==> Answered(w, c, i))
      && ScoreMeans(w, c, a, attempt.score.value, c.sets[attempt.setId])
  {
    var p := Run(w, EMPTY, steps);
    var c := p.calibration;
    RunsAreGood(w, steps);
    RunKeepsScores(w, EMPTY, steps);
    assert AttemptGood(c, p.profiles, a) && ScoreKept(w, c, a) && Timely(c, a);
    forall i | i in TasksOf(c, a, |c.tasks|) ensures Answered(w, c, i) {
      assert TaskGood(c, i);
      ReferenceKnown(w, c, i);
    }
    TallyMeans(w, c, a, |c.tasks|);
    TallyScoreMeans(w, c, a, TallyUpTo(w, c, a, |c.tasks|).value, c.sets[c.attempts[a].setId]);
  }

  /** A set that allows no false critical never passes an attempt with an invented one, and an attempt with
      no critical answer has none. */
  lemma InventedCriticalFails(w: World, steps: seq<Step>, a: nat)
    requires a < |Run(w, EMPTY, steps).calibration.attempts|
    requires Run(w, EMPTY, steps).calibration.attempts[a].status == Completed
    ensures var c := Run(w, EMPTY, steps).calibration;
      var attempt, n := c.attempts[a], |c.tasks|;
      && attempt.score.Some? && attempt.setId < |c.sets|
      && (c.sets[attempt.setId].maxFalseCritical == 0 && InventedCritical(w, c, a, n) != {} ==> attempt.passed == Some(false))
      && ((forall i :: i in TasksOf(c, a, n) && i in c.submissions ==> Given(c, i).severity != M.Critical) ==>
            attempt.score.value.falseCritical == 0)
  {
    CompletedScoresMean(w, steps, a);
    var c := Run(w, EMPTY, steps).calibration;
    if forall i :: i in TasksOf(c, a, |c.tasks|) && i in c.submissions ==> Given(c, i).severity != M.Critical {
      assert InventedCritical(w, c, a, |c.tasks|) == {};
    }
  }
}
