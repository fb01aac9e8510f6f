/** Completion, termination and independence of the order of steps, over whole runs. */
module NovelTheorems {
  import opened Wrappers
  import M = Models
  import Matching
  import D = NovelDetermination
  import opened NovelRegistry
  import opened NovelDesk
  import opened NovelInvariant

  // ---- The guards of the policy ------------------------------------------------------

  lemma RecomputeErrors(t: Tables, c: string, original: Option<Scorecard>, factory: Factory)
    requires c in t.candidates
    ensures var r := Recompute(t, c, original, factory);
      var policy := D.DetermineNovel(Log(t.submissions, c), TwoNeeded(t.candidates[c].candidate));
      forall e :: r == Err(PolicyRefused(e)) <==> policy == Err(e)
  {
  }

  lemma OnlySameExpertHere(t: Tables, key: TaskKey, actorId: string, verdict: Verdict, original: Option<Scorecard>,
      factory: Factory)
    requires Good(t) && key.candidateId in t.candidates && MaySubmit(DeskOf(t, key.candidateId), key.slot, actorId)
    ensures var r := SubmitDecision(t, key, actorId, verdict, original, factory);
      && (r.Err? && r.error.PolicyRefused? ==> r.error.policy == D.SameExpertTwice)
      && (r == Err(PolicyRefused(D.SameExpertTwice)) <==> HoldsOther(DeskOf(t, key.candidateId), key.slot, actorId))
  {
    var d := DeskOf(t, key.candidateId);
    var r := SubmitDecision(t, key, actorId, verdict, original, factory);
    var recorded := Recorded(t, key, actorId, verdict);
    GuardsOnDesk(t, key, actorId, verdict, original, factory);
    OnlySameExpertRefused(d, key.slot, actorId, verdict);
    ShapeLog(t, key, actorId, verdict);
    RecomputeErrors(recorded, key.candidateId, original, factory);
    var policy := D.DetermineNovel(Log(recorded.submissions, key.candidateId), d.two);
    assert DeskSubmit(d, key.slot, actorId, verdict).Err? <==> policy.Err?;
  }

  lemma NotYetThere(t: Tables, key: TaskKey, actorId: string, verdict: Verdict, original: Option<Scorecard>, factory: Factory)
    requires Good(t) && !(key.candidateId in t.candidates && MaySubmit(DeskOf(t, key.candidateId), key.slot, actorId))
    ensures var r := SubmitDecision(t, key, actorId, verdict, original, factory);
      r.Err? && !r.error.PolicyRefused?
  {
    if key.candidateId in t.candidates {
      GuardsOnDesk(t, key, actorId, verdict, original, factory);
    }
  }

  /** After any run, a submission is refused by the policy exactly when its caller has claimed the task,
      the candidate is open and the caller already gave the other primary decision; no other guard of
      the policy ever fires. */
  lemma OnlySameExpertFires(steps: seq<Step>, key: TaskKey, actorId: string, verdict: Verdict,
      original: Option<Scorecard>, factory: Factory)
    ensures var t := Run(EMPTY, steps);
      var r := SubmitDecision(t, key, actorId, verdict, original, factory);
      && (r.Err? && r.error.PolicyRefused? ==> r.error.policy == D.SameExpertTwice)
      && (r == Err(PolicyRefused(D.SameExpertTwice)) <==>
            key.candidateId in t.candidates
            && MaySubmit(DeskOf(t, key.candidateId), key.slot, actorId)
            && HoldsOther(DeskOf(t, key.candidateId), key.slot, actorId))
  {
    var t := Run(EMPTY, steps);
    RunsAreGood(steps);
    if key.candidateId in t.candidates && MaySubmit(DeskOf(t, key.candidateId), key.slot, actorId) {
      OnlySameExpertHere(t, key, actorId, verdict, original, factory);
    } else {
      NotYetThere(t, key, actorId, verdict, original, factory);
    }
  }

  /** A tie-break is never held by either primary adjudicator. */
  lemma TieBreakerIsNew(steps: seq<Step>, c: string, slot: D.Slot)
    requires c in Run(EMPTY, steps).candidates && slot != D.TieBreak
    ensures var d := DeskOf(Run(EMPTY, steps), c);
      d.tieBreak.Some? && d.Decided(slot).Some? ==> !Assigned(d.tieBreak, d.Decided(slot).value.adjudicatorId)
  {
    RunsAreGood(steps);
    assert InOrder(DeskOf(Run(EMPTY, steps), c));
  }

  /** The two validities differ in more than confirmed against qualified. */
  predicate ValiditiesClash(p: D.Decision, q: D.Decision) {
    p.validity != q.validity && !(p.validity in {D.Confirmed, D.Qualified} && q.validity in {D.Confirmed, D.Qualified})
  }

  /** Two severities in either order. */
  predicate Are(p: D.Severity, q: D.Severity, s: D.Severity, t: D.Severity) {
    (p == s && q == t) || (p == t && q == s)
  }

  /** The two severities are two levels apart, or one of them is critical and the other is not. */
  predicate SeveritiesClash(p: D.Severity, q: D.Severity) {
    || ((p == M.Critical) != (q == M.Critical))
    || Are(p, q, M.Major, M.Minor) || Are(p, q, M.Major, M.Informational) || Are(p, q, M.Moderate, M.Informational)
  }

  /** The lower one of two neighbouring severities, or the common one. */
  predicate LowerOf(s: D.Severity, p: D.Severity, q: D.Severity) {
    || s == p == q
    || (s == M.Moderate && Are(p, q, M.Major, M.Moderate))
    || (s == M.Minor && Are(p, q, M.Moderate, M.Minor))
    || (s == M.Informational && Are(p, q, M.Minor, M.Informational))
  }

  lemma SeverityPairs(p: D.Severity, q: D.Severity)
    ensures var (joint, contested) := D.SeverityFromTwo(p, q);
      && (contested <==> SeveritiesClash(p, q))
      && (!contested ==> joint.Some? && LowerOf(joint.value, p, q))
  {
    D.SeverityRuleMeans(p, q);
  }

  /** What two primaries settle without a tie-break: the common validity, or qualified for confirmed
      against qualified, and the lower of the two severities. */
  predicate Settles(policy: D.PolicyResult, p: D.Decision, q: D.Decision) {
    && policy.finalized && policy.severity.Some?
    && policy.outcome == (if p.validity == q.validity then p.validity else D.Qualified)
    && LowerOf(policy.severity.value, p.severity, q.severity)
  }

  lemma DeskSettles(d: Desk)
    requires InOrder(d) && d.Decided(D.Primary).Some? && d.Decided(D.Secondary).Some?
    ensures var p, q := d.Decided(D.Primary).value, d.Decided(D.Secondary).value;
      && (d.tieBreak.Some? <==> ValiditiesClash(p, q) || SeveritiesClash(p.severity, q.severity))
      && (d.tieBreak.None? ==> |d.finals| == 1 && Settles(d.finals[0], p, q))
  {
    var p, q := d.Decided(D.Primary).value, d.Decided(D.Secondary).value;
    D.ValidityRuleMeans(p.validity, q.validity);
    SeverityPairs(p.severity, q.severity);
    D.PolicyIsBySlot(d.log, d.two);
  }

  /** After any run, two primary decisions have a tie-break task exactly when their validities or their
      severities clash; otherwise they have settled the candidate. */
  lemma PrimariesSettle(steps: seq<Step>, c: string)
    requires c in Run(EMPTY, steps).candidates
    requires var d := DeskOf(Run(EMPTY, steps), c);
      d.Decided(D.Primary).Some? && d.Decided(D.Secondary).Some?
    ensures var d := DeskOf(Run(EMPTY, steps), c);
      var p, q := d.Decided(D.Primary).value, d.Decided(D.Secondary).value;
      && (d.tieBreak.Some? <==> ValiditiesClash(p, q) || SeveritiesClash(p.severity, q.severity))
      && (d.tieBreak.None? ==> |d.finals| == 1 && Settles(d.finals[0], p, q))
  {
    RunsAreGood(steps);
    DeskSettles(DeskOf(Run(EMPTY, steps), c));
  }

  // ---- Completion --------------------------------------------------------------------

  lemma {:induction false} TasksStay(t: Tables, steps: seq<Step>, key: TaskKey)
    requires key in t.tasks
    ensures key in Run(t, steps).tasks
    decreases |steps|
  {
    if steps != [] {
      StepKeepsTask(t, steps[0], key);
      TasksStay(Apply(t, steps[0]), steps[1..], key);
    }
  }

  lemma {:induction false} AddAllKeepsTask(t: Tables, cs: seq<Candidate>, q: Queue, matcher: Matcher,
      benchmark: BenchmarkKey, seedTasks: bool, key: TaskKey)
    requires key in t.tasks
    ensures key in AddCandidates(t, cs, q, matcher, benchmark, seedTasks).tasks
    decreases |cs|
  {
    if cs != [] {
      AddAllKeepsTask(AddCandidate(t, cs[0], q, matcher, benchmark, seedTasks), cs[1..], q, matcher, benchmark, seedTasks, key);
    }
  }

  lemma StepKeepsTask(t: Tables, step: Step, key: TaskKey)
    requires key in t.tasks
    ensures key in Apply(t, step).tasks
  {
    if step.StepIngest? {
      AddAllKeepsTask(t, step.queue.candidates, step.queue, step.matcher, step.benchmark, step.seedTasks, key);
    }
  }

  lemma {:induction false} SeedingSeeds(t: Tables, cs: seq<Candidate>, q: Queue, matcher: Matcher,
      benchmark: BenchmarkKey, i: nat)
    requires i < |cs| && cs[i].candidateId !in t.candidates
    ensures TaskKey(cs[i].candidateId, D.Primary) in AddCandidates(t, cs, q, matcher, benchmark, true).tasks
    decreases |cs|
  {
    var next := AddCandidate(t, cs[0], q, matcher, benchmark, true);
    var key := TaskKey(cs[i].candidateId, D.Primary);
    if cs[0].candidateId == cs[i].candidateId {
      AddAllKeepsTask(next, cs[1..], q, matcher, benchmark, true, key);
    } else {
      SeedingSeeds(next, cs[1..], q, matcher, benchmark, i - 1);
    }
  }

  /** A candidate first ingested with seeded tasks: in every later state it has a final determination
      exactly when all its tasks are completed. */
  lemma FinalExactlyWhenDone(before: seq<Step>, step: Step, later: seq<Step>, c: Candidate)
    requires step.StepIngest? && step.seedTasks && c in step.queue.candidates
    requires c.candidateId !in Run(EMPTY, before).candidates && Execute(Run(EMPTY, before), step).Ok?
    ensures var t := Run(Apply(Run(EMPTY, before), step), later);
      HasFinal(t, c.candidateId) <==>
        forall key :: key in t.tasks && key.candidateId == c.candidateId ==> t.tasks[key].status == TaskCompleted
  {
    var start := Run(EMPTY, before);
    var seeded := Apply(start, step);
    RunsAreGood(before);
    StepKeepsGood(start, step);
    SeedingStep(start, step, c);
    SeededLater(seeded, later, c.candidateId);
  }

  lemma SeedingStep(start: Tables, step: Step, c: Candidate)
    requires step.StepIngest? && step.seedTasks && c in step.queue.candidates
    requires c.candidateId !in start.candidates && Execute(start, step).Ok?
    ensures TaskKey(c.candidateId, D.Primary) in Apply(start, step).tasks
  {
    var i :| 0 <= i < |step.queue.candidates| && step.queue.candidates[i] == c;
    SeedingSeeds(start, step.queue.candidates, step.queue, step.matcher, step.benchmark, i);
  }

  lemma SeededLater(seeded: Tables, later: seq<Step>, c: string)
    requires Good(seeded) && TaskKey(c, D.Primary) in seeded.tasks
    ensures var t := Run(seeded, later);
      HasFinal(t, c) <==> forall key :: key in t.tasks && key.candidateId == c ==> t.tasks[key].status == TaskCompleted
  {
    RunKeepsGood(seeded, later);
    TasksStay(seeded, later, TaskKey(c, D.Primary));
    SeededIsFinalWhenDone(Run(seeded, later), c);
  }

  lemma SeededIsFinalWhenDone(t: Tables, c: string)
    requires TasksKept(t) && DesksInOrder(t) && TaskKey(c, D.Primary) in t.tasks
    ensures HasFinal(t, c) <==> forall key :: key in t.tasks && key.candidateId == c ==> t.tasks[key].status == TaskCompleted
  {
    FinalIffDone(DeskOf(t, c));
    FinalsFound(t.determinations, c);
    DoneByTask(t, c);
  }

  lemma DoneByTask(t: Tables, c: string)
    requires c in t.candidates
    ensures AllDone(DeskOf(t, c)) <==> forall key :: key in t.tasks && key.candidateId == c ==> t.tasks[key].status == TaskCompleted
  {
    var d := DeskOf(t, c);
    forall slot ensures d.Task(slot) == TaskAt(t.tasks, c, slot) {
    }
    if AllDone(d) {
      forall key | key in t.tasks && key.candidateId == c ensures t.tasks[key].status == TaskCompleted {
        assert key == TaskKey(c, key.slot) && d.Task(key.slot).Some?;
      }
    } else {
      var slot :| d.Task(slot).Some? && d.Task(slot).value.status != TaskCompleted;
      assert TaskKey(c, slot) in t.tasks;
    }
  }

  /** No candidate ever has two final determinations, nor more than three submissions. */
  lemma FinalOnce(steps: seq<Step>, c: string)
    requires c in Run(EMPTY, steps).candidates
    ensures var t := Run(EMPTY, steps);
      |Finals(t.determinations, c)| <= 1 && |Log(t.submissions, c)| <= 3
  {
    var t := Run(EMPTY, steps);
    RunsAreGood(steps);
    assert InOrder(DeskOf(t, c));
    D.AtMostThree(Log(t.submissions, c));
  }

  // ---- Termination -------------------------------------------------------------------

  /** A mark for each task that has been claimed and each that has been submitted. */
  datatype Mark = Mark(key: TaskKey, submitted: bool)

  predicate Marked(tasks: map<TaskKey, TaskRow>, m: Mark) {
    m.key in tasks && if m.submitted then tasks[m.key].status == TaskCompleted else tasks[m.key].status != TaskPending
  }

  function Marks(tasks: map<TaskKey, TaskRow>): set<Mark> {
    (set key | key in tasks && Marked(tasks, Mark(key, false)) :: Mark(key, false))
    + (set key | key in tasks && Marked(tasks, Mark(key, true)) :: Mark(key, true))
  }

  lemma MarksAre(tasks: map<TaskKey, TaskRow>, m: Mark)
    ensures m in Marks(tasks) <==> Marked(tasks, m)
  {
    assert m == Mark(m.key, m.submitted);
  }

  predicate Moves(step: Step) {
    step.StepClaim? || step.StepSubmit?
  }

  predicate Proceeds(t: Tables, step: Step) {
    Moves(step) && Execute(t, step).Ok?
  }

  /** The claim and submit steps of a run that went through. */
  function Progressed(t: Tables, steps: seq<Step>): nat
    decreases |steps|
  {
    if steps == [] then 0 else (if Proceeds(t, steps[0]) then 1 else 0) + Progressed(Apply(t, steps[0]), steps[1..])
  }

  lemma SameMarks(a: map<TaskKey, TaskRow>, b: map<TaskKey, TaskRow>, extra: set<Mark>)
    requires forall m :: Marked(b, m) <==> Marked(a, m) || m in extra
    ensures Marks(b) == Marks(a) + extra
  {
  }

  lemma PendingUnmarked(tasks: map<TaskKey, TaskRow>, key: TaskKey)
    requires key !in tasks
    ensures Marks(tasks[key := TaskRow(TaskPending, None)]) == Marks(tasks)
  {
    SameMarks(tasks, tasks[key := TaskRow(TaskPending, None)], {});
  }

  lemma ClaimMarks(tasks: map<TaskKey, TaskRow>, key: TaskKey, actorId: string)
    requires key in tasks && tasks[key].status == TaskPending
    ensures |Marks(tasks[key := TaskRow(TaskClaimed, Some(actorId))])| == |Marks(tasks)| + 1
  {
    SameMarks(tasks, tasks[key := TaskRow(TaskClaimed, Some(actorId))], {Mark(key, false)});
    MarksAre(tasks, Mark(key, false));
  }

  lemma SubmitMarks(tasks: map<TaskKey, TaskRow>, key: TaskKey, actorId: string)
    requires key in tasks && tasks[key].status == TaskClaimed
    ensures |Marks(tasks[key := TaskRow(TaskCompleted, Some(actorId))])| == |Marks(tasks)| + 1
  {
    SameMarks(tasks, tasks[key := TaskRow(TaskCompleted, Some(actorId))], {Mark(key, true)});
    MarksAre(tasks, Mark(key, true));
  }

  lemma SeedMarks(tasks: map<TaskKey, TaskRow>, c: Candidate)
    requires forall slot :: TaskKey(c.candidateId, slot) !in tasks
    ensures Marks(SeededTasks(tasks, c)) == Marks(tasks)
  {
  }

  lemma {:induction false} AddAllMarks(t: Tables, cs: seq<Candidate>, q: Queue, matcher: Matcher,
      benchmark: BenchmarkKey, seedTasks: bool)
    requires Good(t)
    ensures Marks(AddCandidates(t, cs, q, matcher, benchmark, seedTasks).tasks) == Marks(t.tasks)
    decreases |cs|
  {
    if cs != [] {
      var next := AddCandidate(t, cs[0], q, matcher, benchmark, seedTasks);
      if cs[0].candidateId !in t.candidates {
        FreshCandidate(t, cs[0].candidateId);
        SeedMarks(t.tasks, cs[0]);
      }
      AddKeepsGood(t, cs[0], q, matcher, benchmark, seedTasks);
      AddAllMarks(next, cs[1..], q, matcher, benchmark, seedTasks);
    }
  }

  lemma SubmissionMarks(t: Tables, key: TaskKey, actorId: string, verdict: Verdict, original: Option<Scorecard>, factory: Factory)
    requires Good(t) && SubmitDecision(t, key, actorId, verdict, original, factory).Ok?
    ensures |Marks(SubmitDecision(t, key, actorId, verdict, original, factory).value.tasks)| == |Marks(t.tasks)| + 1
  {
    var policy, row := SubmitShape(t, key, actorId, verdict, original, factory);
    var completed := t.tasks[key := TaskRow(TaskCompleted, Some(actorId))];
    SubmitMarks(t.tasks, key, actorId);
    if TaskKey(key.candidateId, D.TieBreak) !in completed {
      PendingUnmarked(completed, TaskKey(key.candidateId, D.TieBreak));
    }
  }

  lemma ApplySubmit(t: Tables, key: TaskKey, actorId: string, verdict: Verdict, original: Option<Scorecard>, factory: Factory)
    requires SubmitDecision(t, key, actorId, verdict, original, factory).Ok?
    ensures Apply(t, StepSubmit(key, actorId, verdict, original, factory)) == SubmitDecision(t, key, actorId, verdict, original, factory).value
  {
  }

  lemma IngestionMarks(t: Tables, q: Queue, matcher: Matcher, benchmark: BenchmarkKey, seedTasks: bool)
    requires Good(t)
    ensures Marks(Apply(t, StepIngest(q, matcher, benchmark, seedTasks)).tasks) == Marks(t.tasks)
  {
    AddAllMarks(t, q.candidates, q, matcher, benchmark, seedTasks);
  }

  lemma ClaimStepMarks(t: Tables, key: TaskKey, actorId: string)
    ensures |Marks(Apply(t, StepClaim(key, actorId)).tasks)| == |Marks(t.tasks)| + if ClaimTask(t, key, actorId).Ok? then 1 else 0
  {
    if ClaimTask(t, key, actorId).Ok? {
      ClaimMarks(t.tasks, key, actorId);
    }
  }

  lemma SubmitStepMarks(t: Tables, key: TaskKey, actorId: string, verdict: Verdict, original: Option<Scorecard>, factory: Factory)
    requires Good(t)
    ensures |Marks(Apply(t, StepSubmit(key, actorId, verdict, original, factory)).tasks)|
         == |Marks(t.tasks)| + if SubmitDecision(t, key, actorId, verdict, original, factory).Ok? then 1 else 0
  {
    if SubmitDecision(t, key, actorId, verdict, original, factory).Ok? {
      ApplySubmit(t, key, actorId, verdict, original, factory);
      SubmissionMarks(t, key, actorId, verdict, original, factory);
    } else {
      RefusedStays(t, StepSubmit(key, actorId, verdict, original, factory));
    }
  }

  lemma RefusedStays(t: Tables, step: Step)
    requires Execute(t, step).Err?
    ensures Apply(t, step) == t
  {
  }

  lemma RegistrationsLeaveTasks(t: Tables, step: Step)
    requires step.StepScorecard? || step.StepBenchmark?
    ensures Apply(t, step).tasks == t.tasks
  {
  }

  lemma StepMarks(t: Tables, step: Step)
    requires Good(t)
    ensures |Marks(Apply(t, step).tasks)| == |Marks(t.tasks)| + if Proceeds(t, step) then 1 else 0
  {
    match step
    case StepScorecard(card) => RegistrationsLeaveTasks(t, step);
    case StepBenchmark(manifest, predecessor, id) => RegistrationsLeaveTasks(t, step);
    case StepIngest(queue, matcher, benchmark, seedTasks) => IngestionMarks(t, queue, matcher, benchmark, seedTasks);
    case StepClaim(key, actorId) => ClaimStepMarks(t, key, actorId);
    case StepSubmit(key, actorId, verdict, original, factory) => SubmitStepMarks(t, key, actorId, verdict, original, factory);
  }

  lemma {:induction false} ProgressIsMarks(t: Tables, steps: seq<Step>)
    requires Good(t)
    ensures |Marks(t.tasks)| + Progressed(t, steps) == |Marks(Run(t, steps).tasks)|
    decreases |steps|
  {
    if steps != [] {
      StepMarks(t, steps[0]);
      StepKeepsGood(t, steps[0]);
      ProgressIsMarks(Apply(t, steps[0]), steps[1..]);
    }
  }

  function AllMarks(c: string): set<Mark> {
    {Mark(TaskKey(c, D.Primary), false), Mark(TaskKey(c, D.Primary), true),
     Mark(TaskKey(c, D.Secondary), false), Mark(TaskKey(c, D.Secondary), true),
     Mark(TaskKey(c, D.TieBreak), false), Mark(TaskKey(c, D.TieBreak), true)}
  }

  lemma MarkOfCandidate(m: Mark)
    ensures m in AllMarks(m.key.candidateId)
  {
    assert m == Mark(TaskKey(m.key.candidateId, m.key.slot), m.submitted);
    match m.key.slot
    case Primary =>
    case Secondary =>
    case TieBreak =>
  }

  lemma AtMostSix(mine: set<Mark>, c: string)
    requires forall m :: m in mine ==> m.key.candidateId == c
    ensures |mine| <= 6
  {
    forall m | m in mine ensures m in AllMarks(c) {
      MarkOfCandidate(m);
    }
    Matching.CardinalityMonotone(mine, AllMarks(c));
  }

  lemma {:induction false} MarksBounded(marks: set<Mark>, ids: set<string>)
    requires forall m :: m in marks ==> m.key.candidateId in ids
    ensures |marks| <= 6 * |ids|
    decreases |ids|
  {
    if marks != {} {
      var m :| m in marks;
      var c := m.key.candidateId;
      var mine := set k | k in marks && k.key.candidateId == c;
      AtMostSix(mine, c);
      assert marks == mine + (marks - mine);
      MarksBounded(marks - mine, ids - {c});
    }
  }

  /** Every run has at most six successful claims and submissions per candidate. */
  lemma AtMostSixPerCandidate(steps: seq<Step>)
    ensures Progressed(EMPTY, steps) <= 6 * |Run(EMPTY, steps).candidates.Keys|
  {
    var t := Run(EMPTY, steps);
    RunsAreGood(steps);
    ProgressIsMarks(EMPTY, steps);
    assert Marks(EMPTY.tasks) == {};
    forall m | m in Marks(t.tasks) ensures m.key.candidateId in t.candidates.Keys {
      MarksAre(t.tasks, m);
    }
    MarksBounded(Marks(t.tasks), t.candidates.Keys);
  }

  // ---- Independence of interleaving --------------------------------------------------

  /** A claim or a submission with no scorecard attached. */
  predicate Plain(step: Step) {
    step.StepClaim? || (step.StepSubmit? && step.original.None?)
  }

  predicate OnCandidate(step: Step, c: string) {
    Moves(step) && step.key.candidateId == c
  }

  function OwnSteps(steps: seq<Step>, c: string): seq<Step> {
    if steps == [] then []
    else (if OnCandidate(steps[0], c) then [steps[0]] else []) + OwnSteps(steps[1..], c)
  }

  /** What a step does to the desk of its own candidate. */
  function DeskMove(d: Desk, step: Step): Desk {
    match step
    case StepClaim(key, actorId) =>
      var r := DeskClaim(d, key.slot, actorId);
      if r.Ok? then r.value else d
    case StepSubmit(key, actorId, verdict, _, _) =>
      var r := DeskSubmit(d, key.slot, actorId, verdict);
      if r.Ok? then r.value else d
    case _ => d
  }

  function DeskRun(d: Desk, steps: seq<Step>): Desk
    decreases |steps|
  {
    if steps == [] then d else DeskRun(DeskMove(d, steps[0]), steps[1..])
  }

  lemma ClaimStepOnDesk(t: Tables, key: TaskKey, actorId: string, c: string)
    requires c in t.candidates
    ensures var step := StepClaim(key, actorId);
      var after := Apply(t, step);
      c in after.candidates
      && DeskOf(after, c) == if key.candidateId == c then DeskMove(DeskOf(t, c), step) else DeskOf(t, c)
  {
    if key.candidateId == c {
      ClaimOnDesk(t, key, actorId);
    } else if ClaimTask(t, key, actorId).Ok? {
      ClaimElsewhere(t, key, actorId, c);
    }
  }

  lemma SubmitStepOnDesk(t: Tables, key: TaskKey, actorId: string, verdict: Verdict, original: Option<Scorecard>,
      factory: Factory, c: string)
    requires CandidatesKept(t) && c in t.candidates
    ensures var step := StepSubmit(key, actorId, verdict, original, factory);
      var after := Apply(t, step);
      c in after.candidates
      && (key.candidateId != c ==> DeskOf(after, c) == DeskOf(t, c))
      && (key.candidateId == c ==> DeskOf(after, c) == DeskOf(t, c) || DeskOf(after, c) == DeskMove(DeskOf(t, c), step))
      && (key.candidateId == c && original.None? ==> DeskOf(after, c) == DeskMove(DeskOf(t, c), step))
  {
    var r := SubmitDecision(t, key, actorId, verdict, original, factory);
    if key.candidateId == c {
      SubmitOnDesk(t, key, actorId, verdict, original, factory);
    }
    if r.Ok? {
      ApplySubmit(t, key, actorId, verdict, original, factory);
      if key.candidateId != c {
        SubmitElsewhere(t, key, actorId, verdict, original, factory, c);
      }
    } else {
      assert Apply(t, StepSubmit(key, actorId, verdict, original, factory)) == t;
    }
  }

  lemma PlainStepOnDesk(t: Tables, step: Step, c: string)
    requires CandidatesKept(t) && Plain(step) && c in t.candidates
    ensures c in Apply(t, step).candidates
    ensures DeskOf(Apply(t, step), c) == if OnCandidate(step, c) then DeskMove(DeskOf(t, c), step) else DeskOf(t, c)
  {
    match step
    case StepClaim(key, actorId) => ClaimStepOnDesk(t, key, actorId, c);
    case StepSubmit(key, actorId, verdict, original, factory) => SubmitStepOnDesk(t, key, actorId, verdict, original, factory, c);
  }

  lemma OwnStepsCons(step: Step, rest: seq<Step>, c: string, d: Desk)
    ensures DeskRun(d, OwnSteps([step] + rest, c))
         == DeskRun(if OnCandidate(step, c) then DeskMove(d, step) else d, OwnSteps(rest, c))
  {
    assert ([step] + rest)[1..] == rest;
    if OnCandidate(step, c) {
      assert OwnSteps([step] + rest, c) == [step] + OwnSteps(rest, c);
      assert ([step] + OwnSteps(rest, c))[1..] == OwnSteps(rest, c);
    } else {
      assert OwnSteps([step] + rest, c) == OwnSteps(rest, c);
    }
  }

  lemma PlainStepKeepsCandidates(t: Tables, step: Step)
    requires CandidatesKept(t) && Plain(step)
    ensures CandidatesKept(Apply(t, step))
  {
    if step.StepSubmit? && Execute(t, step).Ok? {
      var policy, row := SubmitShape(t, step.key, step.actorId, step.verdict, step.original, step.factory);
    }
  }

  /** A run of claims and submissions does to a candidate what that candidate's own steps do:
      interleaved steps on other candidates make no difference. */
  lemma {:induction false} InterleavingDoesNotMatter(t: Tables, steps: seq<Step>, c: string)
    requires CandidatesKept(t) && c in t.candidates && forall s :: s in steps ==> Plain(s)
    ensures c in Run(t, steps).candidates
    ensures DeskOf(Run(t, steps), c) == DeskRun(DeskOf(t, c), OwnSteps(steps, c))
    decreases |steps|
  {
    if steps != [] {
      var step, rest := steps[0], steps[1..];
      PlainStepOnDesk(t, step, c);
      PlainStepKeepsCandidates(t, step);
      InterleavingDoesNotMatter(Apply(t, step), rest, c);
      OwnStepsCons(step, rest, c, DeskOf(t, c));
      assert steps == [step] + rest;
    }
  }

  /** Two runs that leave the same decisions on a candidate, in whatever order they were given and
      whatever else happened, leave it with the same final outcome and severity. */
  lemma OutcomeOfOwnDecisions(left: seq<Step>, right: seq<Step>, c: string)
    requires c in Run(EMPTY, left).candidates && c in Run(EMPTY, right).candidates
    requires TwoNeeded(Run(EMPTY, left).candidates[c].candidate) == TwoNeeded(Run(EMPTY, right).candidates[c].candidate)
    requires multiset(Log(Run(EMPTY, left).submissions, c)) == multiset(Log(Run(EMPTY, right).submissions, c))
    ensures Finals(Run(EMPTY, left).determinations, c) == Finals(Run(EMPTY, right).determinations, c)
    ensures HasFinal(Run(EMPTY, left), c) ==> Run(EMPTY, left).candidates[c].state == Run(EMPTY, right).candidates[c].state
  {
    RunsAreGood(left);
    RunsAreGood(right);
    FinalsForgetOrder(DeskOf(Run(EMPTY, left), c), DeskOf(Run(EMPTY, right), c));
    FinalsFound(Run(EMPTY, left).determinations, c);
  }
}
