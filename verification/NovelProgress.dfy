/** Which candidates can still be brought to a final determination. */
module NovelProgress {
  import opened Wrappers
  import M = Models
  import D = NovelDetermination
  import opened NovelRegistry
  import opened NovelDesk
  import opened NovelInvariant
  import opened NovelTheorems

  // ---- Steps that leave a desk alone -------------------------------------------------

  lemma {:induction false} AddAllElsewhere(t: Tables, cs: seq<Candidate>, q: Queue, matcher: Matcher,
      benchmark: BenchmarkKey, seedTasks: bool, c: string)
    requires c in t.candidates
    ensures var after := AddCandidates(t, cs, q, matcher, benchmark, seedTasks);
      c in after.candidates && DeskOf(after, c) == DeskOf(t, c)
    decreases |cs|
  {
    if cs != [] {
      AddElsewhere(t, cs[0], q, matcher, benchmark, seedTasks, c);
      AddAllElsewhere(AddCandidate(t, cs[0], q, matcher, benchmark, seedTasks), cs[1..], q, matcher, benchmark, seedTasks, c);
    }
  }

  lemma IngestElsewhere(t: Tables, q: Queue, matcher: Matcher, benchmark: BenchmarkKey, seedTasks: bool, c: string)
    requires c in t.candidates
    ensures var after := Apply(t, StepIngest(q, matcher, benchmark, seedTasks));
      c in after.candidates && DeskOf(after, c) == DeskOf(t, c)
  {
    AddAllElsewhere(t, q.candidates, q, matcher, benchmark, seedTasks, c);
  }

  lemma RegistrationsLeaveDesks(t: Tables, step: Step, c: string)
    requires (step.StepScorecard? || step.StepBenchmark?) && c in t.candidates
    ensures c in Apply(t, step).candidates && DeskOf(Apply(t, step), c) == DeskOf(t, c)
  {
  }

  lemma StepElsewhere(t: Tables, step: Step, c: string)
    requires CandidatesKept(t) && c in t.candidates && !OnCandidate(step, c)
    ensures c in Apply(t, step).candidates && DeskOf(Apply(t, step), c) == DeskOf(t, c)
  {
    match step
    case StepScorecard(card) => RegistrationsLeaveDesks(t, step, c);
    case StepBenchmark(manifest, predecessor, id) => RegistrationsLeaveDesks(t, step, c);
    case StepIngest(queue, matcher, benchmark, seedTasks) => IngestElsewhere(t, queue, matcher, benchmark, seedTasks, c);
    case StepClaim(key, actorId) => ClaimStepOnDesk(t, key, actorId, c);
    case StepSubmit(key, actorId, verdict, original, factory) => SubmitStepOnDesk(t, key, actorId, verdict, original, factory, c);
  }

  // ---- Stuck desks -------------------------------------------------------------------

  /** One expert is assigned to both primary tasks. */
  predicate SameHolder(d: Desk) {
    && d.primary.Some? && d.secondary.Some?
    && d.primary.value.assignedTo.Some? && d.primary.value.assignedTo == d.secondary.value.assignedTo
  }

  /** A desk that was never seeded, or whose primary tasks are both with one expert. */
  predicate Stuck(d: Desk) {
    d.primary.None? || SameHolder(d)
  }

  lemma StuckIsOpen(d: Desk)
    requires InOrder(d) && Stuck(d)
    ensures d.finals == [] && d.tieBreak.None?
  {
    D.PolicyIsBySlot(d.log, d.two);
  }

  lemma StuckClaims(d: Desk, slot: D.Slot, who: string)
    requires InOrder(d) && Stuck(d)
    ensures DeskClaim(d, slot, who).Err?
  {
    StuckIsOpen(d);
  }

  lemma StuckSubmits(d: Desk, slot: D.Slot, who: string, verdict: Verdict)
    requires InOrder(d) && Stuck(d)
    ensures var r := DeskSubmit(d, slot, who, verdict);
      r.Ok? ==> Stuck(r.value)
  {
    StuckIsOpen(d);
  }

  lemma StuckStays(t: Tables, step: Step, c: string)
    requires CandidatesKept(t) && c in t.candidates && InOrder(DeskOf(t, c)) && Stuck(DeskOf(t, c))
    ensures c in Apply(t, step).candidates && Stuck(DeskOf(Apply(t, step), c))
  {
    if !OnCandidate(step, c) {
      StepElsewhere(t, step, c);
    } else {
      match step
      case StepClaim(key, who) =>
        StuckClaims(DeskOf(t, c), key.slot, who);
        ClaimStepOnDesk(t, key, who, c);
      case StepSubmit(key, who, verdict, original, factory) =>
        StuckSubmits(DeskOf(t, c), key.slot, who, verdict);
        SubmitStepOnDesk(t, key, who, verdict, original, factory, c);
    }
  }

  /** No run brings a stuck candidate to a final determination. */
  lemma {:induction false} StuckForever(t: Tables, steps: seq<Step>, c: string)
    requires Good(t) && c in t.candidates && Stuck(DeskOf(t, c))
    ensures !HasFinal(Run(t, steps), c)
    decreases |steps|
  {
    if steps == [] {
      StuckIsOpen(DeskOf(t, c));
      FinalsFound(t.determinations, c);
    } else {
      StuckStays(t, steps[0], c);
      StepKeepsGood(t, steps[0]);
      StuckForever(Apply(t, steps[0]), steps[1..], c);
    }
  }

  // ---- The others can be finished ----------------------------------------------------

  /** Claims and submissions a task still needs; a tie-break may yet be called for. */
  function TaskWork(task: Option<TaskRow>): (n: nat)
    ensures n <= 2
  {
    if task.None? || task.value.status == TaskPending then 2 else if task.value.status == TaskClaimed then 1 else 0
  }

  function Work(d: Desk): (n: nat)
    ensures n <= 6
  {
    TaskWork(d.primary) + TaskWork(d.secondary) + TaskWork(d.tieBreak)
  }

  function NameLength(task: Option<TaskRow>): nat {
    if task.Some? && task.value.assignedTo.Some? then |task.value.assignedTo.value| else 0
  }

  /** An expert who holds neither primary task. */
  function Newcomer(d: Desk): (who: string)
    ensures !Assigned(d.primary, who) && !Assigned(d.secondary, who)
  {
    seq(NameLength(d.primary) + NameLength(d.secondary) + 1, _ => 'x')
  }

  lemma NewcomerClaims(d: Desk, slot: D.Slot)
    requires InOrder(d) && !Stuck(d) && d.Task(slot).Some? && d.Task(slot).value.status == TaskPending
    ensures var r := DeskClaim(d, slot, Newcomer(d));
      r.Ok? && InOrder(r.value) && !Stuck(r.value) && Work(r.value) < Work(d)
  {
    PrimariesBySlot(d.log, Newcomer(d));
    ClaimKeepsOrder(d, slot, Newcomer(d));
  }

  const VERDICT := Verdict(D.Confirmed, M.Minor)

  lemma HolderSubmits(d: Desk, slot: D.Slot, who: string)
    requires InOrder(d) && !Stuck(d) && d.finals == [] && d.Task(slot) == Some(TaskRow(TaskClaimed, Some(who)))
    ensures var r := DeskSubmit(d, slot, who, VERDICT);
      r.Ok? && InOrder(r.value) && !Stuck(r.value) && Work(r.value) < Work(d)
  {
    OnlySameExpertRefused(d, slot, who, VERDICT);
    SubmitKeepsOrder(d, slot, who, VERDICT);
  }

  /** The next step that brings a desk forward: a held task is submitted, a pending one is claimed. */
  lemma NextStep(d: Desk, c: string) returns (step: Step)
    requires InOrder(d) && !Stuck(d) && d.finals == []
    ensures Plain(step) && OnCandidate(step, c)
    ensures InOrder(DeskMove(d, step)) && !Stuck(DeskMove(d, step)) && Work(DeskMove(d, step)) < Work(d)
  {
    FinalIffDone(d);
    var slot :| d.Task(slot).Some? && d.Task(slot).value.status != TaskCompleted;
    MatchesBySlot(d, slot);
    var task := d.Task(slot).value;
    if task.status == TaskPending {
      NewcomerClaims(d, slot);
      step := StepClaim(TaskKey(c, slot), Newcomer(d));
    } else {
      HolderSubmits(d, slot, task.assignedTo.value);
      step := StepSubmit(TaskKey(c, slot), task.assignedTo.value, VERDICT, None, NoFactory);
    }
  }

  lemma {:induction false} Finishing(d: Desk, c: string) returns (steps: seq<Step>)
    requires InOrder(d) && !Stuck(d)
    ensures forall s :: s in steps ==> Plain(s) && OnCandidate(s, c)
    ensures DeskRun(d, steps).finals != [] && |steps| <= Work(d)
    decreases Work(d)
  {
    if d.finals != [] {
      steps := [];
    } else {
      var step := NextStep(d, c);
      var rest := Finishing(DeskMove(d, step), c);
      steps := [step] + rest;
      assert steps[1..] == rest;
    }
  }

  lemma {:induction false} AllOwn(steps: seq<Step>, c: string)
    requires forall s :: s in steps ==> OnCandidate(s, c)
    ensures OwnSteps(steps, c) == steps
  {
    if steps != [] {
      AllOwn(steps[1..], c);
      assert steps == [steps[0]] + steps[1..];
    }
  }

  /** Six claims and submissions are always enough. */
  lemma SixStepsFinish(t: Tables, c: string) returns (steps: seq<Step>)
    requires Good(t) && c in t.candidates && !Stuck(DeskOf(t, c))
    ensures |steps| <= 6 && HasFinal(Run(t, steps), c)
  {
    assert InOrder(DeskOf(t, c));
    steps := Finishing(DeskOf(t, c), c);
    AllOwn(steps, c);
    InterleavingDoesNotMatter(t, steps, c);
    FinalsFound(Run(t, steps).determinations, c);
  }

  // ---- Exactly which candidates ------------------------------------------------------

  /** What the task table says of a candidate that can still be decided: it has a primary task, and no
      expert is assigned to both of its primary tasks. */
  predicate Decidable(t: Tables, c: string) {
    var primary, secondary := TaskKey(c, D.Primary), TaskKey(c, D.Secondary);
    && primary in t.tasks
    && !(secondary in t.tasks && t.tasks[primary].assignedTo.Some?
         && t.tasks[primary].assignedTo == t.tasks[secondary].assignedTo)
  }

  /** Some run of at most so many steps brings the candidate to a final determination. */
  ghost predicate FinalWithin(t: Tables, c: string, n: nat) {
    exists steps :: |steps| <= n && HasFinal(Run(t, steps), c)
  }

  lemma DecidableDesk(t: Tables, c: string)
    requires c in t.candidates
    ensures Decidable(t, c) <==> !Stuck(DeskOf(t, c))
  {
  }

  lemma DecidableFinishes(t: Tables, c: string)
    requires Good(t) && c in t.candidates && Decidable(t, c)
    ensures FinalWithin(t, c, 6)
  {
    DecidableDesk(t, c);
    var steps := SixStepsFinish(t, c);
  }

  lemma FinalIsDecidable(t: Tables, steps: seq<Step>, c: string)
    requires Good(t) && c in t.candidates && HasFinal(Run(t, steps), c)
    ensures Decidable(t, c)
  {
    DecidableDesk(t, c);
    if Stuck(DeskOf(t, c)) {
      StuckForever(t, steps, c);
    }
  }

  /** After every run, some continuation brings a candidate to a final determination exactly when it was
      seeded and its primary tasks are not both with one expert; six more steps are then enough. */
  lemma FinalReachableExactly(before: seq<Step>, c: string)
    requires c in Run(EMPTY, before).candidates
    ensures var t := Run(EMPTY, before);
      && ((exists n :: FinalWithin(t, c, n)) <==> Decidable(t, c))
      && (Decidable(t, c) <==> FinalWithin(t, c, 6))
  {
    var t := Run(EMPTY, before);
    RunsAreGood(before);
    if Decidable(t, c) {
      DecidableFinishes(t, c);
    }
    if n :| FinalWithin(t, c, n) {
      var steps :| |steps| <= n && HasFinal(Run(t, steps), c);
      FinalIsDecidable(t, steps, c);
    }
  }

  // ---- Such a state is reached -------------------------------------------------------

  function BothByOne(c: Candidate, q: Queue, matcher: Matcher, benchmark: BenchmarkKey, actorId: string,
      verdict: Verdict): seq<Step> {
    [StepIngest(q, matcher, benchmark, true),
     StepClaim(TaskKey(c.candidateId, D.Primary), actorId),
     StepClaim(TaskKey(c.candidateId, D.Secondary), actorId),
     StepSubmit(TaskKey(c.candidateId, D.Primary), actorId, verdict, None, NoFactory)]
  }

  lemma RunsOfFour(t: Tables, a: Step, b: Step, c: Step, d: Step)
    ensures Run(t, [a, b, c, d]) == Apply(Apply(Apply(Apply(t, a), b), c), d)
  {
    assert [a, b, c, d][1..] == [b, c, d] && [b, c, d][1..] == [c, d] && [c, d][1..] == [d] && [d][1..] == [];
    assert Run(t, [a, b, c, d]) == Run(Apply(t, a), [b, c, d]);
    var t2 := Apply(Apply(t, a), b);
    assert Run(Apply(t, a), [b, c, d]) == Run(t2, [c, d]);
    assert Run(t2, [c, d]) == Run(Apply(t2, c), [d]);
  }

  lemma IngestOne(c: Candidate, q: Queue, matcher: Matcher, benchmark: BenchmarkKey)
    requires q.candidates == [c] && TwoNeeded(c)
    ensures var t := Apply(EMPTY, StepIngest(q, matcher, benchmark, true));
      && c.candidateId in t.candidates
      && Good(t)
      && DeskOf(t, c.candidateId)
           == Desk(true, c.state, c.state, Some(TaskRow(TaskPending, None)), Some(TaskRow(TaskPending, None)), None, [], [])
  {
    assert IngestQueue(EMPTY, q, matcher, benchmark, true).Ok?;
    var t := AddCandidate(EMPTY, c, q, matcher, benchmark, true);
    StepKeepsGood(EMPTY, StepIngest(q, matcher, benchmark, true));
    assert q.candidates[1..] == [];
    assert AddCandidates(EMPTY, q.candidates, q, matcher, benchmark, true) == t;
  }

  /** One expert has given the first primary decision and holds the second primary task. */
  predicate BothWith(d: Desk, actorId: string) {
    SameHolder(d) && MaySubmit(d, D.Secondary, actorId) && HoldsOther(d, D.Secondary, actorId)
  }

  lemma HoldThenDecide(d: Desk, actorId: string, verdict: Verdict)
    requires InOrder(d) && d.two && d.log == [] && d.finals == []
    requires d.primary == d.secondary == Some(TaskRow(TaskClaimed, Some(actorId)))
    ensures var r := DeskSubmit(d, D.Primary, actorId, verdict);
      r.Ok? && BothWith(r.value, actorId)
  {
    OnlySameExpertRefused(d, D.Primary, actorId, verdict);
    SubmittedPolicy(d, D.Primary, actorId, verdict);
  }

  lemma FirstClaim(d: Desk, slot: D.Slot, actorId: string)
    requires d.log == [] && d.Task(slot) == Some(TaskRow(TaskPending, None))
    ensures DeskClaim(d, slot, actorId) == Ok(d.WithTask(slot, TaskRow(TaskClaimed, Some(actorId))))
  {
    assert D.Primaries([]) == [];
  }

  lemma ClaimOne(t: Tables, c: string, slot: D.Slot, actorId: string)
    requires c in t.candidates && DeskOf(t, c).log == []
    requires DeskOf(t, c).Task(slot) == Some(TaskRow(TaskPending, None))
    ensures var after := Apply(t, StepClaim(TaskKey(c, slot), actorId));
      && c in after.candidates
      && DeskOf(after, c) == DeskOf(t, c).WithTask(slot, TaskRow(TaskClaimed, Some(actorId)))
  {
    var key := TaskKey(c, slot);
    FirstClaim(DeskOf(t, c), slot, actorId);
    ClaimOnDesk(t, key, actorId);
    assert Apply(t, StepClaim(key, actorId)) == ClaimTask(t, key, actorId).value;
  }

  lemma ClaimBoth(t: Tables, c: string, actorId: string)
    requires Good(t) && c in t.candidates && DeskOf(t, c).log == []
    requires DeskOf(t, c).primary == DeskOf(t, c).secondary == Some(TaskRow(TaskPending, None))
    ensures var after := Apply(Apply(t, StepClaim(TaskKey(c, D.Primary), actorId)), StepClaim(TaskKey(c, D.Secondary), actorId));
      var claimed := Some(TaskRow(TaskClaimed, Some(actorId)));
      Good(after) && c in after.candidates && DeskOf(after, c) == DeskOf(t, c).(primary := claimed, secondary := claimed)
  {
    var one, two := StepClaim(TaskKey(c, D.Primary), actorId), StepClaim(TaskKey(c, D.Secondary), actorId);
    StepKeepsGood(t, one);
    StepKeepsGood(Apply(t, one), two);
    ClaimOne(t, c, D.Primary, actorId);
    ClaimOne(Apply(t, one), c, D.Secondary, actorId);
  }

  lemma SubmitOneOfBoth(t: Tables, c: string, actorId: string, verdict: Verdict, key: TaskKey)
    requires Good(t) && c in t.candidates && key == TaskKey(c, D.Primary)
    requires var d := DeskOf(t, c);
      d.two && d.log == [] && d.finals == [] && d.primary == d.secondary == Some(TaskRow(TaskClaimed, Some(actorId)))
    ensures var after := Apply(t, StepSubmit(key, actorId, verdict, None, NoFactory));
      Good(after) && c in after.candidates && BothWith(DeskOf(after, c), actorId)
  {
    HoldThenDecide(DeskOf(t, c), actorId, verdict);
    SubmitOnDesk(t, key, actorId, verdict, None, NoFactory);
    ApplySubmit(t, key, actorId, verdict, None, NoFactory);
    SubmitKeepsGood(t, key, actorId, verdict, None, NoFactory);
  }

  /** An expert may claim both primary tasks before submitting either. Only the policy then refuses the
      second submission, and the candidate can no longer be decided. */
  lemma OneExpertCanHoldBoth(c: Candidate, q: Queue, matcher: Matcher, benchmark: BenchmarkKey, actorId: string, verdict: Verdict)
    requires q.candidates == [c] && TwoNeeded(c)
    ensures var t := Run(EMPTY, BothByOne(c, q, matcher, benchmark, actorId, verdict));
      && c.candidateId in t.candidates && !Decidable(t, c.candidateId)
      && SubmitDecision(t, TaskKey(c.candidateId, D.Secondary), actorId, verdict, None, NoFactory)
           == Err(PolicyRefused(D.SameExpertTwice))
  {
    var steps := BothByOne(c, q, matcher, benchmark, actorId, verdict);
    RunsOfFour(EMPTY, steps[0], steps[1], steps[2], steps[3]);
    IngestOne(c, q, matcher, benchmark);
    var seeded := Apply(EMPTY, steps[0]);
    ClaimBoth(seeded, c.candidateId, actorId);
    var both := Apply(Apply(seeded, steps[1]), steps[2]);
    SubmitOneOfBoth(both, c.candidateId, actorId, verdict, TaskKey(c.candidateId, D.Primary));
    OnlySameExpertHere(Apply(both, steps[3]), TaskKey(c.candidateId, D.Secondary), actorId, verdict, None, NoFactory);
  }
}
