/** What the rows of a candidate say after a run, in terms of the decisions given on it. */
module NovelMeaning {
  import opened Wrappers
  import M = Models
  import Q = NovelQueue
  import D = NovelDetermination
  import opened NovelRegistry
  import opened NovelDesk
  import opened NovelInvariant
  import opened NovelTheorems

  // ---- States ------------------------------------------------------------------------

  lemma DeskStateMeans(d: Desk)
    requires InOrder(d)
    ensures d.finals == [] ==> d.state == d.ingested
    ensures |d.finals| <= 1
    ensures d.finals != [] ==>
      && (d.state == Q.AcceptedNovel <==> d.finals[0].outcome == D.Confirmed)
      && (d.state == Q.StateQualified <==> d.finals[0].outcome == D.Qualified)
      && (d.state == Q.StateRejected <==> d.finals[0].outcome == D.Rejected)
      && (d.state == Q.StateUnresolved <==> d.finals[0].outcome == D.Unresolved)
  {
  }

  lemma {:induction false} FinalRow(rows: seq<DeterminationRow>, r: DeterminationRow)
    requires r in rows && r.finalized
    ensures r.determination.policy in Finals(rows, r.candidateId)
  {
    if rows[0] != r {
      assert r in rows[1..];
      FinalRow(rows[1..], r);
    }
  }

  /** After any run a candidate with a final determination is accepted exactly when the outcome is
      confirmed, qualified exactly when it is qualified, rejected exactly when it is rejected and unresolved
      exactly when it is unresolved. */
  lemma FinalStateMeans(steps: seq<Step>, r: DeterminationRow)
    requires r in Run(EMPTY, steps).determinations && r.finalized
    ensures var t := Run(EMPTY, steps);
      && r.candidateId in t.candidates
      && var state := t.candidates[r.candidateId].state;
      && (state == Q.AcceptedNovel <==> r.outcome == D.Confirmed)
      && (state == Q.StateQualified <==> r.outcome == D.Qualified)
      && (state == Q.StateRejected <==> r.outcome == D.Rejected)
      && (state == Q.StateUnresolved <==> r.outcome == D.Unresolved)
  {
    var t := Run(EMPTY, steps);
    RunsAreGood(steps);
    assert DeterminationKept(t, r);
    FinalRow(t.determinations, r);
    DeskStateMeans(DeskOf(t, r.candidateId));
  }

  /** Without a final determination a candidate keeps the state it was ingested with. */
  lemma OpenStateMeans(steps: seq<Step>, c: string)
    requires c in Run(EMPTY, steps).candidates && !HasFinal(Run(EMPTY, steps), c)
    ensures Run(EMPTY, steps).candidates[c].state == Run(EMPTY, steps).candidates[c].candidate.state
  {
    var t := Run(EMPTY, steps);
    RunsAreGood(steps);
    FinalsFound(t.determinations, c);
    DeskStateMeans(DeskOf(t, c));
  }

  // ---- Tasks -------------------------------------------------------------------------

  /** After any run a candidate has a second primary task exactly when it has a first one and its concern is
      major or critical. */
  lemma SecondPrimaryExactly(steps: seq<Step>, c: string)
    requires c in Run(EMPTY, steps).candidates
    ensures var t := Run(EMPTY, steps);
      TaskKey(c, D.Secondary) in t.tasks <==>
        TaskKey(c, D.Primary) in t.tasks && t.candidates[c].candidate.concern.severity in {M.Major, M.Critical}
  {
    RunsAreGood(steps);
    assert InOrder(DeskOf(Run(EMPTY, steps), c));
  }

  // ---- Outcomes ----------------------------------------------------------------------

  ghost predicate DecidesAs(policy: D.PolicyResult, d: D.Decision) {
    policy.finalized && policy.outcome == d.validity && policy.severity == Some(d.severity)
  }

  lemma DeskOutcomeMeans(d: Desk)
    requires InOrder(d)
    ensures d.finals != [] ==>
      var p, q, tie := d.Decided(D.Primary), d.Decided(D.Secondary), d.Decided(D.TieBreak);
      p.Some? && (
        if tie.Some? then q.Some? && DecidesAs(d.finals[0], tie.value)
        else if d.two then q.Some? && Settles(d.finals[0], p.value, q.value)
        else DecidesAs(d.finals[0], p.value))
  {
    D.PolicyIsBySlot(d.log, d.two);
    if d.Decided(D.Primary).Some? && d.Decided(D.Secondary).Some? {
      DeskSettles(d);
    }
  }

  /** After any run a final outcome is the tie-break's decision where there is one, what the two primaries
      settle where two are needed, and the one primary's decision otherwise. */
  lemma FinalOutcomeMeans(steps: seq<Step>, c: string)
    requires c in Run(EMPTY, steps).candidates && HasFinal(Run(EMPTY, steps), c)
    ensures var d := DeskOf(Run(EMPTY, steps), c);
      var p, q, tie := d.Decided(D.Primary), d.Decided(D.Secondary), d.Decided(D.TieBreak);
      && |d.finals| == 1 && p.Some?
      && if tie.Some? then q.Some? && DecidesAs(d.finals[0], tie.value)
         else if d.two then q.Some? && Settles(d.finals[0], p.value, q.value)
         else DecidesAs(d.finals[0], p.value)
  {
    var t := Run(EMPTY, steps);
    RunsAreGood(steps);
    FinalsFound(t.determinations, c);
    DeskStateMeans(DeskOf(t, c));
    DeskOutcomeMeans(DeskOf(t, c));
  }

  // ---- Who may claim and submit ------------------------------------------------------

  /** The expert gave one of the primary decisions on the candidate. */
  predicate GavePrimary(t: Tables, c: string, actorId: string) {
    exists s :: s in t.submissions && s.task.candidateId == c && s.task.slot != D.TieBreak && s.decision.adjudicatorId == actorId
  }

  lemma {:induction false} LogMembers(ss: seq<SubmissionRow>, c: string, d: D.Decision)
    ensures d in Log(ss, c) <==> exists s :: s in ss && s.task.candidateId == c && s.decision == d
  {
    if ss != [] {
      LogMembers(ss[1..], c, d);
      assert ss == [ss[0]] + ss[1..];
    }
  }

  lemma {:induction false} PrimaryMembers(ds: seq<D.Decision>, d: D.Decision)
    ensures d in D.Primaries(ds) <==> d in ds && d.slot != D.TieBreak
  {
    if ds != [] {
      PrimaryMembers(ds[1..], d);
      assert ds == [ds[0]] + ds[1..];
    }
  }

  lemma PrimaryGiven(t: Tables, c: string, actorId: string)
    requires SubmissionsKept(t)
    ensures AdjudicatedBefore(Log(t.submissions, c), actorId) <==> GavePrimary(t, c, actorId)
  {
    var log := Log(t.submissions, c);
    if GavePrimary(t, c, actorId) {
      var s :| s in t.submissions && s.task.candidateId == c && s.task.slot != D.TieBreak && s.decision.adjudicatorId == actorId;
      assert SubmissionKept(t, s);
      LogMembers(t.submissions, c, s.decision);
      PrimaryMembers(log, s.decision);
    }
    if AdjudicatedBefore(log, actorId) {
      var d :| d in D.Primaries(log) && d.adjudicatorId == actorId;
      PrimaryMembers(log, d);
      LogMembers(t.submissions, c, d);
      var s :| s in t.submissions && s.task.candidateId == c && s.decision == d;
      assert SubmissionKept(t, s);
    }
  }

  /** After any run a claim goes through exactly when the task is pending and its caller gave neither primary
      decision on the candidate; it then assigns the task and changes nothing else. */
  lemma ClaimExactly(steps: seq<Step>, key: TaskKey, actorId: string)
    ensures var t := Run(EMPTY, steps);
      var r := ClaimTask(t, key, actorId);
      && (r.Ok? <==> key in t.tasks && t.tasks[key] == TaskRow(TaskPending, None) && !GavePrimary(t, key.candidateId, actorId))
      && (r.Ok? ==> r.value == t.(tasks := t.tasks[key := TaskRow(TaskClaimed, Some(actorId))]))
  {
    var t := Run(EMPTY, steps);
    RunsAreGood(steps);
    PrimaryGiven(t, key.candidateId, actorId);
    if key in t.tasks {
      TaskOfDesk(t, key);
    }
  }

  /** After any run a submission with no scorecard attached goes through exactly when its caller holds the
      claimed task, the candidate is not final and the caller gave no primary decision on it, unless the task
      is the tie-break; it then records the decision as given. */
  lemma SubmitExactly(steps: seq<Step>, key: TaskKey, actorId: string, verdict: Verdict, factory: Factory)
    ensures var t := Run(EMPTY, steps);
      var r := SubmitDecision(t, key, actorId, verdict, None, factory);
      && (r.Ok? <==>
            && key in t.tasks && t.tasks[key] == TaskRow(TaskClaimed, Some(actorId)) && !HasFinal(t, key.candidateId)
            && (key.slot == D.TieBreak || !GavePrimary(t, key.candidateId, actorId)))
      && (r.Ok? ==>
            && r.value.submissions == t.submissions
                 + [SubmissionRow(t.nextId, key, D.Decision(actorId, key.slot, verdict.validity, verdict.severity))]
            && key in r.value.tasks && r.value.tasks[key] == TaskRow(TaskCompleted, Some(actorId)))
  {
    var t := Run(EMPTY, steps);
    RunsAreGood(steps);
    SubmitAccepted(t, key, actorId, verdict, factory);
    if SubmitDecision(t, key, actorId, verdict, None, factory).Ok? {
      SubmitRecords(t, key, actorId, verdict, factory);
    }
  }

  lemma SubmitRecords(t: Tables, key: TaskKey, actorId: string, verdict: Verdict, factory: Factory)
    requires Good(t) && SubmitDecision(t, key, actorId, verdict, None, factory).Ok?
    ensures var after := SubmitDecision(t, key, actorId, verdict, None, factory).value;
      && after.submissions == t.submissions
           + [SubmissionRow(t.nextId, key, D.Decision(actorId, key.slot, verdict.validity, verdict.severity))]
      && key in after.tasks && after.tasks[key] == TaskRow(TaskCompleted, Some(actorId))
  {
    var policy, row := SubmitShape(t, key, actorId, verdict, None, factory);
  }

  lemma OtherPrimary(t: Tables, key: TaskKey, actorId: string)
    requires Good(t) && key.candidateId in t.candidates && MaySubmit(DeskOf(t, key.candidateId), key.slot, actorId)
    ensures HoldsOther(DeskOf(t, key.candidateId), key.slot, actorId)
      <==> key.slot != D.TieBreak && GavePrimary(t, key.candidateId, actorId)
  {
    var d := DeskOf(t, key.candidateId);
    PrimaryGiven(t, key.candidateId, actorId);
    PrimariesBySlot(d.log, actorId);
    MatchesBySlot(d, key.slot);
  }

  predicate Holds(t: Tables, key: TaskKey, actorId: string) {
    key in t.tasks && t.tasks[key] == TaskRow(TaskClaimed, Some(actorId)) && !HasFinal(t, key.candidateId)
  }

  lemma DeskTask(t: Tables, key: TaskKey)
    requires key.candidateId in t.candidates
    ensures DeskOf(t, key.candidateId).Task(key.slot) == (if key in t.tasks then Some(t.tasks[key]) else None)
    ensures DeskOf(t, key.candidateId).finals != [] <==> HasFinal(t, key.candidateId)
  {
    assert key == TaskKey(key.candidateId, key.slot);
    FinalsFound(t.determinations, key.candidateId);
  }

  lemma HeldOnDesk(t: Tables, key: TaskKey, actorId: string)
    requires TasksKept(t)
    ensures Holds(t, key, actorId) <==>
      key.candidateId in t.candidates && MaySubmit(DeskOf(t, key.candidateId), key.slot, actorId)
  {
    if key.candidateId in t.candidates {
      DeskTask(t, key);
    }
  }

  lemma DeskAccepts(d: Desk, slot: D.Slot, actorId: string, verdict: Verdict)
    requires InOrder(d)
    ensures DeskSubmit(d, slot, actorId, verdict).Ok? <==> MaySubmit(d, slot, actorId) && !HoldsOther(d, slot, actorId)
  {
    if MaySubmit(d, slot, actorId) {
      OnlySameExpertRefused(d, slot, actorId, verdict);
    }
  }

  lemma UnknownIsRefused(t: Tables, key: TaskKey, actorId: string, verdict: Verdict, factory: Factory)
    requires TasksKept(t) && key.candidateId !in t.candidates
    ensures SubmitDecision(t, key, actorId, verdict, None, factory).Err?
  {
  }

  lemma SubmitAccepted(t: Tables, key: TaskKey, actorId: string, verdict: Verdict, factory: Factory)
    requires Good(t)
    ensures SubmitDecision(t, key, actorId, verdict, None, factory).Ok? <==>
      Holds(t, key, actorId) && (key.slot == D.TieBreak || !GavePrimary(t, key.candidateId, actorId))
  {
    HeldOnDesk(t, key, actorId);
    if key.candidateId in t.candidates {
      SubmitOnDesk(t, key, actorId, verdict, None, factory);
      DeskAccepts(DeskOf(t, key.candidateId), key.slot, actorId, verdict);
      if MaySubmit(DeskOf(t, key.candidateId), key.slot, actorId) {
        OtherPrimary(t, key, actorId);
      }
    } else {
      UnknownIsRefused(t, key, actorId, verdict, factory);
    }
  }

  // ---- What is ingested --------------------------------------------------------------

  lemma {:induction false} AddAllKeepsRow(t: Tables, cs: seq<Candidate>, q: Queue, matcher: Matcher, benchmark: BenchmarkKey,
      seedTasks: bool, c: string)
    requires c in t.candidates
    ensures var after := AddCandidates(t, cs, q, matcher, benchmark, seedTasks);
      && c in after.candidates && after.candidates[c] == t.candidates[c]
      && forall slot :: TaskAt(after.tasks, c, slot) == TaskAt(t.tasks, c, slot)
    decreases |cs|
  {
    if cs != [] {
      AddAllKeepsRow(AddCandidate(t, cs[0], q, matcher, benchmark, seedTasks), cs[1..], q, matcher, benchmark, seedTasks, c);
    }
  }

  /** The row and the tasks of a new candidate. */
  ghost predicate Ingested(t: Tables, c: Candidate, q: Queue, matcher: Matcher, benchmark: BenchmarkKey, seedTasks: bool) {
    && c.candidateId in t.candidates
    && t.candidates[c.candidateId]
         == CandidateRow(c, DigestOf(c), c.state, q.sourceResultHash, q.sourceSubmissionHash, matcher, benchmark)
    && TaskAt(t.tasks, c.candidateId, D.Primary) == (if seedTasks then Some(TaskRow(TaskPending, None)) else None)
    && TaskAt(t.tasks, c.candidateId, D.Secondary)
         == (if seedTasks && c.concern.severity in {M.Major, M.Critical} then Some(TaskRow(TaskPending, None)) else None)
    && TaskAt(t.tasks, c.candidateId, D.TieBreak) == None
  }

  predicate IsNew(t: Tables, c: string) {
    c !in t.candidates && forall slot :: TaskKey(c, slot) !in t.tasks
  }

  lemma AddIngests(t: Tables, c: Candidate, q: Queue, matcher: Matcher, benchmark: BenchmarkKey, seedTasks: bool)
    requires IsNew(t, c.candidateId)
    ensures Ingested(AddCandidate(t, c, q, matcher, benchmark, seedTasks), c, q, matcher, benchmark, seedTasks)
  {
  }

  lemma IngestedStays(t: Tables, after: Tables, c: Candidate, q: Queue, matcher: Matcher, benchmark: BenchmarkKey, seedTasks: bool)
    requires Ingested(t, c, q, matcher, benchmark, seedTasks)
    requires c.candidateId in after.candidates && after.candidates[c.candidateId] == t.candidates[c.candidateId]
    requires forall slot :: TaskAt(after.tasks, c.candidateId, slot) == TaskAt(t.tasks, c.candidateId, slot)
    ensures Ingested(after, c, q, matcher, benchmark, seedTasks)
  {
  }

  lemma {:induction false} AddAllIngests(t: Tables, cs: seq<Candidate>, q: Queue, matcher: Matcher, benchmark: BenchmarkKey,
      seedTasks: bool, i: nat)
    requires i < |cs| && IsNew(t, cs[i].candidateId)
    requires forall j :: 0 <= j < i ==> cs[j].candidateId != cs[i].candidateId
    ensures Ingested(AddCandidates(t, cs, q, matcher, benchmark, seedTasks), cs[i], q, matcher, benchmark, seedTasks)
    decreases |cs|
  {
    var next := AddCandidate(t, cs[0], q, matcher, benchmark, seedTasks);
    if i == 0 {
      AddIngests(t, cs[0], q, matcher, benchmark, seedTasks);
      AddAllKeepsRow(next, cs[1..], q, matcher, benchmark, seedTasks, cs[0].candidateId);
      IngestedStays(next, AddCandidates(next, cs[1..], q, matcher, benchmark, seedTasks), cs[0], q, matcher, benchmark, seedTasks);
    } else {
      AddAllIngests(next, cs[1..], q, matcher, benchmark, seedTasks, i - 1);
    }
  }

  /** After any run, a successful ingestion stores every new candidate as it came, with its sources, and
      seeds one pending primary task, or two for a major or critical concern. */
  lemma IngestionMeans(steps: seq<Step>, q: Queue, matcher: Matcher, benchmark: BenchmarkKey, seedTasks: bool, c: Candidate)
    requires IngestQueue(Run(EMPTY, steps), q, matcher, benchmark, seedTasks).Ok?
    requires c in q.candidates && c.candidateId !in Run(EMPTY, steps).candidates
    ensures Ingested(IngestQueue(Run(EMPTY, steps), q, matcher, benchmark, seedTasks).value, c, q, matcher, benchmark, seedTasks)
  {
    var t := Run(EMPTY, steps);
    RunsAreGood(steps);
    var i :| 0 <= i < |q.candidates| && q.candidates[i] == c;
    assert !RepeatsNew(t, q.candidates);
    FreshCandidate(t, c.candidateId);
    AddAllIngests(t, q.candidates, q, matcher, benchmark, seedTasks, i);
  }
}
