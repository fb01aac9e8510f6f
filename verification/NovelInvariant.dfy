/** What every step on the tables keeps. */
module NovelInvariant {
  import opened Wrappers
  import D = NovelDetermination
  import opened NovelRegistry
  import opened NovelDesk

  // ---- The desk of a candidate -------------------------------------------------------

  function TaskAt(tasks: map<TaskKey, TaskRow>, candidateId: string, slot: D.Slot): Option<TaskRow> {
    var key := TaskKey(candidateId, slot);
    if key in tasks then Some(tasks[key]) else None
  }

  function DeskOf(t: Tables, candidateId: string): Desk
    requires candidateId in t.candidates
  {
    var row := t.candidates[candidateId];
    Desk(TwoNeeded(row.candidate), row.candidate.state, row.state,
      TaskAt(t.tasks, candidateId, D.Primary), TaskAt(t.tasks, candidateId, D.Secondary), TaskAt(t.tasks, candidateId, D.TieBreak),
      Log(t.submissions, candidateId), Finals(t.determinations, candidateId))
  }

  // ---- The rest of the tables --------------------------------------------------------

  predicate CandidatesKept(t: Tables) {
    forall c :: c in t.candidates ==>
      t.candidates[c].hash == DigestOf(t.candidates[c].candidate) && t.candidates[c].candidate.candidateId == c
  }

  predicate TasksKept(t: Tables) {
    forall key :: key in t.tasks ==> key.candidateId in t.candidates
  }

  predicate SubmissionKept(t: Tables, s: SubmissionRow) {
    s.task in t.tasks && t.tasks[s.task].status == TaskCompleted && s.decision.slot == s.task.slot
  }

  predicate SubmissionsKept(t: Tables) {
    && (forall s :: s in t.submissions ==> SubmissionKept(t, s))
    && (forall i, j :: 0 <= i < j < |t.submissions| ==> t.submissions[i].task != t.submissions[j].task)
  }

  predicate DeterminationKept(t: Tables, r: DeterminationRow) {
    && r.candidateId in t.candidates
    && r.hash == DigestOf(r.determination)
    && r.outcome == r.determination.policy.outcome
    && r.finalized == r.determination.policy.finalized
    && (forall id :: id in r.determination.decisionIds ==> exists s :: s in t.submissions && s.decisionId == id)
    && (exists s :: s in t.submissions && s.task.candidateId == r.candidateId)
    && (r.requiresTieBreak ==> TaskKey(r.candidateId, D.TieBreak) in t.tasks)
  }

  predicate DeterminationsKept(t: Tables) {
    forall r :: r in t.determinations ==> DeterminationKept(t, r)
  }

  ghost predicate DesksInOrder(t: Tables) {
    forall c :: c in t.candidates ==> InOrder(DeskOf(t, c))
  }

  ghost predicate Good(t: Tables) {
    CandidatesKept(t) && TasksKept(t) && SubmissionsKept(t) && DeterminationsKept(t) && DesksInOrder(t)
  }

  /** A task against the decision given in its slot. */
  lemma TaskOfDesk(t: Tables, key: TaskKey)
    requires TasksKept(t) && DesksInOrder(t) && key in t.tasks
    ensures D.DistinctSlots(Log(t.submissions, key.candidateId))
    ensures TaskMatches(Some(t.tasks[key]), D.InSlot(Log(t.submissions, key.candidateId), key.slot))
  {
    var d := DeskOf(t, key.candidateId);
    MatchesBySlot(d, key.slot);
    assert d.Task(key.slot) == TaskAt(t.tasks, key.candidateId, key.slot) && key == TaskKey(key.candidateId, key.slot);
  }

  lemma AtMostOneFinal(t: Tables, c: string)
    requires DesksInOrder(t) && c in t.candidates
    ensures |Finals(t.determinations, c)| <= 1
  {
    MatchesBySlot(DeskOf(t, c), D.Primary);
  }

  // ---- Logs and finals grow at the end -----------------------------------------------

  lemma LogCons(s: SubmissionRow, ss: seq<SubmissionRow>, c: string)
    ensures Log([s] + ss, c) == (if s.task.candidateId == c then [s.decision] else []) + Log(ss, c)
    ensures DecisionIds([s] + ss, c) == (if s.task.candidateId == c then [s.decisionId] else []) + DecisionIds(ss, c)
  {
    assert ([s] + ss)[1..] == ss;
  }

  lemma {:induction false} LogSnoc(ss: seq<SubmissionRow>, s: SubmissionRow, c: string)
    ensures Log(ss + [s], c) == Log(ss, c) + if s.task.candidateId == c then [s.decision] else []
    ensures DecisionIds(ss + [s], c) == DecisionIds(ss, c) + if s.task.candidateId == c then [s.decisionId] else []
  {
    if ss == [] {
      assert ss + [s] == [s] + [];
      LogCons(s, [], c);
    } else {
      assert ss + [s] == [ss[0]] + (ss[1..] + [s]);
      LogCons(ss[0], ss[1..] + [s], c);
      LogSnoc(ss[1..], s, c);
    }
  }

  lemma {:induction false} FinalsSnoc(rs: seq<DeterminationRow>, r: DeterminationRow, c: string)
    ensures Finals(rs + [r], c) == Finals(rs, c) + if r.candidateId == c && r.finalized then [r.determination.policy] else []
  {
    if rs == [] {
      assert rs + [r] == [r];
    } else {
      assert (rs + [r])[1..] == rs[1..] + [r];
      FinalsSnoc(rs[1..], r, c);
    }
  }

  lemma {:induction false} FinalsFound(rs: seq<DeterminationRow>, c: string)
    ensures Finals(rs, c) != [] <==> exists r :: r in rs && r.candidateId == c && r.finalized
  {
    if rs != [] {
      FinalsFound(rs[1..], c);
      assert rs == [rs[0]] + rs[1..];
    }
  }

  lemma {:induction false} LogsMatch(ss: seq<SubmissionRow>, c: string)
    ensures Log(ss, c) != [] <==> exists s :: s in ss && s.task.candidateId == c
    ensures forall id :: id in DecisionIds(ss, c) ==> exists s :: s in ss && s.decisionId == id
  {
    if ss != [] {
      LogsMatch(ss[1..], c);
      assert ss == [ss[0]] + ss[1..];
    }
  }

  // ---- Claims and submissions are moves on one desk ----------------------------------

  lemma ClaimOnDesk(t: Tables, key: TaskKey, actorId: string)
    requires key.candidateId in t.candidates
    ensures var r, move := ClaimTask(t, key, actorId), DeskClaim(DeskOf(t, key.candidateId), key.slot, actorId);
      && (r.Ok? <==> move.Ok?)
      && (r.Err? ==> r.error == move.error)
      && (r.Ok? ==> r.value.candidates == t.candidates && DeskOf(r.value, key.candidateId) == move.value)
  {
  }

  lemma ClaimElsewhere(t: Tables, key: TaskKey, actorId: string, c: string)
    requires ClaimTask(t, key, actorId).Ok? && c in t.candidates && c != key.candidateId
    ensures DeskOf(ClaimTask(t, key, actorId).value, c) == DeskOf(t, c)
  {
  }

  lemma ClaimKeepsRows(t: Tables, key: TaskKey, actorId: string)
    requires TasksKept(t) && SubmissionsKept(t) && DeterminationsKept(t) && ClaimTask(t, key, actorId).Ok?
    ensures var after := ClaimTask(t, key, actorId).value;
      TasksKept(after) && SubmissionsKept(after) && DeterminationsKept(after)
  {
  }

  lemma ClaimKeepsGood(t: Tables, key: TaskKey, actorId: string)
    requires Good(t) && ClaimTask(t, key, actorId).Ok?
    ensures Good(ClaimTask(t, key, actorId).value)
  {
    var after := ClaimTask(t, key, actorId).value;
    ClaimKeepsRows(t, key, actorId);
    forall c | c in after.candidates ensures InOrder(DeskOf(after, c)) {
      if c == key.candidateId {
        ClaimOnDesk(t, key, actorId);
        ClaimKeepsOrder(DeskOf(t, c), key.slot, actorId);
      } else {
        ClaimElsewhere(t, key, actorId, c);
      }
    }
  }

  // ---- What a submission changes -----------------------------------------------------

  /** The tables after a submission that went through, for the policy's answer. */
  ghost predicate SubmittedRows(t: Tables, key: TaskKey, actorId: string, verdict: Verdict, policy: D.PolicyResult,
      row: DeterminationRow, after: Tables) {
    var c := key.candidateId;
    var recorded := Recorded(t, key, actorId, verdict);
    && c in t.candidates
    && after.submissions == recorded.submissions
    && after.tasks == TieBreakTasks(recorded.tasks, c, policy)
    && after.candidates == StateColumn(t.candidates, c, policy)
    && after.determinations == t.determinations + [row]
    && row.candidateId == c && row.determination.policy == policy && row.hash == DigestOf(row.determination)
    && row.outcome == policy.outcome && row.finalized == policy.finalized && row.requiresTieBreak == policy.requiresTieBreak
    && row.determination.decisionIds == DecisionIds(recorded.submissions, c)
  }

  ghost predicate SubmittedTables(t: Tables, key: TaskKey, actorId: string, verdict: Verdict, policy: D.PolicyResult,
      row: DeterminationRow, after: Tables) {
    && SubmittedRows(t, key, actorId, verdict, policy, row, after)
    && D.DetermineNovel(Log(Recorded(t, key, actorId, verdict).submissions, key.candidateId),
         TwoNeeded(t.candidates[key.candidateId].candidate)) == Ok(policy)
  }

  lemma SubmitShape(t: Tables, key: TaskKey, actorId: string, verdict: Verdict, original: Option<Scorecard>,
      factory: Factory) returns (policy: D.PolicyResult, row: DeterminationRow)
    requires CandidatesKept(t) && SubmitDecision(t, key, actorId, verdict, original, factory).Ok?
    ensures SubmittedTables(t, key, actorId, verdict, policy, row, SubmitDecision(t, key, actorId, verdict, original, factory).value)
  {
    var recorded := Recorded(t, key, actorId, verdict);
    var c := key.candidateId;
    var candidateRow := recorded.candidates[c];
    policy := D.DetermineNovel(Log(recorded.submissions, c), TwoNeeded(candidateRow.candidate)).value;
    var benchmark := BenchmarkFor(recorded, candidateRow);
    var p := PublishIfConfirmed(recorded, policy, benchmark, candidateRow.candidate, original, factory, recorded.nextId);
    row := DeterminationRowOf(recorded, candidateRow, policy, benchmark, original, p.value, recorded.nextId);
  }

  /** The task of a slot after a submission to another or the same slot. */
  function TaskAfter(d: Desk, slot: D.Slot, row: TaskRow, policy: D.PolicyResult, s: D.Slot): Option<TaskRow> {
    if s == slot then Some(row)
    else if s == D.TieBreak && policy.requiresTieBreak && d.Task(s).None? then Some(TaskRow(TaskPending, None))
    else d.Task(s)
  }

  lemma ShapeTasks(t: Tables, key: TaskKey, row: TaskRow, policy: D.PolicyResult, s: D.Slot)
    requires key.candidateId in t.candidates && key in t.tasks
    ensures TaskAt(TieBreakTasks(t.tasks[key := row], key.candidateId, policy), key.candidateId, s)
         == TaskAfter(DeskOf(t, key.candidateId), key.slot, row, policy, s)
  {
    assert key == TaskKey(key.candidateId, key.slot);
    assert DeskOf(t, key.candidateId).Task(s) == TaskAt(t.tasks, key.candidateId, s);
  }

  lemma MovedTasks(d: Desk, slot: D.Slot, actorId: string, verdict: Verdict, policy: D.PolicyResult)
    requires d.Task(slot).Some?
    ensures var moved, row := Moved(d, slot, actorId, verdict, policy), TaskRow(TaskCompleted, Some(actorId));
      && moved.primary == TaskAfter(d, slot, row, policy, D.Primary)
      && moved.secondary == TaskAfter(d, slot, row, policy, D.Secondary)
      && moved.tieBreak == TaskAfter(d, slot, row, policy, D.TieBreak)
  {
  }

  lemma ShapeLog(t: Tables, key: TaskKey, actorId: string, verdict: Verdict)
    ensures Log(Recorded(t, key, actorId, verdict).submissions, key.candidateId)
         == Log(t.submissions, key.candidateId) + [D.Decision(actorId, key.slot, verdict.validity, verdict.severity)]
  {
    LogSnoc(t.submissions,
      SubmissionRow(t.nextId, key, D.Decision(actorId, key.slot, verdict.validity, verdict.severity)), key.candidateId);
  }

  /** The desk with its log extended and the task completed, and then concluded by the policy. */
  function Moved(d: Desk, slot: D.Slot, actorId: string, verdict: Verdict, policy: D.PolicyResult): Desk {
    Concluded(d.WithTask(slot, TaskRow(TaskCompleted, Some(actorId)))
                .(log := d.log + [D.Decision(actorId, slot, verdict.validity, verdict.severity)]), policy)
  }

  lemma ShapeOnDesk(t: Tables, key: TaskKey, actorId: string, verdict: Verdict, policy: D.PolicyResult,
      row: DeterminationRow, after: Tables)
    requires SubmittedRows(t, key, actorId, verdict, policy, row, after)
    requires key in t.tasks && DeskOf(t, key.candidateId).Task(key.slot).Some?
    ensures key.candidateId in after.candidates
    ensures DeskOf(after, key.candidateId) == Moved(DeskOf(t, key.candidateId), key.slot, actorId, verdict, policy)
  {
    var c, d := key.candidateId, DeskOf(t, key.candidateId);
    var completed := TaskRow(TaskCompleted, Some(actorId));
    ShapeLog(t, key, actorId, verdict);
    ShapeTasks(t, key, completed, policy, D.Primary);
    ShapeTasks(t, key, completed, policy, D.Secondary);
    ShapeTasks(t, key, completed, policy, D.TieBreak);
    MovedTasks(d, key.slot, actorId, verdict, policy);
    FinalsSnoc(t.determinations, row, c);
  }

  lemma ShapeElsewhere(t: Tables, key: TaskKey, actorId: string, verdict: Verdict, policy: D.PolicyResult,
      row: DeterminationRow, after: Tables, c: string)
    requires SubmittedRows(t, key, actorId, verdict, policy, row, after)
    requires c in t.candidates && c != key.candidateId
    ensures c in after.candidates && DeskOf(after, c) == DeskOf(t, c)
  {
    var decision := D.Decision(actorId, key.slot, verdict.validity, verdict.severity);
    LogSnoc(t.submissions, SubmissionRow(t.nextId, key, decision), c);
    FinalsSnoc(t.determinations, row, c);
  }

  lemma GuardsOnDesk(t: Tables, key: TaskKey, actorId: string, verdict: Verdict, original: Option<Scorecard>, factory: Factory)
    requires key.candidateId in t.candidates
    ensures var r := SubmitDecision(t, key, actorId, verdict, original, factory);
      var d := DeskOf(t, key.candidateId);
      if MaySubmit(d, key.slot, actorId) then
        key in t.tasks && r == Recompute(Recorded(t, key, actorId, verdict), key.candidateId, original, factory)
      else r == Err(DeskSubmit(d, key.slot, actorId, verdict).error)
  {
    FinalsFound(t.determinations, key.candidateId);
  }

  lemma RecomputeOnDesk(t: Tables, key: TaskKey, actorId: string, verdict: Verdict, original: Option<Scorecard>, factory: Factory)
    requires key.candidateId in t.candidates
    ensures var r := Recompute(Recorded(t, key, actorId, verdict), key.candidateId, original, factory);
      var d := DeskOf(t, key.candidateId);
      match D.DetermineNovel(d.log + [D.Decision(actorId, key.slot, verdict.validity, verdict.severity)], d.two)
      case Err(e) => r == Err(PolicyRefused(e))
      case Ok(policy) => original.None? ==> r.Ok?
  {
    ShapeLog(t, key, actorId, verdict);
  }

  /** A submission is a move on the candidate's desk; with no scorecard attached it succeeds exactly
      when the move does, and fails for the same reason. */
  lemma SubmitOnDesk(t: Tables, key: TaskKey, actorId: string, verdict: Verdict, original: Option<Scorecard>, factory: Factory)
    requires CandidatesKept(t) && key.candidateId in t.candidates
    ensures var r := SubmitDecision(t, key, actorId, verdict, original, factory);
      var move := DeskSubmit(DeskOf(t, key.candidateId), key.slot, actorId, verdict);
      && (r.Ok? ==> move.Ok? && key.candidateId in r.value.candidates && DeskOf(r.value, key.candidateId) == move.value)
      && (move.Err? ==> r == Err(move.error))
      && (original.None? && move.Ok? ==> r.Ok?)
  {
    GuardsOnDesk(t, key, actorId, verdict, original, factory);
    if MaySubmit(DeskOf(t, key.candidateId), key.slot, actorId) {
      RecomputeOnDesk(t, key, actorId, verdict, original, factory);
      SubmitMoves(t, key, actorId, verdict, original, factory);
    }
  }

  lemma SubmitMoves(t: Tables, key: TaskKey, actorId: string, verdict: Verdict, original: Option<Scorecard>, factory: Factory)
    requires CandidatesKept(t) && key.candidateId in t.candidates
    ensures var r := SubmitDecision(t, key, actorId, verdict, original, factory);
      var d := DeskOf(t, key.candidateId);
      var policy := D.DetermineNovel(d.log + [D.Decision(actorId, key.slot, verdict.validity, verdict.severity)], d.two);
      r.Ok? ==>
        && policy.Ok? && key.candidateId in r.value.candidates
        && DeskOf(r.value, key.candidateId) == Moved(d, key.slot, actorId, verdict, policy.value)
  {
    if SubmitDecision(t, key, actorId, verdict, original, factory).Ok? {
      var policy, row := SubmitShape(t, key, actorId, verdict, original, factory);
      ShapeLog(t, key, actorId, verdict);
      ShapeOnDesk(t, key, actorId, verdict, policy, row, SubmitDecision(t, key, actorId, verdict, original, factory).value);
    }
  }

  lemma SubmitElsewhere(t: Tables, key: TaskKey, actorId: string, verdict: Verdict, original: Option<Scorecard>,
      factory: Factory, c: string)
    requires CandidatesKept(t) && SubmitDecision(t, key, actorId, verdict, original, factory).Ok?
    requires c in t.candidates && c != key.candidateId
    ensures var after := SubmitDecision(t, key, actorId, verdict, original, factory).value;
      c in after.candidates && DeskOf(after, c) == DeskOf(t, c)
  {
    var policy, row := SubmitShape(t, key, actorId, verdict, original, factory);
    ShapeElsewhere(t, key, actorId, verdict, policy, row, SubmitDecision(t, key, actorId, verdict, original, factory).value, c);
  }

  lemma ShapeKeepsSubmissions(t: Tables, key: TaskKey, actorId: string, verdict: Verdict, policy: D.PolicyResult,
      row: DeterminationRow, after: Tables)
    requires SubmissionsKept(t) && SubmittedRows(t, key, actorId, verdict, policy, row, after)
    requires key in t.tasks && t.tasks[key].status == TaskClaimed
    ensures SubmissionsKept(after)
  {
    var mine := SubmissionRow(t.nextId, key, D.Decision(actorId, key.slot, verdict.validity, verdict.severity));
    assert after.submissions == t.submissions + [mine];
    forall s | s in after.submissions ensures SubmissionKept(after, s) {
      assert s == mine || SubmissionKept(t, s);
    }
    forall i | 0 <= i < |t.submissions| ensures t.submissions[i].task != key {
      assert SubmissionKept(t, t.submissions[i]);
    }
  }

  lemma ShapeKeepsRows(t: Tables, key: TaskKey, actorId: string, verdict: Verdict, policy: D.PolicyResult,
      row: DeterminationRow, after: Tables)
    requires CandidatesKept(t) && TasksKept(t) && DeterminationsKept(t)
    requires SubmittedRows(t, key, actorId, verdict, policy, row, after)
    requires key in t.tasks
    ensures CandidatesKept(after) && TasksKept(after) && DeterminationsKept(after)
  {
    var mine := SubmissionRow(t.nextId, key, D.Decision(actorId, key.slot, verdict.validity, verdict.severity));
    assert after.submissions == t.submissions + [mine];
    forall r | r in after.determinations ensures DeterminationKept(after, r) {
      if r in t.determinations {
        assert DeterminationKept(t, r);
        assert forall s :: s in t.submissions ==> s in after.submissions;
      } else {
        LogsMatch(after.submissions, key.candidateId);
        assert mine in after.submissions;
      }
    }
  }

  lemma SubmitKeepsGood(t: Tables, key: TaskKey, actorId: string, verdict: Verdict, original: Option<Scorecard>, factory: Factory)
    requires Good(t) && SubmitDecision(t, key, actorId, verdict, original, factory).Ok?
    ensures Good(SubmitDecision(t, key, actorId, verdict, original, factory).value)
  {
    var after := SubmitDecision(t, key, actorId, verdict, original, factory).value;
    var policy, row := SubmitShape(t, key, actorId, verdict, original, factory);
    ShapeKeepsSubmissions(t, key, actorId, verdict, policy, row, after);
    ShapeKeepsRows(t, key, actorId, verdict, policy, row, after);
    forall c | c in after.candidates ensures InOrder(DeskOf(after, c)) {
      if c == key.candidateId {
        SubmitOnDesk(t, key, actorId, verdict, original, factory);
        SubmitKeepsOrder(DeskOf(t, c), key.slot, actorId, verdict);
      } else {
        SubmitElsewhere(t, key, actorId, verdict, original, factory, c);
      }
    }
  }

  // ---- Ingesting ---------------------------------------------------------------------

  lemma FreshCandidate(t: Tables, c: string)
    requires TasksKept(t) && SubmissionsKept(t) && DeterminationsKept(t) && c !in t.candidates
    ensures Log(t.submissions, c) == [] && Finals(t.determinations, c) == []
    ensures forall slot :: TaskKey(c, slot) !in t.tasks
  {
    LogsMatch(t.submissions, c);
    FinalsFound(t.determinations, c);
  }

  lemma FreshDeskInOrder(d: Desk)
    requires d.log == [] && d.finals == [] && d.state == d.ingested && d.tieBreak.None?
    requires d.primary in {None, Some(TaskRow(TaskPending, None))}
    requires d.secondary == if d.two then d.primary else None
    ensures InOrder(d)
  {
    assert D.Primaries([]) == [];
  }

  lemma AddElsewhere(t: Tables, c: Candidate, q: Queue, matcher: Matcher, benchmark: BenchmarkKey, seedTasks: bool, other: string)
    requires other in t.candidates
    ensures var after := AddCandidate(t, c, q, matcher, benchmark, seedTasks);
      other in after.candidates && DeskOf(after, other) == DeskOf(t, other)
  {
  }

  lemma AddKeepsRows(t: Tables, c: Candidate, q: Queue, matcher: Matcher, benchmark: BenchmarkKey, seedTasks: bool)
    requires SubmissionsKept(t) && DeterminationsKept(t) && c.candidateId !in t.candidates
    requires forall slot :: TaskKey(c.candidateId, slot) !in t.tasks
    ensures var after := AddCandidate(t, c, q, matcher, benchmark, seedTasks);
      SubmissionsKept(after) && DeterminationsKept(after)
  {
  }

  lemma AddedDesk(t: Tables, c: Candidate, q: Queue, matcher: Matcher, benchmark: BenchmarkKey, seedTasks: bool)
    requires c.candidateId !in t.candidates
    requires Log(t.submissions, c.candidateId) == [] && Finals(t.determinations, c.candidateId) == []
    requires forall slot :: TaskKey(c.candidateId, slot) !in t.tasks
    ensures var after := AddCandidate(t, c, q, matcher, benchmark, seedTasks);
      c.candidateId in after.candidates && InOrder(DeskOf(after, c.candidateId))
      && (DeskOf(after, c.candidateId).primary.Some? <==> seedTasks)
  {
    FreshDeskInOrder(DeskOf(AddCandidate(t, c, q, matcher, benchmark, seedTasks), c.candidateId));
  }

  lemma AddKeepsKeys(t: Tables, c: Candidate, q: Queue, matcher: Matcher, benchmark: BenchmarkKey, seedTasks: bool)
    requires CandidatesKept(t) && TasksKept(t)
    ensures var after := AddCandidate(t, c, q, matcher, benchmark, seedTasks);
      CandidatesKept(after) && TasksKept(after)
  {
  }

  lemma AddKeepsDesks(t: Tables, c: Candidate, q: Queue, matcher: Matcher, benchmark: BenchmarkKey, seedTasks: bool)
    requires DesksInOrder(t) && c.candidateId !in t.candidates
    requires Log(t.submissions, c.candidateId) == [] && Finals(t.determinations, c.candidateId) == []
    requires forall slot :: TaskKey(c.candidateId, slot) !in t.tasks
    ensures DesksInOrder(AddCandidate(t, c, q, matcher, benchmark, seedTasks))
  {
    var after := AddCandidate(t, c, q, matcher, benchmark, seedTasks);
    forall other | other in after.candidates ensures InOrder(DeskOf(after, other)) {
      if other == c.candidateId {
        AddedDesk(t, c, q, matcher, benchmark, seedTasks);
      } else {
        AddElsewhere(t, c, q, matcher, benchmark, seedTasks, other);
      }
    }
  }

  lemma AddKeepsGood(t: Tables, c: Candidate, q: Queue, matcher: Matcher, benchmark: BenchmarkKey, seedTasks: bool)
    requires Good(t)
    ensures Good(AddCandidate(t, c, q, matcher, benchmark, seedTasks))
  {
    if c.candidateId !in t.candidates {
      FreshCandidate(t, c.candidateId);
      AddKeepsKeys(t, c, q, matcher, benchmark, seedTasks);
      AddKeepsRows(t, c, q, matcher, benchmark, seedTasks);
      AddKeepsDesks(t, c, q, matcher, benchmark, seedTasks);
    }
  }

  lemma {:induction false} AddAllKeepsGood(t: Tables, cs: seq<Candidate>, q: Queue, matcher: Matcher,
      benchmark: BenchmarkKey, seedTasks: bool)
    requires Good(t)
    ensures Good(AddCandidates(t, cs, q, matcher, benchmark, seedTasks))
    decreases |cs|
  {
    if cs != [] {
      AddKeepsGood(t, cs[0], q, matcher, benchmark, seedTasks);
      AddAllKeepsGood(AddCandidate(t, cs[0], q, matcher, benchmark, seedTasks), cs[1..], q, matcher, benchmark, seedTasks);
    }
  }

  // ---- Runs --------------------------------------------------------------------------

  lemma RegistrationElsewhere(t: Tables, after: Tables)
    requires Good(t) && after == t.(scorecards := after.scorecards, benchmarks := after.benchmarks)
    ensures Good(after)
  {
    forall c | c in after.candidates ensures InOrder(DeskOf(after, c)) {
      assert DeskOf(after, c) == DeskOf(t, c);
    }
    forall s | s in after.submissions ensures SubmissionKept(after, s) {
      assert SubmissionKept(t, s);
    }
    forall r | r in after.determinations ensures DeterminationKept(after, r) {
      assert DeterminationKept(t, r);
    }
  }

  lemma StepKeepsGood(t: Tables, step: Step)
    requires Good(t)
    ensures Good(Apply(t, step))
  {
    if Execute(t, step).Ok? {
      match step
      case StepScorecard(card) => RegistrationElsewhere(t, Apply(t, step));
      case StepBenchmark(manifest, predecessor, id) => RegistrationElsewhere(t, Apply(t, step));
      case StepIngest(queue, matcher, benchmark, seedTasks) =>
        AddAllKeepsGood(t, queue.candidates, queue, matcher, benchmark, seedTasks);
      case StepClaim(key, actorId) => ClaimKeepsGood(t, key, actorId);
      case StepSubmit(key, actorId, verdict, original, factory) => SubmitKeepsGood(t, key, actorId, verdict, original, factory);
    }
  }

  /** Every run from good tables, failed steps included, ends in good tables. */
  lemma {:induction false} RunKeepsGood(t: Tables, steps: seq<Step>)
    requires Good(t)
    ensures Good(Run(t, steps))
    decreases |steps|
  {
    if steps != [] {
      StepKeepsGood(t, steps[0]);
      RunKeepsGood(Apply(t, steps[0]), steps[1..]);
    }
  }

  lemma RunsAreGood(steps: seq<Step>)
    ensures Good(Run(EMPTY, steps))
  {
    RunKeepsGood(EMPTY, steps);
  }
}
