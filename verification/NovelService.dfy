/** The service over its tables: methods add rows, update tasks and, when a call fails, roll back. */
module NovelService {
  import opened Wrappers
  import D = NovelDetermination
  import R = NovelRegistry
  import opened NovelRegistry
  import I = NovelInvariant
  import T = NovelTheorems
  import C = NovelConformance
  import S = NovelSoundness

  ghost predicate Reachable(t: R.Tables) {
    exists steps :: Run(EMPTY, steps) == t
  }

  lemma {:induction false} RunSnoc(t: R.Tables, steps: seq<Step>, step: Step)
    ensures Run(t, steps + [step]) == Apply(Run(t, steps), step)
    decreases |steps|
  {
    if steps == [] {
      assert steps + [step] == [step] && [step][1..] == [];
    } else {
      assert (steps + [step])[1..] == steps[1..] + [step];
      RunSnoc(Apply(t, steps[0]), steps[1..], step);
    }
  }

  lemma ReachableStep(t: R.Tables, step: Step)
    ensures Reachable(t) ==> Reachable(Apply(t, step))
  {
    if Reachable(t) {
      var steps :| Run(EMPTY, steps) == t;
      RunSnoc(EMPTY, steps, step);
      assert Run(EMPTY, steps + [step]) == Apply(t, step);
    }
  }

  /** What a run reaches satisfies the invariant of the tables. */
  lemma ReachableIsGood(t: R.Tables)
    requires Reachable(t)
    ensures I.Good(t)
  {
    var steps :| Run(EMPTY, steps) == t;
    I.RunsAreGood(steps);
  }

  lemma ReachableRefusal(t: R.Tables, key: TaskKey, actorId: string, verdict: Verdict, original: Option<Scorecard>, factory: Factory)
    requires Reachable(t)
    ensures var r := R.SubmitDecision(t, key, actorId, verdict, original, factory);
      r.Err? && r.error.PolicyRefused? ==> r.error.policy == D.SameExpertTwice
  {
    var steps :| Run(EMPTY, steps) == t;
    T.OnlySameExpertFires(steps, key, actorId, verdict, original, factory);
  }

  /** Links between scorecards are kept when an attached scorecard is a registered one. */
  ghost predicate LinksKept(before: R.Tables, attached: Option<Scorecard>, after: R.Tables) {
    S.Linked(before.scorecards) && (attached.Some? ==> S.Registered(before, attached.value)) ==> S.Linked(after.scorecards)
  }

  /** What holds of the tables after a submission, for reachable tables before it. */
  lemma SubmissionHolds(t: R.Tables, key: TaskKey, actorId: string, verdict: Verdict, original: Option<Scorecard>, factory: Factory)
    requires Reachable(t)
    ensures var r := R.SubmitDecision(t, key, actorId, verdict, original, factory);
      var after := if r.Ok? then r.value else t;
      && Reachable(after) && LinksKept(t, original, after)
      && (r.Err? && r.error.PolicyRefused? ==> r.error.policy == D.SameExpertTwice)
  {
    var step := StepSubmit(key, actorId, verdict, original, factory);
    ReachableStep(t, step);
    ReachableRefusal(t, key, actorId, verdict, original, factory);
    if S.Linked(t.scorecards) && S.StepLinked(t, step) {
      S.StepKeepsLinks(t, step);
    }
  }

  /** The conformance audit of valid tables: it looks at every table, and passes exactly when the
      scorecards are linked. */
  method AuditReachable(t: R.Tables) returns (r: Result<seq<C.Failure>, C.AuditError>)
    requires Reachable(t)
    ensures r == Ok([]) <==> S.Linked(t.scorecards)
    ensures r.Ok? ==> forall f :: f in r.value ==> C.AboutScorecard(f)
  {
    ReachableIsGood(t);
    S.CleanIffLinked(t);
    r := C.AuditNovelDeterminations(t);
    if r.Ok? {
      forall f | f in r.value ensures C.AboutScorecard(f) {
        if !C.AboutScorecard(f) {
          S.OnlyScorecardsAtFault(t, f);
        }
      }
      NothingIn(r.value);
    }
  }

  /** Valid objects hold tables that some run of service calls reaches. */
  class NovelDeterminationService {
    var candidates: map<string, CandidateRow>
    var tasks: map<TaskKey, TaskRow>
    var submissions: seq<SubmissionRow>
    var determinations: seq<DeterminationRow>
    var scorecards: map<ScorecardId, ScorecardRow>
    var benchmarks: map<BenchmarkKey, BenchmarkRow>
    var nextId: nat

    function Tables(): Tables
      reads this
    {
      R.Tables(candidates, tasks, submissions, determinations, scorecards, benchmarks, nextId)
    }

    ghost predicate Valid()
      reads this
    {
      Reachable(Tables())
    }

    constructor ()
      ensures Valid() && Tables() == EMPTY
    {
      candidates, tasks, submissions, determinations := map[], map[], [], [];
      scorecards, benchmarks, nextId := map[], map[], 0;
      new;
      assert Run(EMPTY, []) == EMPTY;
    }

    /** Everything the call did so far is undone. */
    method Rollback(saved: Tables)
      modifies this
      ensures Tables() == saved
    {
      candidates, tasks, submissions, determinations := saved.candidates, saved.tasks, saved.submissions, saved.determinations;
      scorecards, benchmarks, nextId := saved.scorecards, saved.benchmarks, saved.nextId;
    }

    method NewId() returns (id: nat)
      modifies this`nextId
      ensures id == old(nextId) && Tables() == old(Tables()).(nextId := id + 1)
    {
      id := nextId;
      nextId := nextId + 1;
    }

    /** The repository's conformance audit of the tables in place. */
    method Audit() returns (r: Result<seq<C.Failure>, C.AuditError>)
      requires Valid()
      ensures r == Ok([]) <==> S.Linked(scorecards)
      ensures r.Ok? ==> forall f :: f in r.value ==> C.AboutScorecard(f)
    {
      r := AuditReachable(Tables());
    }

    // ---- Registering -----------------------------------------------------------------

    method RegisterScorecard(card: Scorecard) returns (r: Result<ScorecardRow, ServiceError>)
      modifies this`scorecards
      ensures var o := R.RegisterScorecard(old(Tables()), card);
        && Tables() == (if o.Ok? then o.value else old(Tables()))
        && match o {
          case Ok(t) => r.Ok? && r.value == t.scorecards[card.scorecardId.value]
          case Err(e) => r == Err(e)
        }
      ensures old(Valid()) ==> Valid()
      ensures old(S.Linked(scorecards) && S.CardLinked(scorecards, ScorecardRowOf(card))) ==> S.Linked(scorecards)
    {
      ReachableStep(Tables(), StepScorecard(card));
      if S.Linked(scorecards) && S.CardLinked(scorecards, ScorecardRowOf(card)) {
        S.StepKeepsLinks(Tables(), StepScorecard(card));
      }
      if card.scorecardId.None? {
        return Err(ScorecardIdRequired);
      }
      var id := card.scorecardId.value;
      if id in scorecards {
        if scorecards[id].hash != DigestOf(card) {
          return Err(ScorecardDiffers);
        }
        return Ok(scorecards[id]);
      }
      scorecards := scorecards[id := ScorecardRowOf(card)];
      r := Ok(scorecards[id]);
    }

    method RegisterBenchmark(manifest: Manifest, predecessor: Option<string>,
        determinationId: Option<nat>) returns (r: Result<BenchmarkRow, ServiceError>)
      modifies this`benchmarks
      ensures var o := R.RegisterBenchmark(old(Tables()), manifest, predecessor, determinationId);
        && Tables() == (if o.Ok? then o.value else old(Tables()))
        && match o {
          case Ok(t) => r.Ok? && r.value == t.benchmarks[BenchmarkKey(manifest.benchmarkId, manifest.version)]
          case Err(e) => r == Err(e)
        }
      ensures old(Valid()) ==> Valid()
    {
      ReachableStep(Tables(), StepBenchmark(manifest, predecessor, determinationId));
      var key := BenchmarkKey(manifest.benchmarkId, manifest.version);
      if key in benchmarks {
        if benchmarks[key].caseSetHash != manifest.caseSetHash {
          return Err(BenchmarkDiffers);
        }
        return Ok(benchmarks[key]);
      }
      benchmarks := benchmarks[key := BenchmarkRow(manifest, manifest.caseSetHash, predecessor, determinationId)];
      r := Ok(benchmarks[key]);
    }

    // ---- Claiming --------------------------------------------------------------------

    method ClaimTask(key: TaskKey, actorId: string) returns (r: Result<TaskRow, ServiceError>)
      requires Valid()
      modifies this`tasks
      ensures Valid()
      ensures var o := R.ClaimTask(old(Tables()), key, actorId);
        && Tables() == (if o.Ok? then o.value else old(Tables()))
        && match o {
          case Ok(t) => r == Ok(TaskRow(TaskClaimed, Some(actorId)))
          case Err(e) => r == Err(e)
        }
    {
      ReachableStep(Tables(), StepClaim(key, actorId));
      if key !in tasks {
        return Err(NotFound);
      }
      if tasks[key].status != TaskPending {
        return Err(NotPending);
      }
      if AdjudicatedBefore(Log(submissions, key.candidateId), actorId) {
        return Err(AlreadyAdjudicated);
      }
      var claimed := TaskRow(TaskClaimed, Some(actorId));
      tasks := tasks[key := claimed];
      r := Ok(claimed);
    }

    // ---- Ingesting a queue -----------------------------------------------------------

    /** The loop over the queue; on an error the caller rolls back. */
    method Ingest(q: Queue, matcher: Matcher, benchmark: BenchmarkKey,
        seedTasks: bool) returns (r: Result<seq<CandidateRow>, ServiceError>)
      modifies this
      ensures var o := R.IngestQueue(old(Tables()), q, matcher, benchmark, seedTasks);
        && (o.Err? ==> r == Err(o.error))
        && (o.Ok? ==> Tables() == o.value && r.Ok? && RowsOf(Tables(), q.candidates, r.value))
    {
      ghost var saved := Tables();
      var known, cs := candidates, q.candidates;
      var rows: seq<CandidateRow> := [];
      var repeated := false;
      for i := 0 to |cs|
        invariant Tables() == AddCandidates(saved, cs[..i], q, matcher, benchmark, seedTasks)
        invariant forall c :: c in cs[..i] ==> !Differs(saved, c)
        invariant repeated <==> RepeatsNew(saved, cs[..i])
        invariant RowsOf(Tables(), cs[..i], rows)
      {
        var c := cs[i];
        assert cs[..i + 1] == cs[..i] + [c];
        AddSnoc(saved, cs[..i], c, q, matcher, benchmark, seedTasks);
        RepeatsSnoc(saved, cs[..i], c, q, matcher, benchmark, seedTasks);
        RowsGrow(Tables(), cs[..i], rows, c, q, matcher, benchmark, seedTasks);
        if c.candidateId in known && known[c.candidateId].hash != DigestOf(c) {
          assert c in cs && Differs(saved, c);
          return Err(CandidateDiffers);
        }
        repeated := repeated || (c.candidateId !in known && c.candidateId in candidates);
        Add(c, q, matcher, benchmark, seedTasks);
        rows := rows + [candidates[c.candidateId]];
      }
      assert cs[..|cs|] == cs;
      if repeated {
        return Err(IntegrityError);
      }
      r := Ok(rows);
    }

    method IngestQueue(q: Queue, matcher: Matcher, benchmark: BenchmarkKey,
        seedTasks: bool) returns (r: Result<seq<CandidateRow>, ServiceError>)
      requires Valid()
      modifies this
      ensures Valid()
      ensures var o := R.IngestQueue(old(Tables()), q, matcher, benchmark, seedTasks);
        && Tables() == (if o.Ok? then o.value else old(Tables()))
        && (o.Err? ==> r == Err(o.error))
        && (o.Ok? ==> r.Ok? && RowsOf(Tables(), q.candidates, r.value))
      ensures scorecards == old(scorecards)
    {
      var saved := Tables();
      S.AddAllLeavesCards(saved, q.candidates, q, matcher, benchmark, seedTasks);
      ReachableStep(saved, StepIngest(q, matcher, benchmark, seedTasks));
      r := Ingest(q, matcher, benchmark, seedTasks);
      if r.Err? {
        Rollback(saved);
      }
    }

    /** Adds the candidate's row and tasks unless the row is there already. */
    method Add(c: Candidate, q: Queue, matcher: Matcher, benchmark: BenchmarkKey, seedTasks: bool)
      modifies this`candidates, this`tasks
      ensures Tables() == AddCandidate(old(Tables()), c, q, matcher, benchmark, seedTasks)
    {
      if c.candidateId in candidates {
        return;
      }
      candidates := candidates[c.candidateId :=
        CandidateRow(c, DigestOf(c), c.state, q.sourceResultHash, q.sourceSubmissionHash, matcher, benchmark)];
      if seedTasks {
        var pending := TaskRow(TaskPending, None);
        tasks := tasks[TaskKey(c.candidateId, D.Primary) := pending];
        if TwoNeeded(c) {
          tasks := tasks[TaskKey(c.candidateId, D.Secondary) := pending];
        }
      }
    }

    // ---- Submitting a decision -------------------------------------------------------

    method HasFinalizedDetermination(candidateId: string) returns (final: bool)
      ensures final == HasFinal(Tables(), candidateId)
    {
      final := false;
      for i := 0 to |determinations|
        invariant final <==> exists r :: r in determinations[..i] && r.candidateId == candidateId && r.finalized
      {
        assert determinations[..i + 1] == determinations[..i] + [determinations[i]];
        if determinations[i].candidateId == candidateId && determinations[i].finalized {
          assert determinations[i] in determinations[..i + 1];
          final := true;
        }
      }
      assert determinations[..|determinations|] == determinations;
    }

    /** What a final confirmation publishes; on an error the caller rolls back. */
    method PublishConfirmed(benchmark: Manifest, c: Candidate, original: Scorecard, factory: Factory, determinationId: nat)
        returns (r: Result<Published, ServiceError>)
      modifies this`benchmarks, this`scorecards
      ensures r == Publish(old(Tables()), benchmark, c, original, factory, determinationId)
      ensures r.Ok? ==> Tables() == r.value.tables
    {
      var successor := SuccessorOf(benchmark, c);
      var registered := RegisterBenchmark(successor, Some(benchmark.version), Some(determinationId));
      if registered.Err? {
        return Err(registered.error);
      }
      match factory
      case NoFactory => return Ok(Published(Tables(), Some(successor), None));
      case Raises => return Err(FactoryRaised);
      case Produces(updated) =>
        var recomputed := RecomputedScorecard(original, successor, updated);
        if recomputed.Err? {
          return Err(recomputed.error);
        }
        var recorded := RegisterScorecard(recomputed.value);
        if recorded.Err? {
          return Err(recorded.error);
        }
        r := Ok(Published(Tables(), Some(successor), Some(recomputed.value)));
    }

    method RecomputeDetermination(candidateId: string, original: Option<Scorecard>,
        factory: Factory) returns (r: Result<DeterminationRow, ServiceError>)
      requires candidateId in candidates
      modifies this
      ensures match R.Recompute(old(Tables()), candidateId, original, factory) {
          case Ok(t) => Tables() == t && r == Ok(t.determinations[|t.determinations| - 1])
          case Err(e) => r == Err(e)
        }
    {
      var t, row := Tables(), candidates[candidateId];
      var decided := D.DetermineNovel(Log(submissions, candidateId), TwoNeeded(row.candidate));
      if decided.Err? {
        return Err(PolicyRefused(decided.error));
      }
      var policy := decided.value;
      var benchmark := BenchmarkFor(Tables(), row);
      var published := Published(t, None, None);
      if policy.finalized && policy.outcome == D.Confirmed && original.Some? {
        var p := PublishConfirmed(benchmark, row.candidate, original.value, factory, nextId);
        if p.Err? {
          return Err(p.error);
        }
        published := p.value;
      }
      RecomputeConcludes(t, candidateId, policy, original, factory, published);
      r := Conclude(candidateId, t, policy, benchmark, original, published);
    }

    /** Spawns a tie-break task where one is needed, appends the determination and, when it is final,
        moves the candidate's state. */
    method Conclude(candidateId: string, t: R.Tables, policy: D.PolicyResult, benchmark: Manifest,
        original: Option<Scorecard>, published: Published)
        returns (r: Result<DeterminationRow, ServiceError>)
      requires candidateId in candidates && submissions == t.submissions && nextId == t.nextId
      modifies this
      ensures var row := old(candidates)[candidateId];
        var determination := DeterminationRowOf(t, row, policy, benchmark, original, published, t.nextId);
        && r == Ok(determination)
        && Tables() == old(Tables()).(
             tasks := TieBreakTasks(old(tasks), row.candidate.candidateId, policy),
             determinations := old(determinations) + [determination],
             candidates := StateColumn(old(candidates), candidateId, policy),
             nextId := t.nextId + 1)
    {
      var row := candidates[candidateId];
      var id := NewId();
      var tieBreak := TaskKey(row.candidate.candidateId, D.TieBreak);
      if policy.requiresTieBreak && tieBreak !in tasks {
        tasks := tasks[tieBreak := TaskRow(TaskPending, None)];
      }
      var determination := DeterminationRowOf(t, row, policy, benchmark, original, published, id);
      determinations := determinations + [determination];
      if policy.finalized {
        candidates := candidates[candidateId := row.(state := StateFor(policy.outcome))];
      }
      r := Ok(determination);
    }

    /** Adds the decision and completes its task. */
    method Record(key: TaskKey, actorId: string, verdict: Verdict)
      modifies this
      ensures Tables() == Recorded(old(Tables()), key, actorId, verdict)
    {
      var decisionId := NewId();
      submissions := submissions
        + [SubmissionRow(decisionId, key, D.Decision(actorId, key.slot, verdict.validity, verdict.severity))];
      tasks := tasks[key := TaskRow(TaskCompleted, Some(actorId))];
    }

    /** The guards, the record and the recomputation; on an error the caller rolls back. */
    method Submit(key: TaskKey, actorId: string, verdict: Verdict, original: Option<Scorecard>, factory: Factory)
        returns (r: Result<DeterminationRow, ServiceError>)
      modifies this
      ensures match R.SubmitDecision(old(Tables()), key, actorId, verdict, original, factory) {
          case Ok(t) => Tables() == t && r == Ok(t.determinations[|t.determinations| - 1])
          case Err(e) => r == Err(e)
        }
    {
      if key !in tasks {
        return Err(NotFound);
      }
      if tasks[key].assignedTo != Some(actorId) {
        return Err(NotAssigned);
      }
      if tasks[key].status != TaskClaimed {
        return Err(NotClaimed);
      }
      if key.candidateId !in candidates {
        return Err(NotFound);
      }
      var final := HasFinalizedDetermination(key.candidateId);
      if final {
        return Err(AlreadyFinalized);
      }
      Record(key, actorId, verdict);
      r := RecomputeDetermination(key.candidateId, original, factory);
    }

    method SubmitDecision(key: TaskKey, actorId: string, verdict: Verdict, original: Option<Scorecard>, factory: Factory)
        returns (r: Result<DeterminationRow, ServiceError>)
      requires Valid()
      modifies this
      ensures Valid()
      ensures var o := R.SubmitDecision(old(Tables()), key, actorId, verdict, original, factory);
        && Tables() == (if o.Ok? then o.value else old(Tables()))
        && match o {
          case Ok(t) => r == Ok(t.determinations[|t.determinations| - 1])
          case Err(e) => r == Err(e)
        }
      ensures r.Err? && r.error.PolicyRefused? ==> r.error.policy == D.SameExpertTwice
      ensures LinksKept(old(Tables()), original, Tables())
    {
      var saved := Tables();
      SubmissionHolds(saved, key, actorId, verdict, original, factory);
      r := Submit(key, actorId, verdict, original, factory);
      if r.Err? {
        Rollback(saved);
      }
    }
  }

  lemma RecomputeConcludes(t: R.Tables, candidateId: string, policy: D.PolicyResult, original: Option<Scorecard>,
      factory: Factory, p: Published)
    requires candidateId in t.candidates
    requires var row := t.candidates[candidateId];
      && D.DetermineNovel(Log(t.submissions, candidateId), TwoNeeded(row.candidate)) == Ok(policy)
      && PublishIfConfirmed(t, policy, BenchmarkFor(t, row), row.candidate, original, factory, t.nextId) == Ok(p)
    ensures var row := t.candidates[candidateId];
      R.Recompute(t, candidateId, original, factory) == Ok(t.(
        scorecards := p.tables.scorecards,
        benchmarks := p.tables.benchmarks,
        tasks := TieBreakTasks(t.tasks, row.candidate.candidateId, policy),
        determinations := t.determinations
          + [DeterminationRowOf(t, row, policy, BenchmarkFor(t, row), original, p, t.nextId)],
        candidates := StateColumn(t.candidates, candidateId, policy),
        nextId := t.nextId + 1))
  {
  }

  // ---- Facts about ingesting ---------------------------------------------------------

  /** The rows returned for a queue: one per candidate, as stored. */
  ghost predicate RowsOf(t: R.Tables, cs: seq<Candidate>, rows: seq<CandidateRow>) {
    |rows| == |cs| && forall i :: 0 <= i < |cs| ==> cs[i].candidateId in t.candidates && rows[i] == t.candidates[cs[i].candidateId]
  }

  lemma {:induction false} AddSnoc(t: R.Tables, cs: seq<Candidate>, c: Candidate, q: Queue, matcher: Matcher,
      benchmark: BenchmarkKey, seedTasks: bool)
    ensures AddCandidates(t, cs + [c], q, matcher, benchmark, seedTasks)
         == AddCandidate(AddCandidates(t, cs, q, matcher, benchmark, seedTasks), c, q, matcher, benchmark, seedTasks)
    decreases |cs|
  {
    if cs == [] {
      assert cs + [c] == [c] && [c][1..] == [];
    } else {
      assert (cs + [c])[1..] == cs[1..] + [c];
      AddSnoc(AddCandidate(t, cs[0], q, matcher, benchmark, seedTasks), cs[1..], c, q, matcher, benchmark, seedTasks);
    }
  }

  lemma {:induction false} AddedKeys(t: R.Tables, cs: seq<Candidate>, q: Queue, matcher: Matcher,
      benchmark: BenchmarkKey, seedTasks: bool)
    ensures var after := AddCandidates(t, cs, q, matcher, benchmark, seedTasks).candidates;
      forall id :: id in after <==> id in t.candidates || exists c :: c in cs && c.candidateId == id
    decreases |cs|
  {
    if cs != [] {
      AddedKeys(AddCandidate(t, cs[0], q, matcher, benchmark, seedTasks), cs[1..], q, matcher, benchmark, seedTasks);
      assert cs == [cs[0]] + cs[1..];
    }
  }

  lemma RepeatsSnocBySeq(t: R.Tables, cs: seq<Candidate>, c: Candidate)
    ensures RepeatsNew(t, cs + [c])
      <==> (RepeatsNew(t, cs) || (c.candidateId !in t.candidates && exists d :: d in cs && d.candidateId == c.candidateId))
  {
    var all := cs + [c];
    if RepeatsNew(t, all) {
      var i, j :| 0 <= i < j < |all| && all[i].candidateId == all[j].candidateId && all[i].candidateId !in t.candidates;
      if j < |cs| {
        assert cs[i].candidateId == cs[j].candidateId;
      } else {
        assert all[i] in cs && all[j] == c;
      }
    }
    if RepeatsNew(t, cs) {
      var i, j :| 0 <= i < j < |cs| && cs[i].candidateId == cs[j].candidateId && cs[i].candidateId !in t.candidates;
      assert all[i] == cs[i] && all[j] == cs[j];
    }
    if d :| d in cs && d.candidateId == c.candidateId && c.candidateId !in t.candidates {
      var i :| 0 <= i < |cs| && cs[i] == d;
      assert all[i] == d && all[|cs|] == c;
    }
  }

  lemma RepeatsSnoc(t: R.Tables, cs: seq<Candidate>, c: Candidate, q: Queue, matcher: Matcher, benchmark: BenchmarkKey,
      seedTasks: bool)
    ensures var present := AddCandidates(t, cs, q, matcher, benchmark, seedTasks).candidates;
      && (RepeatsNew(t, cs + [c]) <==> RepeatsNew(t, cs) || (c.candidateId !in t.candidates && c.candidateId in present))
      && (c.candidateId in t.candidates ==> c.candidateId in present)
  {
    AddedKeys(t, cs, q, matcher, benchmark, seedTasks);
    RepeatsSnocBySeq(t, cs, c);
  }

  lemma RowsGrow(t: R.Tables, cs: seq<Candidate>, rows: seq<CandidateRow>, c: Candidate, q: Queue, matcher: Matcher,
      benchmark: BenchmarkKey, seedTasks: bool)
    requires RowsOf(t, cs, rows)
    ensures var after := AddCandidate(t, c, q, matcher, benchmark, seedTasks);
      c.candidateId in after.candidates && RowsOf(after, cs + [c], rows + [after.candidates[c.candidateId]])
  {
  }
}
