/** Every run passes the auditor, provided scorecards name registered predecessors. */
module NovelSoundness {
  import opened Wrappers
  import D = NovelDetermination
  import opened NovelRegistry
  import opened NovelDesk
  import opened NovelInvariant
  import opened NovelConformance

  // ---- The index of submissions loses nothing ----------------------------------------

  predicate UniqueTasks(ss: seq<SubmissionRow>) {
    forall i, j :: 0 <= i < j < |ss| ==> ss[i].task != ss[j].task
  }

  lemma {:induction false} IndexIsComplete(ss: seq<SubmissionRow>)
    requires UniqueTasks(ss)
    ensures forall s :: s in ss ==> s.task in ByTask(ss) && ByTask(ss)[s.task] == s
    ensures forall key :: key in ByTask(ss) ==> ByTask(ss)[key] in ss && ByTask(ss)[key].task == key
  {
    if ss != [] {
      var init, last := ss[..|ss| - 1], ss[|ss| - 1];
      IndexIsComplete(init);
      assert ss == init + [last];
      forall s | s in init ensures s.task != last.task {
        var i :| 0 <= i < |init| && init[i] == s;
        assert ss[i] == s;
      }
    }
  }

  // ---- Good tables have no fault but in scorecards -----------------------------------

  lemma {:induction false} LogHasRow(ss: seq<SubmissionRow>, c: string, d: D.Decision)
    requires d in Log(ss, c)
    ensures exists s :: s in ss && s.task.candidateId == c && s.decision == d
  {
    if ss[0].task.candidateId != c || ss[0].decision != d {
      LogHasRow(ss[1..], c, d);
    }
  }

  lemma CompletedHasRow(t: Tables, key: TaskKey)
    requires TasksKept(t) && DesksInOrder(t) && SubmissionsKept(t)
    requires key in t.tasks && t.tasks[key].status == TaskCompleted
    ensures key in ByTask(t.submissions)
  {
    var log := Log(t.submissions, key.candidateId);
    TaskOfDesk(t, key);
    D.SlotsFound(log, key.slot);
    var d := D.InSlot(log, key.slot).value;
    LogHasRow(t.submissions, key.candidateId, d);
    var s :| s in t.submissions && s.task.candidateId == key.candidateId && s.decision == d;
    assert SubmissionKept(t, s);
    assert s.task == TaskKey(s.task.candidateId, s.task.slot) && key == TaskKey(key.candidateId, key.slot);
    IndexIsComplete(t.submissions);
  }

  lemma RowMeansCompleted(t: Tables, key: TaskKey)
    requires SubmissionsKept(t) && key in ByTask(t.submissions)
    ensures key in t.tasks && t.tasks[key].status == TaskCompleted
  {
    IndexIsComplete(t.submissions);
    assert SubmissionKept(t, ByTask(t.submissions)[key]);
  }

  lemma NoTaskFault(t: Tables, f: Failure)
    requires TasksKept(t) && DesksInOrder(t) && SubmissionsKept(t) && AboutTask(f)
    ensures !Faulty(t, f)
  {
    if f.key in t.tasks {
      TaskInOrder(t, f.key);
    }
    InOrderIsFaultless(t, f);
  }

  lemma InOrderIsFaultless(t: Tables, f: Failure)
    requires AboutTask(f)
    requires f.key in t.tasks ==>
      && f.key.candidateId in t.candidates
      && (t.tasks[f.key].status == TaskPending <==> t.tasks[f.key].assignedTo.None?)
      && (t.tasks[f.key].status == TaskCompleted <==> f.key in ByTask(t.submissions))
    ensures !Faulty(t, f)
  {
  }

  lemma TaskInOrder(t: Tables, key: TaskKey)
    requires TasksKept(t) && DesksInOrder(t) && SubmissionsKept(t) && key in t.tasks
    ensures key.candidateId in t.candidates
    ensures t.tasks[key].status == TaskPending <==> t.tasks[key].assignedTo.None?
    ensures t.tasks[key].status == TaskCompleted <==> key in ByTask(t.submissions)
  {
    TaskOfDesk(t, key);
    if t.tasks[key].status == TaskCompleted {
      CompletedHasRow(t, key);
    }
    if key in ByTask(t.submissions) {
      RowMeansCompleted(t, key);
    }
  }

  lemma DecisionsKnown(t: Tables, r: DeterminationRow, id: nat)
    requires SubmissionsKept(t) && DeterminationKept(t, r) && id in r.determination.decisionIds
    ensures KnownDecision(ByTask(t.submissions), id)
  {
    IndexIsComplete(t.submissions);
    var s :| s in t.submissions && s.decisionId == id;
    assert ByTask(t.submissions)[s.task].decisionId == id;
  }

  lemma NoRowFault(t: Tables, f: Failure)
    requires SubmissionsKept(t) && DeterminationsKept(t) && AboutRow(f)
    ensures !Faulty(t, f)
  {
    if f.row in t.determinations {
      assert DeterminationKept(t, f.row);
      forall id | id in f.row.determination.decisionIds ensures KnownDecision(ByTask(t.submissions), id) {
        DecisionsKnown(t, f.row, id);
      }
      var s :| s in t.submissions && s.task.candidateId == f.row.candidateId;
      IndexIsComplete(t.submissions);
      assert s.task in ByTask(t.submissions);
    }
  }

  lemma {:induction false} FinalRecorded(rows: seq<DeterminationRow>, c: string, o: D.Outcome)
    requires forall r :: r in rows ==> r.outcome == r.determination.policy.outcome
    requires FinalWith(rows, c, o)
    ensures exists p :: p in Finals(rows, c) && p.outcome == o
  {
    var head := rows[0];
    if head.candidateId == c && head.finalized && head.outcome == o {
      assert head.determination.policy in Finals(rows, c);
    } else {
      var r :| r in rows && r.candidateId == c && r.finalized && r.outcome == o;
      assert rows == [head] + rows[1..];
      FinalRecorded(rows[1..], c, o);
    }
  }

  lemma OneOutcome(rows: seq<DeterminationRow>, c: string, o: D.Outcome, p: D.Outcome)
    requires forall r :: r in rows ==> r.outcome == r.determination.policy.outcome
    requires |Finals(rows, c)| <= 1 && FinalWith(rows, c, o) && FinalWith(rows, c, p)
    ensures o == p
  {
    FinalRecorded(rows, c, o);
    FinalRecorded(rows, c, p);
  }

  lemma OutcomesRecorded(t: Tables)
    requires DeterminationsKept(t)
    ensures forall r :: r in t.determinations ==> r.outcome == r.determination.policy.outcome
  {
  }

  lemma NoConflict(t: Tables, c: string)
    requires forall r :: r in t.determinations ==> r.outcome == r.determination.policy.outcome
    requires |Finals(t.determinations, c)| <= 1
    ensures !Faulty(t, ConflictingFinals(c))
  {
    forall o, p | FinalWith(t.determinations, c, o) && FinalWith(t.determinations, c, p) ensures o == p {
      OneOutcome(t.determinations, c, o, p);
    }
  }

  lemma NoFinalsFault(t: Tables, c: string)
    requires DesksInOrder(t) && DeterminationsKept(t)
    ensures !Faulty(t, ConflictingFinals(c))
  {
    if c in t.candidates {
      AtMostOneFinal(t, c);
      OutcomesRecorded(t);
      NoConflict(t, c);
    }
  }

  /** In tables that a run can reach, only scorecards can be at fault. */
  lemma OnlyScorecardsAtFault(t: Tables, f: Failure)
    requires Good(t) && !AboutScorecard(f)
    ensures !Faulty(t, f)
  {
    if AboutTask(f) {
      NoTaskFault(t, f);
    } else if AboutRow(f) {
      NoRowFault(t, f);
    } else if f.ConflictingFinals? {
      NoFinalsFault(t, f.candidateId);
    }
  }

  // ---- Scorecards --------------------------------------------------------------------

  predicate CardLinked(cards: map<ScorecardId, ScorecardRow>, row: ScorecardRow) {
    NamesPredecessor(row) ==>
      && row.predecessorId.value in cards
      && (GivesHash(row) ==> row.predecessorHash.value == cards[row.predecessorId.value].hash)
  }

  predicate Linked(cards: map<ScorecardId, ScorecardRow>) {
    forall s :: s in cards ==> CardLinked(cards, cards[s])
  }

  lemma LinkedCardIsClean(t: Tables, f: Failure)
    requires Linked(t.scorecards) && AboutScorecard(f)
    ensures !Faulty(t, f)
  {
  }

  lemma LinkedIsClean(t: Tables)
    requires Good(t) && Linked(t.scorecards)
    ensures (forall s :: !Dangling(t, s)) && (forall f :: !Faulty(t, f))
  {
    forall f ensures !Faulty(t, f) {
      if AboutScorecard(f) {
        LinkedCardIsClean(t, f);
      } else {
        OnlyScorecardsAtFault(t, f);
      }
    }
  }

  lemma CleanIsLinked(t: Tables, s: ScorecardId)
    requires s in t.scorecards && !Dangling(t, s) && !Faulty(t, PredecessorHashMismatch(s))
    ensures CardLinked(t.scorecards, t.scorecards[s])
  {
  }

  /** The audit of good tables is clean exactly when every scorecard is linked to its predecessor. */
  lemma CleanIffLinked(t: Tables)
    requires Good(t)
    ensures (!exists s :: Dangling(t, s)) && (forall f :: !Faulty(t, f)) <==> Linked(t.scorecards)
  {
    if Linked(t.scorecards) {
      LinkedIsClean(t);
    } else {
      var s :| s in t.scorecards && !CardLinked(t.scorecards, t.scorecards[s]);
      if !Dangling(t, s) && !Faulty(t, PredecessorHashMismatch(s)) {
        CleanIsLinked(t, s);
      }
    }
  }

  /** A new scorecard keeps the links exactly when it is linked itself. */
  lemma RegisteringLinked(t: Tables, card: Scorecard)
    requires Linked(t.scorecards) && RegisterScorecard(t, card).Ok? && card.scorecardId.value !in t.scorecards
    ensures var cards := RegisterScorecard(t, card).value.scorecards;
      Linked(cards) <==> CardLinked(cards, ScorecardRowOf(card))
  {
    var cards := RegisterScorecard(t, card).value.scorecards;
    assert cards[card.scorecardId.value] == ScorecardRowOf(card);
    if CardLinked(cards, ScorecardRowOf(card)) {
      forall s | s in cards ensures CardLinked(cards, cards[s]) {
        assert s == card.scorecardId.value || CardLinked(t.scorecards, cards[s]);
      }
    }
  }

  /** The scorecard is registered as it is. */
  predicate Registered(t: Tables, card: Scorecard) {
    card.scorecardId.Some? && card.scorecardId.value in t.scorecards
    && t.scorecards[card.scorecardId.value].hash == DigestOf(card)
  }

  /** What is asked of callers: a scorecard names a registered predecessor with its hash, and an attached
      scorecard is registered. */
  predicate StepLinked(t: Tables, step: Step) {
    match step
    case StepScorecard(card) => CardLinked(t.scorecards, ScorecardRowOf(card))
    case StepSubmit(key, actorId, verdict, original, factory) => original.Some? ==> Registered(t, original.value)
    case _ => true
  }

  predicate RunLinked(t: Tables, steps: seq<Step>)
    decreases |steps|
  {
    steps == [] || (StepLinked(t, steps[0]) && RunLinked(Apply(t, steps[0]), steps[1..]))
  }

  lemma LinkedGrows(t: Tables, card: Scorecard)
    requires Linked(t.scorecards) && RegisterScorecard(t, card).Ok? && CardLinked(t.scorecards, ScorecardRowOf(card))
    ensures Linked(RegisterScorecard(t, card).value.scorecards)
  {
  }

  lemma PublishLinked(t: Tables, benchmark: Manifest, c: Candidate, original: Scorecard, factory: Factory, id: nat)
    requires Linked(t.scorecards) && Registered(t, original) && Publish(t, benchmark, c, original, factory, id).Ok?
    ensures Linked(Publish(t, benchmark, c, original, factory, id).value.tables.scorecards)
  {
    var successor := SuccessorOf(benchmark, c);
    var registered := RegisterBenchmark(t, successor, Some(benchmark.version), Some(id)).value;
    if factory.Produces? {
      LinkedGrows(registered, RecomputedScorecard(original, successor, factory.result).value);
    }
  }

  lemma RecomputeLinked(t: Tables, c: string, original: Option<Scorecard>, factory: Factory)
    requires c in t.candidates && Linked(t.scorecards) && Recompute(t, c, original, factory).Ok?
    requires original.Some? ==> Registered(t, original.value)
    ensures Linked(Recompute(t, c, original, factory).value.scorecards)
  {
    var row := t.candidates[c];
    var policy := D.DetermineNovel(Log(t.submissions, c), TwoNeeded(row.candidate)).value;
    if policy.finalized && policy.outcome == D.Confirmed && original.Some? {
      PublishLinked(t, BenchmarkFor(t, row), row.candidate, original.value, factory, t.nextId);
    }
  }

  lemma {:induction false} AddAllLeavesCards(t: Tables, cs: seq<Candidate>, q: Queue, matcher: Matcher,
      benchmark: BenchmarkKey, seedTasks: bool)
    ensures AddCandidates(t, cs, q, matcher, benchmark, seedTasks).scorecards == t.scorecards
    decreases |cs|
  {
    if cs != [] {
      AddAllLeavesCards(AddCandidate(t, cs[0], q, matcher, benchmark, seedTasks), cs[1..], q, matcher, benchmark, seedTasks);
    }
  }

  lemma StepKeepsLinks(t: Tables, step: Step)
    requires Linked(t.scorecards) && StepLinked(t, step)
    ensures Linked(Apply(t, step).scorecards)
  {
    if Execute(t, step).Ok? {
      match step
      case StepScorecard(card) => LinkedGrows(t, card);
      case StepBenchmark(manifest, predecessor, id) =>
      case StepIngest(queue, matcher, benchmark, seedTasks) =>
        AddAllLeavesCards(t, queue.candidates, queue, matcher, benchmark, seedTasks);
      case StepClaim(key, actorId) =>
      case StepSubmit(key, actorId, verdict, original, factory) =>
        RecomputeLinked(Recorded(t, key, actorId, verdict), key.candidateId, original, factory);
    }
  }

  lemma {:induction false} RunKeepsLinks(t: Tables, steps: seq<Step>)
    requires Linked(t.scorecards) && RunLinked(t, steps)
    ensures Linked(Run(t, steps).scorecards)
    decreases |steps|
  {
    if steps != [] {
      StepKeepsLinks(t, steps[0]);
      RunKeepsLinks(Apply(t, steps[0]), steps[1..]);
    }
  }

  /** From an empty registry every run, failed steps rolled back, passes the audit when its scorecards
      name registered predecessors; and in any case it passes exactly when they ended up linked. */
  method AuditRun(steps: seq<Step>) returns (r: Result<seq<Failure>, AuditError>)
    ensures RunLinked(EMPTY, steps) ==> r == Ok([])
    ensures r == Ok([]) <==> Linked(Run(EMPTY, steps).scorecards)
  {
    var t := Run(EMPTY, steps);
    RunsAreGood(steps);
    CleanIffLinked(t);
    if RunLinked(EMPTY, steps) {
      RunKeepsLinks(EMPTY, steps);
    }
    r := AuditNovelDeterminations(t);
    if r.Ok? {
      assert forall f :: f in r.value <==> Faulty(t, f);
      NothingIn(r.value);
    }
  }

  /** The condition is needed: one scorecard with an unregistered predecessor makes the audit fail on
      its own lookup. */
  lemma UnregisteredPredecessor(card: Scorecard)
    requires card.scorecardId.Some? && card.predecessorId.Some? && card.predecessorId != Some(Named(""))
    requires card.predecessorId != card.scorecardId
    ensures Dangling(Run(EMPTY, [StepScorecard(card)]), card.scorecardId.value)
  {
  }
}
