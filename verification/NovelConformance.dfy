/** The repository's own auditor of novel determinations, and the runs that pass it. */
module NovelConformance {
  import opened Wrappers
  import D = NovelDetermination
  import opened NovelRegistry
  import opened NovelDesk

  datatype Failure =
    | AlteredSnapshot(candidateId: string)
    | IdentityMismatch(candidateId: string)
    | OrphanedTask(key: TaskKey)
    | PendingWithAssignee(key: TaskKey)
    | ClaimedWithoutAssignee(key: TaskKey)
    | CompletedWithoutSubmission(key: TaskKey)
    | SubmissionNotCompleted(key: TaskKey)
    | OrphanedDetermination(row: DeterminationRow)
    | AlteredDetermination(row: DeterminationRow)
    | MissingDecisions(row: DeterminationRow)
    | FinalizedWithoutSubmissions(row: DeterminationRow)
    | TieBreakWithoutTask(row: DeterminationRow)
    | ConflictingFinals(candidateId: string)
    | PredecessorHashMismatch(scorecardId: ScorecardId)

  // ---- What the auditor calls a failure ----------------------------------------------

  /** The auditor indexes submissions by task; the last one of a task stays. */
  function ByTask(ss: seq<SubmissionRow>): map<TaskKey, SubmissionRow> {
    if ss == [] then map[] else ByTask(ss[..|ss| - 1])[ss[|ss| - 1].task := ss[|ss| - 1]]
  }

  predicate KnownDecision(byTask: map<TaskKey, SubmissionRow>, id: nat) {
    exists key :: key in byTask && byTask[key].decisionId == id
  }

  predicate FinalWith(rows: seq<DeterminationRow>, candidateId: string, outcome: D.Outcome) {
    exists r :: r in rows && r.candidateId == candidateId && r.finalized && r.outcome == outcome
  }

  predicate Faulty(t: Tables, f: Failure) {
    var byTask := ByTask(t.submissions);
    match f
    case AlteredSnapshot(c) => c in t.candidates && t.candidates[c].hash != DigestOf(t.candidates[c].candidate)
    case IdentityMismatch(c) => c in t.candidates && t.candidates[c].candidate.candidateId != c
    case OrphanedTask(key) => key in t.tasks && key.candidateId !in t.candidates
    case PendingWithAssignee(key) => key in t.tasks && t.tasks[key].status == TaskPending && t.tasks[key].assignedTo.Some?
    case ClaimedWithoutAssignee(key) => key in t.tasks && t.tasks[key].status == TaskClaimed && t.tasks[key].assignedTo.None?
    case CompletedWithoutSubmission(key) => key in t.tasks && t.tasks[key].status == TaskCompleted && key !in byTask
    case SubmissionNotCompleted(key) => key in t.tasks && key in byTask && t.tasks[key].status != TaskCompleted
    case OrphanedDetermination(r) => r in t.determinations && r.candidateId !in t.candidates
    case AlteredDetermination(r) => AuditedRow(t, r) && r.hash != DigestOf(r.determination)
    case MissingDecisions(r) => AuditedRow(t, r) && exists id :: id in r.determination.decisionIds && !KnownDecision(byTask, id)
    case FinalizedWithoutSubmissions(r) =>
      AuditedRow(t, r) && r.determination.policy.finalized && !exists key :: key in byTask && key.candidateId == r.candidateId
    case TieBreakWithoutTask(r) => AuditedRow(t, r) && r.requiresTieBreak && TaskKey(r.candidateId, D.TieBreak) !in t.tasks
    case ConflictingFinals(c) =>
      c in t.candidates
      && exists o, p :: o != p && FinalWith(t.determinations, c, o) && FinalWith(t.determinations, c, p)
    case PredecessorHashMismatch(s) =>
      s in t.scorecards && NamesPredecessor(t.scorecards[s])
      && t.scorecards[s].predecessorId.value in t.scorecards && GivesHash(t.scorecards[s])
      && t.scorecards[s].predecessorHash.value != t.scorecards[t.scorecards[s].predecessorId.value].hash
  }

  predicate AuditedRow(t: Tables, r: DeterminationRow) {
    r in t.determinations && r.candidateId in t.candidates
  }

  /** An empty predecessor name is no name. */
  predicate NamesPredecessor(row: ScorecardRow) {
    row.predecessorId.Some? && row.predecessorId != Some(Named(""))
  }

  /** Nor is an empty hash a hash. */
  predicate GivesHash(row: ScorecardRow) {
    row.predecessorHash.Some? && row.predecessorHash != Some(Foreign(""))
  }

  /** A predecessor that is not registered: the auditor notes it and then fails on the lookup itself. */
  predicate Dangling(t: Tables, s: ScorecardId) {
    s in t.scorecards && NamesPredecessor(t.scorecards[s]) && t.scorecards[s].predecessorId.value !in t.scorecards
  }

  predicate AboutScorecard(f: Failure) {
    f.PredecessorHashMismatch?
  }

  // ---- The auditor -------------------------------------------------------------------

  datatype AuditError = MissingScorecard

  method AuditCandidates(t: Tables) returns (failures: seq<Failure>)
    ensures forall f :: f in failures <==> (f.AlteredSnapshot? || f.IdentityMismatch?) && Faulty(t, f)
  {
    failures := [];
    var left := t.candidates.Keys;
    while left != {}
      invariant left <= t.candidates.Keys
      invariant forall f :: f in failures <==>
        (f.AlteredSnapshot? || f.IdentityMismatch?) && f.candidateId !in left && Faulty(t, f)
      decreases |left|
    {
      var c :| c in left;
      var row := t.candidates[c];
      if DigestOf(row.candidate) != row.hash {
        failures := failures + [AlteredSnapshot(c)];
      }
      if row.candidate.candidateId != c {
        failures := failures + [IdentityMismatch(c)];
      }
      left := left - {c};
    }
  }

  predicate AboutTask(f: Failure) {
    f.OrphanedTask? || f.PendingWithAssignee? || f.ClaimedWithoutAssignee? || f.CompletedWithoutSubmission?
    || f.SubmissionNotCompleted?
  }

  /** The checks on one task and its submission, if any. */
  function TaskFailures(t: Tables, key: TaskKey, byTask: map<TaskKey, SubmissionRow>): seq<Failure>
    requires key in t.tasks
  {
    var task := t.tasks[key];
    (if key.candidateId !in t.candidates then [OrphanedTask(key)] else [])
    + (if task.status == TaskPending && task.assignedTo.Some? then [PendingWithAssignee(key)] else [])
    + (if task.status == TaskClaimed && task.assignedTo.None? then [ClaimedWithoutAssignee(key)] else [])
    + (if task.status == TaskCompleted && key !in byTask then [CompletedWithoutSubmission(key)] else [])
    + (if key in byTask && task.status != TaskCompleted then [SubmissionNotCompleted(key)] else [])
  }

  lemma TaskFailuresAre(t: Tables, key: TaskKey, f: Failure)
    requires key in t.tasks
    ensures f in TaskFailures(t, key, ByTask(t.submissions)) <==> AboutTask(f) && f.key == key && Faulty(t, f)
  {
  }

  method AuditTasks(t: Tables, byTask: map<TaskKey, SubmissionRow>) returns (failures: seq<Failure>)
    requires byTask == ByTask(t.submissions)
    ensures forall f :: f in failures <==> AboutTask(f) && Faulty(t, f)
  {
    failures := [];
    var left := t.tasks.Keys;
    while left != {}
      invariant left <= t.tasks.Keys
      invariant forall f :: f in failures <==> AboutTask(f) && f.key !in left && Faulty(t, f)
      decreases |left|
    {
      var key :| key in left;
      forall f ensures f in TaskFailures(t, key, byTask) <==> AboutTask(f) && f.key == key && Faulty(t, f) {
        TaskFailuresAre(t, key, f);
      }
      failures := failures + TaskFailures(t, key, byTask);
      left := left - {key};
    }
  }

  predicate AboutRow(f: Failure) {
    f.OrphanedDetermination? || f.AlteredDetermination? || f.MissingDecisions? || f.FinalizedWithoutSubmissions?
    || f.TieBreakWithoutTask?
  }

  /** The checks on one determination; one without a candidate is not looked at further. */
  function RowFailures(t: Tables, r: DeterminationRow, byTask: map<TaskKey, SubmissionRow>): seq<Failure> {
    if r.candidateId !in t.candidates then [OrphanedDetermination(r)]
    else
      (if DigestOf(r.determination) != r.hash then [AlteredDetermination(r)] else [])
      + (if exists id :: id in r.determination.decisionIds && !KnownDecision(byTask, id) then [MissingDecisions(r)] else [])
      + (if r.determination.policy.finalized && !exists key :: key in byTask && key.candidateId == r.candidateId
         then [FinalizedWithoutSubmissions(r)] else [])
      + (if r.requiresTieBreak && TaskKey(r.candidateId, D.TieBreak) !in t.tasks then [TieBreakWithoutTask(r)] else [])
  }

  lemma RowFailuresAre(t: Tables, r: DeterminationRow, f: Failure)
    requires r in t.determinations
    ensures f in RowFailures(t, r, ByTask(t.submissions)) <==> AboutRow(f) && f.row == r && Faulty(t, f)
  {
  }

  method AuditDeterminations(t: Tables, byTask: map<TaskKey, SubmissionRow>) returns (failures: seq<Failure>)
    requires byTask == ByTask(t.submissions)
    ensures forall f :: f in failures <==> AboutRow(f) && Faulty(t, f)
  {
    failures := [];
    for i := 0 to |t.determinations|
      invariant forall f :: f in failures <==> AboutRow(f) && f.row in t.determinations[..i] && Faulty(t, f)
    {
      var r := t.determinations[i];
      assert t.determinations[..i + 1] == t.determinations[..i] + [r];
      forall f ensures f in RowFailures(t, r, byTask) <==> AboutRow(f) && f.row == r && Faulty(t, f) {
        RowFailuresAre(t, r, f);
      }
      failures := failures + RowFailures(t, r, byTask);
    }
    assert t.determinations[..|t.determinations|] == t.determinations;
  }

  // The outcomes recorded as final, by candidate.

  predicate Collected(t: Tables, rows: seq<DeterminationRow>, outcomes: map<string, set<D.Outcome>>) {
    && (forall c :: c in outcomes ==> forall o :: o in outcomes[c] <==> c in t.candidates && FinalWith(rows, c, o))
    && (forall r :: r in rows ==> r.candidateId in outcomes)
  }

  method CollectFinals(t: Tables) returns (outcomes: map<string, set<D.Outcome>>)
    ensures Collected(t, t.determinations, outcomes)
  {
    outcomes := map[];
    for i := 0 to |t.determinations|
      invariant Collected(t, t.determinations[..i], outcomes)
    {
      var r := t.determinations[i];
      var before, rows := outcomes, t.determinations[..i + 1];
      assert rows == t.determinations[..i] + [r];
      if r.candidateId !in outcomes {
        outcomes := outcomes[r.candidateId := {}];
      }
      if r.candidateId in t.candidates && r.finalized {
        outcomes := outcomes[r.candidateId := outcomes[r.candidateId] + {r.outcome}];
      }
      forall c, o | c in outcomes ensures o in outcomes[c] <==> c in t.candidates && FinalWith(rows, c, o) {
        FinalsGrow(t.determinations[..i], r, c, o);
      }
    }
    assert t.determinations[..|t.determinations|] == t.determinations;
  }

  lemma FinalsGrow(rows: seq<DeterminationRow>, r: DeterminationRow, c: string, o: D.Outcome)
    ensures FinalWith(rows + [r], c, o) <==> FinalWith(rows, c, o) || (r.candidateId == c && r.finalized && r.outcome == o)
  {
  }

  lemma MoreThanOne(s: set<D.Outcome>)
    ensures |s| > 1 <==> exists o, p :: o != p && o in s && p in s
  {
    if s != {} {
      var o :| o in s;
      if p :| p in s && p != o {
        assert {o, p} <= s && |s - {o, p}| == |s| - 2;
      } else {
        assert s == {o};
      }
    }
  }

  method AuditFinals(t: Tables) returns (failures: seq<Failure>)
    ensures forall f :: f in failures <==> f.ConflictingFinals? && Faulty(t, f)
  {
    var outcomes := CollectFinals(t);
    failures := [];
    var left := outcomes.Keys;
    forall f: Failure | f.ConflictingFinals? && Faulty(t, f) ensures f.candidateId in left {
      var o :| FinalWith(t.determinations, f.candidateId, o);
    }
    while left != {}
      invariant left <= outcomes.Keys
      invariant forall f: Failure :: f.ConflictingFinals? && Faulty(t, f) ==> f.candidateId in outcomes
      invariant forall f :: f in failures <==> f.ConflictingFinals? && f.candidateId !in left && Faulty(t, f)
      decreases |left|
    {
      var c :| c in left;
      MoreThanOne(outcomes[c]);
      if |outcomes[c]| > 1 {
        failures := failures + [ConflictingFinals(c)];
      }
      left := left - {c};
    }
  }

  method AuditScorecards(t: Tables) returns (r: Result<seq<Failure>, AuditError>)
    ensures r.Err? <==> exists s :: Dangling(t, s)
    ensures r.Ok? ==> forall f :: f in r.value <==> AboutScorecard(f) && Faulty(t, f)
  {
    var failures := [];
    var left := t.scorecards.Keys;
    while left != {}
      invariant left <= t.scorecards.Keys
      invariant forall s :: s in t.scorecards && s !in left ==> !Dangling(t, s)
      invariant forall f :: f in failures <==> AboutScorecard(f) && f.scorecardId !in left && Faulty(t, f)
      decreases |left|
    {
      var s :| s in left;
      var row := t.scorecards[s];
      if NamesPredecessor(row) {
        if row.predecessorId.value !in t.scorecards {
          assert Dangling(t, s);
          return Err(MissingScorecard);
        }
        if GivesHash(row) && row.predecessorHash.value != t.scorecards[row.predecessorId.value].hash {
          failures := failures + [PredecessorHashMismatch(s)];
        }
      }
      left := left - {s};
    }
    r := Ok(failures);
  }

  lemma {:induction false} ByTaskSnoc(ss: seq<SubmissionRow>, s: SubmissionRow)
    ensures ByTask(ss + [s]) == ByTask(ss)[s.task := s]
  {
    assert (ss + [s])[..|ss|] == ss;
  }

  method IndexSubmissions(ss: seq<SubmissionRow>) returns (byTask: map<TaskKey, SubmissionRow>)
    ensures byTask == ByTask(ss)
  {
    byTask := map[];
    for i := 0 to |ss|
      invariant byTask == ByTask(ss[..i])
    {
      assert ss[..i + 1] == ss[..i] + [ss[i]];
      ByTaskSnoc(ss[..i], ss[i]);
      byTask := byTask[ss[i].task := ss[i]];
    }
    assert ss[..|ss|] == ss;
  }

  // ---- What a clean audit guarantees ---------------------------------------------------

  predicate CandidateConsistent(t: Tables, c: string)
    requires c in t.candidates
  {
    t.candidates[c].hash == DigestOf(t.candidates[c].candidate) && t.candidates[c].candidate.candidateId == c
  }

  predicate Submitted(ss: seq<SubmissionRow>, key: TaskKey) {
    exists s :: s in ss && s.task == key
  }

  /** A task has a candidate, a holder once it is claimed and none before, and a submission exactly when it is
      completed. */
  predicate TaskConsistent(t: Tables, key: TaskKey)
    requires key in t.tasks
  {
    var task := t.tasks[key];
    && key.candidateId in t.candidates
    && (task.status == TaskPending ==> task.assignedTo.None?) && (task.status == TaskClaimed ==> task.assignedTo.Some?)
    && (task.status == TaskCompleted <==> Submitted(t.submissions, key))
  }

  predicate LastOfTask(ss: seq<SubmissionRow>, i: int) {
    0 <= i < |ss| && forall j :: i < j < |ss| ==> ss[j].task != ss[i].task
  }

  /** The id belongs to the last submission of some task. */
  ghost predicate CurrentDecision(ss: seq<SubmissionRow>, id: nat) {
    exists i :: LastOfTask(ss, i) && ss[i].decisionId == id
  }

  /** A determination is unaltered, rests on recorded decisions, has submissions if it is final and a task for
      the tie-break it asks for. */
  ghost predicate RowConsistent(t: Tables, r: DeterminationRow) {
    && r.candidateId in t.candidates && r.hash == DigestOf(r.determination)
    && (forall id :: id in r.determination.decisionIds ==> CurrentDecision(t.submissions, id))
    && (r.determination.policy.finalized ==> exists s :: s in t.submissions && s.task.candidateId == r.candidateId)
    && (r.requiresTieBreak ==> TaskKey(r.candidateId, D.TieBreak) in t.tasks)
  }

  predicate BothFinal(t: Tables, q: DeterminationRow, r: DeterminationRow) {
    q.finalized && r.finalized && q.candidateId == r.candidateId && q.candidateId in t.candidates
  }

  /** The final determinations of a candidate have one outcome. */
  predicate OutcomesConsistent(t: Tables) {
    forall q, r :: q in t.determinations && r in t.determinations && BothFinal(t, q, r) ==> q.outcome == r.outcome
  }

  predicate CardConsistent(cards: map<ScorecardId, ScorecardRow>, row: ScorecardRow) {
    NamesPredecessor(row) ==>
      && row.predecessorId.value in cards
      && (GivesHash(row) ==> row.predecessorHash.value == cards[row.predecessorId.value].hash)
  }

  ghost predicate Consistent(t: Tables) {
    && (forall c :: c in t.candidates ==> CandidateConsistent(t, c))
    && (forall key :: key in t.tasks ==> TaskConsistent(t, key))
    && (forall r :: r in t.determinations ==> RowConsistent(t, r))
    && OutcomesConsistent(t)
    && forall s :: s in t.scorecards ==> CardConsistent(t.scorecards, t.scorecards[s])
  }

  lemma {:induction false} KeysIndexed(ss: seq<SubmissionRow>)
    ensures forall key :: key in ByTask(ss) <==> Submitted(ss, key)
  {
    if ss != [] {
      var init, last := ss[..|ss| - 1], ss[|ss| - 1];
      KeysIndexed(init);
      assert ss == init + [last];
      forall key ensures key in ByTask(ss) <==> Submitted(ss, key) {
        assert Submitted(ss, key) <==> Submitted(init, key) || last.task == key;
      }
    }
  }

  lemma {:induction false} LastIndexed(ss: seq<SubmissionRow>, i: int)
    requires LastOfTask(ss, i)
    ensures ss[i].task in ByTask(ss) && ByTask(ss)[ss[i].task] == ss[i]
  {
    var n := |ss| - 1;
    if i < n {
      assert ss[n].task != ss[i].task;
      LastIndexed(ss[..n], i);
    }
  }

  lemma {:induction false} IndexedLast(ss: seq<SubmissionRow>, key: TaskKey) returns (i: int)
    requires key in ByTask(ss)
    ensures LastOfTask(ss, i) && ss[i].task == key && ss[i] == ByTask(ss)[key]
  {
    var n := |ss| - 1;
    if ss[n].task == key {
      i := n;
    } else {
      i := IndexedLast(ss[..n], key);
    }
  }

  lemma KnownIsCurrent(ss: seq<SubmissionRow>, id: nat)
    ensures KnownDecision(ByTask(ss), id) <==> CurrentDecision(ss, id)
  {
    if key :| key in ByTask(ss) && ByTask(ss)[key].decisionId == id {
      var i := IndexedLast(ss, key);
    }
    if i :| LastOfTask(ss, i) && ss[i].decisionId == id {
      LastIndexed(ss, i);
    }
  }

  lemma CandidateFaults(t: Tables, c: string)
    requires c in t.candidates
    ensures CandidateConsistent(t, c) <==> !Faulty(t, AlteredSnapshot(c)) && !Faulty(t, IdentityMismatch(c))
  {
  }

  lemma TaskFaults(t: Tables, key: TaskKey)
    requires key in t.tasks
    ensures TaskConsistent(t, key) <==>
      && !Faulty(t, OrphanedTask(key)) && !Faulty(t, PendingWithAssignee(key)) && !Faulty(t, ClaimedWithoutAssignee(key))
      && !Faulty(t, CompletedWithoutSubmission(key)) && !Faulty(t, SubmissionNotCompleted(key))
  {
    KeysIndexed(t.submissions);
    assert key in ByTask(t.submissions) <==> Submitted(t.submissions, key);
  }

  lemma SubmissionsOfCandidate(ss: seq<SubmissionRow>, c: string)
    ensures (exists key :: key in ByTask(ss) && key.candidateId == c) <==> exists s :: s in ss && s.task.candidateId == c
  {
    KeysIndexed(ss);
    if s :| s in ss && s.task.candidateId == c {
      assert Submitted(ss, s.task);
      assert s.task in ByTask(ss);
    }
    if key :| key in ByTask(ss) && key.candidateId == c {
      assert Submitted(ss, key);
    }
  }

  lemma RowFaults(t: Tables, r: DeterminationRow)
    requires r in t.determinations
    ensures RowConsistent(t, r) <==>
      && !Faulty(t, OrphanedDetermination(r)) && !Faulty(t, AlteredDetermination(r)) && !Faulty(t, MissingDecisions(r))
      && !Faulty(t, FinalizedWithoutSubmissions(r)) && !Faulty(t, TieBreakWithoutTask(r))
  {
    SubmissionsOfCandidate(t.submissions, r.candidateId);
    forall id ensures KnownDecision(ByTask(t.submissions), id) <==> CurrentDecision(t.submissions, id) {
      KnownIsCurrent(t.submissions, id);
    }
  }

  lemma ConflictMeans(t: Tables, c: string)
    ensures Faulty(t, ConflictingFinals(c)) <==>
      c in t.candidates && exists o, p :: o != p && FinalWith(t.determinations, c, o) && FinalWith(t.determinations, c, p)
  {
  }

  lemma ConflictIsInconsistent(t: Tables, c: string)
    requires Faulty(t, ConflictingFinals(c))
    ensures !OutcomesConsistent(t)
  {
    ConflictMeans(t, c);
    var o, p :| o != p && FinalWith(t.determinations, c, o) && FinalWith(t.determinations, c, p);
    var q :| q in t.determinations && q.candidateId == c && q.finalized && q.outcome == o;
    var r :| r in t.determinations && r.candidateId == c && r.finalized && r.outcome == p;
    assert BothFinal(t, q, r);
  }

  lemma OutcomeFaults(t: Tables)
    ensures OutcomesConsistent(t) <==> forall c :: !Faulty(t, ConflictingFinals(c))
  {
    if c :| Faulty(t, ConflictingFinals(c)) {
      ConflictIsInconsistent(t, c);
    }
    if !OutcomesConsistent(t) {
      var q, r :| q in t.determinations && r in t.determinations && BothFinal(t, q, r) && q.outcome != r.outcome;
      assert FinalWith(t.determinations, q.candidateId, q.outcome) && FinalWith(t.determinations, q.candidateId, r.outcome);
      ConflictMeans(t, q.candidateId);
    }
  }

  lemma CardFaults(t: Tables, s: ScorecardId)
    requires s in t.scorecards
    ensures CardConsistent(t.scorecards, t.scorecards[s]) <==> !Dangling(t, s) && !Faulty(t, PredecessorHashMismatch(s))
  {
  }

  ghost predicate Clean(t: Tables) {
    (forall s :: !Dangling(t, s)) && forall f :: !Faulty(t, f)
  }

  lemma CleanIsConsistent(t: Tables)
    requires Clean(t)
    ensures Consistent(t)
  {
    forall c | c in t.candidates ensures CandidateConsistent(t, c) {
      CandidateFaults(t, c);
    }
    forall key | key in t.tasks ensures TaskConsistent(t, key) {
      TaskFaults(t, key);
    }
    forall r | r in t.determinations ensures RowConsistent(t, r) {
      RowFaults(t, r);
    }
    OutcomeFaults(t);
    forall s | s in t.scorecards ensures CardConsistent(t.scorecards, t.scorecards[s]) {
      CardFaults(t, s);
    }
  }

  lemma FaultIsAbout(t: Tables, f: Failure)
    requires Faulty(t, f)
    ensures match f
      case AlteredSnapshot(c) => c in t.candidates
      case IdentityMismatch(c) => c in t.candidates
      case OrphanedTask(key) => key in t.tasks
      case PendingWithAssignee(key) => key in t.tasks
      case ClaimedWithoutAssignee(key) => key in t.tasks
      case CompletedWithoutSubmission(key) => key in t.tasks
      case SubmissionNotCompleted(key) => key in t.tasks
      case OrphanedDetermination(r) => r in t.determinations
      case AlteredDetermination(r) => r in t.determinations
      case MissingDecisions(r) => r in t.determinations
      case FinalizedWithoutSubmissions(r) => r in t.determinations
      case TieBreakWithoutTask(r) => r in t.determinations
      case ConflictingFinals(c) => true
      case PredecessorHashMismatch(s) => s in t.scorecards
  {
  }

  lemma ConsistentHasNoFault(t: Tables, f: Failure)
    requires Consistent(t)
    ensures !Faulty(t, f)
  {
    if Faulty(t, f) {
      FaultIsAbout(t, f);
      match f
      case AlteredSnapshot(c) => CandidateFaults(t, c);
      case IdentityMismatch(c) => CandidateFaults(t, c);
      case OrphanedTask(key) => TaskFaults(t, key);
      case PendingWithAssignee(key) => TaskFaults(t, key);
      case ClaimedWithoutAssignee(key) => TaskFaults(t, key);
      case CompletedWithoutSubmission(key) => TaskFaults(t, key);
      case SubmissionNotCompleted(key) => TaskFaults(t, key);
      case OrphanedDetermination(r) => RowFaults(t, r);
      case AlteredDetermination(r) => RowFaults(t, r);
      case MissingDecisions(r) => RowFaults(t, r);
      case FinalizedWithoutSubmissions(r) => RowFaults(t, r);
      case TieBreakWithoutTask(r) => RowFaults(t, r);
      case ConflictingFinals(c) => OutcomeFaults(t);
      case PredecessorHashMismatch(s) => CardFaults(t, s);
    }
  }

  /** Of any tables whatever, the audit is clean exactly when they are consistent. */
  lemma CleanExactly(t: Tables)
    ensures Clean(t) <==> Consistent(t)
  {
    if Clean(t) {
      CleanIsConsistent(t);
    }
    if Consistent(t) {
      forall s ensures !Dangling(t, s) {
        if s in t.scorecards {
          CardFaults(t, s);
        }
      }
      forall f ensures !Faulty(t, f) {
        ConsistentHasNoFault(t, f);
      }
    }
  }

  predicate Known(f: Failure) {
    f.AlteredSnapshot? || f.IdentityMismatch? || AboutTask(f) || AboutRow(f) || f.ConflictingFinals? || AboutScorecard(f)
  }

  lemma EveryFailureIsKnown(f: Failure)
    ensures Known(f)
  {
  }

  /** The audit reports exactly the failures; it dies on a scorecard whose predecessor is absent. It comes out
      empty exactly for consistent tables. */
  method AuditNovelDeterminations(t: Tables) returns (r: Result<seq<Failure>, AuditError>)
    ensures r.Err? <==> exists s :: Dangling(t, s)
    ensures r.Ok? ==> forall f :: f in r.value <==> Faulty(t, f)
    ensures r == Ok([]) <==> Consistent(t)
  {
    var candidates := AuditCandidates(t);
    var byTask := IndexSubmissions(t.submissions);
    var tasks := AuditTasks(t, byTask);
    var rows := AuditDeterminations(t, byTask);
    var finals := AuditFinals(t);
    var cards := AuditScorecards(t);
    if cards.Err? {
      CleanExactly(t);
      return cards;
    }
    r := Ok(candidates + tasks + rows + finals + cards.value);
    forall f ensures Known(f) {
      EveryFailureIsKnown(f);
    }
    NothingIn(r.value);
    CleanExactly(t);
  }
}
