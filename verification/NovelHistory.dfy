/** The registry is append-only: what is recorded stays as it was recorded, and successors name what they
    succeed. */
module NovelHistory {
  import opened Wrappers
  import D = NovelDetermination
  import opened NovelRegistry

  // ---- Nothing recorded is changed ---------------------------------------------------

  predicate SameRows<K, V(==)>(a: map<K, V>, b: map<K, V>) {
    forall k :: k in a ==> k in b && b[k] == a[k]
  }

  /** Candidates stay as ingested; only the state column may move. */
  predicate SameSnapshots(a: map<string, CandidateRow>, b: map<string, CandidateRow>) {
    forall c :: c in a ==> c in b && b[c] == a[c].(state := b[c].state)
  }

  predicate Extends(a: Tables, b: Tables) {
    && a.submissions <= b.submissions && a.determinations <= b.determinations
    && SameRows(a.scorecards, b.scorecards) && SameRows(a.benchmarks, b.benchmarks)
    && SameSnapshots(a.candidates, b.candidates)
    && a.tasks.Keys <= b.tasks.Keys
  }

  lemma {:induction false} IngestionExtends(t: Tables, cs: seq<Candidate>, q: Queue, matcher: Matcher,
      benchmark: BenchmarkKey, seedTasks: bool)
    ensures Extends(t, AddCandidates(t, cs, q, matcher, benchmark, seedTasks))
    decreases |cs|
  {
    if cs != [] {
      var next := AddCandidate(t, cs[0], q, matcher, benchmark, seedTasks);
      IngestionExtends(next, cs[1..], q, matcher, benchmark, seedTasks);
      assert Extends(t, next);
      ExtendsOnwards(t, next, AddCandidates(next, cs[1..], q, matcher, benchmark, seedTasks));
    }
  }

  lemma ExtendsOnwards(a: Tables, b: Tables, c: Tables)
    requires Extends(a, b) && Extends(b, c)
    ensures Extends(a, c)
  {
  }

  lemma PublishExtends(t: Tables, benchmark: Manifest, c: Candidate, original: Scorecard, factory: Factory, id: nat)
    ensures var p := Publish(t, benchmark, c, original, factory, id);
      p.Ok? ==> SameRows(t.scorecards, p.value.tables.scorecards) && SameRows(t.benchmarks, p.value.tables.benchmarks)
  {
  }

  lemma RecomputeExtends(t: Tables, c: string, original: Option<Scorecard>, factory: Factory)
    requires c in t.candidates
    ensures var r := Recompute(t, c, original, factory);
      r.Ok? ==> Extends(t, r.value)
  {
    if original.Some? {
      PublishExtends(t, BenchmarkFor(t, t.candidates[c]), t.candidates[c].candidate, original.value, factory, t.nextId);
    }
  }

  lemma SubmitExtends(t: Tables, key: TaskKey, actorId: string, verdict: Verdict, original: Option<Scorecard>, factory: Factory)
    ensures var r := SubmitDecision(t, key, actorId, verdict, original, factory);
      r.Ok? ==> Extends(t, r.value)
  {
    var r := SubmitDecision(t, key, actorId, verdict, original, factory);
    if r.Ok? {
      RecomputeExtends(Recorded(t, key, actorId, verdict), key.candidateId, original, factory);
      ExtendsOnwards(t, Recorded(t, key, actorId, verdict), r.value);
    }
  }

  lemma StepExtends(t: Tables, step: Step)
    ensures Extends(t, Apply(t, step))
  {
    match step
    case StepScorecard(card) =>
    case StepBenchmark(manifest, predecessor, id) =>
    case StepIngest(queue, matcher, benchmark, seedTasks) =>
      IngestionExtends(t, queue.candidates, queue, matcher, benchmark, seedTasks);
    case StepClaim(key, actorId) =>
    case StepSubmit(key, actorId, verdict, original, factory) => SubmitExtends(t, key, actorId, verdict, original, factory);
  }

  /** Over any run, submissions and determinations are only appended; scorecards, benchmark versions and
      candidate snapshots, once registered, never change. */
  lemma {:induction false} HistoryOnlyGrows(t: Tables, steps: seq<Step>)
    ensures Extends(t, Run(t, steps))
    decreases |steps|
  {
    if steps != [] {
      StepExtends(t, steps[0]);
      HistoryOnlyGrows(Apply(t, steps[0]), steps[1..]);
      ExtendsOnwards(t, Apply(t, steps[0]), Run(t, steps));
    }
  }

  // ---- Successors --------------------------------------------------------------------

  /** The successor of a benchmark always has a new version, so the guard against an equal one never fires;
      it keeps the cases, and its hash determines what it succeeds. */
  lemma SuccessorIsNew(m: Manifest, n: Manifest, c: Candidate, d: Candidate)
    ensures SuccessorOf(m, c).version != m.version && SuccessorOf(m, c).cases == m.cases
    ensures SuccessorOf(m, c).caseSetHash == SuccessorOf(n, d).caseSetHash ==>
      m.benchmarkId == n.benchmarkId && m.version == n.version && m.cases == n.cases && m.caseSetHash == n.caseSetHash
  {
    assert |m.version + "+novel-" + LastEight(c.candidateId)| > |m.version|;
  }

  /** How deeply scorecards are nested in the name and predecessor hash of a scorecard. */
  function Depth(card: Scorecard): nat {
    (match card.scorecardId
     case Some(Derived(of)) => 1 + Depth(of)
     case _ => 0)
    + (match card.predecessorHash
       case Some(DigestOf(predecessor)) => 1 + Depth(predecessor)
       case _ => 0)
  }

  lemma NotItsOwnSuccessor(original: Scorecard, provisional: Scorecard)
    requires provisional.predecessorHash == Some(DigestOf(original))
    ensures original.scorecardId != Some(Derived(provisional))
  {
    assert Depth(provisional) > Depth(original);
  }

  /** A recomputed scorecard names its predecessor with its hash, carries the successor benchmark, and has
      an identifier of its own. */
  lemma RecomputedIsLinked(original: Scorecard, successor: Manifest, updated: EvaluatedResult)
    ensures var r := RecomputedScorecard(original, successor, updated);
      && (r.Ok? <==> original.immutable && updated.benchmark.version == successor.version
                     && updated.benchmark.caseSetHash == successor.caseSetHash)
      && (r.Ok? ==>
            && r.value.predecessorId == original.scorecardId && r.value.predecessorHash == Some(DigestOf(original))
            && r.value.result.benchmark == successor && r.value.result.predecessorResultId == Some(original.result.resultId)
            && r.value.referenceSetHash == Some(successor.caseSetHash)
            && r.value.scorecardId.Some? && r.value.scorecardId != original.scorecardId)
  {
    var r := RecomputedScorecard(original, successor, updated);
    if r.Ok? {
      NotItsOwnSuccessor(original, r.value.scorecardId.value.of);
    }
  }

  // ---- A determination can be traced -------------------------------------------------

  lemma RegisteredBenchmark(t: Tables, m: Manifest, predecessor: Option<string>, id: Option<nat>)
    ensures var r := RegisterBenchmark(t, m, predecessor, id);
      var key := BenchmarkKey(m.benchmarkId, m.version);
      r.Ok? ==> key in r.value.benchmarks && r.value.benchmarks[key].caseSetHash == m.caseSetHash
  {
  }

  lemma RegisteredScorecard(t: Tables, card: Scorecard)
    ensures var r := RegisterScorecard(t, card);
      r.Ok? ==>
        && card.scorecardId.Some? && card.scorecardId.value in r.value.scorecards
        && r.value.scorecards[card.scorecardId.value].hash == DigestOf(card)
        && r.value.benchmarks == t.benchmarks
  {
  }

  /** What was published is registered under its own hash. */
  predicate PublishedIsRegistered(p: Published) {
    && (p.successor.Some? ==>
          var key := BenchmarkKey(p.successor.value.benchmarkId, p.successor.value.version);
          key in p.tables.benchmarks && p.tables.benchmarks[key].caseSetHash == p.successor.value.caseSetHash)
    && (p.recomputed.Some? ==>
          && p.recomputed.value.scorecardId.Some? && p.recomputed.value.scorecardId.value in p.tables.scorecards
          && p.tables.scorecards[p.recomputed.value.scorecardId.value].hash == DigestOf(p.recomputed.value))
  }

  lemma PublishingRegisters(t: Tables, policy: D.PolicyResult, benchmark: Manifest, c: Candidate, original: Option<Scorecard>,
      factory: Factory, id: nat)
    ensures var p := PublishIfConfirmed(t, policy, benchmark, c, original, factory, id);
      && (p.Ok? ==> PublishedIsRegistered(p.value))
      && (p.Ok? ==> (p.value.successor.Some? <==> policy.finalized && policy.outcome == D.Confirmed && original.Some?))
      && (p.Ok? && p.value.successor.Some? ==> p.value.successor.value.benchmarkId == benchmark.benchmarkId)
  {
    if policy.finalized && policy.outcome == D.Confirmed && original.Some? {
      var successor := SuccessorOf(benchmark, c);
      RegisteredBenchmark(t, successor, Some(benchmark.version), Some(id));
      var registered := RegisterBenchmark(t, successor, Some(benchmark.version), Some(id));
      if registered.Ok? && factory.Produces? {
        var card := RecomputedScorecard(original.value, successor, factory.result);
        if card.Ok? {
          RegisteredScorecard(registered.value, card.value);
        }
      }
    }
  }

  /** A determination names the candidate as ingested, all decisions on it in order, and a successor
      benchmark and recomputed scorecard that are registered; it has a successor exactly when it finally
      confirms a candidate with a scorecard attached. */
  predicate Traceable(after: Tables, row: DeterminationRow, candidateRow: CandidateRow, attached: bool) {
    var d := row.determination;
    && d.snapshotHash == DigestOf(candidateRow.candidate) && d.matcher == candidateRow.matcher
    && d.sourceResultHash == candidateRow.sourceResultHash && d.sourceSubmissionHash == candidateRow.sourceSubmissionHash
    && d.decisionIds == DecisionIds(after.submissions, candidateRow.candidate.candidateId)
    && (d.successor.Some? <==> d.policy.finalized && d.policy.outcome == D.Confirmed && attached)
    && (d.successor.Some? ==>
          var key := BenchmarkKey(d.benchmark.benchmarkId, d.successor.value.0);
          key in after.benchmarks && after.benchmarks[key].caseSetHash == d.successor.value.1)
    && (d.recomputedScorecard.Some? ==>
          && d.recomputedScorecard.value.0.Some? && d.recomputedScorecard.value.0.value in after.scorecards
          && after.scorecards[d.recomputedScorecard.value.0.value].hash == d.recomputedScorecard.value.1)
  }

  lemma RecomputeIsTraceable(t: Tables, c: string, original: Option<Scorecard>, factory: Factory)
    requires c in t.candidates
    ensures var r := Recompute(t, c, original, factory);
      r.Ok? ==>
        && r.value.determinations != []
        && Traceable(r.value, r.value.determinations[|r.value.determinations| - 1], t.candidates[c], original.Some?)
  {
    var row := t.candidates[c];
    var policy := D.DetermineNovel(Log(t.submissions, c), TwoNeeded(row.candidate));
    if policy.Ok? {
      PublishingRegisters(t, policy.value, BenchmarkFor(t, row), row.candidate, original, factory, t.nextId);
    }
  }

  /** Every successful submission appends a determination that can be traced to what it rests on. */
  lemma DeterminationsAreTraceable(t: Tables, key: TaskKey, actorId: string, verdict: Verdict, original: Option<Scorecard>, factory: Factory)
    ensures var r := SubmitDecision(t, key, actorId, verdict, original, factory);
      r.Ok? ==>
        && key.candidateId in t.candidates && r.value.determinations != []
        && Traceable(r.value, r.value.determinations[|r.value.determinations| - 1], t.candidates[key.candidateId], original.Some?)
  {
    if SubmitDecision(t, key, actorId, verdict, original, factory).Ok? {
      RecomputeIsTraceable(Recorded(t, key, actorId, verdict), key.candidateId, original, factory);
    }
  }
}
