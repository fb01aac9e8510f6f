/** The queue of unmatched concerns that await expert adjudication. */
module NovelQueue {
  import opened Wrappers
  import opened Models
  import opened Matching
  import opened Engine
  import opened EngineTheorems

  /** The digest of the four identifying strings is represented by the strings themselves. */
  datatype CandidateId = CandidateId(resultId: string, caseId: string, caseVersion: string, localId: string)

  datatype CandidateState =
    | Pending | AcceptedNovel | MatchedExisting | StateRejected | StateWithdrawn | StateQualified | StateUnresolved

  datatype NovelCandidate<Id> = NovelCandidate(
    candidateId: Id,
    resultId: string,
    submissionId: string,
    caseId: string,
    caseVersion: string,
    concern: SubmittedConcern,
    anchorResolutions: seq<AnchorResolution>,
    state: CandidateState)

  type QueuedCandidate = NovelCandidate<CandidateId>

  datatype QueueError = CompleteReferenceSet | SubmissionMismatch | MissingConcern(localId: string)

  type Queue = Result<seq<QueuedCandidate>, QueueError>

  function Item(resultId: string, submissionId: string, e: CaseEvaluation, concern: SubmittedConcern,
      localId: string): QueuedCandidate {
    NovelCandidate(CandidateId(resultId, e.caseId, e.caseVersion, localId), resultId, submissionId, e.caseId,
      e.caseVersion, concern, if localId in e.anchorResolutions then e.anchorResolutions[localId] else [], Pending)
  }

  function ConcernsById(concerns: seq<SubmittedConcern>): map<string, SubmittedConcern> {
    if concerns == [] then map[]
    else ConcernsById(concerns[..|concerns| - 1])[concerns[|concerns| - 1].localId := concerns[|concerns| - 1]]
  }

  /** Candidates for the first unmatched ids of a case; an id without a concern is a failed lookup. */
  function CaseQueue(resultId: string, submissionId: string, e: CaseEvaluation, ids: seq<string>,
      byId: map<string, SubmittedConcern>): Queue {
    if ids == [] then Ok([])
    else
      var last := ids[|ids| - 1];
      match CaseQueue(resultId, submissionId, e, ids[..|ids| - 1], byId)
      case Err(error) => Err(error)
      case Ok(q) =>
        if last in byId then Ok(q + [Item(resultId, submissionId, e, byId[last], last)])
        else Err(MissingConcern(last))
  }

  function CasesQueue(resultId: string, submissionId: string, es: seq<CaseEvaluation>,
      submitted: map<CaseKey, CaseSubmission>): Queue {
    if es == [] then Ok([])
    else
      var e := es[|es| - 1];
      match CasesQueue(resultId, submissionId, es[..|es| - 1], submitted)
      case Err(error) => Err(error)
      case Ok(q) =>
        if (e.caseId, e.caseVersion) !in submitted then Ok(q)
        else
          match CaseQueue(resultId, submissionId, e, e.unmatchedSubmittedIds,
            ConcernsById(submitted[(e.caseId, e.caseVersion)].concerns))
          case Err(error) => Err(error)
          case Ok(more) => Ok(q + more)
  }

  function NovelQueueOf(resultId: string, result: EvaluationResult, submission: Submission): Queue {
    if CompleteForPrecision(result.benchmark.completeness) then Err(CompleteReferenceSet)
    else if result.submissionId != submission.submissionId then Err(SubmissionMismatch)
    else CasesQueue(resultId, submission.submissionId, result.caseEvaluations, CasesByKey(submission.cases))
  }

  lemma {:induction false} CaseErrorStays(resultId: string, submissionId: string, e: CaseEvaluation, ids: seq<string>,
      byId: map<string, SubmittedConcern>, n: nat)
    requires n <= |ids| && CaseQueue(resultId, submissionId, e, ids[..n], byId).Err?
    ensures CaseQueue(resultId, submissionId, e, ids, byId) == CaseQueue(resultId, submissionId, e, ids[..n], byId)
  {
    if n == |ids| {
      assert ids[..n] == ids;
    } else {
      assert ids[..|ids| - 1][..n] == ids[..n];
      CaseErrorStays(resultId, submissionId, e, ids[..|ids| - 1], byId, n);
    }
  }

  lemma {:induction false} CasesErrorStays(resultId: string, submissionId: string, es: seq<CaseEvaluation>,
      submitted: map<CaseKey, CaseSubmission>, n: nat)
    requires n <= |es| && CasesQueue(resultId, submissionId, es[..n], submitted).Err?
    ensures CasesQueue(resultId, submissionId, es, submitted) == CasesQueue(resultId, submissionId, es[..n], submitted)
  {
    if n == |es| {
      assert es[..n] == es;
    } else {
      assert es[..|es| - 1][..n] == es[..n];
      CasesErrorStays(resultId, submissionId, es[..|es| - 1], submitted, n);
    }
  }

  method BuildNovelQueue(resultId: string, result: EvaluationResult, submission: Submission) returns (r: Queue)
    ensures r == NovelQueueOf(resultId, result, submission)
  {
    if CompleteForPrecision(result.benchmark.completeness) {
      return Err(CompleteReferenceSet);
    }
    if result.submissionId != submission.submissionId {
      return Err(SubmissionMismatch);
    }
    var byCase := CasesByKey(submission.cases);
    var es := result.caseEvaluations;
    var candidates: seq<QueuedCandidate> := [];
    for i := 0 to |es|
      invariant CasesQueue(resultId, submission.submissionId, es[..i], byCase) == Ok(candidates)
    {
      var e := es[i];
      assert es[..i + 1][..i] == es[..i];
      if (e.caseId, e.caseVersion) !in byCase {
        continue;
      }
      var byId := ConcernsById(byCase[(e.caseId, e.caseVersion)].concerns);
      var ids := e.unmatchedSubmittedIds;
      var more: seq<QueuedCandidate> := [];
      for j := 0 to |ids|
        invariant CaseQueue(resultId, submission.submissionId, e, ids[..j], byId) == Ok(more)
      {
        assert ids[..j + 1][..j] == ids[..j];
        if ids[j] !in byId {
          CaseErrorStays(resultId, submission.submissionId, e, ids, byId, j + 1);
          CasesErrorStays(resultId, submission.submissionId, es, byCase, i + 1);
          return Err(MissingConcern(ids[j]));
        }
        more := more + [Item(resultId, submission.submissionId, e, byId[ids[j]], ids[j])];
      }
      assert ids[..|ids|] == ids;
      candidates := candidates + more;
    }
    assert es[..|es|] == es;
    r := Ok(candidates);
  }

  // ---- The queue of an evaluation ----------------------------------------------------

  /** The concerns of a case that no match uses, in order. */
  function UnmatchedConcerns(concerns: seq<SubmittedConcern>, used: set<string>): seq<SubmittedConcern> {
    if concerns == [] then []
    else (if concerns[0].localId in used then [] else [concerns[0]]) + UnmatchedConcerns(concerns[1..], used)
  }

  function AllUnmatched(cases: seq<CaseRef>, submitted: map<CaseKey, CaseSubmission>,
      es: seq<CaseEvaluation>): seq<SubmittedConcern>
    requires |cases| == |es|
  {
    if es == [] then []
    else
      var n := |es| - 1;
      AllUnmatched(cases[..n], submitted, es[..n])
      + UnmatchedConcerns(ConcernsFor(submitted, cases[n]), MatchedSubmitted(es[n].matches))
  }

  function ConcernsOf(q: seq<QueuedCandidate>): seq<SubmittedConcern> {
    seq(|q|, i requires 0 <= i < |q| => q[i].concern)
  }

  lemma {:induction false} OutsideIsUnmatched(concerns: seq<SubmittedConcern>, used: set<string>)
    ensures Outside(LocalIds(concerns), used) == LocalIds(UnmatchedConcerns(concerns, used))
    ensures forall s :: s in UnmatchedConcerns(concerns, used) ==> s in concerns
  {
    if concerns != [] {
      var rest := concerns[1..];
      OutsideIsUnmatched(rest, used);
      assert LocalIds(concerns)[1..] == LocalIds(rest);
      var head := if concerns[0].localId in used then [] else [concerns[0]];
      assert LocalIds(head + UnmatchedConcerns(rest, used)) == LocalIds(head) + LocalIds(UnmatchedConcerns(rest, used));
    }
  }

  lemma {:induction false} LookupHolds(concerns: seq<SubmittedConcern>)
    ensures forall s :: s in concerns ==> s.localId in ConcernsById(concerns)
    ensures Distinct(LocalIds(concerns)) ==> forall s :: s in concerns ==> ConcernsById(concerns)[s.localId] == s
  {
    if concerns != [] {
      var init, last := concerns[..|concerns| - 1], concerns[|concerns| - 1];
      LookupHolds(init);
      assert concerns == init + [last];
      assert LocalIds(concerns) == LocalIds(init) + [last.localId];
      if Distinct(LocalIds(concerns)) {
        assert Distinct(LocalIds(init)) by {
          assert forall i :: 0 <= i < |init| ==> LocalIds(concerns)[i] == LocalIds(init)[i];
        }
        forall s | s in init ensures s.localId != last.localId {
          var i :| 0 <= i < |init| && init[i] == s;
          assert LocalIds(concerns)[i] == s.localId && LocalIds(concerns)[|init|] == last.localId;
        }
      }
    }
  }

  /** Queueing known concerns succeeds, one candidate each, with the concerns themselves when the
      lookup is exact. */
  lemma {:induction false} CaseQueueHolds(resultId: string, submissionId: string, e: CaseEvaluation,
      pending: seq<SubmittedConcern>, byId: map<string, SubmittedConcern>)
    requires forall s :: s in pending ==> s.localId in byId
    ensures var q := CaseQueue(resultId, submissionId, e, LocalIds(pending), byId);
      && q.Ok? && |q.value| == |pending|
      && ((forall s :: s in pending ==> byId[s.localId] == s) ==> ConcernsOf(q.value) == pending)
  {
    if pending != [] {
      var init, last := pending[..|pending| - 1], pending[|pending| - 1];
      assert pending == init + [last];
      CaseQueueHolds(resultId, submissionId, e, init, byId);
      assert LocalIds(pending)[..|init|] == LocalIds(init);
      assert last in pending;
    }
  }

  /** What a scored case hands to the queue. */
  ghost predicate HandsOver(ref: CaseRef, submitted: map<CaseKey, CaseSubmission>, e: CaseEvaluation) {
    (e.caseId, e.caseVersion) == ref.Key()
    && e.unmatchedSubmittedIds == Outside(LocalIds(ConcernsFor(submitted, ref)), MatchedSubmitted(e.matches))
  }

  lemma CaseHandsOver(ops: TextOps, ref: CaseRef, completeness: ReferenceCompleteness, bundles: map<string, CaseBundle>,
      submitted: map<CaseKey, CaseSubmission>, config: MatcherConfig)
    requires ScoreCase(ops, ref, completeness, bundles, submitted, config).Ok?
    ensures HandsOver(ref, submitted, ScoreCase(ops, ref, completeness, bundles, submitted, config).value.evaluation)
  {
  }

  lemma EvaluationsHandOver(ops: TextOps, cases: seq<CaseRef>, completeness: ReferenceCompleteness,
      bundles: map<string, CaseBundle>,
      submitted: map<CaseKey, CaseSubmission>, config: MatcherConfig)
    requires ScoreCases(ops, cases, completeness, bundles, submitted, config).Ok?
    ensures var es := ScoreCases(ops, cases, completeness, bundles, submitted, config).value.evaluations;
      |es| == |cases| && forall i :: 0 <= i < |cases| ==> HandsOver(cases[i], submitted, es[i])
  {
    EvaluationsByCase(ops, cases, completeness, bundles, submitted, config);
    var es := ScoreCases(ops, cases, completeness, bundles, submitted, config).value.evaluations;
    forall i | 0 <= i < |cases| ensures HandsOver(cases[i], submitted, es[i]) {
      assert EvaluationOf(ops, cases[i], completeness, bundles, submitted, config, es[i]);
      CaseHandsOver(ops, cases[i], completeness, bundles, submitted, config);
    }
  }

  ghost predicate DistinctEverywhere(cases: seq<CaseRef>, submitted: map<CaseKey, CaseSubmission>) {
    forall i :: 0 <= i < |cases| ==> Distinct(LocalIds(ConcernsFor(submitted, cases[i])))
  }

  /** The queue of one handed-over case. */
  lemma HandedOverQueue(resultId: string, submissionId: string, ref: CaseRef, submitted: map<CaseKey, CaseSubmission>,
      e: CaseEvaluation)
    requires HandsOver(ref, submitted, e) && ref.Key() in submitted
    ensures var concerns := submitted[ref.Key()].concerns;
      var q := CaseQueue(resultId, submissionId, e, e.unmatchedSubmittedIds, ConcernsById(concerns));
      && q.Ok? && |q.value| == |e.unmatchedSubmittedIds|
      && (Distinct(LocalIds(concerns)) ==> ConcernsOf(q.value) == UnmatchedConcerns(concerns, MatchedSubmitted(e.matches)))
  {
    var concerns := submitted[ref.Key()].concerns;
    var pending := UnmatchedConcerns(concerns, MatchedSubmitted(e.matches));
    OutsideIsUnmatched(concerns, MatchedSubmitted(e.matches));
    LookupHolds(concerns);
    CaseQueueHolds(resultId, submissionId, e, pending, ConcernsById(concerns));
  }

  lemma ConcernsOfSum(a: seq<QueuedCandidate>, b: seq<QueuedCandidate>)
    ensures ConcernsOf(a + b) == ConcernsOf(a) + ConcernsOf(b)
  {
  }

  lemma {:induction false} CasesQueueHolds(resultId: string, submissionId: string, cases: seq<CaseRef>,
      submitted: map<CaseKey, CaseSubmission>, es: seq<CaseEvaluation>)
    requires |es| == |cases| && forall i :: 0 <= i < |cases| ==> HandsOver(cases[i], submitted, es[i])
    ensures CasesQueue(resultId, submissionId, es, submitted).Ok?
    ensures |CasesQueue(resultId, submissionId, es, submitted).value| == SumCounts(es).unmatched
    ensures DistinctEverywhere(cases, submitted) ==>
      ConcernsOf(CasesQueue(resultId, submissionId, es, submitted).value) == AllUnmatched(cases, submitted, es)
  {
    if es != [] {
      var n := |es| - 1;
      assert forall i :: 0 <= i < n ==> cases[i] == cases[..n][i] && es[i] == es[..n][i];
      CasesQueueHolds(resultId, submissionId, cases[..n], submitted, es[..n]);
      var before := CasesQueue(resultId, submissionId, es[..n], submitted).value;
      if cases[n].Key() in submitted {
        HandedOverQueue(resultId, submissionId, cases[n], submitted, es[n]);
        ConcernsOfSum(before, CaseQueue(resultId, submissionId, es[n], es[n].unmatchedSubmittedIds,
          ConcernsById(submitted[cases[n].Key()].concerns)).value);
      }
    }
  }

  /** On an incomplete reference set the queue of an evaluation never misses a lookup and has exactly
      the reported number of pending candidates; with distinct local ids its concerns are the
      unmatched concerns of all cases, in order. */
  lemma QueueOfEvaluation(ops: TextOps, benchmark: Benchmark, bundles: map<string, CaseBundle>, submission: Submission,
      config: MatcherConfig, resultId: string)
    requires Evaluation(ops, benchmark, bundles, submission, config).Ok?
    requires !CompleteForPrecision(benchmark.completeness)
    ensures var r := Evaluation(ops, benchmark, bundles, submission, config).value;
      var q := NovelQueueOf(resultId, r, submission);
      var submitted := CasesByKey(submission.cases);
      && q.Ok? && |q.value| == r.metrics.novelCandidatesPendingAdjudication
      && |r.caseEvaluations| == |benchmark.cases|
      && (DistinctEverywhere(benchmark.cases, submitted) ==>
            ConcernsOf(q.value) == AllUnmatched(benchmark.cases, submitted, r.caseEvaluations))
  {
    var submitted := CasesByKey(submission.cases);
    var r := Evaluation(ops, benchmark, bundles, submission, config).value;
    EvaluationsHandOver(ops, benchmark.cases, benchmark.completeness, bundles, submitted, config);
    CasesQueueHolds(resultId, submission.submissionId, benchmark.cases, submitted, r.caseEvaluations);
    Conservation(ops, benchmark, bundles, submission, config);
  }
}
