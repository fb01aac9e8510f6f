/** Who is given a claim task, and what a calibration judgment leads to, in terms of the rows. */
module ClaimMeaning {
  import opened Wrappers
  import R = NovelRegistry
  import opened ExpertTables
  import opened ExpertInvariant
  import opened ExpertTheorems

  // ---- Who may work in a domain ------------------------------------------------------

  /** The expert holds an active qualification in the domain that has not run out. */
  predicate Unexpired(qs: seq<Qualification>, actorId: string, domain: string, now: int) {
    exists q :: q in qs && q.actorId == actorId && q.domain == domain && q.status == Active && now < q.expiresAt
  }

  /** No active calibration set covers the domain, or the expert holds an active qualification in it that
      has not run out. */
  predicate MayWork(c: Calibration, actorId: string, domain: string, now: int) {
    || (forall s :: s in c.sets ==> s.domain != domain || !s.active)
    || Unexpired(c.qualifications, actorId, domain, now)
  }

  /** A pending task of an accepted intake in whose domain the expert may work, and of which the expert is
      assigned no other task. */
  predicate OpenTo(p: Program, i: nat, actorId: string, now: int) {
    var k := p.claims;
    && i < |k.tasks| && k.tasks[i].status == R.TaskPending
    && k.tasks[i].intakeId < |k.intakes| && k.intakes[k.tasks[i].intakeId].status == Accepted
    && MayWork(p.calibration, actorId, k.intakes[k.tasks[i].intakeId].domain, now)
    && forall j :: 0 <= j < |k.tasks| && j != i && k.tasks[j].intakeId == k.tasks[i].intakeId ==>
         k.tasks[j].assignedTo != Some(actorId)
  }

  /** Rows of the expert that had run out may have been marked; nothing else changed. */
  predicate OnlyExpired(before: seq<Qualification>, after: seq<Qualification>, actorId: string, now: int) {
    |after| == |before|
    && forall i :: 0 <= i < |before| ==>
         || after[i] == before[i]
         || (before[i].actorId == actorId && before[i].status == Active && before[i].expiresAt <= now
             && after[i] == before[i].(status := Expired))
  }

  lemma ExpiringExpires(qs: seq<Qualification>, actorId: string, domain: string, now: int)
    ensures OnlyExpired(qs, ExpireDue(qs, actorId, domain, now), actorId, now)
  {
  }

  lemma ExpiredChains(a: seq<Qualification>, b: seq<Qualification>, c: seq<Qualification>, actorId: string, now: int)
    requires OnlyExpired(a, b, actorId, now) && OnlyExpired(b, c, actorId, now)
    ensures OnlyExpired(a, c, actorId, now)
  {
  }

  lemma ExpiringKeepsUnexpired(before: seq<Qualification>, after: seq<Qualification>, actorId: string, domain: string, now: int)
    requires OnlyExpired(before, after, actorId, now)
    ensures Unexpired(after, actorId, domain, now) <==> Unexpired(before, actorId, domain, now)
  {
    if q :| q in before && q.actorId == actorId && q.domain == domain && q.status == Active && now < q.expiresAt {
      var i :| 0 <= i < |before| && before[i] == q;
      assert after[i] == q;
    }
    if q :| q in after && q.actorId == actorId && q.domain == domain && q.status == Active && now < q.expiresAt {
      var i :| 0 <= i < |after| && after[i] == q;
      assert before[i] == q;
    }
  }

  lemma ActiveAfterExpiring(qs: seq<Qualification>, actorId: string, domain: string, now: int)
    ensures HoldsActive(ExpireDue(qs, actorId, domain, now), actorId, domain) <==> Unexpired(qs, actorId, domain, now)
  {
    var after := ExpireDue(qs, actorId, domain, now);
    if q :| q in after && q.actorId == actorId && q.domain == domain && q.status == Active {
      var i :| 0 <= i < |after| && after[i] == q;
      assert qs[i] == q;
    }
    if q :| q in qs && q.actorId == actorId && q.domain == domain && q.status == Active && now < q.expiresAt {
      var i :| 0 <= i < |qs| && qs[i] == q;
      assert after[i] == q;
    }
  }

  lemma MayWorkMeans(c: Calibration, actorId: string, domain: string, now: int)
    ensures MayWork(c, actorId, domain, now) <==> !SetActive(c.sets, domain) || Unexpired(c.qualifications, actorId, domain, now)
  {
  }

  /** The check decides whether the expert may work in the domain, and only marks what has run out. */
  lemma CheckMeans(c: Calibration, actorId: string, domain: string, now: int)
    ensures var (qualified, after) := CheckQualified(c, actorId, domain, now);
      && (qualified <==> MayWork(c, actorId, domain, now))
      && after == c.(qualifications := after.qualifications)
      && OnlyExpired(c.qualifications, after.qualifications, actorId, now)
      && (forall other :: MayWork(after, actorId, other, now) <==> MayWork(c, actorId, other, now))
  {
    var after := CheckQualified(c, actorId, domain, now).1;
    MayWorkMeans(c, actorId, domain, now);
    ActiveAfterExpiring(c.qualifications, actorId, domain, now);
    ExpiringExpires(c.qualifications, actorId, domain, now);
    forall other ensures MayWork(after, actorId, other, now) <==> MayWork(c, actorId, other, now) {
      MayWorkMeans(c, actorId, other, now);
      MayWorkMeans(after, actorId, other, now);
      ExpiringKeepsUnexpired(c.qualifications, after.qualifications, actorId, other, now);
    }
  }

  predicate AssignedOther(tasks: seq<ClaimTask>, i: nat, actorId: string)
    requires i < |tasks|
  {
    exists j :: 0 <= j < |tasks| && j != i && tasks[j].intakeId == tasks[i].intakeId && tasks[j].assignedTo == Some(actorId)
  }

  lemma HoldsMeans(w: World, k: Claims, i: nat, actorId: string)
    requires ClaimTasksGood(w, k) && i < |k.tasks|
    ensures HoldsAnother(k.tasks, i, actorId) <==> AssignedOther(k.tasks, i, actorId)
  {
    if j :| 0 <= j < |k.tasks| && j != i && k.tasks[j].intakeId == k.tasks[i].intakeId && k.tasks[j].assignedTo == Some(actorId) {
      assert ClaimTaskGood(w, k, j);
    }
  }

  // ---- Taking a task -----------------------------------------------------------------

  /** The first task from position i on that is open to the expert. */
  ghost predicate FirstOpen(p: Program, i: nat, k: nat, actorId: string, now: int) {
    i <= k && OpenTo(p, k, actorId, now) && forall j :: i <= j < k ==> !OpenTo(p, j, actorId, now)
  }

  /** The tables after the expert was given a task. */
  ghost predicate GivenTask(p: Program, q: Program, k: nat, actorId: string, now: int) {
    && k < |p.claims.tasks|
    && q == p.(claims := q.claims, calibration := q.calibration)
    && q.claims == p.claims.(tasks := p.claims.tasks[k := p.claims.tasks[k].(status := R.TaskClaimed, assignedTo := Some(actorId))])
    && q.calibration == p.calibration.(qualifications := q.calibration.qualifications)
    && OnlyExpired(p.calibration.qualifications, q.calibration.qualifications, actorId, now)
  }

  ghost predicate TakenRightly(p: Program, r: Outcome, i: nat, actorId: string, now: int) {
    match r
    case Ok(q) => exists k :: FirstOpen(p, i, k, actorId, now) && GivenTask(p, q, k, actorId, now)
    case Err(e) => e == NoEligibleTask && forall k :: i <= k ==> !OpenTo(p, k, actorId, now)
  }

  lemma OpenMeans(w: World, p: Program, i: nat, actorId: string, now: int)
    requires ClaimTasksGood(w, p.claims) && i < |p.claims.tasks|
    ensures var k := p.claims;
      OpenTo(p, i, actorId, now) <==>
        && k.tasks[i].status == R.TaskPending && k.tasks[i].intakeId < |k.intakes|
        && k.intakes[k.tasks[i].intakeId].status == Accepted
        && CheckQualified(p.calibration, actorId, k.intakes[k.tasks[i].intakeId].domain, now).0
        && !HoldsAnother(k.tasks, i, actorId)
  {
    var k := p.claims;
    HoldsMeans(w, k, i, actorId);
    if k.tasks[i].intakeId < |k.intakes| {
      CheckMeans(p.calibration, actorId, k.intakes[k.tasks[i].intakeId].domain, now);
    }
  }

  lemma SameOpen(p: Program, q: Program, actorId: string, now: int)
    requires q == p.(calibration := q.calibration)
    requires forall domain :: MayWork(q.calibration, actorId, domain, now) <==> MayWork(p.calibration, actorId, domain, now)
    ensures forall k :: OpenTo(q, k, actorId, now) <==> OpenTo(p, k, actorId, now)
  {
  }

  /** Going on from the next position, with the expired rows marked, is going on from here. */
  lemma TakenFromNext(p: Program, q: Program, r: Outcome, i: nat, actorId: string, now: int)
    requires q == p.(calibration := p.calibration.(qualifications := q.calibration.qualifications))
    requires OnlyExpired(p.calibration.qualifications, q.calibration.qualifications, actorId, now)
    requires forall k :: OpenTo(q, k, actorId, now) <==> OpenTo(p, k, actorId, now)
    requires !OpenTo(p, i, actorId, now) && TakenRightly(q, r, i + 1, actorId, now)
    ensures TakenRightly(p, r, i, actorId, now)
  {
    if r.Ok? {
      var k :| FirstOpen(q, i + 1, k, actorId, now) && GivenTask(q, r.value, k, actorId, now);
      ExpiredChains(p.calibration.qualifications, q.calibration.qualifications, r.value.calibration.qualifications, actorId, now);
      assert FirstOpen(p, i, k, actorId, now) && GivenTask(p, r.value, k, actorId, now);
    }
  }

  lemma {:induction false} TakeMeans(w: World, p: Program, i: nat, actorId: string, now: int)
    requires ClaimTasksGood(w, p.claims)
    ensures TakenRightly(p, TakeFrom(p, i, actorId, now), i, actorId, now)
    decreases |p.claims.tasks| - i
  {
    var k, r := p.claims, TakeFrom(p, i, actorId, now);
    if i < |k.tasks| {
      OpenMeans(w, p, i, actorId, now);
      var task := k.tasks[i];
      if task.status != R.TaskPending || task.intakeId >= |k.intakes| || k.intakes[task.intakeId].status != Accepted {
        TakeMeans(w, p, i + 1, actorId, now);
        TakenFromNext(p, p, r, i, actorId, now);
      } else {
        TakeChecked(w, p, i, actorId, now);
        if !OpenTo(p, i, actorId, now) {
          var checked := p.(calibration := CheckQualified(p.calibration, actorId, k.intakes[task.intakeId].domain, now).1);
          TakeMeans(w, checked, i + 1, actorId, now);
          TakenFromNext(p, checked, r, i, actorId, now);
        }
      }
    }
  }

  /** The step at a pending task of an accepted intake. */
  lemma TakeChecked(w: World, p: Program, i: nat, actorId: string, now: int)
    requires ClaimTasksGood(w, p.claims) && i < |p.claims.tasks| && p.claims.tasks[i].status == R.TaskPending
    requires p.claims.tasks[i].intakeId < |p.claims.intakes| && p.claims.intakes[p.claims.tasks[i].intakeId].status == Accepted
    ensures var domain := p.claims.intakes[p.claims.tasks[i].intakeId].domain;
      var checked := p.(calibration := CheckQualified(p.calibration, actorId, domain, now).1);
      && checked == p.(calibration := p.calibration.(qualifications := checked.calibration.qualifications))
      && OnlyExpired(p.calibration.qualifications, checked.calibration.qualifications, actorId, now)
      && (forall k :: OpenTo(checked, k, actorId, now) <==> OpenTo(p, k, actorId, now))
      && if OpenTo(p, i, actorId, now) then TakenRightly(p, TakeFrom(p, i, actorId, now), i, actorId, now)
         else TakeFrom(p, i, actorId, now) == TakeFrom(checked, i + 1, actorId, now)
  {
    var domain := p.claims.intakes[p.claims.tasks[i].intakeId].domain;
    var checked := p.(calibration := CheckQualified(p.calibration, actorId, domain, now).1);
    CheckMeans(p.calibration, actorId, domain, now);
    SameOpen(p, checked, actorId, now);
    OpenMeans(w, p, i, actorId, now);
    if OpenTo(p, i, actorId, now) {
      var q := TakeFrom(p, i, actorId, now).value;
      assert FirstOpen(p, i, i, actorId, now) && GivenTask(p, q, i, actorId, now);
    }
  }

  /** In every state a run can reach, an adjudicator who takes a claim task is given the first one that is open
      to them, and is refused exactly when none is. */
  lemma TakeExactly(w: World, steps: seq<Step>, actorId: string, now: int)
    requires actorId in w.adjudicators
    ensures var p := Run(w, EMPTY, steps);
      var r := ClaimClaimTask(w, p, actorId, now);
      && (r.Ok? ==> exists k :: FirstOpen(p, 0, k, actorId, now) && GivenTask(p, r.value, k, actorId, now))
      && (r.Err? ==> r.error == NoEligibleTask)
      && (r == Err(NoEligibleTask) <==> forall k :: !OpenTo(p, k, actorId, now))
  {
    RunsAreGood(w, steps);
    TakeMeans(w, Run(w, EMPTY, steps), 0, actorId, now);
  }

  // ---- What a calibration judgment leads to ------------------------------------------

  /** The judgment is fit to be recorded: anchors reviewed, evidence cited or a follow-up asked for, only known
      evidence, and no conflict, or a described one that does not disqualify. */
  predicate Fit(w: World, ref: CaseConcern, data: CalibrationInput) {
    && data.anchorsReviewed && (data.evidence != {} || data.followupRequested)
    && ref.Key() in w.cases
    && (forall e :: e in data.evidence ==> ref.concernId in w.cases[ref.Key()] && e in w.cases[ref.Key()][ref.concernId].evidence)
    && data.conflict in {NoConflict, DisclosedConflict(true)}
  }

  lemma FitMeans(w: World, ref: CaseConcern, data: CalibrationInput)
    ensures InputError(w, ref, data).None? <==> Fit(w, ref, data)
  {
  }

  /** After any run a judgment is recorded exactly when its task is an open one of its author's, it is fit, and
      it does not complete a passing attempt in a domain without an expiry rule. */
  lemma CalibrateExactly(w: World, steps: seq<Step>, taskId: nat, data: CalibrationInput, actorId: string, now: int)
    ensures var p := Run(w, EMPTY, steps);
      var c := p.calibration;
      SubmitCalibration(w, p, taskId, data, actorId, now).Ok? <==>
        && taskId < |c.tasks| && c.tasks[taskId].status == R.TaskPending
        && c.tasks[taskId].attemptId < |c.attempts| && c.attempts[c.tasks[taskId].attemptId].adjudicatorId == actorId
        && Fit(w, c.tasks[taskId].ref, data)
        && (OthersSubmitted(c, taskId) && WouldPass(w, Recorded(c, taskId, actorId, data.decision), c.tasks[taskId].attemptId) ==>
              c.attempts[c.tasks[taskId].attemptId].setId < |c.sets|
              && c.sets[c.attempts[c.tasks[taskId].attemptId].setId].domain in w.expiryDays)
  {
    var p := Run(w, EMPTY, steps);
    var c := p.calibration;
    if taskId < |c.tasks| && c.tasks[taskId].status == R.TaskPending
       && c.tasks[taskId].attemptId < |c.attempts| && c.attempts[c.tasks[taskId].attemptId].adjudicatorId == actorId {
      FitMeans(w, c.tasks[taskId].ref, data);
      if InputError(w, c.tasks[taskId].ref, data).None? {
        RefusedExactly(w, steps, taskId, data, actorId, now);
      }
    }
  }

  predicate Credited(credits: seq<Credit>, actorId: string, target: CreditTarget) {
    exists c :: c in credits && c.actorId == actorId && c.target == target
  }

  /** The profile and the qualifications after an attempt was scored. */
  ghost predicate Promoted(w: World, p: Program, q: Program, a: nat, score: Score, now: int)
    requires a < |p.calibration.attempts| && p.calibration.attempts[a].setId < |p.calibration.sets|
  {
    var actorId, domain := p.calibration.attempts[a].adjudicatorId, p.calibration.sets[p.calibration.attempts[a].setId].domain;
    && (actorId in p.profiles ==>
          q.profiles == p.profiles[actorId := p.profiles[actorId].(status := if score.passed then Eligible else InCalibration)])
    && q.calibration.qualifications
         == p.calibration.qualifications
            + if score.passed && !HoldsActive(p.calibration.qualifications, actorId, domain) && domain in w.expiryDays
              then [Qualification(actorId, domain, Active, a, now + w.expiryDays[domain])] else []
  }

  lemma CompletionMeans(w: World, p: Program, a: nat, now: int)
    requires a < |p.calibration.attempts| && p.calibration.attempts[a].status == InProgress
    requires p.calibration.attempts[a].setId < |p.calibration.sets| && CompleteIfReady(w, p, a, now).Ok?
    ensures var q := CompleteIfReady(w, p, a, now).value;
      && a < |q.calibration.attempts| && q.credits == p.credits
      && if q.calibration.attempts[a].status == Completed then
           q.calibration.attempts[a].score.Some? && Promoted(w, p, q, a, q.calibration.attempts[a].score.value, now)
         else q == p
  {
  }

  /** One more credit, under the name the profile gives. */
  predicate CreditAdded(p: Program, q: Program, actorId: string, target: CreditTarget) {
    var n := |p.credits|;
    && |q.credits| == n + 1 && q.credits[..n] == p.credits && q.credits[n].actorId == actorId && q.credits[n].target == target
    && (actorId in p.profiles ==>
          q.credits[n].publicName == p.profiles[actorId].attributionName && q.credits[n].public == p.profiles[actorId].publicAttribution)
  }

  lemma CreditMeans(p: Program, actorId: string, target: CreditTarget)
    ensures var q := RecordCredit(p, actorId, target);
      && Credited(q.credits, actorId, target) && q == p.(credits := q.credits)
      && (if Credited(p.credits, actorId, target) then q.credits == p.credits else CreditAdded(p, q, actorId, target))
  {
    if !Credited(p.credits, actorId, target) {
      var q := RecordCredit(p, actorId, target);
      assert q.credits[|p.credits|] in q.credits;
    }
  }

  /** A recorded judgment is stored as given and credited. If it completes its attempt, its author becomes
      eligible exactly when the attempt passed, and a pass without an active qualification in the domain grants
      one that lasts as long as the domain's rule says; otherwise profiles and qualifications stay. */
  lemma JudgmentMeans(w: World, p: Program, taskId: nat, data: CalibrationInput, actorId: string, now: int)
    requires Good(w, p) && SubmitCalibration(w, p, taskId, data, actorId, now).Ok?
    ensures var q := SubmitCalibration(w, p, taskId, data, actorId, now).value;
      var a := p.calibration.tasks[taskId].attemptId;
      && taskId in q.calibration.submissions
      && q.calibration.submissions[taskId] == CalibrationSubmission(actorId, data.decision, R.DigestOf(data.decision))
      && Credited(q.credits, actorId, CalibrationCase(taskId))
      && a < |q.calibration.attempts| && p.calibration.attempts[a].setId < |p.calibration.sets|
      && Leads(w, p, q, a, now)
  {
    var c, a := p.calibration, p.calibration.tasks[taskId].attemptId;
    var recorded := p.(calibration := Recorded(c, taskId, actorId, data.decision));
    assert AttemptGood(c, p.profiles, a) && Timely(c, a);
    RecordedLeads(w, p, taskId, actorId, data.decision, now);
    CompletionKeepsSubmissions(w, recorded, a, now);
    CreditMeans(CompleteIfReady(w, recorded, a, now).value, actorId, CalibrationCase(taskId));
  }

  ghost predicate Leads(w: World, p: Program, q: Program, a: nat, now: int)
    requires a < |p.calibration.attempts| && p.calibration.attempts[a].setId < |p.calibration.sets|
    requires a < |q.calibration.attempts|
  {
    if q.calibration.attempts[a].status == Completed then
      q.calibration.attempts[a].score.Some? && Promoted(w, p, q, a, q.calibration.attempts[a].score.value, now)
    else q.profiles == p.profiles && q.calibration.qualifications == p.calibration.qualifications
  }

  lemma RecordedLeads(w: World, p: Program, taskId: nat, actorId: string, decision: Judgment, now: int)
    requires taskId < |p.calibration.tasks|
    requires var a := p.calibration.tasks[taskId].attemptId;
      && a < |p.calibration.attempts| && p.calibration.attempts[a].status == InProgress
      && p.calibration.attempts[a].setId < |p.calibration.sets|
      && CompleteIfReady(w, p.(calibration := Recorded(p.calibration, taskId, actorId, decision)), a, now).Ok?
    ensures var a := p.calibration.tasks[taskId].attemptId;
      var q := CompleteIfReady(w, p.(calibration := Recorded(p.calibration, taskId, actorId, decision)), a, now).value;
      a < |q.calibration.attempts| && Leads(w, p, q, a, now)
  {
    var a := p.calibration.tasks[taskId].attemptId;
    CompletionMeans(w, p.(calibration := Recorded(p.calibration, taskId, actorId, decision)), a, now);
  }

  lemma CompletionKeepsSubmissions(w: World, p: Program, a: nat, now: int)
    requires a < |p.calibration.attempts| && CompleteIfReady(w, p, a, now).Ok?
    ensures CompleteIfReady(w, p, a, now).value.calibration.submissions == p.calibration.submissions
  {
  }
}
