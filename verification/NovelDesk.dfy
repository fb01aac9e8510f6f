/** One candidate's part of the tables, and the two moves that change it. The registry keeps every
    desk in order; claims and submissions on other candidates leave it alone. */
module NovelDesk {
  import opened Wrappers
  import Q = NovelQueue
  import D = NovelDetermination
  import opened NovelRegistry

  datatype Desk = Desk(
    two: bool,
    ingested: Q.CandidateState,
    state: Q.CandidateState,
    primary: Option<TaskRow>,
    secondary: Option<TaskRow>,
    tieBreak: Option<TaskRow>,
    log: seq<D.Decision>,
    finals: seq<D.PolicyResult>)
  {
    function Task(slot: D.Slot): Option<TaskRow> {
      match slot
      case Primary => primary
      case Secondary => secondary
      case TieBreak => tieBreak
    }

    function WithTask(slot: D.Slot, row: TaskRow): Desk {
      match slot
      case Primary => this.(primary := Some(row))
      case Secondary => this.(secondary := Some(row))
      case TieBreak => this.(tieBreak := Some(row))
    }

    function Decided(slot: D.Slot): Option<D.Decision> {
      D.InSlot(log, slot)
    }
  }

  // ---- The moves ---------------------------------------------------------------------

  function DeskClaim(d: Desk, slot: D.Slot, actorId: string): Result<Desk, ServiceError> {
    if d.Task(slot).None? then Err(NotFound)
    else if d.Task(slot).value.status != TaskPending then Err(NotPending)
    else if AdjudicatedBefore(d.log, actorId) then Err(AlreadyAdjudicated)
    else Ok(d.WithTask(slot, TaskRow(TaskClaimed, Some(actorId))))
  }

  function Concluded(d: Desk, policy: D.PolicyResult): Desk {
    d.(tieBreak := if policy.requiresTieBreak && d.tieBreak.None? then Some(TaskRow(TaskPending, None)) else d.tieBreak,
       finals := if policy.finalized then d.finals + [policy] else d.finals,
       state := if policy.finalized then StateFor(policy.outcome) else d.state)
  }

  function DeskSubmit(d: Desk, slot: D.Slot, actorId: string, verdict: Verdict): Result<Desk, ServiceError> {
    if d.Task(slot).None? then Err(NotFound)
    else if d.Task(slot).value.assignedTo != Some(actorId) then Err(NotAssigned)
    else if d.Task(slot).value.status != TaskClaimed then Err(NotClaimed)
    else if d.finals != [] then Err(AlreadyFinalized)
    else
      var log := d.log + [D.Decision(actorId, slot, verdict.validity, verdict.severity)];
      match D.DetermineNovel(log, d.two)
      case Err(e) => Err(PolicyRefused(e))
      case Ok(policy) => Ok(Concluded(d.WithTask(slot, TaskRow(TaskCompleted, Some(actorId))).(log := log), policy))
  }

  // ---- A desk in order ---------------------------------------------------------------

  predicate TaskMatches(task: Option<TaskRow>, given: Option<D.Decision>) {
    && (task.Some? ==> (task.value.status == TaskPending <==> task.value.assignedTo.None?))
    && (given.Some? <==> task.Some? && task.value.status == TaskCompleted)
    && (given.Some? ==> task.value.assignedTo == Some(given.value.adjudicatorId))
  }

  predicate Assigned(task: Option<TaskRow>, actorId: string) {
    task.Some? && task.value.assignedTo == Some(actorId)
  }

  /** The tasks of a desk against the three decisions, if given. */
  predicate SlotsInOrder(d: Desk, p: Option<D.Decision>, q: Option<D.Decision>, t: Option<D.Decision>) {
    && TaskMatches(d.primary, p) && TaskMatches(d.secondary, q) && TaskMatches(d.tieBreak, t)
    && (d.secondary.Some? <==> d.two && d.primary.Some?)
    && (d.tieBreak.Some? <==> p.Some? && q.Some? && D.Contested(p.value, q.value))
    && (p.Some? && q.Some? ==> p.value.adjudicatorId != q.value.adjudicatorId)
    && (d.tieBreak.Some? ==> !Assigned(d.tieBreak, p.value.adjudicatorId) && !Assigned(d.tieBreak, q.value.adjudicatorId))
  }

  predicate FinalsMatch(d: Desk, policy: D.PolicyResult) {
    if policy.finalized then d.finals == [policy] && d.state == StateFor(policy.outcome)
    else d.finals == [] && d.state == d.ingested
  }

  ghost predicate InOrder(d: Desk) {
    && D.DistinctSlots(d.log)
    && SlotsInOrder(d, d.Decided(D.Primary), d.Decided(D.Secondary), d.Decided(D.TieBreak))
    && D.DetermineNovel(d.log, d.two).Ok?
    && FinalsMatch(d, D.DetermineNovel(d.log, d.two).value)
  }

  lemma MatchesBySlot(d: Desk, slot: D.Slot)
    requires InOrder(d)
    ensures D.DistinctSlots(d.log) && TaskMatches(d.Task(slot), d.Decided(slot)) && |d.finals| <= 1
  {
  }

  predicate GaveSlot(log: seq<D.Decision>, slot: D.Slot, actorId: string) {
    D.InSlot(log, slot).Some? && D.InSlot(log, slot).value.adjudicatorId == actorId
  }

  /** A primary decision is one given in one of the two primary slots. */
  lemma PrimariesBySlot(log: seq<D.Decision>, actorId: string)
    requires D.DistinctSlots(log)
    ensures AdjudicatedBefore(log, actorId) <==> GaveSlot(log, D.Primary, actorId) || GaveSlot(log, D.Secondary, actorId)
  {
    D.SlotsDecompose(log);
    var p, q := D.InSlot(log, D.Primary), D.InSlot(log, D.Secondary);
    assert forall d :: d in D.Primaries(log) <==> Some(d) == p || Some(d) == q;
  }

  lemma ClaimKeepsOrder(d: Desk, slot: D.Slot, actorId: string)
    requires InOrder(d) && DeskClaim(d, slot, actorId).Ok?
    ensures InOrder(DeskClaim(d, slot, actorId).value)
  {
    PrimariesBySlot(d.log, actorId);
  }

  /** The guard that can fire: both primary tasks are held by one expert. */
  predicate HoldsOther(d: Desk, slot: D.Slot, actorId: string) {
    match slot
    case Primary => GaveSlot(d.log, D.Secondary, actorId)
    case Secondary => GaveSlot(d.log, D.Primary, actorId)
    case TieBreak => false
  }

  /** Where the submission is let through to the policy. */
  predicate MaySubmit(d: Desk, slot: D.Slot, actorId: string) {
    d.Task(slot) == Some(TaskRow(TaskClaimed, Some(actorId))) && d.finals == []
  }

  lemma SubmittedPolicy(d: Desk, slot: D.Slot, actorId: string, verdict: Verdict)
    requires InOrder(d) && MaySubmit(d, slot, actorId)
    ensures var decision := D.Decision(actorId, slot, verdict.validity, verdict.severity);
      var log := d.log + [decision];
      && d.Decided(slot).None? && D.DistinctSlots(log)
      && (forall s :: D.InSlot(log, s) == if s == slot then Some(decision) else d.Decided(s))
      && D.DetermineNovel(log, d.two)
           == D.PolicyBySlot(D.InSlot(log, D.Primary), D.InSlot(log, D.Secondary), D.InSlot(log, D.TieBreak), d.two)
  {
    var decision := D.Decision(actorId, slot, verdict.validity, verdict.severity);
    assert d.Decided(slot).None?;
    D.DistinctSlotsSnoc(d.log, decision);
    forall s ensures D.InSlot(d.log + [decision], s) == if s == slot then Some(decision) else d.Decided(s) {
      D.InSlotSnoc(d.log, decision, s);
    }
    D.PolicyIsBySlot(d.log + [decision], d.two);
  }

  /** On a desk in order the only refusal the policy can give is that one expert holds both primary
      slots, and it gives it exactly then. */
  lemma OnlySameExpertRefused(d: Desk, slot: D.Slot, actorId: string, verdict: Verdict)
    requires InOrder(d) && MaySubmit(d, slot, actorId)
    ensures var r := DeskSubmit(d, slot, actorId, verdict);
      && (r.Err? <==> HoldsOther(d, slot, actorId))
      && (r.Err? ==> r.error == PolicyRefused(D.SameExpertTwice))
  {
    SubmittedPolicy(d, slot, actorId, verdict);
    D.PolicyIsBySlot(d.log, d.two);
  }

  lemma SubmitKeepsOrder(d: Desk, slot: D.Slot, actorId: string, verdict: Verdict)
    requires InOrder(d) && DeskSubmit(d, slot, actorId, verdict).Ok?
    ensures InOrder(DeskSubmit(d, slot, actorId, verdict).value)
  {
    SubmittedPolicy(d, slot, actorId, verdict);
    D.PolicyIsBySlot(d.log, d.two);
  }

  /** Seeded desks are final exactly when no task is left to do. */
  predicate AllDone(d: Desk) {
    forall slot :: d.Task(slot).Some? ==> d.Task(slot).value.status == TaskCompleted
  }

  lemma FinalIffDone(d: Desk)
    requires InOrder(d) && d.primary.Some?
    ensures d.finals != [] <==> AllDone(d)
  {
    D.PolicyIsBySlot(d.log, d.two);
    assert d.Task(D.Primary) == d.primary && d.Task(D.Secondary) == d.secondary && d.Task(D.TieBreak) == d.tieBreak;
  }

  /** The final result of a desk is a function of its decisions, whatever their order. */
  lemma FinalsForgetOrder(a: Desk, b: Desk)
    requires InOrder(a) && InOrder(b) && a.two == b.two
    requires multiset(a.log) == multiset(b.log)
    ensures a.finals == b.finals
    ensures a.finals != [] ==> a.state == b.state
  {
    D.PolicyForgetsOrder(a.log, b.log, a.two);
  }
}
