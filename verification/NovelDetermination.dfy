/** The determination policies: two primaries, and a tie-break where they do not settle the matter. */
module NovelDetermination {
  import opened Wrappers
  import M = Models

  type Severity = M.Severity

  datatype Outcome = Confirmed | Qualified | Rejected | Unresolved

  datatype Slot = Primary | Secondary | TieBreak

  datatype Decision = Decision(adjudicatorId: string, slot: Slot, validity: Outcome, severity: Severity)

  datatype PolicyResult = PolicyResult(outcome: Outcome, severity: Option<Severity>, requiresTieBreak: bool, finalized: bool)

  datatype PolicyError = TooManyPrimaries | SameExpertTwice | TooManyTieBreaks | TieBreakerIsPrimary

  function RequiresTwoPrimaries(s: Severity): bool {
    s == M.Major || s == M.Critical
  }

  // ---- The pairwise rules ------------------------------------------------------------

  /** The joint validity and whether a tie-break is needed. */
  function ValidityFromTwo(left: Outcome, right: Outcome): (Outcome, bool) {
    if left == right then (left, false)
    else if {left, right} == {Confirmed, Qualified} then (Qualified, false)
    else (Unresolved, true)
  }

  function Gap(left: Severity, right: Severity): nat {
    var l, r := M.SeverityOrder(left), M.SeverityOrder(right);
    if l >= r then l - r else r - l
  }

  /** The joint severity and whether a tie-break is needed. */
  function SeverityFromTwo(left: Severity, right: Severity): (Option<Severity>, bool) {
    if left == right then (Some(left), false)
    else if left == M.Critical || right == M.Critical then (None, true)
    else if Gap(left, right) <= 1 then (Some(if M.SeverityOrder(left) <= M.SeverityOrder(right) then left else right), false)
    else (None, true)
  }

  /** Severities are contested exactly when they differ and one is critical or they are two levels apart;
      otherwise the lower of the two stands. */
  lemma SeverityRuleMeans(left: Severity, right: Severity)
    ensures var (joint, contested) := SeverityFromTwo(left, right);
      && (contested <==> left != right && (left == M.Critical || right == M.Critical || Gap(left, right) >= 2))
      && (joint.Some? <==> !contested)
      && (joint.Some? ==>
            && joint.value in {left, right}
            && M.SeverityOrder(joint.value) <= M.SeverityOrder(left) && M.SeverityOrder(joint.value) <= M.SeverityOrder(right))
  {
  }

  /** Validities are contested exactly when they differ in more than confirmed against qualified; of those
      two, qualified stands. */
  lemma ValidityRuleMeans(left: Outcome, right: Outcome)
    ensures var (joint, contested) := ValidityFromTwo(left, right);
      && (contested <==> left != right && !(left in {Confirmed, Qualified} && right in {Confirmed, Qualified}))
      && (!contested ==> joint == if left == right then left else Qualified)
      && (contested ==> joint == Unresolved)
  {
  }

  lemma PairwiseRulesSymmetric(v: Outcome, w: Outcome, s: Severity, t: Severity)
    ensures ValidityFromTwo(v, w) == ValidityFromTwo(w, v)
    ensures SeverityFromTwo(s, t) == SeverityFromTwo(t, s)
  {
    assert {v, w} == {w, v};
  }

  // ---- The policy for novel concerns -------------------------------------------------

  predicate IsPrimary(d: Decision) {
    d.slot == Primary || d.slot == Secondary
  }

  function Primaries(ds: seq<Decision>): seq<Decision> {
    if ds == [] then [] else (if IsPrimary(ds[0]) then [ds[0]] else []) + Primaries(ds[1..])
  }

  function TieBreaks(ds: seq<Decision>): seq<Decision> {
    if ds == [] then [] else (if ds[0].slot == TieBreak then [ds[0]] else []) + TieBreaks(ds[1..])
  }

  /** Two primary decisions that leave validity or severity open. */
  predicate Contested(p: Decision, q: Decision) {
    ValidityFromTwo(p.validity, q.validity).1 || SeverityFromTwo(p.severity, q.severity).1
  }

  const PENDING := PolicyResult(Unresolved, None, false, false)

  /** What the policy says once the two kinds of decisions are apart. */
  function Judge(primaries: seq<Decision>, ties: seq<Decision>, requireTwo: bool): Result<PolicyResult, PolicyError> {
    if !requireTwo && |primaries| == 1 && ties == [] then
      Ok(PolicyResult(primaries[0].validity, Some(primaries[0].severity), false, true))
    else if |primaries| < 2 then Ok(PENDING)
    else if |primaries| > 2 then Err(TooManyPrimaries)
    else
      var p, q := primaries[0], primaries[1];
      if p.adjudicatorId == q.adjudicatorId then Err(SameExpertTwice)
      else
        var validity := ValidityFromTwo(p.validity, q.validity);
        var severity := SeverityFromTwo(p.severity, q.severity);
        if Contested(p, q) && ties == [] then Ok(PolicyResult(Unresolved, severity.0, true, false))
        else if Contested(p, q) && |ties| > 1 then Err(TooManyTieBreaks)
        else if Contested(p, q) && (ties[0].adjudicatorId == p.adjudicatorId || ties[0].adjudicatorId == q.adjudicatorId) then
          Err(TieBreakerIsPrimary)
        else if Contested(p, q) then Ok(PolicyResult(ties[0].validity, Some(ties[0].severity), false, true))
        else Ok(PolicyResult(validity.0, severity.0, false, true))
  }

  function DetermineNovel(ds: seq<Decision>, requireTwo: bool): Result<PolicyResult, PolicyError> {
    Judge(Primaries(ds), TieBreaks(ds), requireTwo)
  }

  // ---- The registry's own policy -----------------------------------------------------

  datatype RegistryResult = RegistryResult(status: M.ConcernStatus, severity: Option<Severity>, requiresTieBreak: bool)

  function StatusOf(o: Outcome): M.ConcernStatus {
    match o
    case Confirmed => M.Confirmed
    case Qualified => M.Qualified
    case Rejected => M.Rejected
    case Unresolved => M.Unresolved
  }

  function RegistryValidityFromTwo(left: Outcome, right: Outcome): (M.ConcernStatus, bool) {
    if left == right then (StatusOf(left), false)
    else if {left, right} == {Confirmed, Qualified} then (M.Qualified, false)
    else (M.UnderReview, true)
  }

  function RegistrySeverityFromTwo(left: Severity, right: Severity): (Option<Severity>, bool) {
    if left == right then (Some(left), false)
    else if M.Critical in {left, right} then (None, true)
    else if Gap(left, right) > 1 then (None, true)
    else (Some(if M.SeverityOrder(right) < M.SeverityOrder(left) then right else left), false)
  }

  function Determine(ds: seq<Decision>): RegistryResult {
    var primaries, ties := Primaries(ds), TieBreaks(ds);
    if |primaries| < 2 then RegistryResult(M.UnderReview, None, false)
    else
      var validity := RegistryValidityFromTwo(primaries[0].validity, primaries[1].validity);
      var severity := RegistrySeverityFromTwo(primaries[0].severity, primaries[1].severity);
      var tieRequired := validity.1 || severity.1;
      if tieRequired && ties == [] then RegistryResult(M.UnderReview, severity.0, true)
      else if tieRequired then
        RegistryResult(StatusOf(ties[|ties| - 1].validity), Some(ties[|ties| - 1].severity), false)
      else RegistryResult(validity.0, severity.0, false)
  }

  /** Where the novel policy decides at all, the two policies agree; it refuses exactly the logs in
      which one expert holds two of the roles. */
  lemma PoliciesAgree(ds: seq<Decision>)
    requires |Primaries(ds)| <= 2 && |TieBreaks(ds)| <= 1
    ensures var novel, registry := DetermineNovel(ds, true), Determine(ds);
      && (novel.Ok? ==>
            novel.value.severity == registry.severity
            && novel.value.requiresTieBreak == registry.requiresTieBreak
            && registry.status == if novel.value.finalized then StatusOf(novel.value.outcome) else M.UnderReview)
      && (novel.Err? <==>
            |Primaries(ds)| == 2
            && (var p, q := Primaries(ds)[0], Primaries(ds)[1];
                p.adjudicatorId == q.adjudicatorId
                || (Contested(p, q) && TieBreaks(ds) != []
                    && (TieBreaks(ds)[0].adjudicatorId == p.adjudicatorId || TieBreaks(ds)[0].adjudicatorId == q.adjudicatorId))))
  {
  }

  // ---- Independence of the order of decisions ----------------------------------------

  lemma {:induction false} FiltersCount(ds: seq<Decision>, d: Decision)
    ensures multiset(Primaries(ds))[d] == if IsPrimary(d) then multiset(ds)[d] else 0
    ensures multiset(TieBreaks(ds))[d] == if d.slot == TieBreak then multiset(ds)[d] else 0
  {
    if ds != [] {
      FiltersCount(ds[1..], d);
      assert ds == [ds[0]] + ds[1..];
    }
  }

  lemma FiltersPermute(a: seq<Decision>, b: seq<Decision>)
    requires multiset(a) == multiset(b)
    ensures multiset(Primaries(a)) == multiset(Primaries(b))
    ensures multiset(TieBreaks(a)) == multiset(TieBreaks(b))
  {
    forall d ensures multiset(Primaries(a))[d] == multiset(Primaries(b))[d]
             && multiset(TieBreaks(a))[d] == multiset(TieBreaks(b))[d] {
      FiltersCount(a, d);
      FiltersCount(b, d);
    }
  }

  lemma SamePair(p: Decision, q: Decision, u: Decision, v: Decision)
    requires multiset{p, q} == multiset{u, v}
    ensures (p == u && q == v) || (p == v && q == u)
  {
  }

  lemma SameSize(a: seq<Decision>, b: seq<Decision>)
    requires multiset(a) == multiset(b)
    ensures |a| == |b|
  {
    assert |a| == |multiset(a)| && |b| == |multiset(b)|;
  }

  lemma SamePairs(a: seq<Decision>, b: seq<Decision>)
    requires multiset(a) == multiset(b) && |a| == 2
    ensures |b| == 2 && (a == b || (a[0] == b[1] && a[1] == b[0]))
  {
    SameSize(a, b);
    assert a == [a[0], a[1]] && b == [b[0], b[1]];
    SamePair(a[0], a[1], b[0], b[1]);
  }

  lemma SameOnly(a: seq<Decision>, b: seq<Decision>)
    requires multiset(a) == multiset(b) && |a| == 1
    ensures a == b
  {
    SameSize(a, b);
    assert b[0] in multiset(a);
  }

  lemma JudgeForgetsOrder(a: seq<Decision>, b: seq<Decision>, s: seq<Decision>, t: seq<Decision>, requireTwo: bool)
    requires multiset(a) == multiset(b) && multiset(s) == multiset(t)
    ensures Judge(a, s, requireTwo) == Judge(b, t, requireTwo)
  {
    SameSize(a, b);
    SameSize(s, t);
    if |s| == 1 {
      SameOnly(s, t);
    }
    if |a| == 1 {
      SameOnly(a, b);
    } else if |a| == 2 {
      SamePairs(a, b);
      PairwiseRulesSymmetric(a[0].validity, a[1].validity, a[0].severity, a[1].severity);
    }
  }

  /** Every log, however long: the outcome does not depend on the order of its decisions. */
  lemma PolicyForgetsOrder(a: seq<Decision>, b: seq<Decision>, requireTwo: bool)
    requires multiset(a) == multiset(b)
    ensures DetermineNovel(a, requireTwo) == DetermineNovel(b, requireTwo)
  {
    FiltersPermute(a, b);
    JudgeForgetsOrder(Primaries(a), Primaries(b), TieBreaks(a), TieBreaks(b), requireTwo);
  }

  // ---- The policy read off the slots -------------------------------------------------

  predicate DistinctSlots(ds: seq<Decision>) {
    forall i, j :: 0 <= i < j < |ds| ==> ds[i].slot != ds[j].slot
  }

  /** The decision given in a slot. */
  function InSlot(ds: seq<Decision>, slot: Slot): Option<Decision> {
    if ds == [] then None else if ds[0].slot == slot then Some(ds[0]) else InSlot(ds[1..], slot)
  }

  /** The policy for at most one decision per slot. */
  function PolicyBySlot(p: Option<Decision>, q: Option<Decision>, t: Option<Decision>,
      requireTwo: bool): Result<PolicyResult, PolicyError> {
    if !requireTwo && t.None? && (p.Some? != q.Some?) then
      var only := if p.Some? then p.value else q.value;
      Ok(PolicyResult(only.validity, Some(only.severity), false, true))
    else if p.None? || q.None? then Ok(PENDING)
    else if p.value.adjudicatorId == q.value.adjudicatorId then Err(SameExpertTwice)
    else if !Contested(p.value, q.value) then
      Ok(PolicyResult(ValidityFromTwo(p.value.validity, q.value.validity).0,
        SeverityFromTwo(p.value.severity, q.value.severity).0, false, true))
    else if t.None? then
      Ok(PolicyResult(Unresolved, SeverityFromTwo(p.value.severity, q.value.severity).0, true, false))
    else if t.value.adjudicatorId == p.value.adjudicatorId || t.value.adjudicatorId == q.value.adjudicatorId then Err(TieBreakerIsPrimary)
    else Ok(PolicyResult(t.value.validity, Some(t.value.severity), false, true))
  }

  ghost predicate OneOfEach(ds: seq<Decision>, p: Option<Decision>, q: Option<Decision>) {
    if p.None? && q.None? then ds == []
    else if q.None? then ds == [p.value]
    else if p.None? then ds == [q.value]
    else ds == [p.value, q.value] || ds == [q.value, p.value]
  }

  lemma {:induction false} SlotsFound(ds: seq<Decision>, slot: Slot)
    ensures InSlot(ds, slot).Some? <==> exists i :: 0 <= i < |ds| && ds[i].slot == slot
    ensures InSlot(ds, slot).Some? ==> InSlot(ds, slot).value.slot == slot && InSlot(ds, slot).value in ds
  {
    if ds != [] {
      var rest := ds[1..];
      SlotsFound(rest, slot);
      assert forall i :: 0 <= i < |rest| ==> rest[i] == ds[i + 1];
    }
  }

  lemma {:induction false} SlotsDecompose(ds: seq<Decision>)
    requires DistinctSlots(ds)
    ensures OneOfEach(Primaries(ds), InSlot(ds, Primary), InSlot(ds, Secondary))
    ensures OneOfEach(TieBreaks(ds), InSlot(ds, TieBreak), None)
  {
    if ds != [] {
      var rest := ds[1..];
      SlotsDecompose(rest);
      assert forall i :: 0 <= i < |rest| ==> rest[i] == ds[i + 1];
      SlotsFound(rest, ds[0].slot);
    }
  }

  lemma PolicyIsBySlot(ds: seq<Decision>, requireTwo: bool)
    requires DistinctSlots(ds)
    ensures DetermineNovel(ds, requireTwo)
         == PolicyBySlot(InSlot(ds, Primary), InSlot(ds, Secondary), InSlot(ds, TieBreak), requireTwo)
  {
    SlotsDecompose(ds);
    var p, q := InSlot(ds, Primary), InSlot(ds, Secondary);
    if p.Some? && q.Some? {
      PairwiseRulesSymmetric(p.value.validity, q.value.validity, p.value.severity, q.value.severity);
    }
  }

  lemma {:induction false} InSlotSnoc(ds: seq<Decision>, d: Decision, slot: Slot)
    ensures InSlot(ds + [d], slot) == if InSlot(ds, slot).None? && d.slot == slot then Some(d) else InSlot(ds, slot)
  {
    if ds == [] {
      assert ds + [d] == [d];
    } else {
      assert (ds + [d])[1..] == ds[1..] + [d];
      InSlotSnoc(ds[1..], d, slot);
    }
  }

  lemma DistinctSlotsSnoc(ds: seq<Decision>, d: Decision)
    requires DistinctSlots(ds) && InSlot(ds, d.slot).None?
    ensures DistinctSlots(ds + [d])
  {
    SlotsFound(ds, d.slot);
  }

  function SlotsOf(ds: seq<Decision>): set<Slot> {
    set d | d in ds :: d.slot
  }

  lemma SlotsCons(d: Decision, rest: seq<Decision>)
    ensures SlotsOf([d] + rest) == {d.slot} + SlotsOf(rest)
  {
  }

  lemma {:induction false} SlotsCounted(ds: seq<Decision>)
    requires DistinctSlots(ds)
    ensures |ds| == |SlotsOf(ds)|
  {
    if ds != [] {
      var rest := ds[1..];
      SlotsCounted(rest);
      SlotsCons(ds[0], rest);
      assert ds == [ds[0]] + rest && ds[0].slot !in SlotsOf(rest);
    }
  }

  lemma AtMostThree(ds: seq<Decision>)
    requires DistinctSlots(ds)
    ensures |ds| <= 3
  {
    SlotsCounted(ds);
    var slots := SlotsOf(ds);
    var all := {Primary, Secondary, TieBreak};
    assert slots <= all;
    assert |all - slots| == |all| - |slots|;
  }
}
