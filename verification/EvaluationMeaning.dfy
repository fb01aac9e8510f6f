/** What the published counters of an evaluation count, in terms of the records and the matches alone. */
module EvaluationMeaning {
  import opened Wrappers
  import opened Models
  import opened Matching
  import opened ReferencePolicy
  import opened Anchoring
  import opened Engine
  import opened EngineTheorems
  import opened MetricMeaning

  // ---- Counting records --------------------------------------------------------------

  predicate IsMatched(s: SubmittedConcern, ms: seq<ConcernMatch>) {
    exists m :: m in ms && m.submittedLocalId == s.localId
  }

  predicate IsRecalled(c: Concern, ms: seq<ConcernMatch>) {
    exists m :: m in ms && m.referenceConcernId == c.concernId
  }

  /** Confirmed and qualified concerns are gold, and those resolved by correcting the manuscript. */
  predicate IsGold(c: Concern) {
    c.status in {Confirmed, Qualified} || (c.status == ConcernStatus.Resolved && c.disposition == Some(ManuscriptCorrection))
  }

  /** The positions of the submitted concerns of a severity that are matched, or are not. */
  function SubmittedAt(concerns: seq<SubmittedConcern>, ms: seq<ConcernMatch>, severity: Severity, hit: bool): set<nat> {
    set i: nat | i < |concerns| && concerns[i].severity == severity && IsMatched(concerns[i], ms) == hit
  }

  /** The positions of the gold concerns of a severity that are matched, or are not. */
  function GoldAt(concerns: seq<Concern>, ms: seq<ConcernMatch>, severity: Severity, hit: bool): set<nat> {
    set i: nat | i < |concerns| && IsGold(concerns[i]) && concerns[i].severity == severity && IsRecalled(concerns[i], ms) == hit
  }

  function GoldIn(concerns: seq<Concern>): set<nat> {
    set i: nat | i < |concerns| && IsGold(concerns[i])
  }

  /** A critical concern weighs four points, a major three, a moderate two, a minor one and an
      informational half a point. */
  function Points(critical: nat, major: nat, moderate: nat, minor: nat, informational: nat): real {
    4.0 * critical as real + 3.0 * major as real + 2.0 * moderate as real + minor as real + 0.5 * informational as real
  }

  function SubmittedPoints(concerns: seq<SubmittedConcern>, ms: seq<ConcernMatch>, hit: bool): real {
    Points(|SubmittedAt(concerns, ms, Critical, hit)|, |SubmittedAt(concerns, ms, Major, hit)|,
      |SubmittedAt(concerns, ms, Moderate, hit)|, |SubmittedAt(concerns, ms, Minor, hit)|,
      |SubmittedAt(concerns, ms, Informational, hit)|)
  }

  function GoldPoints(concerns: seq<Concern>, ms: seq<ConcernMatch>, hit: bool): real {
    Points(|GoldAt(concerns, ms, Critical, hit)|, |GoldAt(concerns, ms, Major, hit)|, |GoldAt(concerns, ms, Moderate, hit)|,
      |GoldAt(concerns, ms, Minor, hit)|, |GoldAt(concerns, ms, Informational, hit)|)
  }

  function Times(x: real, y: real): real {
    x * y
  }

  /** A matched concern is penalised for what its confidence lacks of one, any other for its confidence. */
  function Penalty(s: SubmittedConcern, ms: seq<ConcernMatch>): real {
    if IsMatched(s, ms) then Times(1.0 - s.confidence, 1.0 - s.confidence) else Times(s.confidence, s.confidence)
  }

  function Penalties(concerns: seq<SubmittedConcern>, ms: seq<ConcernMatch>): real {
    if concerns == [] then 0.0
    else Penalties(concerns[..|concerns| - 1], ms) + Penalty(concerns[|concerns| - 1], ms)
  }

  function AnchorCount(concerns: seq<SubmittedConcern>): nat {
    if concerns == [] then 0 else AnchorCount(concerns[..|concerns| - 1]) + |concerns[|concerns| - 1].anchors|
  }

  /** The submitted anchors that stand for exactly one anchor of the pool. */
  function SingledOut(ops: TextOps, s: SubmittedConcern, pool: set<Anchor>): set<nat> {
    set k: nat | k < |s.anchors| && |Resolution(ops, s.anchors[k], pool).referenceAnchorIds| == 1
  }

  function SingledOutCount(ops: TextOps, concerns: seq<SubmittedConcern>, pool: set<Anchor>): nat {
    if concerns == [] then 0
    else SingledOutCount(ops, concerns[..|concerns| - 1], pool) + |SingledOut(ops, concerns[|concerns| - 1], pool)|
  }

  // ---- One case ----------------------------------------------------------------------

  /** What a case contributes. */
  datatype Account = Account(
    concerns: nat, hitPoints: real, missPoints: real, missedCritical: nat, penalties: real,
    gold: nat, recalledPoints: real, lostPoints: real, anchors: nat, singledOut: nat)
  {
    function Plus(a: Account): Account {
      Account(concerns + a.concerns, hitPoints + a.hitPoints, missPoints + a.missPoints,
        missedCritical + a.missedCritical, penalties + a.penalties,
        gold + a.gold, recalledPoints + a.recalledPoints, lostPoints + a.lostPoints,
        anchors + a.anchors, singledOut + a.singledOut)
    }
  }

  const NOTHING := Account(0, 0.0, 0.0, 0, 0.0, 0, 0.0, 0.0, 0, 0)

  function AccountOf(ops: TextOps, concerns: seq<SubmittedConcern>, references: seq<Concern>, pool: set<Anchor>,
      ms: seq<ConcernMatch>): Account
  {
    Account(|concerns|, SubmittedPoints(concerns, ms, true), SubmittedPoints(concerns, ms, false),
      |SubmittedAt(concerns, ms, Critical, false)|, Penalties(concerns, ms),
      |GoldIn(references)|,
      GoldPoints(references, ms, true), GoldPoints(references, ms, false),
      AnchorCount(concerns), SingledOutCount(ops, concerns, pool))
  }

  /** The tally counts what the account says, the precision family on complete reference sets only. */
  ghost predicate Tallies(t: Tally, a: Account, complete: bool) {
    && t.submitted == a.concerns && t.eligible == a.gold
    && t.anchorTotal == a.anchors && t.anchorResolved == a.singledOut
    && t.recallNum == a.recalledPoints && t.recallDen == a.recalledPoints + a.lostPoints
    && (complete ==>
          && t.precisionNum == a.hitPoints && t.precisionDen == a.hitPoints + a.missPoints
          && t.falseCritical == a.missedCritical && t.brierSum == a.penalties && t.brierCount == a.concerns)
  }

  lemma SubmittedSnoc(concerns: seq<SubmittedConcern>, s: SubmittedConcern, ms: seq<ConcernMatch>, severity: Severity, hit: bool)
    ensures |SubmittedAt(concerns + [s], ms, severity, hit)|
         == |SubmittedAt(concerns, ms, severity, hit)| + if s.severity == severity && IsMatched(s, ms) == hit then 1 else 0
  {
    var all := concerns + [s];
    assert SubmittedAt(all, ms, severity, hit) == SubmittedAt(concerns, ms, severity, hit)
      + if s.severity == severity && IsMatched(s, ms) == hit then {|concerns|} else {};
  }

  lemma SubmittedPointsSnoc(concerns: seq<SubmittedConcern>, s: SubmittedConcern, ms: seq<ConcernMatch>, hit: bool)
    ensures SubmittedPoints(concerns + [s], ms, hit)
         == SubmittedPoints(concerns, ms, hit) + if IsMatched(s, ms) == hit then SeverityWeight(s.severity) else 0.0
  {
    SubmittedSnoc(concerns, s, ms, Critical, hit);
    SubmittedSnoc(concerns, s, ms, Major, hit);
    SubmittedSnoc(concerns, s, ms, Moderate, hit);
    SubmittedSnoc(concerns, s, ms, Minor, hit);
    SubmittedSnoc(concerns, s, ms, Informational, hit);
  }

  lemma GoldSnoc(concerns: seq<Concern>, c: Concern, ms: seq<ConcernMatch>, severity: Severity, hit: bool)
    ensures |GoldAt(concerns + [c], ms, severity, hit)|
         == |GoldAt(concerns, ms, severity, hit)| + if IsGold(c) && c.severity == severity && IsRecalled(c, ms) == hit then 1 else 0
  {
    var all := concerns + [c];
    assert GoldAt(all, ms, severity, hit) == GoldAt(concerns, ms, severity, hit)
      + if IsGold(c) && c.severity == severity && IsRecalled(c, ms) == hit then {|concerns|} else {};
  }

  lemma GoldPointsSnoc(concerns: seq<Concern>, c: Concern, ms: seq<ConcernMatch>, hit: bool)
    ensures GoldPoints(concerns + [c], ms, hit)
         == GoldPoints(concerns, ms, hit) + if IsGold(c) && IsRecalled(c, ms) == hit then SeverityWeight(c.severity) else 0.0
  {
    GoldSnoc(concerns, c, ms, Critical, hit);
    GoldSnoc(concerns, c, ms, Major, hit);
    GoldSnoc(concerns, c, ms, Moderate, hit);
    GoldSnoc(concerns, c, ms, Minor, hit);
    GoldSnoc(concerns, c, ms, Informational, hit);
  }

  lemma BrierTerm(s: SubmittedConcern, ms: seq<ConcernMatch>)
    ensures Square(s.confidence - (if IsMatched(s, ms) then 1.0 else 0.0)) == Penalty(s, ms)
  {
    if IsMatched(s, ms) {
      NegatedSquare(1.0 - s.confidence);
      assert s.confidence - 1.0 == -(1.0 - s.confidence);
    }
  }

  lemma ConcernCounts(s: SubmittedConcern, ms: seq<ConcernMatch>)
    ensures var t := ConcernTally(s, MatchedSubmitted(ms));
      && t == ZERO.(precisionNum := t.precisionNum, precisionDen := t.precisionDen, falseCritical := t.falseCritical,
                brierSum := t.brierSum, brierCount := 1)
      && t.precisionDen == SeverityWeight(s.severity)
      && t.precisionNum == (if IsMatched(s, ms) then SeverityWeight(s.severity) else 0.0)
      && t.falseCritical == (if s.severity == Critical && !IsMatched(s, ms) then 1 else 0)
      && t.brierSum == Penalty(s, ms)
  {
    BrierTerm(s, ms);
  }

  ghost predicate PrecisionCounts(t: Tally, concerns: seq<SubmittedConcern>, ms: seq<ConcernMatch>) {
    && t.precisionNum == SubmittedPoints(concerns, ms, true)
    && t.precisionDen == SubmittedPoints(concerns, ms, true) + SubmittedPoints(concerns, ms, false)
    && t.falseCritical == |SubmittedAt(concerns, ms, Critical, false)|
    && t.brierSum == Penalties(concerns, ms) && t.brierCount == |concerns|
  }

  lemma {:induction false} PrecisionCounted(concerns: seq<SubmittedConcern>, ms: seq<ConcernMatch>, completeness: ReferenceCompleteness)
    requires CompleteForPrecision(completeness)
    ensures PrecisionCounts(PrecisionTally(concerns, MatchedSubmitted(ms), completeness), concerns, ms)
  {
    if concerns != [] {
      var init, s := concerns[..|concerns| - 1], concerns[|concerns| - 1];
      assert concerns == init + [s];
      PrecisionCounted(init, ms, completeness);
      ConcernCounts(s, ms);
      SubmittedPointsSnoc(init, s, ms, true);
      SubmittedPointsSnoc(init, s, ms, false);
      SubmittedSnoc(init, s, ms, Critical, false);
    }
  }

  // The recall tally runs over the eligible concerns, the account over all of them.

  lemma {:induction false} EligibleSnoc(concerns: seq<Concern>, c: Concern)
    ensures Eligible(concerns + [c]) == Eligible(concerns) + if IsEligible(c) then [c] else []
  {
    if concerns == [] {
      assert concerns + [c] == [c] + [];
      EligibleCons(c, []);
    } else {
      assert concerns + [c] == [concerns[0]] + (concerns[1..] + [c]);
      EligibleCons(concerns[0], concerns[1..] + [c]);
      EligibleSnoc(concerns[1..], c);
    }
  }

  lemma GoldCountSnoc(concerns: seq<Concern>, c: Concern)
    ensures |GoldIn(concerns + [c])| == |GoldIn(concerns)| + if IsGold(c) then 1 else 0
  {
    assert GoldIn(concerns + [c]) == GoldIn(concerns) + if IsGold(c) then {|concerns|} else {};
  }

  lemma RecallSnoc(refs: seq<Concern>, c: Concern, used: set<string>)
    requires IsEligible(c) && forall r :: r in refs ==> IsEligible(r)
    ensures RecallTally(refs + [c], used)
         == RecallTally(refs, used).Plus(ZERO.(recallDen := SeverityWeight(c.severity),
              recallNum := if c.concernId in used then SeverityWeight(c.severity) else 0.0))
  {
    assert (refs + [c])[..|refs|] == refs;
  }

  ghost predicate RecallCounts(t: Tally, concerns: seq<Concern>, ms: seq<ConcernMatch>) {
    && t.recallNum == GoldPoints(concerns, ms, true)
    && t.recallDen == GoldPoints(concerns, ms, true) + GoldPoints(concerns, ms, false)
  }

  lemma RecallStep(init: seq<Concern>, c: Concern, ms: seq<ConcernMatch>)
    requires RecallCounts(RecallTally(Eligible(init), MatchedReference(ms)), init, ms)
    ensures RecallCounts(RecallTally(Eligible(init) + (if IsEligible(c) then [c] else []), MatchedReference(ms)), init + [c], ms)
  {
    GoldPointsSnoc(init, c, ms, true);
    GoldPointsSnoc(init, c, ms, false);
    if IsEligible(c) {
      RecallSnoc(Eligible(init), c, MatchedReference(ms));
    } else {
      assert Eligible(init) + [] == Eligible(init);
    }
  }

  lemma {:induction false} RecallCounted(concerns: seq<Concern>, ms: seq<ConcernMatch>)
    ensures RecallCounts(RecallTally(Eligible(concerns), MatchedReference(ms)), concerns, ms)
  {
    if concerns != [] {
      var init, c := concerns[..|concerns| - 1], concerns[|concerns| - 1];
      assert concerns == init + [c];
      RecallCounted(init, ms);
      EligibleSnoc(init, c);
      RecallStep(init, c, ms);
    }
  }

  lemma {:induction false} EligibleCounted(concerns: seq<Concern>)
    ensures |Eligible(concerns)| == |GoldIn(concerns)|
  {
    if concerns == [] {
      assert GoldIn(concerns) == {};
    } else {
      var init, c := concerns[..|concerns| - 1], concerns[|concerns| - 1];
      assert concerns == init + [c];
      EligibleCounted(init);
      EligibleSnoc(init, c);
      GoldCountSnoc(init, c);
    }
  }

  /** An anchor counts as resolved exactly when it stands for one anchor. */
  lemma ResolvedIsSingle(ops: TextOps, s: SubmittedAnchor, pool: set<Anchor>)
    ensures Anchoring.Resolved(Resolution(ops, s, pool)) <==> |Resolution(ops, s, pool).referenceAnchorIds| == 1
  {
  }

  function ResolvedAt(rs: seq<AnchorResolution>): set<nat> {
    set k: nat | k < |rs| && Anchoring.Resolved(rs[k])
  }

  lemma ResolvedAtSnoc(rs: seq<AnchorResolution>, r: AnchorResolution)
    ensures |ResolvedAt(rs + [r])| == |ResolvedAt(rs)| + if Anchoring.Resolved(r) then 1 else 0
  {
    assert ResolvedAt(rs + [r]) == ResolvedAt(rs) + if Anchoring.Resolved(r) then {|rs|} else {};
  }

  lemma {:induction false} ResolvedCountSnoc(rs: seq<AnchorResolution>, r: AnchorResolution)
    ensures ResolvedCount(rs + [r]) == ResolvedCount(rs) + if Anchoring.Resolved(r) then 1 else 0
  {
    if rs == [] {
      assert rs + [r] == [r] && [r][1..] == [];
    } else {
      assert (rs + [r])[1..] == rs[1..] + [r];
      ResolvedCountSnoc(rs[1..], r);
    }
  }

  lemma {:induction false} ResolvedCountIs(rs: seq<AnchorResolution>)
    ensures ResolvedCount(rs) == |ResolvedAt(rs)|
  {
    if rs == [] {
      assert ResolvedAt(rs) == {};
    } else {
      var init, r := rs[..|rs| - 1], rs[|rs| - 1];
      assert rs == init + [r];
      ResolvedCountIs(init);
      ResolvedCountSnoc(init, r);
      ResolvedAtSnoc(init, r);
    }
  }

  lemma ConcernAnchors(ops: TextOps, s: SubmittedConcern, refs: set<Concern>, index: AnchorIndex)
    ensures ResolvedCount(Resolve(ops, s, refs, index)) == |SingledOut(ops, s, AnchorPool(refs, index))|
    ensures |Resolve(ops, s, refs, index)| == |s.anchors|
  {
    var rs, pool := Resolve(ops, s, refs, index), AnchorPool(refs, index);
    ResolvedCountIs(rs);
    forall k: nat | k < |s.anchors|
      ensures Anchoring.Resolved(rs[k]) <==> |Resolution(ops, s.anchors[k], pool).referenceAnchorIds| == 1
    {
      ResolvedIsSingle(ops, s.anchors[k], pool);
    }
    assert ResolvedAt(rs) == SingledOut(ops, s, pool);
  }

  lemma {:induction false} AnchorsCounted(ops: TextOps, concerns: seq<SubmittedConcern>, refs: set<Concern>, index: AnchorIndex)
    ensures var t := AnchorTally(ops, concerns, refs, index);
      && t.anchorTotal == AnchorCount(concerns) && t.anchorResolved == SingledOutCount(ops, concerns, AnchorPool(refs, index))
      && RatioPart(t)
  {
    AnchorPart(ops, concerns, refs, index);
    if concerns != [] {
      AnchorsCounted(ops, concerns[..|concerns| - 1], refs, index);
      ConcernAnchors(ops, concerns[|concerns| - 1], refs, index);
    }
  }

  // ---- Every case --------------------------------------------------------------------

  function BundleConcerns(bundles: map<string, CaseBundle>, ref: CaseRef): seq<Concern> {
    if ref.path in bundles then bundles[ref.path].concerns else []
  }

  /** The anchors a case resolves against. */
  function PoolOf(bundles: map<string, CaseBundle>, ref: CaseRef): set<Anchor> {
    if ref.path in bundles
    then AnchorPool(ToSet(Eligible(bundles[ref.path].concerns)), AnchorsById(bundles[ref.path].anchors))
    else {}
  }

  function CaseAccount(ops: TextOps, ref: CaseRef, bundles: map<string, CaseBundle>, submitted: map<CaseKey, CaseSubmission>,
      e: CaseEvaluation): Account
  {
    AccountOf(ops, ConcernsFor(submitted, ref), BundleConcerns(bundles, ref), PoolOf(bundles, ref), e.matches)
  }

  function Accounts(ops: TextOps, cases: seq<CaseRef>, bundles: map<string, CaseBundle>, submitted: map<CaseKey, CaseSubmission>,
      es: seq<CaseEvaluation>): Account
    requires |es| == |cases|
  {
    if cases == [] then NOTHING
    else
      var n := |cases| - 1;
      Accounts(ops, cases[..n], bundles, submitted, es[..n]).Plus(CaseAccount(ops, cases[n], bundles, submitted, es[n]))
  }

  lemma PartsTally(anchors: Tally, precision: Tally, recall: Tally, counts: Tally, a: Account, complete: bool)
    requires RatioPart(anchors) && anchors.anchorTotal == a.anchors && anchors.anchorResolved == a.singledOut
    requires anchors == ZERO.(anchorResolved := anchors.anchorResolved, anchorTotal := anchors.anchorTotal)
    requires precision == ZERO.(precisionNum := precision.precisionNum, precisionDen := precision.precisionDen,
               falseCritical := precision.falseCritical, brierSum := precision.brierSum, brierCount := precision.brierCount)
    requires complete ==>
      && precision.precisionNum == a.hitPoints && precision.precisionDen == a.hitPoints + a.missPoints
      && precision.falseCritical == a.missedCritical && precision.brierSum == a.penalties && precision.brierCount == a.concerns
    requires recall == ZERO.(recallNum := a.recalledPoints, recallDen := a.recalledPoints + a.lostPoints)
    requires counts == ZERO.(completed := counts.completed, abstained := counts.abstained, failed := counts.failed,
               submitted := a.concerns, eligible := a.gold, matched := counts.matched, unmatched := counts.unmatched, missed := counts.missed)
    ensures Tallies(anchors.Plus(precision).Plus(recall).Plus(counts), a, complete)
  {
  }

  lemma {:induction false} AnchorShape(ops: TextOps, concerns: seq<SubmittedConcern>, refs: set<Concern>, index: AnchorIndex)
    ensures var t := AnchorTally(ops, concerns, refs, index);
      t == ZERO.(anchorResolved := t.anchorResolved, anchorTotal := t.anchorTotal)
  {
    if concerns != [] {
      AnchorShape(ops, concerns[..|concerns| - 1], refs, index);
    }
  }

  lemma {:induction false} PrecisionShape(concerns: seq<SubmittedConcern>, used: set<string>, completeness: ReferenceCompleteness)
    ensures var t := PrecisionTally(concerns, used, completeness);
      t == ZERO.(precisionNum := t.precisionNum, precisionDen := t.precisionDen, falseCritical := t.falseCritical,
             brierSum := t.brierSum, brierCount := t.brierCount)
  {
    if concerns != [] {
      PrecisionShape(concerns[..|concerns| - 1], used, completeness);
    }
  }

  lemma {:induction false} RecallShape(refs: seq<Concern>, used: set<string>)
    requires forall c :: c in refs ==> IsEligible(c)
    ensures var t := RecallTally(refs, used);
      t == ZERO.(recallNum := t.recallNum, recallDen := t.recallDen)
  {
    if refs != [] {
      RecallShape(refs[..|refs| - 1], used);
    }
  }

  lemma CompletedAccount(ops: TextOps, ref: CaseRef, completeness: ReferenceCompleteness, concerns: seq<SubmittedConcern>,
      references: seq<Concern>, index: AnchorIndex, config: MatcherConfig)
    ensures var refs := Eligible(references);
      var score := CompletedCase(ops, ref, completeness, concerns, refs, index, config);
      Tallies(score.tally, AccountOf(ops, concerns, references, AnchorPool(ToSet(refs), index), score.evaluation.matches),
        CompleteForPrecision(completeness))
  {
    var refs := Eligible(references);
    var ms := MatchesOf(ops, concerns, refs, index, config);
    var a := AccountOf(ops, concerns, references, AnchorPool(ToSet(refs), index), ms);
    AnchorsCounted(ops, concerns, ToSet(refs), index);
    AnchorShape(ops, concerns, ToSet(refs), index);
    PrecisionShape(concerns, MatchedSubmitted(ms), completeness);
    if CompleteForPrecision(completeness) {
      PrecisionCounted(concerns, ms, completeness);
    }
    RecallCounted(references, ms);
    RecallShape(refs, MatchedReference(ms));
    EligibleCounted(references);
    PartsTally(AnchorTally(ops, concerns, ToSet(refs), index), PrecisionTally(concerns, MatchedSubmitted(ms), completeness),
      RecallTally(refs, MatchedReference(ms)),
      ZERO.(completed := 1, submitted := |concerns|, eligible := |refs|, matched := |ms|,
        unmatched := |Outside(LocalIds(concerns), MatchedSubmitted(ms))|,
        missed := |Outside(ConcernIds(refs), MatchedReference(ms))|),
      a, CompleteForPrecision(completeness));
  }

  lemma NoConcernsAccount(ops: TextOps, references: seq<Concern>, pool: set<Anchor>)
    ensures var a := AccountOf(ops, [], references, pool, []);
      && a.concerns == 0 && a.hitPoints == a.missPoints == 0.0 && a.missedCritical == 0 && a.penalties == 0.0
      && a.anchors == 0 && a.singledOut == 0
  {
    NoneSubmitted(true);
    NoneSubmitted(false);
  }

  lemma NoneSubmitted(hit: bool)
    ensures forall severity :: SubmittedAt([], [], severity, hit) == {}
  {
  }

  lemma SkippedAccount(ops: TextOps, ref: CaseRef, references: seq<Concern>, pool: set<Anchor>, failure: Option<string>, complete: bool)
    ensures var score := SkippedCase(ref, Eligible(references), failure);
      score.evaluation.matches == [] && Tallies(score.tally, AccountOf(ops, [], references, pool, []), complete)
  {
    NoConcernsAccount(ops, references, pool);
    RecallCounted(references, []);
    assert MatchedReference([]) == {};
    RecallShape(Eligible(references), {});
    EligibleCounted(references);
  }

  lemma ScoredAccount(ops: TextOps, ref: CaseRef, completeness: ReferenceCompleteness, bundles: map<string, CaseBundle>,
      submitted: map<CaseKey, CaseSubmission>, config: MatcherConfig)
    requires ScoreCase(ops, ref, completeness, bundles, submitted, config).Ok?
    ensures var score := ScoreCase(ops, ref, completeness, bundles, submitted, config).value;
      Tallies(score.tally, CaseAccount(ops, ref, bundles, submitted, score.evaluation), CompleteForPrecision(completeness))
  {
    var references := bundles[ref.path].concerns;
    var pool, complete := PoolOf(bundles, ref), CompleteForPrecision(completeness);
    if ref.Key() !in submitted || submitted[ref.Key()].abstained {
      SkippedAccount(ops, ref, references, pool, None, complete);
    } else if submitted[ref.Key()].Failed() {
      SkippedAccount(ops, ref, references, pool, submitted[ref.Key()].failure, complete);
    } else {
      CompletedAccount(ops, ref, completeness, submitted[ref.Key()].concerns, references, AnchorsById(bundles[ref.path].anchors), config);
    }
  }

  lemma TalliesAdd(t: Tally, u: Tally, a: Account, b: Account, complete: bool)
    requires Tallies(t, a, complete) && Tallies(u, b, complete)
    ensures Tallies(t.Plus(u), a.Plus(b), complete)
  {
  }

  ghost predicate Accounted(ops: TextOps, cases: seq<CaseRef>, bundles: map<string, CaseBundle>,
      submitted: map<CaseKey, CaseSubmission>, p: Progress, complete: bool)
  {
    |p.evaluations| == |cases| && Tallies(p.tally, Accounts(ops, cases, bundles, submitted, p.evaluations), complete)
  }

  lemma OneMoreAccount(ops: TextOps, cases: seq<CaseRef>, bundles: map<string, CaseBundle>,
      submitted: map<CaseKey, CaseSubmission>, p: Progress, score: CaseScore, complete: bool)
    requires cases != [] && Accounted(ops, cases[..|cases| - 1], bundles, submitted, p, complete)
    requires Tallies(score.tally, CaseAccount(ops, cases[|cases| - 1], bundles, submitted, score.evaluation), complete)
    ensures Accounted(ops, cases, bundles, submitted, Progress(p.evaluations + [score.evaluation], p.tally.Plus(score.tally)), complete)
  {
    var n := |cases| - 1;
    TalliesAdd(p.tally, score.tally, Accounts(ops, cases[..n], bundles, submitted, p.evaluations),
      CaseAccount(ops, cases[n], bundles, submitted, score.evaluation), complete);
    assert (p.evaluations + [score.evaluation])[..n] == p.evaluations;
  }

  lemma {:induction false} AllAccounted(ops: TextOps, cases: seq<CaseRef>, completeness: ReferenceCompleteness,
      bundles: map<string, CaseBundle>, submitted: map<CaseKey, CaseSubmission>, config: MatcherConfig)
    requires ScoreCases(ops, cases, completeness, bundles, submitted, config).Ok?
    ensures Accounted(ops, cases, bundles, submitted, ScoreCases(ops, cases, completeness, bundles, submitted, config).value,
      CompleteForPrecision(completeness))
  {
    if cases != [] {
      var n := |cases| - 1;
      AllAccounted(ops, cases[..n], completeness, bundles, submitted, config);
      ScoredAccount(ops, cases[n], completeness, bundles, submitted, config);
      var p := ScoreCases(ops, cases[..n], completeness, bundles, submitted, config).value;
      var score := ScoreCase(ops, cases[n], completeness, bundles, submitted, config).value;
      OneMoreAccount(ops, cases, bundles, submitted, p, score, CompleteForPrecision(completeness));
    }
  }

  // ---- What is published -------------------------------------------------------------

  /** The row gives this fraction, and for its value the fraction rounded. */
  ghost predicate Gives(v: MetricValue, numerator: real, denominator: real) {
    && v.numerator == Some(numerator) && v.denominator == Some(denominator)
    && (v.value.Some? ==> denominator > 0.0 && Near(v.value.value, numerator / denominator))
  }

  lemma MetricGives(numerator: real, denominator: real)
    ensures Gives(Metric(numerator, denominator), numerator, denominator)
  {
  }

  /** The rows that every reference set publishes. */
  ghost predicate RecallRows(m: EvaluationMetrics, a: Account) {
    && m.submittedConcerns == a.concerns && m.eligibleReferenceConcerns == a.gold
    && Gives(m.anchorResolutionRate, a.singledOut as real, a.anchors as real)
    && Gives(m.recall, m.matchedConcerns as real, a.gold as real)
    && Gives(m.severityWeightedRecall, a.recalledPoints, a.recalledPoints + a.lostPoints)
  }

  /** The rows that only a complete reference set with gold concerns publishes. */
  ghost predicate PrecisionRows(m: EvaluationMetrics, a: Account) {
    && Gives(m.precision, m.matchedConcerns as real, a.concerns as real)
    && Gives(m.severityWeightedPrecision, a.hitPoints, a.hitPoints + a.missPoints)
    && Gives(m.falseCriticalPerManuscript, a.missedCritical as real, m.casesCompleted as real)
    && Gives(m.referenceMatchBrierScore, a.penalties, a.concerns as real)
  }

  ghost predicate NoPrecision(m: EvaluationMetrics) {
    m.precision.value.None? && m.severityWeightedPrecision.value.None? && m.falseCriticalPerManuscript.value.None?
    && m.referenceMatchBrierScore.value.None?
  }

  ghost predicate PublishedRows(m: EvaluationMetrics, a: Account, completeness: ReferenceCompleteness) {
    && RecallRows(m, a)
    && if completeness in {CompleteSeeded, AdjudicatedOutputComplete} && a.gold > 0 then PrecisionRows(m, a) else NoPrecision(m)
  }

  lemma MetricsGive(t: Tally, a: Account, completeness: ReferenceCompleteness, total: nat)
    requires Tallies(t, a, CompleteForPrecision(completeness)) && (a.concerns == 0 ==> a.penalties == 0.0)
    ensures var m := Metrics(t, completeness, total);
      PublishedRows(m, a, completeness)
  {
    MetricGives(t.anchorResolved as real, t.anchorTotal as real);
    MetricGives(t.matched as real, t.eligible as real);
    MetricGives(t.recallNum, t.recallDen);
    MetricGives(t.matched as real, t.submitted as real);
    MetricGives(t.precisionNum, t.precisionDen);
    MetricGives(t.falseCritical as real, t.completed as real);
    if t.brierCount > 0 {
      MetricGives(t.brierSum, t.brierCount as real);
    }
  }

  lemma {:induction false} NoConcernsNoPenalty(ops: TextOps, cases: seq<CaseRef>, bundles: map<string, CaseBundle>,
      submitted: map<CaseKey, CaseSubmission>, es: seq<CaseEvaluation>)
    requires |es| == |cases|
    ensures var a := Accounts(ops, cases, bundles, submitted, es);
      a.concerns == 0 ==> a.penalties == 0.0
  {
    if cases != [] {
      var n := |cases| - 1;
      NoConcernsNoPenalty(ops, cases[..n], bundles, submitted, es[..n]);
    }
  }

  lemma ProgressPublishes(ops: TextOps, cases: seq<CaseRef>, completeness: ReferenceCompleteness,
      bundles: map<string, CaseBundle>, submitted: map<CaseKey, CaseSubmission>, config: MatcherConfig)
    requires ScoreCases(ops, cases, completeness, bundles, submitted, config).Ok?
    ensures var p := ScoreCases(ops, cases, completeness, bundles, submitted, config).value;
      && |p.evaluations| == |cases|
      && PublishedRows(Metrics(p.tally, completeness, |cases|), Accounts(ops, cases, bundles, submitted, p.evaluations), completeness)
  {
    var p := ScoreCases(ops, cases, completeness, bundles, submitted, config).value;
    AllAccounted(ops, cases, completeness, bundles, submitted, config);
    NoConcernsNoPenalty(ops, cases, bundles, submitted, p.evaluations);
    MetricsGive(p.tally, Accounts(ops, cases, bundles, submitted, p.evaluations), completeness, |cases|);
  }

  /** Every published numerator and denominator is a count over the records and matches of the cases: the
      gold concerns, the weights of matched and unmatched concerns, the unmatched critical ones, the
      penalties on confidence and the anchors that stand for one anchor. */
  lemma PublishedCountsMean(ops: TextOps, benchmark: Benchmark, bundles: map<string, CaseBundle>, submission: Submission,
      config: MatcherConfig)
    requires Evaluation(ops, benchmark, bundles, submission, config).Ok?
    ensures var r := Evaluation(ops, benchmark, bundles, submission, config).value;
      && |r.caseEvaluations| == |benchmark.cases|
      && PublishedRows(r.metrics, Accounts(ops, benchmark.cases, bundles, CasesByKey(submission.cases), r.caseEvaluations),
           benchmark.completeness)
  {
    ProgressPublishes(ops, benchmark.cases, benchmark.completeness, bundles, CasesByKey(submission.cases), config);
  }

  // ---- The Brier score is zero for certain submissions only ----------------------------

  /** Confidence one where the concern is matched, zero where it is not. */
  predicate Certain(s: SubmittedConcern, ms: seq<ConcernMatch>) {
    s.confidence == if IsMatched(s, ms) then 1.0 else 0.0
  }

  predicate AllCertain(concerns: seq<SubmittedConcern>, ms: seq<ConcernMatch>) {
    forall s :: s in concerns ==> Certain(s, ms)
  }

  lemma PositiveProduct(x: real, y: real)
    requires x > 0.0 && y > 0.0
    ensures Times(x, y) > 0.0
  {
  }

  lemma PenaltyIsZero(s: SubmittedConcern, ms: seq<ConcernMatch>)
    ensures if Certain(s, ms) then Penalty(s, ms) == 0.0 else Penalty(s, ms) > 0.0
  {
    var lack := 1.0 - s.confidence;
    if IsMatched(s, ms) {
      assert Penalty(s, ms) == Times(lack, lack);
      ZeroOrPositive(lack);
    } else {
      assert Penalty(s, ms) == Times(s.confidence, s.confidence);
      ZeroOrPositive(s.confidence);
    }
  }

  lemma ZeroOrPositive(x: real)
    requires x >= 0.0
    ensures if x == 0.0 then Times(x, x) == 0.0 else Times(x, x) > 0.0
  {
    if x > 0.0 {
      PositiveProduct(x, x);
    }
  }

  lemma {:induction false} PenaltiesAreZero(concerns: seq<SubmittedConcern>, ms: seq<ConcernMatch>)
    ensures Penalties(concerns, ms) >= 0.0 && (Penalties(concerns, ms) == 0.0 <==> AllCertain(concerns, ms))
  {
    if concerns != [] {
      var init, s := concerns[..|concerns| - 1], concerns[|concerns| - 1];
      assert concerns == init + [s];
      assert forall x :: x in concerns <==> x in init || x == s;
      PenaltiesAreZero(init, ms);
      PenaltyIsZero(s, ms);
    }
  }

  /** Every concern of every case is certain. */
  predicate SubmissionCertain(cases: seq<CaseRef>, submitted: map<CaseKey, CaseSubmission>, es: seq<CaseEvaluation>)
    requires |es| == |cases|
  {
    forall i :: 0 <= i < |cases| ==> AllCertain(ConcernsFor(submitted, cases[i]), es[i].matches)
  }

  lemma {:induction false} AccountedPenalties(ops: TextOps, cases: seq<CaseRef>, bundles: map<string, CaseBundle>,
      submitted: map<CaseKey, CaseSubmission>, es: seq<CaseEvaluation>)
    requires |es| == |cases|
    ensures var a := Accounts(ops, cases, bundles, submitted, es);
      a.penalties >= 0.0 && (a.penalties == 0.0 <==> SubmissionCertain(cases, submitted, es))
  {
    if cases != [] {
      var n := |cases| - 1;
      AccountedPenalties(ops, cases[..n], bundles, submitted, es[..n]);
      PenaltiesAreZero(ConcernsFor(submitted, cases[n]), es[n].matches);
      CertainSnoc(cases, submitted, es);
    }
  }

  lemma CertainSnoc(cases: seq<CaseRef>, submitted: map<CaseKey, CaseSubmission>, es: seq<CaseEvaluation>)
    requires |es| == |cases| && cases != []
    ensures var n := |cases| - 1;
      SubmissionCertain(cases, submitted, es) <==>
        SubmissionCertain(cases[..n], submitted, es[..n]) && AllCertain(ConcernsFor(submitted, cases[n]), es[n].matches)
  {
    var n := |cases| - 1;
    assert forall i :: 0 <= i < n ==> cases[..n][i] == cases[i] && es[..n][i] == es[i];
  }

  /** A published Brier score has the numerator zero exactly when every matched concern has confidence one
      and every other concern confidence zero. */
  lemma BrierIsZeroExactly(ops: TextOps, benchmark: Benchmark, bundles: map<string, CaseBundle>, submission: Submission,
      config: MatcherConfig)
    requires Evaluation(ops, benchmark, bundles, submission, config).Ok?
    requires Evaluation(ops, benchmark, bundles, submission, config).value.metrics.referenceMatchBrierScore.value.Some?
    ensures var r := Evaluation(ops, benchmark, bundles, submission, config).value;
      && |r.caseEvaluations| == |benchmark.cases|
      && (r.metrics.referenceMatchBrierScore.numerator == Some(0.0) <==>
            SubmissionCertain(benchmark.cases, CasesByKey(submission.cases), r.caseEvaluations))
  {
    var r := Evaluation(ops, benchmark, bundles, submission, config).value;
    PublishedCountsMean(ops, benchmark, bundles, submission, config);
    AccountedPenalties(ops, benchmark.cases, bundles, CasesByKey(submission.cases), r.caseEvaluations);
  }

  // ---- Which evaluations succeed, and how cases are classed ----------------------------

  predicate Readable(bundles: map<string, CaseBundle>, ref: CaseRef) {
    ref.path in bundles && bundles[ref.path].caseId == ref.caseId && bundles[ref.path].caseVersion == ref.caseVersion
  }

  lemma ReadableScores(ops: TextOps, ref: CaseRef, completeness: ReferenceCompleteness, bundles: map<string, CaseBundle>,
      submitted: map<CaseKey, CaseSubmission>, config: MatcherConfig)
    ensures ScoreCase(ops, ref, completeness, bundles, submitted, config).Ok? <==> Readable(bundles, ref)
  {
  }

  lemma LastCaseScores(ops: TextOps, cases: seq<CaseRef>, completeness: ReferenceCompleteness, bundles: map<string, CaseBundle>,
      submitted: map<CaseKey, CaseSubmission>, config: MatcherConfig)
    requires cases != []
    ensures ScoreCases(ops, cases, completeness, bundles, submitted, config).Ok? <==>
      ScoreCases(ops, cases[..|cases| - 1], completeness, bundles, submitted, config).Ok?
      && ScoreCase(ops, cases[|cases| - 1], completeness, bundles, submitted, config).Ok?
  {
  }

  predicate AllReadable(bundles: map<string, CaseBundle>, cases: seq<CaseRef>) {
    forall ref :: ref in cases ==> Readable(bundles, ref)
  }

  lemma ReadableSnoc(bundles: map<string, CaseBundle>, init: seq<CaseRef>, last: CaseRef)
    ensures AllReadable(bundles, init + [last]) <==> AllReadable(bundles, init) && Readable(bundles, last)
  {
    assert forall ref :: ref in init + [last] <==> ref in init || ref == last;
  }

  lemma {:induction false} ReadableCasesScore(ops: TextOps, cases: seq<CaseRef>, completeness: ReferenceCompleteness,
      bundles: map<string, CaseBundle>, submitted: map<CaseKey, CaseSubmission>, config: MatcherConfig)
    ensures ScoreCases(ops, cases, completeness, bundles, submitted, config).Ok? <==> AllReadable(bundles, cases)
  {
    if cases != [] {
      var init, last := cases[..|cases| - 1], cases[|cases| - 1];
      assert cases == init + [last];
      ReadableCasesScore(ops, init, completeness, bundles, submitted, config);
      ReadableScores(ops, last, completeness, bundles, submitted, config);
      LastCaseScores(ops, cases, completeness, bundles, submitted, config);
      ReadableSnoc(bundles, init, last);
    }
  }

  lemma {:induction false} KeysOfCases(cases: seq<CaseSubmission>)
    ensures forall key :: key in CasesByKey(cases) <==> exists c :: c in cases && c.Key() == key
  {
    if cases != [] {
      var init, last := cases[..|cases| - 1], cases[|cases| - 1];
      assert cases == init + [last];
      KeysOfCases(init);
      assert last in cases;
      assert forall c :: c in init ==> c in cases;
    }
  }

  /** Every answered case is a case of the benchmark. */
  predicate AnswersKnown(benchmark: Benchmark, submission: Submission) {
    forall c :: c in submission.cases ==> exists ref :: ref in benchmark.cases && ref.Key() == c.Key()
  }

  lemma KeyIsThere(cases: seq<CaseSubmission>, c: CaseSubmission)
    requires c in cases
    ensures c.Key() in CasesByKey(cases)
  {
    KeysOfCases(cases);
    var key := c.Key();
    assert exists d :: d in cases && d.Key() == key;
  }

  lemma KnownAnswers(benchmark: Benchmark, submission: Submission)
    ensures CasesByKey(submission.cases).Keys - BenchmarkKeys(benchmark.cases) == {} <==> AnswersKnown(benchmark, submission)
  {
    var submitted := CasesByKey(submission.cases);
    KeysOfCases(submission.cases);
    if AnswersKnown(benchmark, submission) {
      forall key | key in submitted.Keys ensures key in BenchmarkKeys(benchmark.cases) {
        var c :| c in submission.cases && c.Key() == key;
        var ref :| ref in benchmark.cases && ref.Key() == c.Key();
      }
    }
    if submitted.Keys - BenchmarkKeys(benchmark.cases) == {} {
      forall c | c in submission.cases ensures exists ref :: ref in benchmark.cases && ref.Key() == c.Key() {
        KeyIsThere(submission.cases, c);
        var key := c.Key();
        assert key in submitted.Keys && key !in submitted.Keys - BenchmarkKeys(benchmark.cases);
        assert key in BenchmarkKeys(benchmark.cases);
      }
    }
  }

  /** An evaluation succeeds exactly when the submission names the benchmark and its version, answers only cases
      of the benchmark, and the file of every case is there and is that of the case. */
  lemma EvaluationSucceedsExactly(ops: TextOps, benchmark: Benchmark, bundles: map<string, CaseBundle>, submission: Submission,
      config: MatcherConfig)
    ensures Evaluation(ops, benchmark, bundles, submission, config).Ok? <==>
      && submission.benchmarkId == benchmark.benchmarkId && submission.benchmarkVersion == benchmark.version
      && AnswersKnown(benchmark, submission) && AllReadable(bundles, benchmark.cases)
  {
    KnownAnswers(benchmark, submission);
    ReadableCasesScore(ops, benchmark.cases, benchmark.completeness, bundles, CasesByKey(submission.cases), config);
  }

  /** Answered with a failure; otherwise left out or abstained; otherwise completed. */
  predicate FailedCase(submitted: map<CaseKey, CaseSubmission>, ref: CaseRef) {
    ref.Key() in submitted && !submitted[ref.Key()].abstained && submitted[ref.Key()].failure.Some?
    && submitted[ref.Key()].failure.value != ""
  }

  predicate AbstainedCase(submitted: map<CaseKey, CaseSubmission>, ref: CaseRef) {
    ref.Key() !in submitted || submitted[ref.Key()].abstained
  }

  function FailedAt(cases: seq<CaseRef>, submitted: map<CaseKey, CaseSubmission>): set<nat> {
    set i: nat | i < |cases| && FailedCase(submitted, cases[i])
  }

  function AbstainedAt(cases: seq<CaseRef>, submitted: map<CaseKey, CaseSubmission>): set<nat> {
    set i: nat | i < |cases| && AbstainedCase(submitted, cases[i])
  }

  lemma FailedSnoc(cases: seq<CaseRef>, ref: CaseRef, submitted: map<CaseKey, CaseSubmission>)
    ensures |FailedAt(cases + [ref], submitted)| == |FailedAt(cases, submitted)| + if FailedCase(submitted, ref) then 1 else 0
  {
    var all, more := cases + [ref], if FailedCase(submitted, ref) then {|cases|} else {};
    assert all[|cases|] == ref && forall i :: 0 <= i < |cases| ==> all[i] == cases[i];
    assert FailedAt(all, submitted) == FailedAt(cases, submitted) + more;
  }

  lemma AbstainedSnoc(cases: seq<CaseRef>, ref: CaseRef, submitted: map<CaseKey, CaseSubmission>)
    ensures |AbstainedAt(cases + [ref], submitted)| == |AbstainedAt(cases, submitted)| + if AbstainedCase(submitted, ref) then 1 else 0
  {
    var all, more := cases + [ref], if AbstainedCase(submitted, ref) then {|cases|} else {};
    assert all[|cases|] == ref && forall i :: 0 <= i < |cases| ==> all[i] == cases[i];
    assert AbstainedAt(all, submitted) == AbstainedAt(cases, submitted) + more;
  }

  lemma CaseClass(ops: TextOps, ref: CaseRef, completeness: ReferenceCompleteness, bundles: map<string, CaseBundle>,
      submitted: map<CaseKey, CaseSubmission>, config: MatcherConfig)
    requires ScoreCase(ops, ref, completeness, bundles, submitted, config).Ok?
    ensures var t := ScoreCase(ops, ref, completeness, bundles, submitted, config).value.tally;
      && t.failed == (if FailedCase(submitted, ref) then 1 else 0)
      && t.abstained == (if AbstainedCase(submitted, ref) then 1 else 0)
  {
    RecallPart(ReferencesFor(bundles, ref), {});
    if !AbstainedCase(submitted, ref) && !FailedCase(submitted, ref) {
      CompletedClass(ops, ref, completeness, submitted[ref.Key()].concerns, ReferencesFor(bundles, ref),
        AnchorsById(bundles[ref.path].anchors), config);
    }
  }

  lemma PartsClass(anchors: Tally, precision: Tally, recall: Tally, counts: Tally)
    requires RatioPart(anchors) && RatioPart(precision) && RatioPart(recall)
    ensures var t := anchors.Plus(precision).Plus(recall).Plus(counts);
      t.failed == counts.failed && t.abstained == counts.abstained
  {
  }

  lemma CompletedClass(ops: TextOps, ref: CaseRef, completeness: ReferenceCompleteness, concerns: seq<SubmittedConcern>,
      refs: seq<Concern>, index: AnchorIndex, config: MatcherConfig)
    requires forall c :: c in refs ==> IsEligible(c)
    ensures var t := CompletedCase(ops, ref, completeness, concerns, refs, index, config).tally;
      t.failed == t.abstained == 0
  {
    var ms := MatchesOf(ops, concerns, refs, index, config);
    AnchorPart(ops, concerns, ToSet(refs), index);
    PrecisionPart(concerns, MatchedSubmitted(ms), completeness);
    RecallPart(refs, MatchedReference(ms));
    PartsClass(AnchorTally(ops, concerns, ToSet(refs), index), PrecisionTally(concerns, MatchedSubmitted(ms), completeness),
      RecallTally(refs, MatchedReference(ms)),
      ZERO.(completed := 1, submitted := |concerns|, eligible := |refs|, matched := |ms|,
        unmatched := |Outside(LocalIds(concerns), MatchedSubmitted(ms))|,
        missed := |Outside(ConcernIds(refs), MatchedReference(ms))|));
  }

  ghost predicate Classed(t: Tally, cases: seq<CaseRef>, submitted: map<CaseKey, CaseSubmission>) {
    t.failed == |FailedAt(cases, submitted)| && t.abstained == |AbstainedAt(cases, submitted)|
  }

  lemma OneMoreClassed(t: Tally, u: Tally, v: Tally, cases: seq<CaseRef>, submitted: map<CaseKey, CaseSubmission>)
    requires cases != [] && Classed(t, cases[..|cases| - 1], submitted)
    requires var last := cases[|cases| - 1];
      u.failed == (if FailedCase(submitted, last) then 1 else 0) && u.abstained == (if AbstainedCase(submitted, last) then 1 else 0)
    requires v.failed == t.failed + u.failed && v.abstained == t.abstained + u.abstained
    ensures Classed(v, cases, submitted)
  {
    var init, last := cases[..|cases| - 1], cases[|cases| - 1];
    assert cases == init + [last];
    FailedSnoc(init, last, submitted);
    AbstainedSnoc(init, last, submitted);
  }

  lemma NoneClassed(submitted: map<CaseKey, CaseSubmission>)
    ensures Classed(ZERO, [], submitted)
  {
    assert FailedAt([], submitted) == {} && AbstainedAt([], submitted) == {};
  }

  lemma {:induction false} AllClassed(ops: TextOps, cases: seq<CaseRef>, completeness: ReferenceCompleteness,
      bundles: map<string, CaseBundle>, submitted: map<CaseKey, CaseSubmission>, config: MatcherConfig)
    requires ScoreCases(ops, cases, completeness, bundles, submitted, config).Ok?
    ensures Classed(ScoreCases(ops, cases, completeness, bundles, submitted, config).value.tally, cases, submitted)
  {
    if cases == [] {
      NoneClassed(submitted);
    } else {
      var init, last := cases[..|cases| - 1], cases[|cases| - 1];
      LastTally(ops, cases, completeness, bundles, submitted, config);
      AllClassed(ops, init, completeness, bundles, submitted, config);
      CaseClass(ops, last, completeness, bundles, submitted, config);
      OneMoreClassed(ScoreCases(ops, init, completeness, bundles, submitted, config).value.tally,
        ScoreCase(ops, last, completeness, bundles, submitted, config).value.tally,
        ScoreCases(ops, cases, completeness, bundles, submitted, config).value.tally, cases, submitted);
    }
  }

  lemma LastTally(ops: TextOps, cases: seq<CaseRef>, completeness: ReferenceCompleteness, bundles: map<string, CaseBundle>,
      submitted: map<CaseKey, CaseSubmission>, config: MatcherConfig)
    requires cases != [] && ScoreCases(ops, cases, completeness, bundles, submitted, config).Ok?
    ensures var before := ScoreCases(ops, cases[..|cases| - 1], completeness, bundles, submitted, config);
      var last := ScoreCase(ops, cases[|cases| - 1], completeness, bundles, submitted, config);
      var t := ScoreCases(ops, cases, completeness, bundles, submitted, config).value.tally;
      && before.Ok? && last.Ok?
      && t.failed == before.value.tally.failed + last.value.tally.failed
      && t.abstained == before.value.tally.abstained + last.value.tally.abstained
  {
  }

  /** A case counts as failed exactly when it was answered with a failure, as abstained exactly when it was left
      out or abstained from, and as completed otherwise. */
  lemma CasesAreClassed(ops: TextOps, benchmark: Benchmark, bundles: map<string, CaseBundle>, submission: Submission,
      config: MatcherConfig)
    requires Evaluation(ops, benchmark, bundles, submission, config).Ok?
    ensures var m, submitted := Evaluation(ops, benchmark, bundles, submission, config).value.metrics, CasesByKey(submission.cases);
      && m.casesFailed == |FailedAt(benchmark.cases, submitted)| && m.casesAbstained == |AbstainedAt(benchmark.cases, submitted)|
      && m.casesCompleted == |benchmark.cases| - m.casesFailed - m.casesAbstained
  {
    AllClassed(ops, benchmark.cases, benchmark.completeness, bundles, CasesByKey(submission.cases), config);
    Conservation(ops, benchmark, bundles, submission, config);
  }
}
