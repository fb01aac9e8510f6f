/** What scores and published rates mean: weighted shares, up to rounding, of the parts they name. */
module MetricMeaning {
  import opened Wrappers
  import opened Models
  import opened Rounding
  import opened Matching
  import opened SortTheorems
  import opened MatchingTheorems
  import opened ReferencePolicy
  import opened Anchoring
  import opened Engine

  // ---- Scores ------------------------------------------------------------------------

  /** Jaccard similarity is the shared part of the union, zero exactly for disjoint sets, one exactly for
      equal ones, and the same from either side. */
  lemma JaccardIsShare(a: set<string>, b: set<string>)
    ensures a + b != {} ==> Jaccard(a, b) * |a + b| as real == |a * b| as real
    ensures Jaccard(a, b) == 0.0 <==> a * b == {} && a + b != {}
    ensures Jaccard(a, b) == Jaccard(b, a)
  {
    assert a * b == b * a && a + b == b + a;
    if a != {} && b != {} {
      assert |a + b| > 0 && (|a * b| == 0 <==> a * b == {});
      IntersectionFits(a, b);
      ShareOfWhole(|a * b|, |a + b|);
    } else {
      assert a * b == {};
    }
  }

  lemma ShareOfWhole(part: nat, whole: nat)
    requires part <= whole && whole > 0
    ensures Ratio(part, whole) * whole as real == part as real
    ensures Ratio(part, whole) == 0.0 <==> part == 0
  {
  }

  /** The anchor score is the shared part of resolved and cited anchors, and zero when there are none. */
  lemma AnchorScoreIsShare(resolved: set<string>, cited: set<string>)
    ensures AnchorScore(resolved, cited) * |resolved + cited| as real == |resolved * cited| as real
    ensures AnchorScore(resolved, cited) == 0.0 <==> resolved * cited == {}
  {
  }

  /** Types agree fully when equal up to case, by three quarters when only their roots do. */
  lemma TypeSimilarityByRoot(ops: TextOps, submitted: string, reference: string)
    ensures var r := TypeSimilarity(ops, submitted, reference);
      var left, right := ops.casefold(submitted), ops.casefold(reference);
      && (r == 1.0 <==> left == right)
      && (r == 0.0 <==> Root(left) != Root(right))
      && TypeSimilarity(ops, reference, submitted) == r
  {
  }

  /** The root is the longest prefix without a dot. */
  lemma {:induction false} RootIsPrefix(s: string)
    ensures Root(s) <= s && '.' !in Root(s)
    ensures Root(s) == s || s[|Root(s)|] == '.'
  {
    if s != "" && s[0] != '.' {
      RootIsPrefix(s[1..]);
      assert s == [s[0]] + s[1..];
    }
  }

  // ---- What a match must share -------------------------------------------------------

  predicate SharesAnchor(resolved: set<string>, ref: Concern) {
    resolved * ToSet(ref.anchorIds) != {}
  }

  predicate SameRoot(ops: TextOps, s: SubmittedConcern, ref: Concern) {
    Root(ops.casefold(s.concernType)) == Root(ops.casefold(ref.concernType))
  }

  function WordsOf(ops: TextOps, title: string, summary: string): set<string> {
    ops.tokens(title + " " + summary)
  }

  /** No common word, and a word on either side. */
  predicate WordsApart(ops: TextOps, s: SubmittedConcern, ref: Concern) {
    var left, right := WordsOf(ops, s.title, s.summary), WordsOf(ops, ref.title, ref.summary);
    left * right == {} && left + right != {}
  }

  predicate Accepted(ops: TextOps, s: SubmittedConcern, ref: Concern, resolved: set<string>, config: MatcherConfig) {
    ScoreCandidate(ops, s, ref, resolved, config).score >= config.threshold
  }

  lemma WeighBounds(w: real, x: real)
    requires 0.0 <= w && 0.0 <= x <= 1.0
    ensures Weigh(w, x) <= w && (x == 0.0 ==> Weigh(w, x) == 0.0) && (x == 1.0 ==> Weigh(w, x) == w)
  {
  }

  function Words(ops: TextOps, s: SubmittedConcern, ref: Concern): (l: real)
    ensures 0.0 <= l <= 1.0
  {
    Jaccard(WordsOf(ops, s.title, s.summary), WordsOf(ops, ref.title, ref.summary))
  }

  function Weighed(config: MatcherConfig, a: real, t: real, l: real): real
    requires 0.0 <= a <= 1.0 && 0.0 <= t <= 1.0 && 0.0 <= l <= 1.0
  {
    Weigh(config.anchorWeight, a) + Weigh(config.typeWeight, t) + Weigh(config.lexicalWeight, l)
  }

  lemma ScoreIsWeighed(ops: TextOps, s: SubmittedConcern, ref: Concern, resolved: set<string>, config: MatcherConfig)
    ensures ScoreCandidate(ops, s, ref, resolved, config).score
         == Round6(Weighed(config, AnchorScore(resolved, ToSet(ref.anchorIds)),
              TypeSimilarity(ops, s.concernType, ref.concernType), Words(ops, s, ref)))
  {
  }

  /** The rounded sum is at most the rounded weights of the parts that are not zero, and reaches them where
      those parts are full. */
  lemma WeighedByParts(config: MatcherConfig, a: real, t: real, l: real)
    requires 0.0 <= a <= 1.0 && 0.0 <= t <= 1.0 && 0.0 <= l <= 1.0
    ensures a == 0.0 ==> Round6(Weighed(config, a, t, l)) <= Round6(config.typeWeight + config.lexicalWeight)
    ensures t == 0.0 ==> Round6(Weighed(config, a, t, l)) <= Round6(config.anchorWeight + config.lexicalWeight)
    ensures l == 0.0 ==> Round6(Weighed(config, a, t, l)) <= Round6(config.anchorWeight + config.typeWeight)
    ensures a == 0.0 && t == l == 1.0 ==> Weighed(config, a, t, l) == config.typeWeight + config.lexicalWeight
    ensures t == 0.0 && a == l == 1.0 ==> Weighed(config, a, t, l) == config.anchorWeight + config.lexicalWeight
    ensures l == 0.0 && a == t == 1.0 ==> Weighed(config, a, t, l) == config.anchorWeight + config.typeWeight
  {
    if a == 0.0 {
      ZeroPart(config.anchorWeight, a, config.typeWeight, t, config.lexicalWeight, l);
    }
    if t == 0.0 {
      ZeroPart(config.typeWeight, t, config.anchorWeight, a, config.lexicalWeight, l);
    }
    if l == 0.0 {
      ZeroPart(config.lexicalWeight, l, config.anchorWeight, a, config.typeWeight, t);
    }
  }

  lemma ScoreByParts(ops: TextOps, s: SubmittedConcern, ref: Concern, resolved: set<string>, config: MatcherConfig)
    ensures var a := AnchorScore(resolved, ToSet(ref.anchorIds));
      var t, l := TypeSimilarity(ops, s.concernType, ref.concernType), Words(ops, s, ref);
      var score := ScoreCandidate(ops, s, ref, resolved, config).score;
      && (a == 0.0 ==> score <= Round6(config.typeWeight + config.lexicalWeight))
      && (t == 0.0 ==> score <= Round6(config.anchorWeight + config.lexicalWeight))
      && (l == 0.0 ==> score <= Round6(config.anchorWeight + config.typeWeight))
      && (a == 0.0 && t == l == 1.0 ==> score == Round6(config.typeWeight + config.lexicalWeight))
      && (t == 0.0 && a == l == 1.0 ==> score == Round6(config.anchorWeight + config.lexicalWeight))
      && (l == 0.0 && a == t == 1.0 ==> score == Round6(config.anchorWeight + config.typeWeight))
  {
    ScoreIsWeighed(ops, s, ref, resolved, config);
    WeighedByParts(config, AnchorScore(resolved, ToSet(ref.anchorIds)),
      TypeSimilarity(ops, s.concernType, ref.concernType), Words(ops, s, ref));
  }

  lemma ZeroPart(u: real, x: real, v: real, y: real, w: real, z: real)
    requires 0.0 <= u && 0.0 <= v && 0.0 <= w && x == 0.0 <= y <= 1.0 && 0.0 <= z <= 1.0
    ensures Round6(Weigh(u, x) + Weigh(v, y) + Weigh(w, z)) <= Round6(v + w)
    ensures y == z == 1.0 ==> Weigh(u, x) + Weigh(v, y) + Weigh(w, z) == v + w
  {
    WeighBounds(u, x);
    WeighBounds(v, y);
    WeighBounds(w, z);
    RoundMonotone(Weigh(u, x) + Weigh(v, y) + Weigh(w, z), v + w);
  }

  const CITED := SubmittedAnchor(Some(1), None, None)

  ghost predicate AnchorsNeeded(ops: TextOps, config: MatcherConfig) {
    forall s: SubmittedConcern, ref, resolved :: Accepted(ops, s, ref, resolved, config) ==> SharesAnchor(resolved, ref)
  }

  ghost predicate TypesNeeded(ops: TextOps, config: MatcherConfig) {
    forall s: SubmittedConcern, ref, resolved :: Accepted(ops, s, ref, resolved, config) ==> SameRoot(ops, s, ref)
  }

  ghost predicate WordsNeeded(ops: TextOps, config: MatcherConfig) {
    forall s: SubmittedConcern, ref, resolved :: Accepted(ops, s, ref, resolved, config) ==> !WordsApart(ops, s, ref)
  }

  /** An accepted pair always shares an anchor exactly when the weights of type and text fall short of
      the threshold. */
  lemma AnchorsNeededExactly(ops: TextOps, config: MatcherConfig)
    ensures AnchorsNeeded(ops, config) <==> Round6(config.typeWeight + config.lexicalWeight) < config.threshold
  {
    forall s: SubmittedConcern, ref, resolved |
      Accepted(ops, s, ref, resolved, config) && Round6(config.typeWeight + config.lexicalWeight) < config.threshold
      ensures SharesAnchor(resolved, ref)
    {
      AnchorScoreIsShare(resolved, ToSet(ref.anchorIds));
      ScoreByParts(ops, s, ref, resolved, config);
    }
    var s: SubmittedConcern := SubmittedConcern("local", "a title", "the summary", "a type", Minor, 0.0, [CITED]);
    var ref := Concern("occoncern_1", "a title", "the summary", "a type", ["ocanchor_1"], Minor, Confirmed, None);
    AnchorScoreIsShare({}, ToSet(ref.anchorIds));
    ScoreByParts(ops, s, ref, {}, config);
    assert Accepted(ops, s, ref, {}, config) <==> Round6(config.typeWeight + config.lexicalWeight) >= config.threshold;
  }

  /** Where case folding tells two types apart by their roots, an accepted pair always has types of one
      root exactly when the weights of anchors and text fall short of the threshold. */
  lemma TypesNeededExactly(ops: TextOps, config: MatcherConfig, t: string, t': string)
    requires Root(ops.casefold(t)) != Root(ops.casefold(t'))
    ensures TypesNeeded(ops, config) <==> Round6(config.anchorWeight + config.lexicalWeight) < config.threshold
  {
    forall s: SubmittedConcern, ref, resolved |
      Accepted(ops, s, ref, resolved, config) && Round6(config.anchorWeight + config.lexicalWeight) < config.threshold
      ensures SameRoot(ops, s, ref)
    {
      TypeSimilarityByRoot(ops, s.concernType, ref.concernType);
      ScoreByParts(ops, s, ref, resolved, config);
    }
    var s: SubmittedConcern := SubmittedConcern("local", "a title", "the summary", t, Minor, 0.0, [CITED]);
    var ref := Concern("occoncern_1", "a title", "the summary", t', ["ocanchor_1"], Minor, Confirmed, None);
    TypeSimilarityByRoot(ops, t, t');
    FullAnchors(ref.anchorIds);
    ScoreByParts(ops, s, ref, ToSet(ref.anchorIds), config);
    assert Accepted(ops, s, ref, ToSet(ref.anchorIds), config)
      <==> Round6(config.anchorWeight + config.lexicalWeight) >= config.threshold;
  }

  lemma FullAnchors(ids: seq<string>)
    requires ids != []
    ensures AnchorScore(ToSet(ids), ToSet(ids)) == 1.0
  {
    assert ids[0] in ToSet(ids);
    assert ToSet(ids) * ToSet(ids) == ToSet(ids) == ToSet(ids) + ToSet(ids);
  }

  /** Where two texts have no word in common, an accepted pair is never that far apart exactly when the
      weights of anchors and type fall short of the threshold. */
  lemma WordsNeededExactly(ops: TextOps, config: MatcherConfig, q: Concern, r: Concern)
    requires WordsOf(ops, q.title, q.summary) * WordsOf(ops, r.title, r.summary) == {}
    requires WordsOf(ops, q.title, q.summary) + WordsOf(ops, r.title, r.summary) != {}
    ensures WordsNeeded(ops, config) <==> Round6(config.anchorWeight + config.typeWeight) < config.threshold
  {
    forall s: SubmittedConcern, ref, resolved |
      Accepted(ops, s, ref, resolved, config) && Round6(config.anchorWeight + config.typeWeight) < config.threshold
      ensures !WordsApart(ops, s, ref)
    {
      JaccardIsShare(WordsOf(ops, s.title, s.summary), WordsOf(ops, ref.title, ref.summary));
      ScoreByParts(ops, s, ref, resolved, config);
    }
    var s: SubmittedConcern := SubmittedConcern("local", q.title, q.summary, r.concernType, Minor, 0.0, [CITED]);
    var ref := r.(anchorIds := ["ocanchor_1"]);
    JaccardIsShare(WordsOf(ops, s.title, s.summary), WordsOf(ops, ref.title, ref.summary));
    TypeSimilarityByRoot(ops, s.concernType, ref.concernType);
    FullAnchors(ref.anchorIds);
    ScoreByParts(ops, s, ref, ToSet(ref.anchorIds), config);
    assert Accepted(ops, s, ref, ToSet(ref.anchorIds), config)
      <==> Round6(config.anchorWeight + config.typeWeight) >= config.threshold;
  }

  predicate JoinedByAnchor(m: ConcernMatch, s: SubmittedConcern, ref: Concern, resolutions: Resolutions) {
    && m.submittedLocalId == s.localId && m.referenceConcernId == ref.concernId
    && SharesAnchor(ResolvedIds(resolutions, s.localId), ref)
  }

  /** Under such a configuration every match of a case shares an anchor: its concern resolved to one that
      its reference cites. */
  lemma MatchesShareAnchors(ops: TextOps, concerns: seq<SubmittedConcern>, refs: seq<Concern>, index: AnchorIndex,
      config: MatcherConfig, m: ConcernMatch)
    requires Round6(config.typeWeight + config.lexicalWeight) < config.threshold
    requires m in MatchesOf(ops, concerns, refs, index, config)
    ensures exists s, r :: s in concerns && r in refs && JoinedByAnchor(m, s, r, ResolutionsOf(ops, concerns, ToSet(refs), index))
  {
    var resolutions := ResolutionsOf(ops, concerns, ToSet(refs), index);
    var candidates := Candidates(ops, concerns, refs, resolutions, config);
    SelectIsMaximal(candidates);
    assert m in ToSet(candidates);
    AtLeastMember(AllPairs(ops, concerns, refs, resolutions, config), config.threshold, m);
    var s, r := ScoredPair(ops, concerns, refs, resolutions, config, m);
    AnchorsNeededExactly(ops, config);
    assert Accepted(ops, s, r, ResolvedIds(resolutions, s.localId), config);
    assert JoinedByAnchor(m, s, r, resolutions);
  }

  // ---- What weighted rates lose ------------------------------------------------------

  /** Each missed reference costs weighted recall between half a point and four, each unmatched concern
      weighted precision likewise, and a false critical costs its full four. */
  predicate Losses(t: Tally, complete: bool) {
    && 0.5 * t.missed as real <= t.recallDen - t.recallNum <= 4.0 * t.missed as real
    && 0.5 * t.eligible as real <= t.recallDen <= 4.0 * t.eligible as real
    && (complete ==>
          && 0.5 * t.unmatched as real <= t.precisionDen - t.precisionNum <= 4.0 * t.unmatched as real
          && 0.5 * t.submitted as real <= t.precisionDen <= 4.0 * t.submitted as real
          && 4.0 * t.falseCritical as real <= t.precisionDen - t.precisionNum
          && t.falseCritical <= t.unmatched && t.brierCount == t.submitted)
    && (!complete ==> t.precisionNum == t.precisionDen == 0.0 && t.falseCritical == 0 && t.brierCount == 0)
  }

  lemma LossesAdd(t: Tally, u: Tally, complete: bool)
    requires Losses(t, complete) && Losses(u, complete)
    ensures Losses(t.Plus(u), complete)
  {
  }

  lemma {:induction false} OutsideSnoc(ids: seq<string>, id: string, used: set<string>)
    ensures Outside(ids + [id], used) == Outside(ids, used) + if id in used then [] else [id]
  {
    if ids == [] {
      assert [] + [id] == [id];
    } else {
      assert (ids + [id])[1..] == ids[1..] + [id];
      OutsideSnoc(ids[1..], id, used);
    }
  }

  lemma {:induction false} RecallLosses(refs: seq<Concern>, used: set<string>)
    requires forall c :: c in refs ==> IsEligible(c)
    ensures var t := RecallTally(refs, used);
      var missed := |Outside(ConcernIds(refs), used)|;
      && 0.5 * missed as real <= t.recallDen - t.recallNum <= 4.0 * missed as real
      && 0.5 * |refs| as real <= t.recallDen <= 4.0 * |refs| as real
      && t == ZERO.(recallDen := t.recallDen, recallNum := t.recallNum)
  {
    if refs != [] {
      var init, last := refs[..|refs| - 1], refs[|refs| - 1];
      RecallLosses(init, used);
      assert ConcernIds(refs) == ConcernIds(init) + [last.concernId];
      OutsideSnoc(ConcernIds(init), last.concernId, used);
    }
  }

  /** What the precision part of a case loses. */
  predicate PrecisionLoss(t: Tally, concerns: nat, unmatched: nat, complete: bool) {
    && t == ZERO.(precisionDen := t.precisionDen, precisionNum := t.precisionNum, falseCritical := t.falseCritical,
         brierSum := t.brierSum, brierCount := t.brierCount)
    && (complete ==>
          && 0.5 * unmatched as real <= t.precisionDen - t.precisionNum <= 4.0 * unmatched as real
          && 0.5 * concerns as real <= t.precisionDen <= 4.0 * concerns as real
          && 4.0 * t.falseCritical as real <= t.precisionDen - t.precisionNum
          && t.falseCritical <= unmatched && t.brierCount == concerns)
    && (!complete ==> t.precisionNum == t.precisionDen == 0.0 && t.falseCritical == 0 && t.brierCount == 0)
  }

  lemma {:induction false} PrecisionLosses(concerns: seq<SubmittedConcern>, used: set<string>,
      completeness: ReferenceCompleteness)
    ensures PrecisionLoss(PrecisionTally(concerns, used, completeness), |concerns|, |Outside(LocalIds(concerns), used)|,
      CompleteForPrecision(completeness))
  {
    if concerns != [] {
      var init, last := concerns[..|concerns| - 1], concerns[|concerns| - 1];
      PrecisionLosses(init, used, completeness);
      assert LocalIds(concerns) == LocalIds(init) + [last.localId];
      OutsideSnoc(LocalIds(init), last.localId, used);
    }
  }

  lemma {:induction false} AnchorOnly(ops: TextOps, concerns: seq<SubmittedConcern>, refs: set<Concern>, index: AnchorIndex)
    ensures var t := AnchorTally(ops, concerns, refs, index);
      t == ZERO.(anchorResolved := t.anchorResolved, anchorTotal := t.anchorTotal)
  {
    if concerns != [] {
      AnchorOnly(ops, concerns[..|concerns| - 1], refs, index);
    }
  }

  lemma CompletedLosses(ops: TextOps, ref: CaseRef, completeness: ReferenceCompleteness, concerns: seq<SubmittedConcern>,
      refs: seq<Concern>, index: AnchorIndex, config: MatcherConfig)
    requires forall c :: c in refs ==> IsEligible(c)
    ensures Losses(CompletedCase(ops, ref, completeness, concerns, refs, index, config).tally, CompleteForPrecision(completeness))
  {
    var ms := MatchesOf(ops, concerns, refs, index, config);
    AnchorOnly(ops, concerns, ToSet(refs), index);
    PrecisionLosses(concerns, MatchedSubmitted(ms), completeness);
    RecallLosses(refs, MatchedReference(ms));
  }

  lemma {:induction false} NothingUsed(ids: seq<string>)
    ensures Outside(ids, {}) == ids
  {
    if ids != [] {
      NothingUsed(ids[1..]);
    }
  }

  lemma SkippedLosses(ref: CaseRef, refs: seq<Concern>, failure: Option<string>, complete: bool)
    requires forall c :: c in refs ==> IsEligible(c)
    ensures Losses(SkippedCase(ref, refs, failure).tally, complete)
  {
    RecallLosses(refs, {});
    NothingUsed(ConcernIds(refs));
  }

  lemma CaseLosses(ops: TextOps, ref: CaseRef, completeness: ReferenceCompleteness, bundles: map<string, CaseBundle>,
      submitted: map<CaseKey, CaseSubmission>, config: MatcherConfig)
    requires ScoreCase(ops, ref, completeness, bundles, submitted, config).Ok?
    ensures Losses(ScoreCase(ops, ref, completeness, bundles, submitted, config).value.tally, CompleteForPrecision(completeness))
  {
    var refs := Eligible(bundles[ref.path].concerns);
    var complete := CompleteForPrecision(completeness);
    if ref.Key() !in submitted || submitted[ref.Key()].abstained {
      SkippedLosses(ref, refs, None, complete);
    } else if submitted[ref.Key()].Failed() {
      SkippedLosses(ref, refs, submitted[ref.Key()].failure, complete);
    } else {
      CompletedLosses(ops, ref, completeness, submitted[ref.Key()].concerns, refs, AnchorsById(bundles[ref.path].anchors), config);
    }
  }

  lemma {:induction false} TotalLosses(ops: TextOps, cases: seq<CaseRef>, completeness: ReferenceCompleteness,
      bundles: map<string, CaseBundle>,
      submitted: map<CaseKey, CaseSubmission>, config: MatcherConfig)
    requires ScoreCases(ops, cases, completeness, bundles, submitted, config).Ok?
    ensures Losses(ScoreCases(ops, cases, completeness, bundles, submitted, config).value.tally, CompleteForPrecision(completeness))
  {
    if cases != [] {
      var init, last := cases[..|cases| - 1], cases[|cases| - 1];
      TotalLosses(ops, init, completeness, bundles, submitted, config);
      CaseLosses(ops, last, completeness, bundles, submitted, config);
      LossesAdd(ScoreCases(ops, init, completeness, bundles, submitted, config).value.tally,
        ScoreCase(ops, last, completeness, bundles, submitted, config).value.tally, CompleteForPrecision(completeness));
    }
  }

  // ---- Published rates ---------------------------------------------------------------

  /** Two reals that agree to within half a unit of the sixth digit. */
  predicate Near(x: real, y: real) {
    y - 0.0000005 <= x <= y + 0.0000005
  }

  /** A row that gives part over whole, rounded, whenever it gives a value. */
  predicate Rates(v: MetricValue, part: real, whole: real) {
    && v.numerator == Some(part) && v.denominator == Some(whole)
    && (v.value.Some? ==> whole > 0.0 && Near(v.value.value, part / whole))
  }

  lemma TallyRates(t: Tally, completeness: ReferenceCompleteness, total: nat)
    ensures var m := Metrics(t, completeness, total);
      && Rates(m.anchorResolutionRate, t.anchorResolved as real, t.anchorTotal as real)
      && Rates(m.precision, t.matched as real, t.submitted as real)
      && Rates(m.recall, t.matched as real, t.eligible as real)
      && Rates(m.severityWeightedPrecision, t.precisionNum, t.precisionDen)
      && Rates(m.severityWeightedRecall, t.recallNum, t.recallDen)
      && Rates(m.falseCriticalPerManuscript, t.falseCritical as real, t.completed as real)
      && (CompleteForPrecision(completeness) && t.eligible > 0 ==> (m.precision.value.Some? <==> t.submitted > 0))
  {
  }

  lemma FullExactly(t: Tally, complete: bool)
    requires Losses(t, complete)
    ensures t.recallNum == t.recallDen <==> t.missed == 0
    ensures complete ==> (t.precisionNum == t.precisionDen <==> t.unmatched == 0)
  {
  }

  /** The weighted rows give part over whole, and are full exactly when nothing is lost. */
  predicate WeightedRow(v: MetricValue, full: bool) {
    && v.numerator.Some? && v.denominator.Some?
    && Rates(v, v.numerator.value, v.denominator.value)
    && (v.numerator == v.denominator <==> full)
  }

  /** Published rates are the rates of the published counts, and the weighted ones are full exactly when
      nothing is missed or, on a complete reference set, nothing is left unmatched. */
  predicate RatesMean(m: EvaluationMetrics, complete: bool) {
    && Rates(m.precision, m.matchedConcerns as real, m.submittedConcerns as real)
    && Rates(m.recall, m.matchedConcerns as real, m.eligibleReferenceConcerns as real)
    && WeightedRow(m.severityWeightedRecall, m.missedReference == 0)
    && (complete ==> WeightedRow(m.severityWeightedPrecision, m.unmatchedSubmitted == 0))
    && m.falseCriticalPerManuscript.denominator == Some(m.casesCompleted as real)
  }

  lemma MetricsMean(t: Tally, completeness: ReferenceCompleteness, total: nat)
    requires Losses(t, CompleteForPrecision(completeness))
    ensures RatesMean(Metrics(t, completeness, total), CompleteForPrecision(completeness))
  {
    TallyRates(t, completeness, total);
    FullExactly(t, CompleteForPrecision(completeness));
  }

  lemma PublishedRates(ops: TextOps, benchmark: Benchmark, bundles: map<string, CaseBundle>, submission: Submission,
      config: MatcherConfig)
    requires Evaluation(ops, benchmark, bundles, submission, config).Ok?
    ensures RatesMean(Evaluation(ops, benchmark, bundles, submission, config).value.metrics, CompleteForPrecision(benchmark.completeness))
  {
    var submitted := CasesByKey(submission.cases);
    TotalLosses(ops, benchmark.cases, benchmark.completeness, bundles, submitted, config);
    MetricsMean(ScoreCases(ops, benchmark.cases, benchmark.completeness, bundles, submitted, config).value.tally,
      benchmark.completeness, |benchmark.cases|);
  }
}
