/** What a resolved anchor and a score say, in terms of the texts, pages and ids they are read from. */
module MatchMeaning {
  import opened Wrappers
  import opened Models
  import opened Rounding
  import opened Matching
  import opened SortTheorems
  import opened MatchingTheorems
  import opened Engine
  import opened Anchoring
  import opened MetricMeaning
  import opened IdTheorems

  // ---- Citing anchors ----------------------------------------------------------------

  predicate HasWords(text: Option<string>) {
    text.Some? && text.value != ""
  }

  predicate SameWords(s: SubmittedAnchor, a: Anchor) {
    HasWords(s.sourceText) && a.sourceText == s.sourceText
  }

  predicate SameWording(ops: TextOps, s: SubmittedAnchor, a: Anchor) {
    HasWords(s.sourceText) && HasWords(a.sourceText) && ops.normalize(s.sourceText.value) == ops.normalize(a.sourceText.value)
  }

  predicate SameLabel(ops: TextOps, s: SubmittedAnchor, a: Anchor) {
    HasWords(s.objectLabel) && HasWords(a.objectLabel) && ops.normalize(s.objectLabel.value) == ops.normalize(a.objectLabel.value)
  }

  predicate PageInside(s: SubmittedAnchor, a: Anchor) {
    s.page.Some? && a.pageStart.Some? && a.pageEnd.Some? && a.pageStart.value <= s.page.value && s.page.value <= a.pageEnd.value
  }

  function ByWords(s: SubmittedAnchor, pool: set<Anchor>): set<string> {
    set a | a in pool && SameWords(s, a) :: a.anchorId
  }

  function ByWording(ops: TextOps, s: SubmittedAnchor, pool: set<Anchor>): set<string> {
    set a | a in pool && SameWording(ops, s, a) :: a.anchorId
  }

  function ByLabel(ops: TextOps, s: SubmittedAnchor, pool: set<Anchor>): set<string> {
    set a | a in pool && SameLabel(ops, s, a) :: a.anchorId
  }

  function ByPage(s: SubmittedAnchor, pool: set<Anchor>): set<string> {
    set a | a in pool && PageInside(s, a) :: a.anchorId
  }

  /** A resolution to these anchors, ambiguous when there are several. */
  predicate FoundAs(r: AnchorResolution, ids: set<string>, status: AnchorResolutionStatus) {
    r.referenceAnchorIds == ids && r.status == if |ids| == 1 then status else Ambiguous
  }

  lemma HitsByWords(ops: TextOps, s: SubmittedAnchor, pool: set<Anchor>)
    ensures Hits(Exact, ops, s, pool) == ByWords(s, pool)
    ensures ByWords(s, pool) == {} ==> Hits(Normalized, ops, s, pool) == ByWording(ops, s, pool)
  {
    if ByWords(s, pool) == {} {
      forall a | a in pool ensures !SameWords(s, a) {
        assert SameWords(s, a) ==> a.anchorId in ByWords(s, pool);
      }
    }
  }

  /** A submitted anchor stands for the anchors with its very text; failing these, for those with its text up to
      normalization; failing these, for those with its label; and failing these, for those around its page. */
  lemma ResolutionMeans(ops: TextOps, s: SubmittedAnchor, pool: set<Anchor>)
    ensures var r := Resolution(ops, s, pool);
      if ByWords(s, pool) != {} then FoundAs(r, ByWords(s, pool), Exact)
      else if ByWording(ops, s, pool) != {} then FoundAs(r, ByWording(ops, s, pool), Normalized)
      else if ByLabel(ops, s, pool) != {} then FoundAs(r, ByLabel(ops, s, pool), ObjectLabel)
      else if ByPage(s, pool) != {} then FoundAs(r, ByPage(s, pool), PageOnly)
      else r.referenceAnchorIds == {} && r.status == NoAnchor
  {
    HitsByWords(ops, s, pool);
    assert Hits(ObjectLabel, ops, s, pool) == ByLabel(ops, s, pool);
    assert Hits(PageOnly, ops, s, pool) == ByPage(s, pool);
  }

  /** The submitted anchor that quotes an anchor in full. */
  function Citation(a: Anchor): SubmittedAnchor {
    SubmittedAnchor(a.pageStart, a.sourceText, a.objectLabel)
  }

  predicate Citable(a: Anchor) {
    HasWords(a.sourceText) || HasWords(a.objectLabel)
    || (a.pageStart.Some? && a.pageEnd.Some? && a.pageStart.value <= a.pageEnd.value)
  }

  /** Citing an anchor by its own text finds it among the anchors with that text, and finds it alone exactly when
      no other id has that text. */
  lemma CitedTextIsFound(ops: TextOps, a: Anchor, pool: set<Anchor>)
    requires a in pool && HasWords(a.sourceText)
    ensures var r := Resolution(ops, Citation(a), pool);
      && a.anchorId in r.referenceAnchorIds
      && (forall id :: id in r.referenceAnchorIds ==> exists b :: b in pool && b.anchorId == id && b.sourceText == a.sourceText)
      && (r.status == Exact <==> forall b :: b in pool && b.sourceText == a.sourceText ==> b.anchorId == a.anchorId)
  {
    var s := Citation(a);
    ResolutionMeans(ops, s, pool);
    assert a.anchorId in ByWords(s, pool);
    SingleExactly(ByWords(s, pool), a.anchorId);
    forall b | b in pool && b.sourceText == a.sourceText ensures b.anchorId in ByWords(s, pool) {
      assert SameWords(s, b);
    }
  }

  lemma SingleExactly(ids: set<string>, id: string)
    requires id in ids
    ensures |ids| == 1 <==> forall other :: other in ids ==> other == id
  {
    if forall other :: other in ids ==> other == id {
      assert ids == {id};
    } else {
      var other :| other in ids && other != id;
      CardinalityMonotone({id, other}, ids);
    }
  }

  /** Whatever an anchor can be cited by, its citation is never left without an anchor. */
  lemma CitedIsFound(ops: TextOps, a: Anchor, pool: set<Anchor>)
    requires a in pool && Citable(a)
    ensures Resolution(ops, Citation(a), pool).referenceAnchorIds != {}
  {
    var s := Citation(a);
    ResolutionMeans(ops, s, pool);
    if HasWords(a.sourceText) {
      assert a.anchorId in ByWords(s, pool);
    } else if HasWords(a.objectLabel) {
      assert a.anchorId in ByLabel(ops, s, pool);
    } else {
      assert a.anchorId in ByPage(s, pool);
    }
  }

  // ---- Scores ------------------------------------------------------------------------

  /** The shared part of two sets of ids, nothing for two empty ones. */
  function SharedPart(a: set<string>, b: set<string>): real {
    if a + b == {} then 0.0 else |a * b| as real / |a + b| as real
  }

  /** Types count in full when equal up to case, by three quarters when only the part before the first dot is. */
  function TypeShare(ops: TextOps, submitted: string, reference: string): real {
    var left, right := ops.casefold(submitted), ops.casefold(reference);
    if left == right then 1.0 else if Root(left) == Root(right) then 0.75 else 0.0
  }

  /** The shared part of the words, everything for two empty texts. */
  function WordShare(a: set<string>, b: set<string>): real {
    if a + b == {} then 1.0 else |a * b| as real / |a + b| as real
  }

  lemma PartsAre(ops: TextOps, s: SubmittedConcern, ref: Concern, resolved: set<string>)
    ensures AnchorScore(resolved, ToSet(ref.anchorIds)) == SharedPart(resolved, ToSet(ref.anchorIds))
    ensures TypeSimilarity(ops, s.concernType, ref.concernType) == TypeShare(ops, s.concernType, ref.concernType)
    ensures Words(ops, s, ref) == WordShare(WordsOf(ops, s.title, s.summary), WordsOf(ops, ref.title, ref.summary))
  {
    var left, right := WordsOf(ops, s.title, s.summary), WordsOf(ops, ref.title, ref.summary);
    if left == {} || right == {} {
      assert left * right == {};
    }
  }

  /** What a match says of its concern and its reference. */
  ghost predicate ScoredAs(m: ConcernMatch, ops: TextOps, s: SubmittedConcern, ref: Concern, resolved: set<string>, config: MatcherConfig) {
    var a := SharedPart(resolved, ToSet(ref.anchorIds));
    var t := TypeShare(ops, s.concernType, ref.concernType);
    var l := WordShare(WordsOf(ops, s.title, s.summary), WordsOf(ops, ref.title, ref.summary));
    && m.submittedLocalId == s.localId && m.referenceConcernId == ref.concernId
    && Near(m.anchorScore, a) && Near(m.typeScore, t) && Near(m.lexicalScore, l)
    && Near(m.score, WeightedSum(config, a, t, l))
  }

  lemma ScoreMeans(ops: TextOps, s: SubmittedConcern, ref: Concern, resolved: set<string>, config: MatcherConfig)
    ensures ScoredAs(ScoreCandidate(ops, s, ref, resolved, config), ops, s, ref, resolved, config)
  {
    PartsAre(ops, s, ref, resolved);
    ScoreIsWeighed(ops, s, ref, resolved, config);
    PartsRounded(ops, s, ref, resolved, config);
    TotalRounded(config, AnchorScore(resolved, ToSet(ref.anchorIds)), TypeSimilarity(ops, s.concernType, ref.concernType),
      Words(ops, s, ref));
    NamesKept(ops, s, ref, resolved, config);
  }

  lemma NamesKept(ops: TextOps, s: SubmittedConcern, ref: Concern, resolved: set<string>, config: MatcherConfig)
    ensures var m := ScoreCandidate(ops, s, ref, resolved, config);
      m.submittedLocalId == s.localId && m.referenceConcernId == ref.concernId
  {
  }

  lemma TotalRounded(config: MatcherConfig, a: real, t: real, l: real)
    requires 0.0 <= a <= 1.0 && 0.0 <= t <= 1.0 && 0.0 <= l <= 1.0
    ensures Near(Round6(Weighed(config, a, t, l)), WeightedSum(config, a, t, l))
  {
    RoundedIsNear(Weighed(config, a, t, l));
    WeighedIsSum(config, a, t, l);
  }

  lemma RoundedIsNear(x: real)
    ensures Near(Round6(x), x)
  {
  }

  lemma WeighedIsSum(config: MatcherConfig, a: real, t: real, l: real)
    requires 0.0 <= a <= 1.0 && 0.0 <= t <= 1.0 && 0.0 <= l <= 1.0
    ensures Weighed(config, a, t, l) == WeightedSum(config, a, t, l)
  {
  }

  function WeightedSum(config: MatcherConfig, a: real, t: real, l: real): real {
    config.anchorWeight * a + config.typeWeight * t + config.lexicalWeight * l
  }

  lemma PartsRounded(ops: TextOps, s: SubmittedConcern, ref: Concern, resolved: set<string>, config: MatcherConfig)
    ensures var m := ScoreCandidate(ops, s, ref, resolved, config);
      && Near(m.anchorScore, AnchorScore(resolved, ToSet(ref.anchorIds)))
      && Near(m.typeScore, TypeSimilarity(ops, s.concernType, ref.concernType))
      && Near(m.lexicalScore, Words(ops, s, ref))
  {
  }

  ghost predicate ScoredIn(m: ConcernMatch, ops: TextOps, s: SubmittedConcern, ref: Concern, resolutions: Resolutions, config: MatcherConfig) {
    ScoredAs(m, ops, s, ref, ResolvedIds(resolutions, s.localId), config)
  }

  /** Every match of a case is of one of its concerns with one of its references, at least at the threshold, and
      reports their shared anchors, types and words and the weighted sum of these, up to rounding. */
  lemma MatchesAreScored(ops: TextOps, concerns: seq<SubmittedConcern>, refs: seq<Concern>, index: AnchorIndex,
      config: MatcherConfig, m: ConcernMatch)
    requires m in MatchesOf(ops, concerns, refs, index, config)
    ensures m.score >= config.threshold
    ensures exists s, r :: s in concerns && r in refs && ScoredIn(m, ops, s, r, ResolutionsOf(ops, concerns, ToSet(refs), index), config)
  {
    var resolutions := ResolutionsOf(ops, concerns, ToSet(refs), index);
    var candidates := Candidates(ops, concerns, refs, resolutions, config);
    SelectIsMaximal(candidates);
    assert m in ToSet(candidates);
    AtLeastMember(AllPairs(ops, concerns, refs, resolutions, config), config.threshold, m);
    var s, r := ScoredPair(ops, concerns, refs, resolutions, config, m);
    ScoreMeans(ops, s, r, ResolvedIds(resolutions, s.localId), config);
    assert ScoredIn(m, ops, s, r, resolutions, config);
  }

  /** A match that rules a pair out: it takes the concern or the reference, and scores no lower. */
  ghost predicate RuledOut(ms: seq<ConcernMatch>, s: SubmittedConcern, ref: Concern, score: real) {
    exists m :: m in ms && (m.submittedLocalId == s.localId || m.referenceConcernId == ref.concernId) && m.score >= score
  }

  /** Every pair of a case that scores at the threshold or above is matched, or ruled out by a match that scores
      no lower. */
  lemma AcceptedPairsAreCovered(ops: TextOps, concerns: seq<SubmittedConcern>, refs: seq<Concern>, index: AnchorIndex,
      config: MatcherConfig, s: SubmittedConcern, ref: Concern)
    requires s in concerns && ref in refs
    ensures var resolved := ResolvedIds(ResolutionsOf(ops, concerns, ToSet(refs), index), s.localId);
      var score := ScoreCandidate(ops, s, ref, resolved, config).score;
      score >= config.threshold ==> RuledOut(MatchesOf(ops, concerns, refs, index, config), s, ref, score)
  {
    var resolutions := ResolutionsOf(ops, concerns, ToSet(refs), index);
    var c := ScoreCandidate(ops, s, ref, ResolvedIds(resolutions, s.localId), config);
    if c.score >= config.threshold {
      PairsHave(ops, concerns, refs, resolutions, config, s, ref);
      AtLeastMember(AllPairs(ops, concerns, refs, resolutions, config), config.threshold, c);
      var ms := MatchesOf(ops, concerns, refs, index, config);
      SelectIsMaximal(Candidates(ops, concerns, refs, resolutions, config));
      if c in ms {
        assert RuledOut(ms, s, ref, c.score);
      }
    }
  }

  // ---- What is resolved against --------------------------------------------------------

  /** Some reference cites the anchor under its id. */
  predicate CitedBy(refs: set<Concern>, index: AnchorIndex, a: Anchor) {
    exists r, id :: r in refs && id in r.anchorIds && id in index && index[id] == a
  }

  /** Anchors are resolved against those the references cite, or against all of the case when the references cite
      none that it has. */
  lemma PoolMeans(refs: set<Concern>, index: AnchorIndex, a: Anchor)
    ensures a in AnchorPool(refs, index) <==>
      if exists r, id :: r in refs && id in r.anchorIds && id in index then CitedBy(refs, index, a)
      else exists id :: id in index && index[id] == a
  {
    if r, id :| r in refs && id in r.anchorIds && id in index {
      assert index[id] in CitedAnchors(refs, index);
    }
  }
}
