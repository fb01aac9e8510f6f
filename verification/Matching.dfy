/** The matcher: anchor resolution, candidate scoring and one-to-one greedy selection. */
module Matching {
  import opened Wrappers
  import opened Models
  import opened Rounding

  // ---- Anchor resolution -------------------------------------------------------------

  predicate BothText(left: Option<string>, right: Option<string>) {
    left.Some? && right.Some? && left.value != "" && right.value != ""
  }

  /** Whether a reference anchor is a hit of the given class for a submitted anchor. */
  predicate Hit(kind: AnchorResolutionStatus, ops: TextOps, s: SubmittedAnchor, a: Anchor) {
    match kind
    case Exact =>
      BothText(s.sourceText, a.sourceText) && s.sourceText == a.sourceText
    case Normalized =>
      BothText(s.sourceText, a.sourceText) && s.sourceText != a.sourceText
      && ops.normalize(s.sourceText.value) == ops.normalize(a.sourceText.value)
    case ObjectLabel =>
      BothText(s.objectLabel, a.objectLabel)
      && ops.normalize(s.objectLabel.value) == ops.normalize(a.objectLabel.value)
    case PageOnly =>
      s.page.Some? && a.pageStart.Some? && a.pageEnd.Some?
      && a.pageStart.value <= s.page.value <= a.pageEnd.value
    case _ => false
  }

  /** Ids of the anchors in a set that are hits of the given class. */
  function Hits(kind: AnchorResolutionStatus, ops: TextOps, s: SubmittedAnchor, anchors: set<Anchor>): set<string> {
    set a | a in anchors && Hit(kind, ops, s, a) :: a.anchorId
  }

  lemma HitsOfPrefix(kind: AnchorResolutionStatus, ops: TextOps, s: SubmittedAnchor, reference: seq<Anchor>, i: nat)
    requires i < |reference|
    ensures Hits(kind, ops, s, ToSet(reference[..i + 1]))
         == Hits(kind, ops, s, ToSet(reference[..i])) + (if Hit(kind, ops, s, reference[i]) then {reference[i].anchorId} else {})
  {
    ToSetSnoc(reference, i);
  }

  /** The first non-empty class of hits decides; several anchors in it make it ambiguous. */
  function Classify(exact: set<string>, normalized: set<string>, labels: set<string>, pages: set<string>):
    AnchorResolution
  {
    if exact != {} then OneOrAmbiguous(Exact, exact)
    else if normalized != {} then OneOrAmbiguous(Normalized, normalized)
    else if labels != {} then OneOrAmbiguous(ObjectLabel, labels)
    else if pages != {} then OneOrAmbiguous(PageOnly, pages)
    else AnchorResolution(0, NoAnchor, {})
  }

  function OneOrAmbiguous(status: AnchorResolutionStatus, ids: set<string>): AnchorResolution {
    AnchorResolution(0, if |ids| == 1 then status else Ambiguous, ids)
  }

  /** What resolution means: it sees the reference anchors only as a set. */
  function Resolution(ops: TextOps, s: SubmittedAnchor, anchors: set<Anchor>): AnchorResolution {
    Classify(
      Hits(Exact, ops, s, anchors), Hits(Normalized, ops, s, anchors),
      Hits(ObjectLabel, ops, s, anchors), Hits(PageOnly, ops, s, anchors))
  }

  lemma ToSetSnoc<T>(xs: seq<T>, i: nat)
    requires i < |xs|
    ensures ToSet(xs[..i + 1]) == ToSet(xs[..i]) + {xs[i]}
  {
    assert xs[..i + 1] == xs[..i] + [xs[i]];
  }

  /** Collecting the next anchor when it is a hit. */
  lemma HitStep(kind: AnchorResolutionStatus, ops: TextOps, s: SubmittedAnchor, reference: seq<Anchor>, i: nat, ids: seq<string>)
    requires i < |reference| && ToSet(ids) == Hits(kind, ops, s, ToSet(reference[..i]))
    ensures Hits(kind, ops, s, ToSet(reference[..i + 1]))
         == ToSet(if Hit(kind, ops, s, reference[i]) then ids + [reference[i].anchorId] else ids)
  {
    HitsOfPrefix(kind, ops, s, reference, i);
    assert ToSet(ids + [reference[i].anchorId]) == ToSet(ids) + {reference[i].anchorId};
  }

  method CollectHits(ops: TextOps, submitted: SubmittedAnchor, reference: seq<Anchor>)
    returns (exact: seq<string>, normalized: seq<string>, labels: seq<string>, pages: seq<string>)
    ensures ToSet(exact) == Hits(Exact, ops, submitted, ToSet(reference))
    ensures ToSet(normalized) == Hits(Normalized, ops, submitted, ToSet(reference))
    ensures ToSet(labels) == Hits(ObjectLabel, ops, submitted, ToSet(reference))
    ensures ToSet(pages) == Hits(PageOnly, ops, submitted, ToSet(reference))
  {
    exact, normalized, labels, pages := [], [], [], [];
    for i := 0 to |reference|
      invariant ToSet(exact) == Hits(Exact, ops, submitted, ToSet(reference[..i]))
      invariant ToSet(normalized) == Hits(Normalized, ops, submitted, ToSet(reference[..i]))
      invariant ToSet(labels) == Hits(ObjectLabel, ops, submitted, ToSet(reference[..i]))
      invariant ToSet(pages) == Hits(PageOnly, ops, submitted, ToSet(reference[..i]))
    {
      var anchor := reference[i];
      HitStep(Exact, ops, submitted, reference, i, exact);
      HitStep(Normalized, ops, submitted, reference, i, normalized);
      HitStep(ObjectLabel, ops, submitted, reference, i, labels);
      HitStep(PageOnly, ops, submitted, reference, i, pages);
      if BothText(submitted.sourceText, anchor.sourceText) {
        if submitted.sourceText == anchor.sourceText {
          exact := exact + [anchor.anchorId];
        } else if ops.normalize(submitted.sourceText.value) == ops.normalize(anchor.sourceText.value) {
          normalized := normalized + [anchor.anchorId];
        }
      }
      if BothText(submitted.objectLabel, anchor.objectLabel) {
        if ops.normalize(submitted.objectLabel.value) == ops.normalize(anchor.objectLabel.value) {
          labels := labels + [anchor.anchorId];
        }
      }
      if submitted.page.Some? && anchor.pageStart.Some? && anchor.pageEnd.Some? {
        if anchor.pageStart.value <= submitted.page.value <= anchor.pageEnd.value {
          pages := pages + [anchor.anchorId];
        }
      }
    }
    assert reference[..|reference|] == reference;
  }

  method ResolveAnchor(ops: TextOps, submitted: SubmittedAnchor, reference: seq<Anchor>)
    returns (r: AnchorResolution)
    ensures r == Resolution(ops, submitted, ToSet(reference))
  {
    var exact, normalized, labels, pages := CollectHits(ops, submitted, reference);
    var kinds := [Exact, Normalized, ObjectLabel, PageOnly];
    var classes := [exact, normalized, labels, pages];
    for k := 0 to 4
      invariant 0 < k ==> Hits(Exact, ops, submitted, ToSet(reference)) == {}
      invariant 1 < k ==> Hits(Normalized, ops, submitted, ToSet(reference)) == {}
      invariant 2 < k ==> Hits(ObjectLabel, ops, submitted, ToSet(reference)) == {}
      invariant 3 < k ==> Hits(PageOnly, ops, submitted, ToSet(reference)) == {}
    {
      var unique := ToSet(classes[k]);
      assert unique == Hits(kinds[k], ops, submitted, ToSet(reference));
      if |unique| == 1 {
        return AnchorResolution(0, kinds[k], unique);
      }
      if |unique| > 1 {
        return AnchorResolution(0, Ambiguous, unique);
      }
    }
    return AnchorResolution(0, NoAnchor, {});
  }

  // ---- Scoring -----------------------------------------------------------------------

  function Ratio(part: nat, whole: nat): (r: real)
    requires part <= whole && whole > 0
    ensures 0.0 <= r <= 1.0
  {
    part as real / whole as real
  }

  lemma IntersectionFits<T>(a: set<T>, b: set<T>)
    ensures |a * b| <= |a + b|
  {
    CardinalityMonotone(a * b, a);
    CardinalityMonotone(a, a + b);
  }

  lemma CardinalityMonotone<T>(a: set<T>, b: set<T>)
    requires a <= b
    ensures |a| <= |b|
  {
    assert b == a + (b - a);
  }

  function Jaccard(left: set<string>, right: set<string>): (r: real)
    ensures 0.0 <= r <= 1.0
    ensures r == 1.0 <==> left == right
  {
    if left == {} && right == {} then 1.0
    else if left == {} || right == {} then 0.0
    else
      IntersectionFits(left, right);
      assert (left * right == left + right) <==> left == right by {
        if left * right == left + right {
          assert forall x :: x in left ==> x in left + right;
          assert forall x :: x in right ==> x in left + right;
        }
      }
      assert |left * right| == |left + right| ==> left * right == left + right by {
        if |left * right| == |left + right| {
          assert left + right == (left * right) + ((left + right) - (left * right));
        }
      }
      Ratio(|left * right|, |left + right|)
  }

  /** The part of a concern type before its first dot. */
  function Root(s: string): string {
    if s == "" || s[0] == '.' then "" else [s[0]] + Root(s[1..])
  }

  function TypeSimilarity(ops: TextOps, submitted: string, reference: string): (r: real)
    ensures 0.0 <= r <= 1.0
  {
    var left, right := ops.casefold(submitted), ops.casefold(reference);
    if left == right then 1.0
    else if Root(left) == Root(right) then 0.75
    else 0.0
  }

  function AnchorScore(resolved: set<string>, anchors: set<string>): (r: real)
    ensures 0.0 <= r <= 1.0
  {
    if resolved != {} || anchors != {} then
      IntersectionFits(resolved, anchors);
      assert resolved + anchors != {};
      Ratio(|resolved * anchors|, if |resolved + anchors| > 1 then |resolved + anchors| else 1)
    else 0.0
  }

  function Weigh(w: real, x: real): (p: real)
    requires 0.0 <= w && 0.0 <= x <= 1.0
    ensures 0.0 <= p <= w
  {
    assert w * (1.0 - x) >= 0.0;
    w * x
  }

  /** Weights may sum to slightly more than one; six-digit rounding absorbs the excess. */
  function ScoreCandidate(ops: TextOps, s: SubmittedConcern, ref: Concern, resolved: set<string>, config: MatcherConfig):
    (m: ConcernMatch)
    ensures 0.0 <= m.score <= 1.0 && 0.0 <= m.anchorScore <= 1.0
    ensures 0.0 <= m.typeScore <= 1.0 && 0.0 <= m.lexicalScore <= 1.0
    ensures m.submittedLocalId == s.localId && m.referenceConcernId == ref.concernId
  {
    var a := AnchorScore(resolved, ToSet(ref.anchorIds));
    var t := TypeSimilarity(ops, s.concernType, ref.concernType);
    var l := Jaccard(ops.tokens(s.title + " " + s.summary), ops.tokens(ref.title + " " + ref.summary));
    var total := Weigh(config.anchorWeight, a) + Weigh(config.typeWeight, t) + Weigh(config.lexicalWeight, l);
    RoundIntoUnit(total);
    RoundIntoUnit(a);
    RoundIntoUnit(t);
    RoundIntoUnit(l);
    ConcernMatch(s.localId, ref.concernId, Round6(total), Round6(a), Round6(t), Round6(l))
  }

  // ---- Candidates in source order ----------------------------------------------------

  type Resolutions = map<string, seq<AnchorResolution>>

  /** All anchor ids that some anchor of the submitted concern resolved to. */
  function ResolvedIds(resolutions: Resolutions, localId: string): set<string> {
    if localId in resolutions then IdsOf(resolutions[localId]) else {}
  }

  function IdsOf(rs: seq<AnchorResolution>): set<string> {
    set r, id | r in rs && id in r.referenceAnchorIds :: id
  }

  function Row(ops: TextOps, s: SubmittedConcern, refs: seq<Concern>, resolved: set<string>, config: MatcherConfig):
    seq<ConcernMatch>
  {
    if refs == [] then []
    else
      Row(ops, s, refs[..|refs| - 1], resolved, config)
      + [ScoreCandidate(ops, s, refs[|refs| - 1], resolved, config)]
  }

  /** Every (submitted, reference) pair, scored, in nested-loop order; independent of the threshold. */
  function AllPairs(ops: TextOps, submitted: seq<SubmittedConcern>, refs: seq<Concern>, resolutions: Resolutions,
      config: MatcherConfig):
    seq<ConcernMatch>
  {
    if submitted == [] then []
    else
      var s := submitted[|submitted| - 1];
      AllPairs(ops, submitted[..|submitted| - 1], refs, resolutions, config)
      + Row(ops, s, refs, ResolvedIds(resolutions, s.localId), config)
  }

  function AtLeast(ms: seq<ConcernMatch>, t: real): seq<ConcernMatch> {
    if ms == [] then []
    else (if ms[0].score >= t then [ms[0]] else []) + AtLeast(ms[1..], t)
  }

  lemma AtLeastCons(x: ConcernMatch, ms: seq<ConcernMatch>, t: real)
    ensures AtLeast([x] + ms, t) == (if x.score >= t then [x] else []) + AtLeast(ms, t)
  {
    assert ([x] + ms)[1..] == ms;
  }

  lemma {:induction false} AtLeastSnoc(ms: seq<ConcernMatch>, x: ConcernMatch, t: real)
    ensures AtLeast(ms + [x], t) == AtLeast(ms, t) + (if x.score >= t then [x] else [])
  {
    if ms == [] {
      assert ms + [x] == [x] + [];
      AtLeastCons(x, [], t);
    } else {
      assert ms + [x] == [ms[0]] + (ms[1..] + [x]);
      AtLeastCons(ms[0], ms[1..] + [x], t);
      AtLeastSnoc(ms[1..], x, t);
    }
  }

  function Candidates(ops: TextOps, submitted: seq<SubmittedConcern>, refs: seq<Concern>, resolutions: Resolutions,
      config: MatcherConfig):
    seq<ConcernMatch>
  {
    AtLeast(AllPairs(ops, submitted, refs, resolutions, config), config.threshold)
  }

  // ---- Stable descending sort --------------------------------------------------------

  /** Place x in front of everything scored no higher. */
  function InsertDesc(x: ConcernMatch, sorted: seq<ConcernMatch>): seq<ConcernMatch> {
    if sorted == [] || sorted[0].score <= x.score then [x] + sorted
    else [sorted[0]] + InsertDesc(x, sorted[1..])
  }

  /** Python's stable sort by descending score: equal elements keep their order. */
  function SortDesc(ms: seq<ConcernMatch>): seq<ConcernMatch> {
    if ms == [] then [] else InsertDesc(ms[0], SortDesc(ms[1..]))
  }

  // ---- Greedy selection --------------------------------------------------------------

  predicate Blocked(c: ConcernMatch, usedS: set<string>, usedR: set<string>) {
    c.submittedLocalId in usedS || c.referenceConcernId in usedR
  }

  function Greedy(ms: seq<ConcernMatch>, usedS: set<string>, usedR: set<string>): seq<ConcernMatch> {
    if ms == [] then []
    else if Blocked(ms[0], usedS, usedR) then Greedy(ms[1..], usedS, usedR)
    else [ms[0]] + Greedy(ms[1..], usedS + {ms[0].submittedLocalId}, usedR + {ms[0].referenceConcernId})
  }

  /** The matcher's selection for a list of candidates. */
  function Select(candidates: seq<ConcernMatch>): seq<ConcernMatch> {
    Greedy(SortDesc(candidates), {}, {})
  }

  method CollectCandidates(ops: TextOps, submitted: seq<SubmittedConcern>, references: seq<Concern>,
      resolutions: Resolutions, config: MatcherConfig)
    returns (candidates: seq<ConcernMatch>)
    ensures candidates == Candidates(ops, submitted, references, resolutions, config)
  {
    candidates := [];
    for i := 0 to |submitted|
      invariant candidates == AtLeast(AllPairs(ops, submitted[..i], references, resolutions, config), config.threshold)
    {
      var concern := submitted[i];
      var resolvedIds := ResolvedIds(resolutions, concern.localId);
      ghost var before := AllPairs(ops, submitted[..i], references, resolutions, config);
      assert before + Row(ops, concern, references[..0], resolvedIds, config) == before;
      for j := 0 to |references|
        invariant candidates == AtLeast(before + Row(ops, concern, references[..j], resolvedIds, config), config.threshold)
      {
        var m := ScoreCandidate(ops, concern, references[j], resolvedIds, config);
        RowSnoc(ops, concern, references, resolvedIds, config, before, j);
        if m.score >= config.threshold {
          candidates := candidates + [m];
        }
      }
      assert references[..|references|] == references;
      assert submitted[..i + 1][..i] == submitted[..i];
    }
    assert submitted[..|submitted|] == submitted;
  }

  lemma RowSnoc(ops: TextOps, s: SubmittedConcern, refs: seq<Concern>, resolved: set<string>, config: MatcherConfig,
      before: seq<ConcernMatch>, j: nat)
    requires j < |refs|
    ensures AtLeast(before + Row(ops, s, refs[..j + 1], resolved, config), config.threshold)
         == AtLeast(before + Row(ops, s, refs[..j], resolved, config), config.threshold)
            + (if ScoreCandidate(ops, s, refs[j], resolved, config).score >= config.threshold
               then [ScoreCandidate(ops, s, refs[j], resolved, config)] else [])
  {
    var m := ScoreCandidate(ops, s, refs[j], resolved, config);
    var row := Row(ops, s, refs[..j], resolved, config);
    assert refs[..j + 1][..j] == refs[..j];
    assert before + Row(ops, s, refs[..j + 1], resolved, config) == (before + row) + [m];
    AtLeastSnoc(before + row, m, config.threshold);
  }

  method GreedyMatch(ops: TextOps, submitted: seq<SubmittedConcern>, references: seq<Concern>,
      resolutions: Resolutions, config: MatcherConfig)
    returns (selected: seq<ConcernMatch>)
    ensures selected == Select(Candidates(ops, submitted, references, resolutions, config))
  {
    var candidates := CollectCandidates(ops, submitted, references, resolutions, config);
    var sorted := SortDesc(candidates);
    var usedSubmitted: set<string> := {};
    var usedReference: set<string> := {};
    selected := [];
    for k := 0 to |sorted|
      invariant selected + Greedy(sorted[k..], usedSubmitted, usedReference) == Greedy(sorted, {}, {})
    {
      var candidate := sorted[k];
      assert sorted[k..][1..] == sorted[k + 1..];
      if candidate.submittedLocalId in usedSubmitted {
        continue;
      }
      if candidate.referenceConcernId in usedReference {
        continue;
      }
      selected := selected + [candidate];
      usedSubmitted := usedSubmitted + {candidate.submittedLocalId};
      usedReference := usedReference + {candidate.referenceConcernId};
    }
  }
}
