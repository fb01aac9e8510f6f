/** When the order of the records decides the matches, and that the bound of two is reached. */
module TieTheorems {
  import opened Wrappers
  import opened Models
  import opened Rounding
  import opened Matching
  import opened SortTheorems
  import opened MatchingTheorems
  import opened ReferencePolicy
  import opened Anchoring
  import opened Engine
  import opened OrderTheorems

  /** Every order of the candidates selects the same pairs. */
  ghost predicate OrderFree(candidates: seq<ConcernMatch>) {
    forall other :: multiset(other) == multiset(candidates) ==> SameSelection(other, candidates)
  }

  ghost predicate SameSelection(a: seq<ConcernMatch>, b: seq<ConcernMatch>) {
    ToSet(Select(a)) == ToSet(Select(b))
  }

  /** A candidate placed in front of its equals is selected unless a strictly better one beats it. */
  lemma {:induction false} SelectedOrBeaten(c: ConcernMatch, sorted: seq<ConcernMatch>, usedS: set<string>, usedR: set<string>)
    requires !Blocked(c, usedS, usedR)
    ensures var selected := Greedy(InsertDesc(c, sorted), usedS, usedR);
      c in selected || Beaten(c, ToSet(selected))
  {
    if sorted == [] || sorted[0].score <= c.score {
      GreedyCons(c, sorted, usedS, usedR);
    } else {
      var h, rest := sorted[0], InsertDesc(c, sorted[1..]);
      var usedS', usedR' := usedS + {h.submittedLocalId}, usedR + {h.referenceConcernId};
      GreedyCons(h, rest, usedS, usedR);
      if Blocked(h, usedS, usedR) {
        SelectedOrBeaten(c, sorted[1..], usedS, usedR);
      } else if Conflict(h, c) {
        assert h in Greedy(InsertDesc(c, sorted), usedS, usedR);
      } else {
        SelectedOrBeaten(c, sorted[1..], usedS', usedR');
        ToSetCons(h, Greedy(rest, usedS', usedR'));
      }
    }
  }

  lemma MoveToFront<A>(xs: seq<A>, i: nat)
    requires i < |xs|
    ensures multiset([xs[i]] + (xs[..i] + xs[i + 1..])) == multiset(xs)
  {
    assert xs == xs[..i] + [xs[i]] + xs[i + 1..];
  }

  lemma OrderFreeIsStable(candidates: seq<ConcernMatch>)
    requires OrderFree(candidates)
    ensures StrictlyStable(ToSet(candidates), ToSet(Select(candidates)))
  {
    var chosen := ToSet(Select(candidates));
    SelectIsMaximal(candidates);
    forall c | c in ToSet(candidates) && c !in chosen ensures Beaten(c, chosen) {
      var i :| 0 <= i < |candidates| && candidates[i] == c;
      var rest := candidates[..i] + candidates[i + 1..];
      MoveToFront(candidates, i);
      HeadSelectedOrBeaten(candidates, [c] + rest);
    }
  }

  /** A candidate that heads a list is selected unless a strictly better one beats it. */
  lemma HeadSelectedOrBeaten(candidates: seq<ConcernMatch>, other: seq<ConcernMatch>)
    requires other != [] && SameSelection(other, candidates)
    ensures var chosen := ToSet(Select(candidates));
      other[0] in chosen || Beaten(other[0], chosen)
  {
    var c, rest := other[0], other[1..];
    assert other == [c] + rest;
    SortCons(c, rest);
    SelectedOrBeaten(c, SortDesc(rest), {}, {});
    assert c in Select(other) <==> c in ToSet(Select(other));
  }

  lemma StableIsOrderFree(candidates: seq<ConcernMatch>, m: set<ConcernMatch>)
    requires StrictlyStable(ToSet(candidates), m)
    ensures OrderFree(candidates)
  {
    forall other | multiset(other) == multiset(candidates) ensures SameSelection(other, candidates) {
      SameMembers(other, candidates);
      StableMatchingIsSelected(candidates, m);
      StableMatchingIsSelected(other, m);
    }
  }

  /** The order of the candidates is irrelevant exactly when every pair left out loses to a strictly
      better selected one, that is, exactly when the candidates have a strictly stable matching. */
  lemma OrderFreeExactly(candidates: seq<ConcernMatch>)
    ensures OrderFree(candidates) <==> StrictlyStable(ToSet(candidates), ToSet(Select(candidates)))
    ensures OrderFree(candidates) <==> exists m :: StrictlyStable(ToSet(candidates), m)
  {
    if OrderFree(candidates) {
      OrderFreeIsStable(candidates);
    }
    if m :| StrictlyStable(ToSet(candidates), m) {
      StableIsOrderFree(candidates, m);
    }
  }

  // ---- The order of concerns and references ------------------------------------------

  lemma FirstPairLeads(ops: TextOps, s: SubmittedConcern, ss: seq<SubmittedConcern>, r: Concern, rs: seq<Concern>,
      resolutions: Resolutions, config: MatcherConfig)
    ensures var pairs := AllPairs(ops, [s] + ss, [r] + rs, resolutions, config);
      pairs != [] && pairs[0] == ScoreCandidate(ops, s, r, ResolvedIds(resolutions, s.localId), config)
  {
    RowCons(ops, s, r, rs, ResolvedIds(resolutions, s.localId), config);
    PairsCons(ops, s, ss, [r] + rs, resolutions, config);
  }

  lemma AcceptedLeads(pairs: seq<ConcernMatch>, t: real)
    requires pairs != [] && pairs[0].score >= t
    ensures AtLeast(pairs, t) != [] && AtLeast(pairs, t)[0] == pairs[0]
  {
  }

  /** The candidates start with the pair of the first concern and the first reference, if it is accepted. */
  lemma FirstPairHeads(ops: TextOps, s: SubmittedConcern, ss: seq<SubmittedConcern>, r: Concern, rs: seq<Concern>,
      resolutions: Resolutions, config: MatcherConfig)
    requires ScoreCandidate(ops, s, r, ResolvedIds(resolutions, s.localId), config).score >= config.threshold
    ensures var candidates := Candidates(ops, [s] + ss, [r] + rs, resolutions, config);
      candidates != [] && candidates[0] == ScoreCandidate(ops, s, r, ResolvedIds(resolutions, s.localId), config)
  {
    FirstPairLeads(ops, s, ss, r, rs, resolutions, config);
    AcceptedLeads(AllPairs(ops, [s] + ss, [r] + rs, resolutions, config), config.threshold);
  }

  lemma RowCons(ops: TextOps, s: SubmittedConcern, r: Concern, rs: seq<Concern>, resolved: set<string>, config: MatcherConfig)
    ensures Row(ops, s, [r] + rs, resolved, config)
         == [ScoreCandidate(ops, s, r, resolved, config)] + Row(ops, s, rs, resolved, config)
  {
    var f := (q: Concern) => [ScoreCandidate(ops, s, q, resolved, config)];
    RowIsImages(ops, s, [r] + rs, resolved, config, f);
    RowIsImages(ops, s, rs, resolved, config, f);
    ImagesCons(f, r, rs);
  }

  lemma PairsCons(ops: TextOps, s: SubmittedConcern, ss: seq<SubmittedConcern>, refs: seq<Concern>, resolutions: Resolutions,
      config: MatcherConfig)
    ensures AllPairs(ops, [s] + ss, refs, resolutions, config)
         == Row(ops, s, refs, ResolvedIds(resolutions, s.localId), config) + AllPairs(ops, ss, refs, resolutions, config)
  {
    var f := (q: SubmittedConcern) => Row(ops, q, refs, ResolvedIds(resolutions, q.localId), config);
    PairsAreImages(ops, [s] + ss, refs, resolutions, config, f);
    PairsAreImages(ops, ss, refs, resolutions, config, f);
    ImagesCons(f, s, ss);
  }

  lemma PairBehind(ops: TextOps, concerns: seq<SubmittedConcern>, refs: seq<Concern>, resolutions: Resolutions,
      config: MatcherConfig, c: ConcernMatch)
    returns (i: nat, j: nat)
    requires c in Candidates(ops, concerns, refs, resolutions, config)
    ensures i < |concerns| && j < |refs| && c.score >= config.threshold
    ensures c == ScoreCandidate(ops, concerns[i], refs[j], ResolvedIds(resolutions, concerns[i].localId), config)
  {
    AtLeastMember(AllPairs(ops, concerns, refs, resolutions, config), config.threshold, c);
    var s, r := ScoredPair(ops, concerns, refs, resolutions, config, c);
    i :| 0 <= i < |concerns| && concerns[i] == s;
    j :| 0 <= j < |refs| && refs[j] == r;
  }

  /** For given resolutions, listing the concerns and the references in any order selects the same pairs. */
  ghost predicate GridOrderFree(ops: TextOps, concerns: seq<SubmittedConcern>, refs: seq<Concern>, resolutions: Resolutions,
      config: MatcherConfig)
  {
    forall concerns', refs' :: multiset(concerns') == multiset(concerns) && multiset(refs') == multiset(refs) ==>
      SameSelection(Candidates(ops, concerns', refs', resolutions, config), Candidates(ops, concerns, refs, resolutions, config))
  }

  /** An order of the concerns and the references in which a given accepted pair heads the candidates. */
  lemma GridToFront(ops: TextOps, concerns: seq<SubmittedConcern>, refs: seq<Concern>, resolutions: Resolutions,
      config: MatcherConfig, c: ConcernMatch)
    returns (concerns': seq<SubmittedConcern>, refs': seq<Concern>)
    requires c in Candidates(ops, concerns, refs, resolutions, config)
    ensures multiset(concerns') == multiset(concerns) && multiset(refs') == multiset(refs)
    ensures var candidates := Candidates(ops, concerns', refs', resolutions, config);
      candidates != [] && candidates[0] == c
  {
    var i, j := PairBehind(ops, concerns, refs, resolutions, config, c);
    var ss, rs := concerns[..i] + concerns[i + 1..], refs[..j] + refs[j + 1..];
    concerns', refs' := [concerns[i]] + ss, [refs[j]] + rs;
    MoveToFront(concerns, i);
    MoveToFront(refs, j);
    FirstPairHeads(ops, concerns[i], ss, refs[j], rs, resolutions, config);
  }

  lemma GridOrderFreeIsStable(ops: TextOps, concerns: seq<SubmittedConcern>, refs: seq<Concern>, resolutions: Resolutions,
      config: MatcherConfig)
    requires GridOrderFree(ops, concerns, refs, resolutions, config)
    ensures var candidates := Candidates(ops, concerns, refs, resolutions, config);
      StrictlyStable(ToSet(candidates), ToSet(Select(candidates)))
  {
    var candidates := Candidates(ops, concerns, refs, resolutions, config);
    var chosen := ToSet(Select(candidates));
    SelectIsMaximal(candidates);
    forall c | c in ToSet(candidates) && c !in chosen ensures Beaten(c, chosen) {
      var concerns', refs' := GridToFront(ops, concerns, refs, resolutions, config, c);
      HeadSelectedOrBeaten(candidates, Candidates(ops, concerns', refs', resolutions, config));
    }
  }

  /** The order of the concerns and of the references is irrelevant exactly when every accepted pair left
      out loses to a strictly better selected one. */
  lemma GridOrderFreeExactly(ops: TextOps, concerns: seq<SubmittedConcern>, refs: seq<Concern>, resolutions: Resolutions,
      config: MatcherConfig)
    ensures var candidates := Candidates(ops, concerns, refs, resolutions, config);
      GridOrderFree(ops, concerns, refs, resolutions, config) <==> StrictlyStable(ToSet(candidates), ToSet(Select(candidates)))
  {
    var candidates := Candidates(ops, concerns, refs, resolutions, config);
    if GridOrderFree(ops, concerns, refs, resolutions, config) {
      GridOrderFreeIsStable(ops, concerns, refs, resolutions, config);
    }
    if StrictlyStable(ToSet(candidates), ToSet(Select(candidates))) {
      StableIsOrderFree(candidates, ToSet(Select(candidates)));
      forall concerns', refs' | multiset(concerns') == multiset(concerns) && multiset(refs') == multiset(refs)
        ensures SameSelection(Candidates(ops, concerns', refs', resolutions, config), candidates)
      {
        PairsPermute(ops, concerns, concerns', refs, refs', resolutions, config);
        AtLeastPermutes(AllPairs(ops, concerns, refs, resolutions, config), AllPairs(ops, concerns', refs', resolutions, config),
          config.threshold);
      }
    }
  }

  // ---- The order of the records of a case --------------------------------------------

  /** Records under one id agree: anchors are the same anchor, concerns resolve alike. */
  ghost predicate IdsAgree(ops: TextOps, concerns: seq<SubmittedConcern>, bundle: CaseBundle) {
    AnchorsAgree(bundle.anchors)
    && ResolveAlike(ops, concerns, ToSet(Eligible(bundle.concerns)), AnchorsById(bundle.anchors))
  }

  /** The matches of a case as the evaluation computes them. */
  function CaseMatches(ops: TextOps, concerns: seq<SubmittedConcern>, bundle: CaseBundle, config: MatcherConfig): seq<ConcernMatch> {
    MatchesOf(ops, concerns, Eligible(bundle.concerns), AnchorsById(bundle.anchors), config)
  }

  /** Every order of the concerns, the references and the anchors of the case matches the same pairs. */
  ghost predicate CaseOrderFree(ops: TextOps, concerns: seq<SubmittedConcern>, bundle: CaseBundle, config: MatcherConfig) {
    forall concerns', bundle' :: Reordered(ops, concerns, concerns', bundle, bundle') ==>
      ToSet(CaseMatches(ops, concerns', bundle', config)) == ToSet(CaseMatches(ops, concerns, bundle, config))
  }

  lemma SelectedByCase(ops: TextOps, concerns: seq<SubmittedConcern>, bundle: CaseBundle, config: MatcherConfig)
    ensures CaseMatches(ops, concerns, bundle, config) == Select(CandidatesOf(ops, concerns, bundle, config))
  {
  }

  /** A reordering of the case in which a given accepted pair heads the candidates. */
  lemma BringToFront(ops: TextOps, concerns: seq<SubmittedConcern>, bundle: CaseBundle, config: MatcherConfig, c: ConcernMatch)
    returns (concerns': seq<SubmittedConcern>, bundle': CaseBundle)
    requires IdsAgree(ops, concerns, bundle) && c in CandidatesOf(ops, concerns, bundle, config)
    ensures Reordered(ops, concerns, concerns', bundle, bundle')
    ensures var candidates := CandidatesOf(ops, concerns', bundle', config);
      candidates != [] && candidates[0] == c
  {
    var refs, index := Eligible(bundle.concerns), AnchorsById(bundle.anchors);
    var resolutions := ResolutionsOf(ops, concerns, ToSet(refs), index);
    var i, j := PairBehind(ops, concerns, refs, resolutions, config, c);
    var s, r := concerns[i], refs[j];
    assert r in refs;
    var k :| 0 <= k < |bundle.concerns| && bundle.concerns[k] == r;
    var ss, others := concerns[..i] + concerns[i + 1..], bundle.concerns[..k] + bundle.concerns[k + 1..];
    concerns', bundle' := [s] + ss, bundle.(concerns := [r] + others);
    MoveToFront(concerns, i);
    MoveToFront(bundle.concerns, k);
    EligibleCons(r, others);
    SameResolutions(ops, concerns, concerns', bundle, bundle');
    FirstPairHeads(ops, s, ss, r, Eligible(others), resolutions, config);
  }

  lemma CaseOrderFreeIsStable(ops: TextOps, concerns: seq<SubmittedConcern>, bundle: CaseBundle, config: MatcherConfig)
    requires IdsAgree(ops, concerns, bundle) && CaseOrderFree(ops, concerns, bundle, config)
    ensures var candidates := CandidatesOf(ops, concerns, bundle, config);
      StrictlyStable(ToSet(candidates), ToSet(Select(candidates)))
  {
    var candidates := CandidatesOf(ops, concerns, bundle, config);
    var chosen := ToSet(Select(candidates));
    SelectIsMaximal(candidates);
    SelectedByCase(ops, concerns, bundle, config);
    forall c | c in ToSet(candidates) && c !in chosen ensures Beaten(c, chosen) {
      var concerns', bundle' := BringToFront(ops, concerns, bundle, config, c);
      SelectedByCase(ops, concerns', bundle', config);
      HeadSelectedOrBeaten(candidates, CandidatesOf(ops, concerns', bundle', config));
    }
  }

  lemma StableIsCaseOrderFree(ops: TextOps, concerns: seq<SubmittedConcern>, bundle: CaseBundle, config: MatcherConfig)
    requires var candidates := CandidatesOf(ops, concerns, bundle, config);
      StrictlyStable(ToSet(candidates), ToSet(Select(candidates)))
    ensures CaseOrderFree(ops, concerns, bundle, config)
  {
    var candidates := CandidatesOf(ops, concerns, bundle, config);
    StableIsOrderFree(candidates, ToSet(Select(candidates)));
    SelectedByCase(ops, concerns, bundle, config);
    forall concerns', bundle' | Reordered(ops, concerns, concerns', bundle, bundle')
      ensures ToSet(CaseMatches(ops, concerns', bundle', config)) == ToSet(CaseMatches(ops, concerns, bundle, config))
    {
      CandidatesPermute(ops, concerns, concerns', bundle, bundle', config);
      SelectedByCase(ops, concerns', bundle', config);
      assert SameSelection(CandidatesOf(ops, concerns', bundle', config), candidates);
    }
  }

  /** Where records under one id agree, the order in which a case lists its concerns, references and
      anchors is irrelevant to its matched pairs exactly when every accepted pair left out loses to a
      strictly better matched one. */
  lemma MatchedPairsForgetOrder(ops: TextOps, concerns: seq<SubmittedConcern>, bundle: CaseBundle, config: MatcherConfig)
    requires IdsAgree(ops, concerns, bundle)
    ensures CaseOrderFree(ops, concerns, bundle, config)
      <==> StrictlyStable(ToSet(CandidatesOf(ops, concerns, bundle, config)), ToSet(CaseMatches(ops, concerns, bundle, config)))
  {
    SelectedByCase(ops, concerns, bundle, config);
    if CaseOrderFree(ops, concerns, bundle, config) {
      CaseOrderFreeIsStable(ops, concerns, bundle, config);
    }
    if StrictlyStable(ToSet(CandidatesOf(ops, concerns, bundle, config)), ToSet(CaseMatches(ops, concerns, bundle, config))) {
      StableIsCaseOrderFree(ops, concerns, bundle, config);
    }
  }

  // ---- Two references that score the same --------------------------------------------

  lemma RowOfTwo(ops: TextOps, s: SubmittedConcern, q: Concern, r: Concern, resolved: set<string>, config: MatcherConfig)
    ensures Row(ops, s, [q, r], resolved, config)
         == [ScoreCandidate(ops, s, q, resolved, config)] + [ScoreCandidate(ops, s, r, resolved, config)]
  {
    RowOfSnoc(ops, s, [], q, resolved, config);
    RowOfSnoc(ops, s, [q], r, resolved, config);
    assert [] + [q] == [q] && [q] + [r] == [q, r];
  }

  lemma RowOfSnoc(ops: TextOps, s: SubmittedConcern, refs: seq<Concern>, r: Concern, resolved: set<string>, config: MatcherConfig)
    ensures Row(ops, s, refs + [r], resolved, config)
         == Row(ops, s, refs, resolved, config) + [ScoreCandidate(ops, s, r, resolved, config)]
  {
    assert (refs + [r])[..|refs|] == refs;
  }

  lemma PairsOfOne(ops: TextOps, s: SubmittedConcern, refs: seq<Concern>, resolutions: Resolutions, config: MatcherConfig)
    ensures AllPairs(ops, [s], refs, resolutions, config) == Row(ops, s, refs, ResolvedIds(resolutions, s.localId), config)
  {
    PairsSnoc(ops, [], s, refs, resolutions, config);
    assert [] + [s] == [s];
  }

  lemma PairsSnoc(ops: TextOps, init: seq<SubmittedConcern>, s: SubmittedConcern, refs: seq<Concern>, resolutions: Resolutions,
      config: MatcherConfig)
    ensures AllPairs(ops, init + [s], refs, resolutions, config)
         == AllPairs(ops, init, refs, resolutions, config) + Row(ops, s, refs, ResolvedIds(resolutions, s.localId), config)
  {
    assert (init + [s])[..|init|] == init;
  }

  /** Of two candidates for one concern that score the same, the first is selected. */
  lemma FirstOfEquals(a: ConcernMatch, b: ConcernMatch)
    requires a.score == b.score && a.submittedLocalId == b.submittedLocalId
    ensures Select([a] + [b]) == [a]
  {
    SortedStays([a] + [b]);
    GreedyCons(a, [b], {}, {});
    GreedyCons(b, [], {} + {a.submittedLocalId}, {} + {a.referenceConcernId});
    assert [b] == [b] + [];
  }

  /** Two eligible references that differ in their id alone score the same for every concern, so the
      one listed first is matched: swapping them changes the matches of the case. */
  lemma TiesDependOnOrder(ops: TextOps, s: SubmittedConcern, r: Concern, id: string, index: AnchorIndex, config: MatcherConfig)
    requires IsEligible(r) && id != r.concernId && config.threshold == 0.0
    ensures var twin := r.(concernId := id);
      && |MatchesOf(ops, [s], Eligible([r, twin]), index, config)| == 1
      && |MatchesOf(ops, [s], Eligible([twin, r]), index, config)| == 1
      && MatchesOf(ops, [s], Eligible([r, twin]), index, config)[0].referenceConcernId == r.concernId
      && MatchesOf(ops, [s], Eligible([twin, r]), index, config)[0].referenceConcernId == id
  {
    var twin := r.(concernId := id);
    BothEligible(r, twin);
    BothEligible(twin, r);
    TwinsTie(ops, s, r, twin, ResolutionsOf(ops, [s], ToSet([r, twin]), index), config);
    TwinsTie(ops, s, twin, r, ResolutionsOf(ops, [s], ToSet([twin, r]), index), config);
  }

  lemma {:induction false} AtLeastAll(ms: seq<ConcernMatch>, t: real)
    requires forall m :: m in ms ==> m.score >= t
    ensures AtLeast(ms, t) == ms
  {
    if ms != [] {
      AtLeastAll(ms[1..], t);
      HeadTail(ms);
    }
  }

  lemma TwinsScore(ops: TextOps, s: SubmittedConcern, q: Concern, id: string, resolved: set<string>, config: MatcherConfig)
    ensures ScoreCandidate(ops, s, q.(concernId := id), resolved, config)
         == ScoreCandidate(ops, s, q, resolved, config).(referenceConcernId := id)
  {
  }

  lemma TwinsTie(ops: TextOps, s: SubmittedConcern, q: Concern, r: Concern, resolutions: Resolutions, config: MatcherConfig)
    requires r == q.(concernId := r.concernId) && config.threshold == 0.0
    ensures Select(Candidates(ops, [s], [q, r], resolutions, config))
         == [ScoreCandidate(ops, s, q, ResolvedIds(resolutions, s.localId), config)]
  {
    var resolved := ResolvedIds(resolutions, s.localId);
    var a, b := ScoreCandidate(ops, s, q, resolved, config), ScoreCandidate(ops, s, r, resolved, config);
    PairsOfOne(ops, s, [q, r], resolutions, config);
    RowOfTwo(ops, s, q, r, resolved, config);
    AtLeastAll([a] + [b], 0.0);
    TwinsScore(ops, s, q, r.concernId, resolved, config);
    assert Candidates(ops, [s], [q, r], resolutions, config) == [a] + [b];
    FirstOfEquals(a, b);
  }

  // ---- The factor of two -------------------------------------------------------------

  /** Some one-to-one set of candidates has twice the score and twice the size of the selection. */
  ghost predicate TwiceTheSelection(candidates: seq<ConcernMatch>) {
    Select(candidates) != [] && exists m ::
      && OneToOne(m) && m <= ToSet(candidates) && 0.0 < TotalOf(m)
      && TotalOf(m) == 2.0 * Total(Select(candidates)) && |m| == 2 * |Select(candidates)|
  }

  /** Two candidates lose to one of equal score that meets both. */
  lemma OneBlocksTwo(winner: ConcernMatch, cross1: ConcernMatch, cross2: ConcernMatch)
    requires 0.0 < winner.score == cross1.score == cross2.score
    requires winner.submittedLocalId == cross1.submittedLocalId != cross2.submittedLocalId
    requires winner.referenceConcernId == cross2.referenceConcernId != cross1.referenceConcernId
    ensures TwiceTheSelection([winner] + [cross1] + [cross2])
  {
    var losers := [cross1] + [cross2];
    var candidates := [winner] + [cross1] + [cross2];
    assert candidates == [winner] + losers && [cross2] == [cross2] + [];
    var usedS, usedR := {} + {winner.submittedLocalId}, {} + {winner.referenceConcernId};
    SortedStays(candidates);
    GreedyCons(winner, losers, {}, {});
    GreedyCons(cross1, [cross2], usedS, usedR);
    GreedyCons(cross2, [], usedS, usedR);
    assert Select(candidates) == [winner];
    TwoLosers(winner, cross1, cross2);
  }

  lemma TwoLosers(winner: ConcernMatch, cross1: ConcernMatch, cross2: ConcernMatch)
    requires winner.score == cross1.score == cross2.score && cross1 != cross2
    ensures TotalOf({cross1, cross2}) == 2.0 * Total([winner]) && |{cross1, cross2}| == 2
  {
    TotalWithout({cross1, cross2}, cross1);
    assert {cross1, cross2} - {cross1} == {cross2};
    TotalWithout({cross2}, cross2);
    assert {cross2} - {cross2} == {};
  }

  const ANCHORS_ONLY: MatcherConfig := MatcherSettings("anchors-only", 1.0, 0.0, 0.0, 0.5)

  /** With all the weight on anchors, the score is the anchor score. */
  lemma AnchorsDecide(ops: TextOps, s: SubmittedConcern, r: Concern, resolved: set<string>)
    ensures ScoreCandidate(ops, s, r, resolved, ANCHORS_ONLY).score == Round6(AnchorScore(resolved, ToSet(r.anchorIds)))
  {
  }

  lemma WholeStays(n: int)
    ensures RoundHalfEven(n as real) == n
  {
  }

  lemma RoundHalfAndZero()
    ensures Round6(0.5) == 0.5 && Round6(0.0) == 0.0
  {
    WholeStays(500000);
    WholeStays(0);
    assert 0.5 * SCALE == 500000 as real && 0.0 * SCALE == 0 as real;
  }

  lemma OneOfTwo(x: string, y: string, id: string)
    requires x != y && (id == x || id == y)
    ensures AnchorScore({x, y}, {id}) == 0.5
  {
    assert {x, y} * {id} == {id} && {x, y} + {id} == {x, y};
    assert |{x, y} * {id}| == 1 && |{x, y} + {id}| == 2;
  }

  lemma NoneOfTwo(x: string, y: string, id: string)
    requires x != y && id != x && id != y
    ensures AnchorScore({x, y}, {id}) == 0.0
  {
    assert {x, y} * {id} == {};
    assert |{x, y} + {id}| == 3;
  }

  lemma HalfOrNothing(x: string, y: string, id: string)
    requires x != y
    ensures Round6(AnchorScore({x, y}, {id})) == if id == x || id == y then 0.5 else 0.0
  {
    RoundHalfAndZero();
    if id == x || id == y {
      OneOfTwo(x, y, id);
    } else {
      NoneOfTwo(x, y, id);
    }
  }

  function ExactHit(i: nat, id: string): AnchorResolution {
    AnchorResolution(i, Exact, {id})
  }

  /** Both factors of half-optimality are reached by the matcher, whatever the texts: two concerns
      cite anchors a, b and a, c; one reference cites a, the other b. */
  lemma HalfIsTight(ops: TextOps, s: SubmittedConcern, r: Concern)
    ensures var concerns := [s.(localId := "s1"), s.(localId := "s2")];
      var refs := [r.(concernId := "occoncern_1", anchorIds := ["ocanchor_a"]), r.(concernId := "occoncern_2", anchorIds := ["ocanchor_b"])];
      var resolutions := map["s1" := [ExactHit(0, "ocanchor_a"), ExactHit(1, "ocanchor_b")], "s2" := [ExactHit(0, "ocanchor_a"), ExactHit(1, "ocanchor_c")]];
      TwiceTheSelection(Candidates(ops, concerns, refs, resolutions, ANCHORS_ONLY))
  {
    var s1, s2 := s.(localId := "s1"), s.(localId := "s2");
    var r1, r2 := r.(concernId := "occoncern_1", anchorIds := ["ocanchor_a"]), r.(concernId := "occoncern_2", anchorIds := ["ocanchor_b"]);
    var resolutions := map["s1" := [ExactHit(0, "ocanchor_a"), ExactHit(1, "ocanchor_b")], "s2" := [ExactHit(0, "ocanchor_a"), ExactHit(1, "ocanchor_c")]];
    var winner := ScoreCandidate(ops, s1, r1, {"ocanchor_a", "ocanchor_b"}, ANCHORS_ONLY);
    var cross1 := ScoreCandidate(ops, s1, r2, {"ocanchor_a", "ocanchor_b"}, ANCHORS_ONLY);
    var cross2 := ScoreCandidate(ops, s2, r1, {"ocanchor_a", "ocanchor_c"}, ANCHORS_ONLY);
    var low := ScoreCandidate(ops, s2, r2, {"ocanchor_a", "ocanchor_c"}, ANCHORS_ONLY);
    FourPairs(ops, s1, s2, r1, r2, resolutions, ANCHORS_ONLY);
    IdsOfTwo("ocanchor_a", "ocanchor_b");
    IdsOfTwo("ocanchor_a", "ocanchor_c");
    FourScores(ops, s1, s2, r1, r2);
    AllButLast(winner, cross1, cross2, low);
    OneBlocksTwo(winner, cross1, cross2);
  }

  lemma IdsOfTwo(x: string, y: string)
    ensures IdsOf([ExactHit(0, x), ExactHit(1, y)]) == {x, y}
  {
    var rs := [ExactHit(0, x), ExactHit(1, y)];
    assert rs[0] in rs && rs[1] in rs;
  }

  lemma FourScores(ops: TextOps, s1: SubmittedConcern, s2: SubmittedConcern, r1: Concern, r2: Concern)
    requires r1.anchorIds == ["ocanchor_a"] && r2.anchorIds == ["ocanchor_b"]
    ensures ScoreCandidate(ops, s1, r1, {"ocanchor_a", "ocanchor_b"}, ANCHORS_ONLY).score == 0.5
    ensures ScoreCandidate(ops, s1, r2, {"ocanchor_a", "ocanchor_b"}, ANCHORS_ONLY).score == 0.5
    ensures ScoreCandidate(ops, s2, r1, {"ocanchor_a", "ocanchor_c"}, ANCHORS_ONLY).score == 0.5
    ensures ScoreCandidate(ops, s2, r2, {"ocanchor_a", "ocanchor_c"}, ANCHORS_ONLY).score == 0.0
  {
    assert ToSet(["ocanchor_a"]) == {"ocanchor_a"} && ToSet(["ocanchor_b"]) == {"ocanchor_b"};
    AnchorsDecide(ops, s1, r1, {"ocanchor_a", "ocanchor_b"});
    AnchorsDecide(ops, s1, r2, {"ocanchor_a", "ocanchor_b"});
    AnchorsDecide(ops, s2, r1, {"ocanchor_a", "ocanchor_c"});
    AnchorsDecide(ops, s2, r2, {"ocanchor_a", "ocanchor_c"});
    HalfOrNothing("ocanchor_a", "ocanchor_b", "ocanchor_a");
    HalfOrNothing("ocanchor_a", "ocanchor_b", "ocanchor_b");
    HalfOrNothing("ocanchor_a", "ocanchor_c", "ocanchor_a");
    HalfOrNothing("ocanchor_a", "ocanchor_c", "ocanchor_b");
  }

  lemma FourPairs(ops: TextOps, s1: SubmittedConcern, s2: SubmittedConcern, r1: Concern, r2: Concern,
      resolutions: Resolutions, config: MatcherConfig)
    ensures var resolved1, resolved2 := ResolvedIds(resolutions, s1.localId), ResolvedIds(resolutions, s2.localId);
      AllPairs(ops, [s1, s2], [r1, r2], resolutions, config)
      == [ScoreCandidate(ops, s1, r1, resolved1, config)] + [ScoreCandidate(ops, s1, r2, resolved1, config)]
         + ([ScoreCandidate(ops, s2, r1, resolved2, config)] + [ScoreCandidate(ops, s2, r2, resolved2, config)])
  {
    PairsOfOne(ops, s1, [r1, r2], resolutions, config);
    PairsSnoc(ops, [s1], s2, [r1, r2], resolutions, config);
    assert [s1] + [s2] == [s1, s2];
    RowOfTwo(ops, s1, r1, r2, ResolvedIds(resolutions, s1.localId), config);
    RowOfTwo(ops, s2, r1, r2, ResolvedIds(resolutions, s2.localId), config);
  }

  lemma AllButLast(a: ConcernMatch, b: ConcernMatch, c: ConcernMatch, low: ConcernMatch)
    requires a.score == b.score == c.score == 0.5 && low.score < 0.5
    ensures AtLeast([a] + [b] + ([c] + [low]), 0.5) == [a] + [b] + [c]
  {
    var firsts := [a] + [b] + [c];
    assert [a] + [b] + ([c] + [low]) == firsts + [low];
    AtLeastSnoc(firsts, low, 0.5);
    AtLeastAll(firsts, 0.5);
  }

  // ---- Repeated ids ------------------------------------------------------------------

  function OnPage(page: nat): Anchor {
    Anchor("ocanchor_a", Some(page), Some(page), None, None)
  }

  function CitingPage(s: SubmittedConcern, page: nat): SubmittedConcern {
    s.(anchors := [SubmittedAnchor(Some(page), None, None)])
  }

  lemma {:induction false} HitsOnPage(ops: TextOps, page: nat, anchorPage: nat)
    ensures IdsOf(ResolutionList(ops, [SubmittedAnchor(Some(page), None, None)], {OnPage(anchorPage)}))
         == if page == anchorPage then {"ocanchor_a"} else {}
  {
    var cited := SubmittedAnchor(Some(page), None, None);
    var pool := {OnPage(anchorPage)};
    var rs := ResolutionList(ops, [cited], pool);
    assert Hits(Exact, ops, cited, pool) == {} && Hits(Normalized, ops, cited, pool) == {} && Hits(ObjectLabel, ops, cited, pool) == {};
    assert Hits(PageOnly, ops, cited, pool) == if page == anchorPage then {"ocanchor_a"} else {} by {
      assert OnPage(anchorPage) in pool;
    }
    assert rs[0] in rs;
    assert rs[0].referenceAnchorIds == if page == anchorPage then {"ocanchor_a"} else {};
    assert forall r :: r in rs ==> r == rs[0];
  }

  lemma CitedOne(r: Concern, a: Anchor)
    requires r.anchorIds == [a.anchorId]
    ensures AnchorPool({r}, map[a.anchorId := a]) == {a}
  {
    var index: AnchorIndex := map[a.anchorId := a];
    assert r in {r} && a.anchorId in r.anchorIds;
    assert CitedAnchors({r}, index) == {a};
  }

  /** With all the weight on anchors a concern matches a reference exactly when it cites its page. */
  lemma MatchedByPage(ops: TextOps, s: SubmittedConcern, r: Concern, resolutions: Resolutions, hit: bool)
    requires r.anchorIds == ["ocanchor_a"] && ResolvedIds(resolutions, s.localId) == if hit then {"ocanchor_a"} else {}
    ensures var candidates := Candidates(ops, [s], [r], resolutions, ANCHORS_ONLY);
      |Select(candidates)| == if hit then 1 else 0
  {
    var resolved := ResolvedIds(resolutions, s.localId);
    var c := ScoreCandidate(ops, s, r, resolved, ANCHORS_ONLY);
    PairsOfOne(ops, s, [r], resolutions, ANCHORS_ONLY);
    RowOfSnoc(ops, s, [], r, resolved, ANCHORS_ONLY);
    assert [] + [r] == [r];
    assert AllPairs(ops, [s], [r], resolutions, ANCHORS_ONLY) == [c];
    PageScore(ops, s, r, hit);
    SelectAlone(c, 0.5);
  }

  lemma SelectAlone(c: ConcernMatch, t: real)
    ensures Select(AtLeast([c], t)) == if c.score >= t then [c] else []
  {
    AtLeastCons(c, [], t);
    assert [c] + [] == [c];
    SortedStays([c]);
    GreedyCons(c, [], {}, {});
  }

  lemma ShareOfPage(hit: bool)
    ensures Round6(AnchorScore(PageHits(hit), {"ocanchor_a"})) == if hit then 1.0 else 0.0
  {
    WholeStays(1000000);
    RoundHalfAndZero();
    assert 1.0 * SCALE == 1000000 as real;
    if hit {
      assert {"ocanchor_a"} * {"ocanchor_a"} == {"ocanchor_a"} && {"ocanchor_a"} + {"ocanchor_a"} == {"ocanchor_a"};
    } else {
      var none: set<string> := {};
      assert none * {"ocanchor_a"} == {} && |none * {"ocanchor_a"}| == 0;
    }
  }

  function PageHits(hit: bool): set<string> {
    if hit then {"ocanchor_a"} else {}
  }

  lemma PageScore(ops: TextOps, s: SubmittedConcern, r: Concern, hit: bool)
    requires r.anchorIds == ["ocanchor_a"]
    ensures ScoreCandidate(ops, s, r, PageHits(hit), ANCHORS_ONLY).score == if hit then 1.0 else 0.0
  {
    assert ToSet(r.anchorIds) == {"ocanchor_a"};
    ShareOfPage(hit);
    AnchorsDecide(ops, s, r, PageHits(hit));
  }

  lemma IndexSnoc(anchors: seq<Anchor>, a: Anchor)
    ensures AnchorsById(anchors + [a]) == AnchorsById(anchors)[a.anchorId := a]
  {
    assert (anchors + [a])[..|anchors|] == anchors;
  }

  lemma LastAnchorStays(a: Anchor, b: Anchor)
    requires a.anchorId == b.anchorId
    ensures AnchorsById([a, b]) == map[b.anchorId := b]
  {
    IndexSnoc([], a);
    IndexSnoc([a], b);
    assert [] + [a] == [a] && [a] + [b] == [a, b];
  }

  /** Anchor ids are not validated to be distinct: of two anchors under one id the later one is kept,
      so swapping them decides whether a concern that cites the page of the first is matched. */
  lemma RepeatedAnchorIdDecides(ops: TextOps, s: SubmittedConcern, r: Concern)
    requires IsEligible(r) && r.anchorIds == ["ocanchor_a"]
    ensures MatchesOf(ops, [CitingPage(s, 1)], Eligible([r]), AnchorsById([OnPage(1), OnPage(2)]), ANCHORS_ONLY) == []
    ensures MatchesOf(ops, [CitingPage(s, 1)], Eligible([r]), AnchorsById([OnPage(2), OnPage(1)]), ANCHORS_ONLY) != []
  {
    EligibleCons(r, []);
    assert [r] + [] == [r];
    LastAnchorStays(OnPage(1), OnPage(2));
    LastAnchorStays(OnPage(2), OnPage(1));
    MatchedAgainst(ops, CitingPage(s, 1), r, 1, 2);
    MatchedAgainst(ops, CitingPage(s, 1), r, 1, 1);
  }

  lemma MatchedAgainst(ops: TextOps, s: SubmittedConcern, r: Concern, page: nat, anchorPage: nat)
    requires r.anchorIds == ["ocanchor_a"] && s.anchors == [SubmittedAnchor(Some(page), None, None)]
    ensures |MatchesOf(ops, [s], [r], map["ocanchor_a" := OnPage(anchorPage)], ANCHORS_ONLY)| == if page == anchorPage then 1 else 0
  {
    var index: AnchorIndex := map["ocanchor_a" := OnPage(anchorPage)];
    assert ToSet([r]) == {r};
    CitedOne(r, OnPage(anchorPage));
    HitsOnPage(ops, page, anchorPage);
    ResolvedAlone(ops, s, {r}, index);
    MatchedByPage(ops, s, r, ResolutionsOf(ops, [s], {r}, index), page == anchorPage);
  }

  lemma ResolvedAlone(ops: TextOps, s: SubmittedConcern, refs: set<Concern>, index: AnchorIndex)
    ensures ResolutionsOf(ops, [s], refs, index) == map[s.localId := Resolve(ops, s, refs, index)]
  {
    assert [s][..0] == [];
  }

  lemma CitingSameScore(ops: TextOps, s: SubmittedConcern, page: nat, r: Concern, resolved: set<string>)
    ensures ScoreCandidate(ops, CitingPage(s, page), r, resolved, ANCHORS_ONLY)
         == ScoreCandidate(ops, s, r, resolved, ANCHORS_ONLY)
  {
  }

  lemma PairsOfTwo(ops: TextOps, s: SubmittedConcern, page: nat, page': nat, r: Concern, resolutions: Resolutions)
    ensures var c := ScoreCandidate(ops, s, r, ResolvedIds(resolutions, s.localId), ANCHORS_ONLY);
      AllPairs(ops, [CitingPage(s, page), CitingPage(s, page')], [r], resolutions, ANCHORS_ONLY) == [c] + [c]
  {
    var x, y := CitingPage(s, page), CitingPage(s, page');
    var resolved := ResolvedIds(resolutions, s.localId);
    PairsOfOne(ops, x, [r], resolutions, ANCHORS_ONLY);
    PairsSnoc(ops, [x], y, [r], resolutions, ANCHORS_ONLY);
    RowOfSnoc(ops, x, [], r, resolved, ANCHORS_ONLY);
    RowOfSnoc(ops, y, [], r, resolved, ANCHORS_ONLY);
    assert [] + [r] == [r] && [x] + [y] == [x, y];
    CitingSameScore(ops, s, page, r, resolved);
    CitingSameScore(ops, s, page', r, resolved);
  }

  lemma SelectTwice(c: ConcernMatch, t: real)
    ensures Select(AtLeast([c] + [c], t)) == if c.score >= t then [c] else []
  {
    AtLeastCons(c, [c], t);
    AtLeastCons(c, [], t);
    assert [c] + [] == [c];
    if c.score >= t {
      FirstOfEquals(c, c);
    } else {
      assert AtLeast([c] + [c], t) == [];
    }
  }

  lemma LastResolutionStays(ops: TextOps, x: SubmittedConcern, y: SubmittedConcern, refs: set<Concern>, index: AnchorIndex)
    requires x.localId == y.localId
    ensures ResolutionsOf(ops, [x, y], refs, index) == map[y.localId := Resolve(ops, y, refs, index)]
  {
    ResolvedAlone(ops, x, refs, index);
    assert [x, y][..1] == [x];
  }

  lemma TwiceMatchedAgainst(ops: TextOps, s: SubmittedConcern, r: Concern, page: nat, page': nat, anchorPage: nat)
    requires r.anchorIds == ["ocanchor_a"]
    ensures |MatchesOf(ops, [CitingPage(s, page), CitingPage(s, page')], [r], map["ocanchor_a" := OnPage(anchorPage)], ANCHORS_ONLY)|
         == if page' == anchorPage then 1 else 0
  {
    var index: AnchorIndex := map["ocanchor_a" := OnPage(anchorPage)];
    var x, y := CitingPage(s, page), CitingPage(s, page');
    assert ToSet([r]) == {r};
    CitedOne(r, OnPage(anchorPage));
    HitsOnPage(ops, page', anchorPage);
    LastResolutionStays(ops, x, y, {r}, index);
    var resolutions := ResolutionsOf(ops, [x, y], {r}, index);
    var c := ScoreCandidate(ops, s, r, ResolvedIds(resolutions, s.localId), ANCHORS_ONLY);
    PairsOfTwo(ops, s, page, page', r, resolutions);
    SelectTwice(c, 0.5);
    PageScore(ops, s, r, page' == anchorPage);
  }

  /** The same for local ids: of two concerns under one id only the resolutions of the later one are
      kept, and both are scored by them, so swapping the two decides whether anything is matched. */
  lemma RepeatedLocalIdDecides(ops: TextOps, s: SubmittedConcern, r: Concern)
    requires IsEligible(r) && r.anchorIds == ["ocanchor_a"]
    ensures var index := map["ocanchor_a" := OnPage(1)];
      && MatchesOf(ops, [CitingPage(s, 1), CitingPage(s, 2)], Eligible([r]), index, ANCHORS_ONLY) == []
      && MatchesOf(ops, [CitingPage(s, 2), CitingPage(s, 1)], Eligible([r]), index, ANCHORS_ONLY) != []
  {
    EligibleCons(r, []);
    assert [r] + [] == [r];
    TwiceMatchedAgainst(ops, s, r, 1, 2, 1);
    TwiceMatchedAgainst(ops, s, r, 2, 1, 1);
  }
}
