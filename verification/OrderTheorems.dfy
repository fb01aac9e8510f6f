/** Permuting the records of a case: when its resolutions and matches stay the same. */
module OrderTheorems {
  import opened Wrappers
  import opened Models
  import opened Matching
  import opened SortTheorems
  import opened MatchingTheorems
  import opened ReferencePolicy
  import opened Anchoring
  import opened Engine

  // ---- Concatenated images -----------------------------------------------------------

  ghost function Images<A, B>(f: A -> seq<B>, xs: seq<A>): seq<B> {
    if xs == [] then [] else Images(f, xs[..|xs| - 1]) + f(xs[|xs| - 1])
  }

  lemma {:induction false} ImagesWithout<A, B>(f: A -> seq<B>, xs: seq<A>, i: nat)
    requires i < |xs|
    ensures multiset(Images(f, xs)) == multiset(Images(f, xs[..i] + xs[i + 1..])) + multiset(f(xs[i]))
  {
    var init, last := xs[..|xs| - 1], xs[|xs| - 1];
    if i == |xs| - 1 {
      assert xs[..i] + xs[i + 1..] == init;
    } else {
      ImagesWithout(f, init, i);
      var rest := xs[..i] + xs[i + 1..];
      assert rest[..|rest| - 1] == init[..i] + init[i + 1..];
      assert rest[|rest| - 1] == last;
    }
  }

  lemma {:induction false} ImagesCons<A, B>(f: A -> seq<B>, x: A, xs: seq<A>)
    ensures Images(f, [x] + xs) == f(x) + Images(f, xs)
  {
    var all := [x] + xs;
    if xs == [] {
      assert all[..0] == [];
      assert Images(f, []) == [];
    } else {
      ImagesCons(f, x, xs[..|xs| - 1]);
      assert all[..|all| - 1] == [x] + xs[..|xs| - 1];
    }
  }

  /** Where a permutation of a list has the list's last element. */
  lemma LastElsewhere<A>(xs: seq<A>, ys: seq<A>) returns (i: nat)
    requires multiset(xs) == multiset(ys) && xs != []
    ensures i < |ys| && ys[i] == xs[|xs| - 1]
    ensures multiset(xs[..|xs| - 1]) == multiset(ys[..i] + ys[i + 1..])
  {
    var init, last := xs[..|xs| - 1], xs[|xs| - 1];
    assert xs == init + [last];
    assert last in multiset(ys);
    i :| 0 <= i < |ys| && ys[i] == last;
    Without(ys, i);
    assert multiset(init) == multiset(xs) - multiset{last};
  }

  lemma Without<A>(ys: seq<A>, i: nat)
    requires i < |ys|
    ensures multiset(ys[..i] + ys[i + 1..]) == multiset(ys) - multiset{ys[i]}
  {
    assert ys == ys[..i] + [ys[i]] + ys[i + 1..];
  }

  lemma {:induction false} ImagesPermute<A, B>(f: A -> seq<B>, xs: seq<A>, ys: seq<A>)
    requires multiset(xs) == multiset(ys)
    ensures multiset(Images(f, xs)) == multiset(Images(f, ys))
  {
    if xs == [] {
      assert |ys| == |multiset(ys)| == 0;
    } else {
      var i := LastElsewhere(xs, ys);
      ImagesPermute(f, xs[..|xs| - 1], ys[..i] + ys[i + 1..]);
      ImagesWithout(f, ys, i);
    }
  }

  lemma {:induction false} RowIsImages(ops: TextOps, s: SubmittedConcern, refs: seq<Concern>, resolved: set<string>,
      config: MatcherConfig, f: Concern -> seq<ConcernMatch>)
    requires forall r :: f(r) == [ScoreCandidate(ops, s, r, resolved, config)]
    ensures Row(ops, s, refs, resolved, config) == Images(f, refs)
  {
    if refs != [] {
      RowIsImages(ops, s, refs[..|refs| - 1], resolved, config, f);
    }
  }

  lemma RowPermutes(ops: TextOps, s: SubmittedConcern, refs: seq<Concern>, refs': seq<Concern>, resolved: set<string>,
      config: MatcherConfig)
    requires multiset(refs) == multiset(refs')
    ensures multiset(Row(ops, s, refs, resolved, config)) == multiset(Row(ops, s, refs', resolved, config))
  {
    var f := (r: Concern) => [ScoreCandidate(ops, s, r, resolved, config)];
    RowIsImages(ops, s, refs, resolved, config, f);
    RowIsImages(ops, s, refs', resolved, config, f);
    ImagesPermute(f, refs, refs');
  }

  lemma {:induction false} PairsAreImages(ops: TextOps, concerns: seq<SubmittedConcern>, refs: seq<Concern>,
      resolutions: Resolutions, config: MatcherConfig,
      f: SubmittedConcern -> seq<ConcernMatch>)
    requires forall s :: f(s) == Row(ops, s, refs, ResolvedIds(resolutions, s.localId), config)
    ensures AllPairs(ops, concerns, refs, resolutions, config) == Images(f, concerns)
  {
    if concerns != [] {
      PairsAreImages(ops, concerns[..|concerns| - 1], refs, resolutions, config, f);
    }
  }

  lemma {:induction false} PairsPermuteByReference(ops: TextOps, concerns: seq<SubmittedConcern>, refs: seq<Concern>,
      refs': seq<Concern>, resolutions: Resolutions, config: MatcherConfig)
    requires multiset(refs) == multiset(refs')
    ensures multiset(AllPairs(ops, concerns, refs, resolutions, config)) == multiset(AllPairs(ops, concerns, refs', resolutions, config))
  {
    if concerns != [] {
      var s := concerns[|concerns| - 1];
      PairsPermuteByReference(ops, concerns[..|concerns| - 1], refs, refs', resolutions, config);
      RowPermutes(ops, s, refs, refs', ResolvedIds(resolutions, s.localId), config);
    }
  }

  lemma PairsPermute(ops: TextOps, concerns: seq<SubmittedConcern>, concerns': seq<SubmittedConcern>,
      refs: seq<Concern>, refs': seq<Concern>,
      resolutions: Resolutions, config: MatcherConfig)
    requires multiset(refs) == multiset(refs') && multiset(concerns) == multiset(concerns')
    ensures multiset(AllPairs(ops, concerns, refs, resolutions, config)) == multiset(AllPairs(ops, concerns', refs', resolutions, config))
  {
    var f := (s: SubmittedConcern) => Row(ops, s, refs, ResolvedIds(resolutions, s.localId), config);
    PairsAreImages(ops, concerns, refs, resolutions, config, f);
    PairsAreImages(ops, concerns', refs, resolutions, config, f);
    ImagesPermute(f, concerns, concerns');
    PairsPermuteByReference(ops, concerns', refs, refs', resolutions, config);
  }

  // ---- Dictionaries filled in order --------------------------------------------------

  lemma SameMembers<T>(a: seq<T>, b: seq<T>)
    requires multiset(a) == multiset(b)
    ensures ToSet(a) == ToSet(b)
  {
    forall x ensures x in a <==> x in b {
      assert x in a <==> x in multiset(a);
      assert x in b <==> x in multiset(b);
    }
  }

  /** The dictionary in which a later entry replaces an earlier one of the same key. */
  ghost function LastWins<A, K, V>(key: A -> K, value: A -> V, xs: seq<A>): map<K, V> {
    if xs == [] then map[] else LastWins(key, value, xs[..|xs| - 1])[key(xs[|xs| - 1]) := value(xs[|xs| - 1])]
  }

  /** Entries of one key have one value. */
  ghost predicate Consistent<A(!new), K, V>(key: A -> K, value: A -> V, xs: seq<A>) {
    forall x, y :: x in xs && y in xs && key(x) == key(y) ==> value(x) == value(y)
  }

  lemma LastWinsSnoc<A, K, V>(key: A -> K, value: A -> V, xs: seq<A>, x: A)
    ensures LastWins(key, value, xs + [x]) == LastWins(key, value, xs)[key(x) := value(x)]
    ensures key(x) in LastWins(key, value, xs + [x]) && LastWins(key, value, xs + [x])[key(x)] == value(x)
  {
    assert (xs + [x])[..|xs|] == xs;
  }

  lemma {:induction false} LastWinsHolds<A(!new), K(!new), V>(key: A -> K, value: A -> V, xs: seq<A>)
    requires Consistent(key, value, xs)
    ensures var m := LastWins(key, value, xs);
      && (forall k :: k in m <==> exists x :: x in xs && key(x) == k)
      && forall x :: x in xs ==> m[key(x)] == value(x)
  {
    if xs != [] {
      var init, last := xs[..|xs| - 1], xs[|xs| - 1];
      assert xs == init + [last];
      assert forall x :: x in xs <==> x in init || x == last;
      LastWinsHolds(key, value, init);
    }
  }

  lemma LastWinsForgetsOrder<A(!new), K(!new), V>(key: A -> K, value: A -> V, xs: seq<A>, ys: seq<A>)
    requires multiset(xs) == multiset(ys) && Consistent(key, value, xs)
    ensures LastWins(key, value, xs) == LastWins(key, value, ys)
  {
    SameMembers(xs, ys);
    assert forall x :: x in xs <==> x in ToSet(xs);
    assert forall x :: x in ys <==> x in ToSet(ys);
    LastWinsHolds(key, value, xs);
    LastWinsHolds(key, value, ys);
  }

  lemma MovedLast<A>(xs: seq<A>, i: nat)
    requires i < |xs|
    ensures multiset(xs[..i] + xs[i + 1..] + [xs[i]]) == multiset(xs)
  {
    assert xs == xs[..i] + [xs[i]] + xs[i + 1..];
  }

  ghost predicate FillsAlike<A(!new), K, V>(key: A -> K, value: A -> V, xs: seq<A>) {
    forall ys :: multiset(ys) == multiset(xs) ==> LastWins(key, value, ys) == LastWins(key, value, xs)
  }

  lemma EveryEntryStays<A(!new), K, V>(key: A -> K, value: A -> V, xs: seq<A>, x: A)
    requires FillsAlike(key, value, xs) && x in xs
    ensures key(x) in LastWins(key, value, xs) && LastWins(key, value, xs)[key(x)] == value(x)
  {
    var i :| 0 <= i < |xs| && xs[i] == x;
    var rest := xs[..i] + xs[i + 1..];
    MovedLast(xs, i);
    assert LastWins(key, value, rest + [x]) == LastWins(key, value, xs);
    LastWinsSnoc(key, value, rest, x);
  }

  /** The order of the entries is irrelevant exactly when entries of one key agree. */
  lemma FillsAlikeExactly<A(!new), K(!new), V>(key: A -> K, value: A -> V, xs: seq<A>)
    ensures FillsAlike(key, value, xs) <==> Consistent(key, value, xs)
  {
    if FillsAlike(key, value, xs) {
      forall x, y | x in xs && y in xs && key(x) == key(y) ensures value(x) == value(y) {
        EveryEntryStays(key, value, xs, x);
        EveryEntryStays(key, value, xs, y);
      }
    }
    if Consistent(key, value, xs) {
      forall ys | multiset(ys) == multiset(xs) ensures LastWins(key, value, ys) == LastWins(key, value, xs) {
        LastWinsForgetsOrder(key, value, xs, ys);
      }
    }
  }

  // ---- The anchors of a case ---------------------------------------------------------

  /** Anchors of one id are one anchor. */
  ghost predicate AnchorsAgree(anchors: seq<Anchor>) {
    forall a, b :: a in anchors && b in anchors && a.anchorId == b.anchorId ==> a == b
  }

  ghost predicate IndexOrderFree(anchors: seq<Anchor>) {
    forall others :: multiset(others) == multiset(anchors) ==> AnchorsById(others) == AnchorsById(anchors)
  }

  lemma {:induction false} IndexIsLastWins(anchors: seq<Anchor>, key: Anchor -> string, value: Anchor -> Anchor)
    requires forall a :: key(a) == a.anchorId && value(a) == a
    ensures AnchorsById(anchors) == LastWins(key, value, anchors)
  {
    if anchors != [] {
      IndexIsLastWins(anchors[..|anchors| - 1], key, value);
    }
  }

  /** The anchor index does not depend on the order of the anchors exactly when a repeated id always
      stands for the same anchor. */
  lemma IndexForgetsOrder(anchors: seq<Anchor>)
    ensures IndexOrderFree(anchors) <==> AnchorsAgree(anchors)
  {
    var key, value := (a: Anchor) => a.anchorId, (a: Anchor) => a;
    FillsAlikeExactly(key, value, anchors);
    forall others ensures AnchorsById(others) == LastWins(key, value, others) {
      IndexIsLastWins(others, key, value);
    }
  }

  // ---- The resolutions of a case -----------------------------------------------------

  /** Submitted concerns of one local id resolve alike. */
  ghost predicate ResolveAlike(ops: TextOps, concerns: seq<SubmittedConcern>, refs: set<Concern>, index: AnchorIndex) {
    forall s, s' :: s in concerns && s' in concerns && s.localId == s'.localId ==>
      Resolve(ops, s, refs, index) == Resolve(ops, s', refs, index)
  }

  ghost predicate ResolutionsOrderFree(ops: TextOps, concerns: seq<SubmittedConcern>, refs: set<Concern>, index: AnchorIndex) {
    forall others :: multiset(others) == multiset(concerns) ==>
      ResolutionsOf(ops, others, refs, index) == ResolutionsOf(ops, concerns, refs, index)
  }

  lemma {:induction false} ResolutionsAreLastWins(ops: TextOps, concerns: seq<SubmittedConcern>, refs: set<Concern>,
      index: AnchorIndex, key: SubmittedConcern -> string, value: SubmittedConcern -> seq<AnchorResolution>)
    requires forall s :: key(s) == s.localId && value(s) == Resolve(ops, s, refs, index)
    ensures ResolutionsOf(ops, concerns, refs, index) == LastWins(key, value, concerns)
  {
    if concerns != [] {
      ResolutionsAreLastWins(ops, concerns[..|concerns| - 1], refs, index, key, value);
    }
  }

  /** The resolutions by local id do not depend on the order of the submitted concerns exactly when
      concerns under one id resolve alike. */
  lemma ResolutionsForgetOrder(ops: TextOps, concerns: seq<SubmittedConcern>, refs: set<Concern>, index: AnchorIndex)
    ensures ResolutionsOrderFree(ops, concerns, refs, index) <==> ResolveAlike(ops, concerns, refs, index)
  {
    var key := (s: SubmittedConcern) => s.localId;
    var value := (s: SubmittedConcern) => Resolve(ops, s, refs, index);
    FillsAlikeExactly(key, value, concerns);
    forall others ensures ResolutionsOf(ops, others, refs, index) == LastWins(key, value, others) {
      ResolutionsAreLastWins(ops, others, refs, index, key, value);
    }
  }

  // ---- The matches of a case ---------------------------------------------------------

  /** The candidate pairs of a case. */
  function CandidatesOf(ops: TextOps, concerns: seq<SubmittedConcern>, bundle: CaseBundle, config: MatcherConfig): seq<ConcernMatch> {
    var refs := Eligible(bundle.concerns);
    Candidates(ops, concerns, refs, ResolutionsOf(ops, concerns, ToSet(refs), AnchorsById(bundle.anchors)), config)
  }

  /** The same records in another order, where repeated ids are consistent. */
  ghost predicate Reordered(ops: TextOps, concerns: seq<SubmittedConcern>, concerns': seq<SubmittedConcern>,
      bundle: CaseBundle, bundle': CaseBundle) {
    && multiset(concerns) == multiset(concerns')
    && multiset(bundle.concerns) == multiset(bundle'.concerns)
    && multiset(bundle.anchors) == multiset(bundle'.anchors)
    && AnchorsAgree(bundle.anchors)
    && ResolveAlike(ops, concerns, ToSet(Eligible(bundle.concerns)), AnchorsById(bundle.anchors))
  }

  lemma SameResolutions(ops: TextOps, concerns: seq<SubmittedConcern>, concerns': seq<SubmittedConcern>,
      bundle: CaseBundle, bundle': CaseBundle)
    requires Reordered(ops, concerns, concerns', bundle, bundle')
    ensures ResolutionsOf(ops, concerns', ToSet(Eligible(bundle'.concerns)), AnchorsById(bundle'.anchors))
         == ResolutionsOf(ops, concerns, ToSet(Eligible(bundle.concerns)), AnchorsById(bundle.anchors))
  {
    var refs, index := Eligible(bundle.concerns), AnchorsById(bundle.anchors);
    EligiblePermutes(bundle.concerns, bundle'.concerns);
    SameMembers(refs, Eligible(bundle'.concerns));
    IndexForgetsOrder(bundle.anchors);
    assert AnchorsById(bundle'.anchors) == index;
    ResolutionsForgetOrder(ops, concerns, ToSet(refs), index);
  }

  lemma CandidatesPermute(ops: TextOps, concerns: seq<SubmittedConcern>, concerns': seq<SubmittedConcern>,
      bundle: CaseBundle, bundle': CaseBundle, config: MatcherConfig)
    requires Reordered(ops, concerns, concerns', bundle, bundle')
    ensures multiset(CandidatesOf(ops, concerns, bundle, config)) == multiset(CandidatesOf(ops, concerns', bundle', config))
  {
    var refs, refs' := Eligible(bundle.concerns), Eligible(bundle'.concerns);
    var resolutions := ResolutionsOf(ops, concerns, ToSet(refs), AnchorsById(bundle.anchors));
    EligiblePermutes(bundle.concerns, bundle'.concerns);
    SameResolutions(ops, concerns, concerns', bundle, bundle');
    PairsPermute(ops, concerns, concerns', refs, refs', resolutions, config);
    AtLeastPermutes(AllPairs(ops, concerns, refs, resolutions, config), AllPairs(ops, concerns', refs', resolutions, config), config.threshold);
  }

  /** Permuting the submitted concerns, the reference concerns and the anchors of a case leaves its
      matches alone when repeated ids are consistent and no two accepted pairs score the same. */
  lemma MatchesForgetOrder(ops: TextOps, concerns: seq<SubmittedConcern>, concerns': seq<SubmittedConcern>,
      bundle: CaseBundle, bundle': CaseBundle, config: MatcherConfig)
    requires Reordered(ops, concerns, concerns', bundle, bundle')
    requires DistinctScores(CandidatesOf(ops, concerns, bundle, config))
    ensures MatchesOf(ops, concerns, Eligible(bundle.concerns), AnchorsById(bundle.anchors), config)
         == MatchesOf(ops, concerns', Eligible(bundle'.concerns), AnchorsById(bundle'.anchors), config)
  {
    CandidatesPermute(ops, concerns, concerns', bundle, bundle', config);
    SelectForgetsOrder(CandidatesOf(ops, concerns, bundle, config), CandidatesOf(ops, concerns', bundle', config));
  }
}
