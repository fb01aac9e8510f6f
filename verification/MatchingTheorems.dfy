/** What greedy one-to-one matching guarantees, for every list of candidates. */
module MatchingTheorems {
  import opened Wrappers
  import opened Models
  import opened Matching
  import opened SortTheorems

  predicate Conflict(a: ConcernMatch, b: ConcernMatch) {
    a.submittedLocalId == b.submittedLocalId || a.referenceConcernId == b.referenceConcernId
  }

  /** No submitted concern and no reference concern is used twice. */
  ghost predicate OneToOne(m: set<ConcernMatch>) {
    forall a, b :: a in m && b in m && a != b ==> !Conflict(a, b)
  }

  ghost predicate Free(m: set<ConcernMatch>, usedS: set<string>, usedR: set<string>) {
    forall c :: c in m ==> !Blocked(c, usedS, usedR)
  }

  // ---- Greedy selection is one-to-one and maximal ------------------------------------

  lemma {:induction false} GreedySound(ms: seq<ConcernMatch>, usedS: set<string>, usedR: set<string>)
    ensures forall g :: g in Greedy(ms, usedS, usedR) ==> g in ms && !Blocked(g, usedS, usedR)
    ensures forall i, j :: 0 <= i < j < |Greedy(ms, usedS, usedR)| ==>
      !Conflict(Greedy(ms, usedS, usedR)[i], Greedy(ms, usedS, usedR)[j])
  {
    if ms != [] {
      var c, rest := ms[0], ms[1..];
      HeadTail(ms);
      if Blocked(c, usedS, usedR) {
        GreedySound(rest, usedS, usedR);
      } else {
        var later := Greedy(rest, usedS + {c.submittedLocalId}, usedR + {c.referenceConcernId});
        GreedySound(rest, usedS + {c.submittedLocalId}, usedR + {c.referenceConcernId});
        forall j | 0 <= j < |later| ensures !Conflict(c, later[j]) {
          assert later[j] in later;
        }
        assert Greedy(ms, usedS, usedR) == [c] + later;
      }
    }
  }

  lemma GreedyCons(c: ConcernMatch, ms: seq<ConcernMatch>, usedS: set<string>, usedR: set<string>)
    ensures Greedy([c] + ms, usedS, usedR)
         == if Blocked(c, usedS, usedR) then Greedy(ms, usedS, usedR)
            else [c] + Greedy(ms, usedS + {c.submittedLocalId}, usedR + {c.referenceConcernId})
  {
    assert ([c] + ms)[1..] == ms;
  }

  /** Every candidate is selected, was blocked beforehand, or loses to a selected one scored no lower. */
  lemma {:induction false} GreedyDominates(ms: seq<ConcernMatch>, usedS: set<string>, usedR: set<string>, c: ConcernMatch)
    requires Descending(ms) && c in ms && !Blocked(c, usedS, usedR)
    ensures exists g :: g in Greedy(ms, usedS, usedR) && Conflict(g, c) && g.score >= c.score
  {
    var h := ms[0];
    if Blocked(h, usedS, usedR) {
      GreedyDominates(ms[1..], usedS, usedR, c);
    } else if Conflict(h, c) {
      assert h in Greedy(ms, usedS, usedR);
    } else {
      GreedyDominates(ms[1..], usedS + {h.submittedLocalId}, usedR + {h.referenceConcernId}, c);
      var g :| g in Greedy(ms[1..], usedS + {h.submittedLocalId}, usedR + {h.referenceConcernId})
            && Conflict(g, c) && g.score >= c.score;
      assert g in Greedy(ms, usedS, usedR);
    }
  }

  /** The selection is a one-to-one subset of the candidates, and nothing left out could be added. */
  lemma SelectIsMaximal(candidates: seq<ConcernMatch>)
    ensures ToSet(Select(candidates)) <= ToSet(candidates)
    ensures OneToOne(ToSet(Select(candidates)))
    ensures |ToSet(Select(candidates))| == |Select(candidates)|
    ensures forall c :: c in candidates && c !in Select(candidates) ==>
      exists g :: g in Select(candidates) && Conflict(g, c) && g.score >= c.score
  {
    var sorted := SortDesc(candidates);
    SortSorts(candidates);
    SortMembers(candidates);
    GreedySound(sorted, {}, {});
    forall g | g in Select(candidates) ensures g in candidates {
      assert g in ToSet(sorted);
    }
    forall a, b | a in Select(candidates) && b in Select(candidates) && a != b ensures !Conflict(a, b) {
      var i :| 0 <= i < |Select(candidates)| && Select(candidates)[i] == a;
      var j :| 0 <= j < |Select(candidates)| && Select(candidates)[j] == b;
      assert i < j || j < i;
    }
    DistinctToSet(Select(candidates));
    forall c | c in candidates && c !in Select(candidates)
      ensures exists g :: g in Select(candidates) && Conflict(g, c) && g.score >= c.score
    {
      assert c in ToSet(sorted);
      GreedyDominates(sorted, {}, {}, c);
    }
  }

  lemma {:induction false} DistinctToSet<T>(xs: seq<T>)
    requires forall i, j :: 0 <= i < j < |xs| ==> xs[i] != xs[j]
    ensures |ToSet(xs)| == |xs|
  {
    if xs != [] {
      DistinctToSet(xs[1..]);
      assert xs == [xs[0]] + xs[1..];
      assert ToSet(xs) == {xs[0]} + ToSet(xs[1..]);
      assert xs[0] !in xs[1..];
    }
  }

  // ---- Half of the optimum -----------------------------------------------------------

  function Total(ms: seq<ConcernMatch>): real {
    if ms == [] then 0.0 else ms[0].score + Total(ms[1..])
  }

  ghost function TotalOf(m: set<ConcernMatch>): real {
    if m == {} then 0.0 else var c :| c in m; c.score + TotalOf(m - {c})
  }

  lemma {:induction false} TotalWithout(m: set<ConcernMatch>, x: ConcernMatch)
    requires x in m
    ensures TotalOf(m) == x.score + TotalOf(m - {x})
  {
    var c :| c in m && TotalOf(m) == c.score + TotalOf(m - {c});
    if c != x {
      TotalWithout(m - {c}, x);
      TotalWithout(m - {x}, c);
      assert m - {c} - {x} == m - {x} - {c};
    }
  }

  /** Dropping at most one element of bounded score costs at most that bound. */
  lemma DropAtMostOne(m: set<ConcernMatch>, part: set<ConcernMatch>, bound: real)
    requires part <= m && 0.0 <= bound
    requires forall a, b :: a in part && b in part ==> a == b
    requires forall a :: a in part ==> a.score <= bound
    ensures TotalOf(m) <= TotalOf(m - part) + bound
    ensures |m| <= |m - part| + 1
  {
    if part == {} {
      assert m - part == m;
    } else {
      var x :| x in part;
      assert part == {x};
      TotalWithout(m, x);
      assert m == (m - part) + {x};
    }
  }

  /** One selected candidate blocks at most two members of a one-to-one set. */
  lemma DropConflicting(m: set<ConcernMatch>, c: ConcernMatch)
    requires OneToOne(m) && 0.0 <= c.score
    requires forall a :: a in m ==> a.score <= c.score
    ensures var rest := set a | a in m && !Conflict(a, c);
      TotalOf(m) <= TotalOf(rest) + 2.0 * c.score && |m| <= |rest| + 2
  {
    var bySubmitted := set a | a in m && a.submittedLocalId == c.submittedLocalId;
    DropAtMostOne(m, bySubmitted, c.score);
    var middle := m - bySubmitted;
    var byReference := set a | a in middle && a.referenceConcernId == c.referenceConcernId;
    DropAtMostOne(middle, byReference, c.score);
    assert middle - byReference == set a | a in m && !Conflict(a, c);
  }

  /** The members that a selected candidate does not block lie behind it and stay free. */
  lemma RestBehind(ms: seq<ConcernMatch>, usedS: set<string>, usedR: set<string>, m: set<ConcernMatch>)
    requires ms != [] && OneToOne(m) && m <= ToSet(ms) && Free(m, usedS, usedR)
    ensures var rest := set a | a in m && !Conflict(a, ms[0]);
      && OneToOne(rest) && rest <= ToSet(ms[1..])
      && Free(rest, usedS + {ms[0].submittedLocalId}, usedR + {ms[0].referenceConcernId})
  {
    HeadTail(ms);
  }

  lemma HeadIsBest(ms: seq<ConcernMatch>, m: set<ConcernMatch>)
    requires ms != [] && Descending(ms) && m <= ToSet(ms)
    ensures Descending(ms[1..]) && forall a :: a in m ==> a.score <= ms[0].score
  {
  }

  lemma {:induction false} GreedyHalf(ms: seq<ConcernMatch>, usedS: set<string>, usedR: set<string>, m: set<ConcernMatch>)
    requires Descending(ms)
    requires forall c :: c in ms ==> 0.0 <= c.score
    requires OneToOne(m) && m <= ToSet(ms) && Free(m, usedS, usedR)
    ensures TotalOf(m) <= 2.0 * Total(Greedy(ms, usedS, usedR))
    ensures |m| <= 2 * |Greedy(ms, usedS, usedR)|
  {
    if ms == [] {
      assert m == {};
    } else if Blocked(ms[0], usedS, usedR) {
      assert m <= ToSet(ms[1..]) by { HeadTail(ms); }
      GreedyHalf(ms[1..], usedS, usedR, m);
    } else {
      var c := ms[0];
      var rest := set a | a in m && !Conflict(a, c);
      HeadIsBest(ms, m);
      DropConflicting(m, c);
      RestBehind(ms, usedS, usedR, m);
      GreedyHalf(ms[1..], usedS + {c.submittedLocalId}, usedR + {c.referenceConcernId}, rest);
    }
  }

  /** No one-to-one set of candidates has more than twice the score, or twice the size, of the selection. */
  lemma HalfOptimal(candidates: seq<ConcernMatch>, m: set<ConcernMatch>)
    requires forall c :: c in candidates ==> 0.0 <= c.score
    requires OneToOne(m) && m <= ToSet(candidates)
    ensures TotalOf(m) <= 2.0 * Total(Select(candidates))
    ensures |m| <= 2 * |Select(candidates)|
  {
    SortSorts(candidates);
    SortMembers(candidates);
    forall c | c in SortDesc(candidates) ensures 0.0 <= c.score {
      assert c in ToSet(SortDesc(candidates));
    }
    GreedyHalf(SortDesc(candidates), {}, {}, m);
  }

  lemma {:induction false} RowInRange(ops: TextOps, s: SubmittedConcern, refs: seq<Concern>, resolved: set<string>,
      config: MatcherConfig)
    ensures forall c :: c in Row(ops, s, refs, resolved, config) ==>
      0.0 <= c.score <= 1.0 && c.submittedLocalId == s.localId && exists r :: r in refs && c.referenceConcernId == r.concernId
  {
    if refs != [] {
      RowInRange(ops, s, refs[..|refs| - 1], resolved, config);
      assert refs[|refs| - 1] in refs;
    }
  }

  /** Every pair carries a score in the unit interval and names a submitted and a reference concern. */
  lemma {:induction false} PairsInRange(ops: TextOps, submitted: seq<SubmittedConcern>, refs: seq<Concern>,
      resolutions: Resolutions, config: MatcherConfig)
    ensures forall c :: c in AllPairs(ops, submitted, refs, resolutions, config) ==>
      0.0 <= c.score <= 1.0
      && (exists s :: s in submitted && c.submittedLocalId == s.localId)
      && (exists r :: r in refs && c.referenceConcernId == r.concernId)
  {
    if submitted != [] {
      var s := submitted[|submitted| - 1];
      PairsInRange(ops, submitted[..|submitted| - 1], refs, resolutions, config);
      RowInRange(ops, s, refs, ResolvedIds(resolutions, s.localId), config);
      assert s in submitted;
    }
  }

  lemma {:induction false} ScoredInRow(ops: TextOps, s: SubmittedConcern, refs: seq<Concern>, resolved: set<string>,
      config: MatcherConfig, c: ConcernMatch)
    returns (r: Concern)
    requires c in Row(ops, s, refs, resolved, config)
    ensures r in refs && c == ScoreCandidate(ops, s, r, resolved, config)
  {
    var init, last := refs[..|refs| - 1], refs[|refs| - 1];
    assert refs == init + [last];
    if c in Row(ops, s, init, resolved, config) {
      r := ScoredInRow(ops, s, init, resolved, config, c);
    } else {
      r := last;
    }
  }

  /** The concern and the reference behind a scored pair. */
  lemma {:induction false} ScoredPair(ops: TextOps, concerns: seq<SubmittedConcern>, refs: seq<Concern>,
      resolutions: Resolutions, config: MatcherConfig, c: ConcernMatch)
    returns (s: SubmittedConcern, r: Concern)
    requires c in AllPairs(ops, concerns, refs, resolutions, config)
    ensures s in concerns && r in refs
    ensures c == ScoreCandidate(ops, s, r, ResolvedIds(resolutions, s.localId), config)
  {
    var init, last := concerns[..|concerns| - 1], concerns[|concerns| - 1];
    assert concerns == init + [last];
    if c in AllPairs(ops, init, refs, resolutions, config) {
      s, r := ScoredPair(ops, init, refs, resolutions, config, c);
    } else {
      s := last;
      r := ScoredInRow(ops, last, refs, ResolvedIds(resolutions, last.localId), config, c);
    }
  }

  /** Half-optimality of the matcher itself, for every input it accepts. */
  lemma MatcherHalfOptimal(ops: TextOps, submitted: seq<SubmittedConcern>, refs: seq<Concern>,
      resolutions: Resolutions, config: MatcherConfig, m: set<ConcernMatch>)
    requires OneToOne(m) && m <= ToSet(Candidates(ops, submitted, refs, resolutions, config))
    ensures TotalOf(m) <= 2.0 * Total(Select(Candidates(ops, submitted, refs, resolutions, config)))
    ensures |m| <= 2 * |Select(Candidates(ops, submitted, refs, resolutions, config))|
  {
    var pairs := AllPairs(ops, submitted, refs, resolutions, config);
    PairsInRange(ops, submitted, refs, resolutions, config);
    forall c | c in AtLeast(pairs, config.threshold) ensures 0.0 <= c.score {
      AtLeastMember(pairs, config.threshold, c);
    }
    HalfOptimal(AtLeast(pairs, config.threshold), m);
  }

  // ---- The unique stable matching ----------------------------------------------------

  /** Every candidate left out conflicts with a strictly better member. */
  ghost predicate StrictlyStable(candidates: set<ConcernMatch>, m: set<ConcernMatch>) {
    m <= candidates && OneToOne(m)
    && forall c :: c in candidates && c !in m ==> Beaten(c, m)
  }

  ghost predicate Beaten(c: ConcernMatch, m: set<ConcernMatch>) {
    exists g :: g in m && Conflict(g, c) && g.score > c.score
  }

  /** An unblocked head is a member, and the others are stable behind it. */
  lemma StableBehind(ms: seq<ConcernMatch>, usedS: set<string>, usedR: set<string>, m: set<ConcernMatch>)
    requires ms != [] && Descending(ms) && OneToOne(m) && m <= ToSet(ms) && Free(m, usedS, usedR)
    requires forall c :: c in ms && c !in m && !Blocked(c, usedS, usedR) ==> Beaten(c, m)
    requires !Blocked(ms[0], usedS, usedR)
    ensures var c, smaller := ms[0], m - {ms[0]};
      var usedS', usedR' := usedS + {c.submittedLocalId}, usedR + {c.referenceConcernId};
      && c in m && OneToOne(smaller) && smaller <= ToSet(ms[1..]) && Free(smaller, usedS', usedR')
      && forall d :: d in ms[1..] && d !in smaller && !Blocked(d, usedS', usedR') ==> Beaten(d, smaller)
  {
  }

  lemma {:induction false} StableIsGreedy(ms: seq<ConcernMatch>, usedS: set<string>, usedR: set<string>, m: set<ConcernMatch>)
    requires Descending(ms) && OneToOne(m) && m <= ToSet(ms) && Free(m, usedS, usedR)
    requires forall c :: c in ms && c !in m && !Blocked(c, usedS, usedR) ==> Beaten(c, m)
    ensures m == ToSet(Greedy(ms, usedS, usedR))
  {
    if ms != [] {
      var c, rest := ms[0], ms[1..];
      HeadTail(ms);
      if Blocked(c, usedS, usedR) {
        StableIsGreedy(rest, usedS, usedR, m);
      } else {
        var usedS', usedR' := usedS + {c.submittedLocalId}, usedR + {c.referenceConcernId};
        StableBehind(ms, usedS, usedR, m);
        StableIsGreedy(rest, usedS', usedR', m - {c});
        ToSetCons(c, Greedy(rest, usedS', usedR'));
      }
    }
  }

  lemma ToSetCons<T>(x: T, xs: seq<T>)
    ensures ToSet([x] + xs) == {x} + ToSet(xs)
  {
  }

  /** A strictly stable matching, when there is one, is the selection. */
  lemma StableMatchingIsSelected(candidates: seq<ConcernMatch>, m: set<ConcernMatch>)
    requires StrictlyStable(ToSet(candidates), m)
    ensures m == ToSet(Select(candidates))
  {
    SortSorts(candidates);
    SortMembers(candidates);
    forall c | c in SortDesc(candidates) && c !in m ensures Beaten(c, m) {
      assert c in ToSet(SortDesc(candidates));
    }
    StableIsGreedy(SortDesc(candidates), {}, {}, m);
  }

  /** With distinct scores the selection is the one strictly stable matching. */
  lemma SelectIsTheStableMatching(candidates: seq<ConcernMatch>, m: set<ConcernMatch>)
    requires DistinctScores(candidates)
    ensures StrictlyStable(ToSet(candidates), m) <==> m == ToSet(Select(candidates))
  {
    var g := ToSet(Select(candidates));
    SelectIsMaximal(candidates);
    forall c | c in candidates && c !in g ensures Beaten(c, g) {
      var d :| d in Select(candidates) && Conflict(d, c) && d.score >= c.score;
      assert d in ToSet(candidates);
      var i :| 0 <= i < |candidates| && candidates[i] == d;
      var j :| 0 <= j < |candidates| && candidates[j] == c;
      assert i < j || j < i;
    }
    assert StrictlyStable(ToSet(candidates), g);
    if StrictlyStable(ToSet(candidates), m) {
      StableMatchingIsSelected(candidates, m);
    }
  }

  /** With distinct scores the selection does not depend on the order of the candidates. */
  lemma SelectForgetsOrder(a: seq<ConcernMatch>, b: seq<ConcernMatch>)
    requires multiset(a) == multiset(b) && DistinctScores(a)
    ensures Select(a) == Select(b)
  {
    SortForgetsOrder(a, b);
  }

  // ---- Threshold nesting -------------------------------------------------------------

  lemma {:induction false} GreedyOfPrefix(a: seq<ConcernMatch>, b: seq<ConcernMatch>, usedS: set<string>, usedR: set<string>)
    requires a <= b
    ensures Greedy(a, usedS, usedR) <= Greedy(b, usedS, usedR)
  {
    if a != [] {
      var c := a[0];
      assert b[0] == c && a[1..] <= b[1..];
      if Blocked(c, usedS, usedR) {
        GreedyOfPrefix(a[1..], b[1..], usedS, usedR);
      } else {
        GreedyOfPrefix(a[1..], b[1..], usedS + {c.submittedLocalId}, usedR + {c.referenceConcernId});
      }
    }
  }

  /** Raising the threshold only cuts the selection short, ties included. */
  lemma ThresholdNesting(pairs: seq<ConcernMatch>, low: real, high: real)
    requires low <= high
    ensures Select(AtLeast(pairs, high)) <= Select(AtLeast(pairs, low))
  {
    var lower := AtLeast(pairs, low);
    AtLeastTwice(pairs, low, high);
    ThresholdCommutesWithSort(lower, high);
    SortSorts(lower);
    AtLeastIsPrefix(SortDesc(lower), high);
    GreedyOfPrefix(SortDesc(AtLeast(lower, high)), SortDesc(lower), {}, {});
  }
}
