/** Stratified audit samples under an arbitrary shuffle, and the manifest built from them. */
module AuditSampling {
  import opened Wrappers
  import opened AuditDiscovery

  datatype Stratum =
    | NearThresholdAccept | FarThresholdAccept | UnmatchedSubmitted | UnmatchedReference
    | AmbiguousAnchor | TypeDisagreement | SeverityDisagreement | Domain

  /** A candidate id is represented by the joined text that is hashed for it. */
  type AuditId = string

  function Joined(first: string, second: string, third: string): AuditId {
    first + "\U{1F}" + second + "\U{1F}" + third
  }

  function MatchId(caseId: string, localId: string, concernId: string): AuditId {
    Joined(caseId, localId, concernId)
  }

  function StratumLabel(stratum: Stratum): string {
    match stratum
    case NearThresholdAccept => "near_threshold_accept"
    case FarThresholdAccept => "far_threshold_accept"
    case UnmatchedSubmitted => "unmatched_submitted"
    case UnmatchedReference => "unmatched_reference"
    case AmbiguousAnchor => "ambiguous_anchor"
    case TypeDisagreement => "type"
    case SeverityDisagreement => "sev"
    case Domain => "domain"
  }

  function ValueId(stratum: Stratum, caseId: string, value: string): AuditId {
    Joined(StratumLabel(stratum), caseId, value)
  }

  datatype AuditCandidate = AuditCandidate(
    candidateId: AuditId, stratum: Stratum, caseId: string, caseVersion: string, evidenceClass: EvidenceClass)

  datatype AuditSample = AuditSample(
    evidenceClass: EvidenceClass, populationDenominator: nat, candidates: seq<AuditCandidate>)
  {
    /** The sample's own validator. */
    ghost predicate Valid() {
      && (forall i, j :: 0 <= i < j < |candidates| ==> candidates[i].candidateId != candidates[j].candidateId)
      && (forall c :: c in candidates ==> c.evidenceClass == evidenceClass)
    }
  }

  /** A Fisher-Yates shuffle with arbitrary choices. */
  method Shuffle<T>(xs: seq<T>) returns (ys: seq<T>)
    ensures multiset(ys) == multiset(xs)
  {
    ys := xs;
    var i := |xs|;
    while i > 1
      invariant 0 <= i <= |xs| && |ys| == |xs|
      invariant multiset(ys) == multiset(xs)
    {
      i := i - 1;
      var j :| 0 <= j <= i;
      SwapPermutes(ys, j, i);
      ys := ys[j := ys[i]][i := ys[j]];
    }
  }

  lemma SwapPermutes<T>(xs: seq<T>, j: nat, i: nat)
    requires j <= i < |xs|
    ensures multiset(xs[j := xs[i]][i := xs[j]]) == multiset(xs)
  {
  }

  function Min(a: int, b: int): int {
    if a < b then a else b
  }

  /** Python's xs[:n], negative n included. */
  function Take<T>(xs: seq<T>, n: int): (r: seq<T>)
    ensures r <= xs
    ensures n >= 0 ==> |r| <= n
  {
    if n >= 0 then xs[..Min(n, |xs|)]
    else if |xs| + n > 0 then xs[..|xs| + n]
    else []
  }

  lemma PrefixMultiset<T>(a: seq<T>, b: seq<T>)
    requires a <= b
    ensures multiset(a) <= multiset(b)
  {
    assert b == a + b[|a|..];
  }

  function Max(a: int, b: int): int {
    if a < b then b else a
  }

  /** parts takes the given number of members, or all there are, out of every group. */
  ghost predicate Shares(parts: seq<seq<AuditCandidate>>, groups: seq<seq<AuditCandidate>>, per: nat) {
    |parts| == |groups|
    && forall i :: 0 <= i < |groups| ==> multiset(parts[i]) <= multiset(groups[i]) && |parts[i]| == Min(per, |groups[i]|)
  }

  /** Equal shares of each group, pooled. */
  method DrawShares(groups: seq<seq<AuditCandidate>>, per: nat)
    returns (selected: seq<AuditCandidate>, ghost parts: seq<seq<AuditCandidate>>)
    ensures Shares(parts, groups, per) && selected == Flatten(parts)
  {
    selected, parts := [], [];
    for i := 0 to |groups|
      invariant Shares(parts, groups[..i], per) && selected == Flatten(parts)
    {
      var group := Shuffle(groups[i]);
      var share := Take(group, per);
      ShareOf(share, group, groups[i], per);
      assert (parts + [share])[..i] == parts;
      parts := parts + [share];
      selected := selected + share;
    }
    assert groups[..|groups|] == groups;
  }

  lemma ShareOf(share: seq<AuditCandidate>, shuffled: seq<AuditCandidate>, group: seq<AuditCandidate>, per: nat)
    requires multiset(shuffled) == multiset(group) && share == Take(shuffled, per)
    ensures multiset(share) <= multiset(group) && |share| == Min(per, |group|)
  {
    PrefixMultiset(share, shuffled);
    assert |shuffled| == |multiset(shuffled)| && |group| == |multiset(group)|;
  }

  function Flatten<T>(xss: seq<seq<T>>): seq<T> {
    if xss == [] then [] else Flatten(xss[..|xss| - 1]) + xss[|xss| - 1]
  }

  method DeduplicateById(selected: seq<AuditCandidate>) returns (dedup: seq<AuditCandidate>)
    ensures multiset(dedup) <= multiset(selected)
    ensures forall i, j :: 0 <= i < j < |dedup| ==> dedup[i].candidateId != dedup[j].candidateId
    ensures forall c :: c in selected ==> exists d :: d in dedup && d.candidateId == c.candidateId
  {
    dedup := [];
    var seen: set<AuditId> := {};
    for k := 0 to |selected|
      invariant multiset(dedup) <= multiset(selected[..k])
      invariant seen == set d | d in dedup :: d.candidateId
      invariant forall i, j :: 0 <= i < j < |dedup| ==> dedup[i].candidateId != dedup[j].candidateId
      invariant forall c :: c in selected[..k] ==> c.candidateId in seen
    {
      var item := selected[k];
      assert selected[..k + 1] == selected[..k] + [item];
      if item.candidateId in seen {
        continue;
      }
      seen := seen + {item.candidateId};
      dedup := dedup + [item];
    }
    assert selected[..|selected|] == selected;
  }

  /** The non-empty groups, or one empty group. */
  function Groups(near: seq<AuditCandidate>, far: seq<AuditCandidate>, pool: seq<AuditCandidate>): (gs: seq<seq<AuditCandidate>>)
    ensures |gs| >= 1
  {
    var gs := (if near != [] then [near] else []) + (if far != [] then [far] else []) + (if pool != [] then [pool] else []);
    if gs == [] then [[]] else gs
  }

  lemma FlattenSnoc(gs: seq<seq<AuditCandidate>>, g: seq<AuditCandidate>)
    ensures Flatten(gs + if g != [] then [g] else []) == Flatten(gs) + g
  {
    if g != [] {
      assert (gs + [g])[..|gs|] == gs;
    } else {
      assert gs + [] == gs;
    }
  }

  lemma FlattenEmpty()
    ensures Flatten<AuditCandidate>([[]]) == []
  {
    var none: seq<seq<AuditCandidate>> := [[]];
    assert none[..0] == [];
  }

  lemma FlattenThree(near: seq<AuditCandidate>, far: seq<AuditCandidate>, pool: seq<AuditCandidate>)
    ensures var first := if near != [] then [near] else [];
      var second := first + if far != [] then [far] else [];
      Flatten(second + if pool != [] then [pool] else []) == near + far + pool
  {
    var first := if near != [] then [near] else [];
    var second := first + if far != [] then [far] else [];
    assert first == [] + first;
    FlattenSnoc([], near);
    FlattenSnoc(first, far);
    FlattenSnoc(second, pool);
  }

  lemma FlattenGroups(near: seq<AuditCandidate>, far: seq<AuditCandidate>, pool: seq<AuditCandidate>)
    ensures Flatten(Groups(near, far, pool)) == near + far + pool
  {
    FlattenEmpty();
    FlattenThree(near, far, pool);
  }

  // ---- What equal shares come to -----------------------------------------------------

  /** The share of the target that each group gets, at least one. */
  function Share(target: int, groups: nat): (per: nat)
    requires groups > 0
    ensures if target >= groups then per * groups <= target < (per + 1) * groups else per == 1
  {
    var per := Max(1, if target < 0 then 0 else target / groups);
    assert target >= groups ==> target / groups >= 1 by {
      if target >= groups {
        QuotientAtLeastOne(target, groups);
      }
    }
    assert target < groups ==> target < 0 || target / groups == 0 by {
      if 0 <= target < groups {
        QuotientZero(target, groups);
      }
    }
    per
  }

  lemma QuotientAtLeastOne(x: int, n: int)
    requires 0 < n <= x
    ensures x / n >= 1 && (x / n) * n <= x < (x / n + 1) * n
  {
  }

  lemma QuotientZero(x: int, n: int)
    requires 0 <= x < n
    ensures x / n == 0
  {
  }

  predicate DistinctIds(xs: seq<AuditCandidate>) {
    forall i, j :: 0 <= i < j < |xs| ==> xs[i].candidateId != xs[j].candidateId
  }

  function Ids(xs: seq<AuditCandidate>): set<AuditId> {
    set c | c in xs :: c.candidateId
  }

  /** How many candidates the shares of the groups come to. */
  function SharesSize(groups: seq<seq<AuditCandidate>>, per: nat): nat {
    if groups == [] then 0 else SharesSize(groups[..|groups| - 1], per) + Min(per, |groups[|groups| - 1]|)
  }

  lemma {:induction false} SharesSizeIs(parts: seq<seq<AuditCandidate>>, groups: seq<seq<AuditCandidate>>, per: nat)
    requires Shares(parts, groups, per)
    ensures |Flatten(parts)| == SharesSize(groups, per) <= per * |groups|
  {
    if groups == [] {
      assert parts == [];
    } else {
      var n := |groups| - 1;
      SharesSizeIs(parts[..n], groups[..n], per);
      OneMoreShare(per, n);
    }
  }

  lemma OneMoreShare(per: nat, n: nat)
    ensures per * (n + 1) == per * n + per
  {
  }

  lemma MultisetsAdd<T>(a: seq<T>, b: seq<T>, x: seq<T>, y: seq<T>)
    requires multiset(a) <= multiset(b) && multiset(x) <= multiset(y)
    ensures multiset(a + x) <= multiset(b + y)
  {
  }

  lemma {:induction false} SharesInside(parts: seq<seq<AuditCandidate>>, groups: seq<seq<AuditCandidate>>, per: nat)
    requires Shares(parts, groups, per)
    ensures multiset(Flatten(parts)) <= multiset(Flatten(groups))
  {
    if groups != [] {
      var n := |groups| - 1;
      SharesInside(parts[..n], groups[..n], per);
      assert Flatten(parts) == Flatten(parts[..n]) + parts[n] && Flatten(groups) == Flatten(groups[..n]) + groups[n];
      MultisetsAdd(Flatten(parts[..n]), Flatten(groups[..n]), parts[n], groups[n]);
    }
  }

  lemma SubDistinct(a: seq<AuditCandidate>, b: seq<AuditCandidate>)
    requires multiset(a) <= multiset(b) && DistinctIds(b)
    ensures DistinctIds(a)
  {
    forall i, j | 0 <= i < j < |a| ensures a[i].candidateId != a[j].candidateId {
      assert a[i] in multiset(a) && a[j] in multiset(a);
      assert a[i] in multiset(b) && a[j] in multiset(b);
      var x :| 0 <= x < |b| && b[x] == a[i];
      var y :| 0 <= y < |b| && b[y] == a[j];
      KeyOccursOnce(b, (c: AuditCandidate) => c.candidateId, x);
      if a[i] == a[j] {
        RepeatOccursTwice(a, i, j);
      }
    }
  }

  lemma {:induction false} IdsCounted(xs: seq<AuditCandidate>)
    requires DistinctIds(xs)
    ensures |Ids(xs)| == |xs| && |ToSet(xs)| == |xs|
  {
    if xs != [] {
      var x, rest := xs[0], xs[1..];
      assert xs == [x] + rest;
      IdsCounted(rest);
      assert Ids(xs) == {x.candidateId} + Ids(rest) && ToSet(xs) == {x} + ToSet(rest);
      assert x.candidateId !in Ids(rest) && x !in rest;
    }
  }

  /** Sampled lists with the same distinct ids, one drawn from the other, have the same members. */
  lemma SameIdsSameMembers(a: seq<AuditCandidate>, b: seq<AuditCandidate>)
    requires multiset(a) <= multiset(b) && DistinctIds(b) && Ids(a) == Ids(b)
    ensures |a| == |b| && ToSet(a) == ToSet(b)
  {
    SubDistinct(a, b);
    IdsCounted(a);
    IdsCounted(b);
    SubMultisetSize(a, b);
    assert ToSet(a) <= ToSet(b);
    assert ToSet(b) == ToSet(a) + (ToSet(b) - ToSet(a));
  }

  lemma {:induction false} GroupInPool(groups: seq<seq<AuditCandidate>>, i: nat, c: AuditCandidate)
    requires i < |groups| && c in groups[i]
    ensures c in Flatten(groups)
  {
    if i < |groups| - 1 {
      GroupInPool(groups[..|groups| - 1], i, c);
    }
  }

  /** A member of two groups would repeat in the pool. */
  lemma {:induction false} GroupsApart(groups: seq<seq<AuditCandidate>>, i: nat, j: nat, c: AuditCandidate)
    requires DistinctIds(Flatten(groups)) && i < j < |groups| && c in groups[j]
    ensures c !in groups[i]
  {
    var n := |groups| - 1;
    if j < n {
      SubDistinct(Flatten(groups[..n]), Flatten(groups));
      GroupsApart(groups[..n], i, j, c);
    } else {
      var init, last := Flatten(groups[..n]), groups[n];
      var y :| 0 <= y < |last| && last[y] == c;
      assert Flatten(groups)[|init| + y] == c;
      forall x | 0 <= x < |init| ensures init[x] != c {
        assert Flatten(groups)[x] == init[x];
      }
      forall d | d in groups[i] ensures d in init {
        GroupInPool(groups[..n], i, d);
      }
    }
  }

  lemma {:induction false} PartOfPool(parts: seq<seq<AuditCandidate>>, c: AuditCandidate) returns (i: nat)
    requires c in Flatten(parts)
    ensures i < |parts| && c in parts[i]
  {
    var n := |parts| - 1;
    if c in parts[n] {
      i := n;
    } else {
      i := PartOfPool(parts[..n], c);
    }
  }

  /** What was drawn from a group is that group's part. */
  lemma DrawnFromGroup(parts: seq<seq<AuditCandidate>>, groups: seq<seq<AuditCandidate>>, per: nat, i: nat)
    requires Shares(parts, groups, per) && DistinctIds(Flatten(groups)) && i < |groups|
    ensures (set c | c in Flatten(parts) && c in groups[i]) == ToSet(parts[i])
    ensures |ToSet(parts[i])| == Min(per, |groups[i]|)
  {
    forall c | c in parts[i] ensures c in Flatten(parts) && c in groups[i] {
      GroupInPool(parts, i, c);
      SubMultisetSize(parts[i], groups[i]);
    }
    forall c | c in Flatten(parts) && c in groups[i] ensures c in parts[i] {
      var j := PartOfPool(parts, c);
      SubMultisetSize(parts[j], groups[j]);
      if i < j {
        GroupsApart(groups, i, j, c);
      } else if j < i {
        GroupsApart(groups, j, i, c);
      }
    }
    PartDistinct(parts, groups, per, i);
    IdsCounted(parts[i]);
  }

  lemma {:induction false} GroupDistinct(groups: seq<seq<AuditCandidate>>, i: nat)
    requires DistinctIds(Flatten(groups)) && i < |groups|
    ensures DistinctIds(groups[i])
  {
    var n := |groups| - 1;
    if i < n {
      SubDistinct(Flatten(groups[..n]), Flatten(groups));
      GroupDistinct(groups[..n], i);
    } else {
      SubDistinct(groups[n], Flatten(groups));
    }
  }

  lemma PartDistinct(parts: seq<seq<AuditCandidate>>, groups: seq<seq<AuditCandidate>>, per: nat, i: nat)
    requires Shares(parts, groups, per) && DistinctIds(Flatten(groups)) && i < |groups|
    ensures DistinctIds(parts[i])
  {
    GroupDistinct(groups, i);
    SubDistinct(parts[i], groups[i]);
  }

  /** How the sample comes about: a share of every group, cut to the target, each id once. */
  ghost predicate DrawnFrom(sample: seq<AuditCandidate>, groups: seq<seq<AuditCandidate>>, target: nat) {
    groups != []
    && exists parts, taken ::
         && Shares(parts, groups, Share(target, |groups|))
         && multiset(taken) <= multiset(Flatten(parts)) && |taken| == Min(target, |Flatten(parts)|)
         && multiset(sample) <= multiset(taken) && DistinctIds(sample) && Ids(sample) == Ids(taken)
  }

  /** The candidates of a group that are in the sample. */
  function SampledOf(sample: seq<AuditCandidate>, group: seq<AuditCandidate>): set<AuditCandidate> {
    set c | c in sample && c in group
  }

  lemma DrawnSize(parts: seq<seq<AuditCandidate>>, taken: seq<AuditCandidate>, sample: seq<AuditCandidate>,
      groups: seq<seq<AuditCandidate>>, target: nat)
    requires groups != [] && DistinctIds(Flatten(groups)) && Shares(parts, groups, Share(target, |groups|))
    requires multiset(taken) <= multiset(Flatten(parts)) && |taken| == Min(target, |Flatten(parts)|)
    requires multiset(sample) <= multiset(taken) && DistinctIds(sample) && Ids(sample) == Ids(taken)
    ensures |sample| == |taken| && ToSet(sample) == ToSet(taken)
    ensures |sample| == Min(target, SharesSize(groups, Share(target, |groups|)))
  {
    var per := Share(target, |groups|);
    SharesInside(parts, groups, per);
    SharesSizeIs(parts, groups, per);
    SubDistinct(Flatten(parts), Flatten(groups));
    SubDistinct(taken, Flatten(parts));
    SameIdsSameMembers(sample, taken);
  }

  lemma SubOfEqualSize<T>(a: seq<T>, b: seq<T>)
    requires multiset(a) <= multiset(b) && |a| == |b|
    ensures multiset(a) == multiset(b)
  {
    assert multiset(b) == multiset(a) + (multiset(b) - multiset(a));
  }

  lemma DrawnGroup(parts: seq<seq<AuditCandidate>>, taken: seq<AuditCandidate>, sample: seq<AuditCandidate>,
      groups: seq<seq<AuditCandidate>>, target: nat, i: nat)
    requires groups != [] && DistinctIds(Flatten(groups)) && Shares(parts, groups, Share(target, |groups|))
    requires multiset(taken) <= multiset(Flatten(parts)) && |taken| == Min(target, |Flatten(parts)|)
    requires multiset(sample) <= multiset(taken) && DistinctIds(sample) && Ids(sample) == Ids(taken)
    requires |groups| <= target && i < |groups|
    ensures |SampledOf(sample, groups[i])| == Min(Share(target, |groups|), |groups[i]|)
  {
    var per := Share(target, |groups|);
    DrawnSize(parts, taken, sample, groups, target);
    SharesSizeIs(parts, groups, per);
    SubOfEqualSize(taken, Flatten(parts));
    forall c ensures c in sample <==> c in Flatten(parts) {
      assert c in sample <==> c in ToSet(sample);
      assert c in taken <==> c in ToSet(taken);
      assert c in taken <==> c in multiset(taken);
      assert c in Flatten(parts) <==> c in multiset(Flatten(parts));
    }
    DrawnFromGroup(parts, groups, per, i);
    assert SampledOf(sample, groups[i]) == set c | c in Flatten(parts) && c in groups[i];
  }

  /** Where ids are distinct the sample has as many candidates as the shares come to, up to the target, and a
      target with room for every group is shared equally: every group gives its share or all it has. */
  lemma EqualShares(sample: seq<AuditCandidate>, groups: seq<seq<AuditCandidate>>, target: nat)
    requires DrawnFrom(sample, groups, target) && DistinctIds(Flatten(groups))
    ensures |sample| == Min(target, SharesSize(groups, Share(target, |groups|)))
    ensures |groups| <= target ==> forall i :: 0 <= i < |groups| ==>
      |SampledOf(sample, groups[i])| == Min(Share(target, |groups|), |groups[i]|)
  {
    var parts, taken :|
      && Shares(parts, groups, Share(target, |groups|))
      && multiset(taken) <= multiset(Flatten(parts)) && |taken| == Min(target, |Flatten(parts)|)
      && multiset(sample) <= multiset(taken) && DistinctIds(sample) && Ids(sample) == Ids(taken);
    DrawnSize(parts, taken, sample, groups, target);
    if |groups| <= target {
      forall i | 0 <= i < |groups| ensures |SampledOf(sample, groups[i])| == Min(Share(target, |groups|), |groups[i]|) {
        DrawnGroup(parts, taken, sample, groups, target, i);
      }
    }
  }

  /** The sample is drawn in shares; where ids are distinct it has as many candidates as the shares come to, up
      to the target, and with room for every group each gives its share or all it has. */
  ghost predicate SharedEqually(sample: seq<AuditCandidate>, groups: seq<seq<AuditCandidate>>, target: nat) {
    && DrawnFrom(sample, groups, target)
    && (DistinctIds(Flatten(groups)) ==>
          && |sample| == Min(target, SharesSize(groups, Share(target, |groups|)))
          && (|groups| <= target ==> forall i :: 0 <= i < |groups| ==>
                |SampledOf(sample, groups[i])| == Min(Share(target, |groups|), |groups[i]|)))
  }

  /** The sample drawn from the near, far and pooled candidates, for every outcome of the shuffles. */
  method StratifySample(near: seq<AuditCandidate>, far: seq<AuditCandidate>, pool: seq<AuditCandidate>,
      evidenceClass: EvidenceClass, targetSize: int, populationDenominator: Option<nat>) returns (sample: AuditSample)
    requires forall c :: c in near + far + pool ==> c.evidenceClass == evidenceClass
    ensures sample.Valid() && sample.evidenceClass == evidenceClass
    ensures forall c :: c in sample.candidates ==> c in near + far + pool
    ensures |sample.candidates| <= |near| + |far| + |pool|
    ensures sample.populationDenominator == if populationDenominator.Some? then populationDenominator.value else |near| + |far| + |pool|
    ensures evidenceClass == Natural && populationDenominator == Some(0) ==> sample.candidates == []
    ensures targetSize >= 0 && !(evidenceClass == Natural && populationDenominator == Some(0)) ==>
      SharedEqually(sample.candidates, Groups(near, far, pool), targetSize)
    ensures targetSize >= 0 ==> |sample.candidates| <= targetSize
  {
    if evidenceClass == Natural && populationDenominator == Some(0) {
      return AuditSample(evidenceClass, 0, []);
    }
    var groups := Groups(near, far, pool);
    var per := Share(targetSize, |groups|);
    ghost var parts;
    var drawn;
    drawn, parts := DrawShares(groups, per);
    FlattenGroups(near, far, pool);
    SharesInside(parts, groups, per);
    var shuffled := Shuffle(drawn);
    var selected := Take(shuffled, targetSize);
    var dedup := DeduplicateById(selected);
    TakenFrom(selected, shuffled, drawn, targetSize);
    SubMultisetSize(dedup, selected);
    SubMultisetSize(dedup, near + far + pool);
    assert Ids(dedup) == Ids(selected);
    if targetSize >= 0 {
      assert DrawnFrom(dedup, groups, targetSize);
      if DistinctIds(Flatten(groups)) {
        EqualShares(dedup, groups, targetSize);
      }
    }
    var denominator := if populationDenominator.Some? then populationDenominator.value else |near| + |far| + |pool|;
    sample := AuditSample(evidenceClass, denominator, dedup);
  }

  lemma TakenFrom(selected: seq<AuditCandidate>, shuffled: seq<AuditCandidate>, drawn: seq<AuditCandidate>, target: int)
    requires multiset(shuffled) == multiset(drawn) && selected == Take(shuffled, target)
    ensures multiset(selected) <= multiset(drawn)
    ensures target >= 0 ==> |selected| == Min(target, |drawn|)
  {
    PrefixMultiset(selected, shuffled);
    assert |shuffled| == |multiset(shuffled)| && |drawn| == |multiset(drawn)|;
  }

  lemma SubMultisetSize<T>(a: seq<T>, b: seq<T>)
    requires multiset(a) <= multiset(b)
    ensures |a| <= |b|
    ensures forall x :: x in a ==> x in b
  {
    assert multiset(b) == multiset(a) + (multiset(b) - multiset(a));
    forall x | x in a ensures x in b {
      assert x in multiset(a);
      assert x in multiset(b);
    }
  }

  // ---- The population ----------------------------------------------------------------

  datatype MatchRow = MatchRow(caseId: string, caseVersion: string, localId: string, concernId: string, score: real)

  datatype ValueRow = ValueRow(caseId: string, caseVersion: string, value: string)

  function Distance(x: real, y: real): real {
    if x >= y then x - y else y - x
  }

  /** c stands for a match whose score is (or is not) within a tenth of the threshold. */
  ghost predicate FromMatch(c: AuditCandidate, matches: seq<MatchRow>, threshold: real, close: bool) {
    exists m :: m in matches
      && c.candidateId == MatchId(m.caseId, m.localId, m.concernId) && c.caseId == m.caseId && c.caseVersion == m.caseVersion
      && (threshold - 0.1 <= m.score <= threshold + 0.1) == close
  }

  /** c stands for one of the rows of its stratum. */
  ghost predicate FromRow(c: AuditCandidate, rows: seq<ValueRow>) {
    exists row :: row in rows
      && c.candidateId == ValueId(c.stratum, row.caseId, row.value) && c.caseId == row.caseId && c.caseVersion == row.caseVersion
  }

  /** The matches within a tenth of the threshold and the others, each list in the order of the matches. */
  ghost predicate Classified(matches: seq<MatchRow>, threshold: real, near: seq<AuditCandidate>, far: seq<AuditCandidate>) {
    && |near| + |far| == |matches|
    && |near| == |NearAt(matches, threshold)|
    && (forall c :: c in near ==> c.stratum == NearThresholdAccept && FromMatch(c, matches, threshold, true))
    && (forall c :: c in far ==> c.stratum == FarThresholdAccept && FromMatch(c, matches, threshold, false))
  }

  function NearAt(matches: seq<MatchRow>, threshold: real): set<nat> {
    set i: nat | i < |matches| && threshold - 0.1 <= matches[i].score <= threshold + 0.1
  }

  lemma NearSnoc(matches: seq<MatchRow>, m: MatchRow, threshold: real)
    ensures |NearAt(matches + [m], threshold)|
         == |NearAt(matches, threshold)| + if threshold - 0.1 <= m.score <= threshold + 0.1 then 1 else 0
  {
    assert NearAt(matches + [m], threshold)
      == NearAt(matches, threshold) + if threshold - 0.1 <= m.score <= threshold + 0.1 then {|matches|} else {};
  }

  method SplitMatches(matches: seq<MatchRow>, threshold: real, evidenceClass: EvidenceClass)
    returns (near: seq<AuditCandidate>, far: seq<AuditCandidate>)
    ensures Classified(matches, threshold, near, far)
    ensures forall c :: c in near + far ==> c.evidenceClass == evidenceClass
  {
    near, far := [], [];
    for i := 0 to |matches|
      invariant |near| + |far| == i && |near| == |NearAt(matches[..i], threshold)|
      invariant forall c :: c in near ==>
        c.evidenceClass == evidenceClass && c.stratum == NearThresholdAccept && FromMatch(c, matches, threshold, true)
      invariant forall c :: c in far ==>
        c.evidenceClass == evidenceClass && c.stratum == FarThresholdAccept && FromMatch(c, matches, threshold, false)
    {
      var m := matches[i];
      assert matches[..i + 1] == matches[..i] + [m];
      NearSnoc(matches[..i], m, threshold);
      var close := Distance(m.score, threshold) <= 0.1;
      var c := AuditCandidate(MatchId(m.caseId, m.localId, m.concernId),
        if close then NearThresholdAccept else FarThresholdAccept, m.caseId, m.caseVersion, evidenceClass);
      if close {
        near := near + [c];
      } else {
        far := far + [c];
      }
    }
    assert matches[..|matches|] == matches;
  }

  /** Appends one candidate of the stratum for each row. */
  method AddSimple(pool: seq<AuditCandidate>, rows: seq<ValueRow>, stratum: Stratum, evidenceClass: EvidenceClass)
    returns (r: seq<AuditCandidate>)
    ensures |r| == |pool| + |rows|
    ensures forall c :: c in r ==> c in pool || (c.evidenceClass == evidenceClass && c.stratum == stratum && FromRow(c, rows))
  {
    r := pool;
    for i := 0 to |rows|
      invariant |r| == |pool| + i
      invariant forall c :: c in r ==> c in pool || (c.evidenceClass == evidenceClass && c.stratum == stratum && FromRow(c, rows))
    {
      var row := rows[i];
      r := r + [AuditCandidate(ValueId(stratum, row.caseId, row.value), stratum, row.caseId, row.caseVersion, evidenceClass)];
    }
  }

  function Values(rows: seq<ValueRow>): set<string> {
    set d | d in rows :: d.value
  }

  /** One representative row per domain, the first of each. */
  method DomainRepresentatives(domains: seq<ValueRow>) returns (rows: seq<ValueRow>)
    ensures |rows| == |Values(domains)|
    ensures forall r :: r in rows ==> r in domains
    ensures forall i, j :: 0 <= i < j < |rows| ==> rows[i].value != rows[j].value
    ensures Values(rows) == Values(domains)
  {
    rows := [];
    var seen: set<string> := {};
    for k := 0 to |domains|
      invariant |rows| == |seen|
      invariant forall r :: r in rows ==> r in domains
      invariant seen == Values(rows) == Values(domains[..k])
      invariant forall i, j :: 0 <= i < j < |rows| ==> rows[i].value != rows[j].value
    {
      var d := domains[k];
      assert domains[..k + 1] == domains[..k] + [d];
      if d.value in seen {
        continue;
      }
      seen := seen + {d.value};
      rows := rows + [d];
    }
    assert domains[..|domains|] == domains;
  }

  datatype Strata = Strata(
    matches: seq<MatchRow>,
    unmatchedSubmitted: seq<ValueRow>,
    unmatchedReference: seq<ValueRow>,
    ambiguousAnchors: seq<ValueRow>,
    typeDisagreements: seq<ValueRow>,
    severityDisagreements: seq<ValueRow>,
    domains: seq<ValueRow>)

  /** c stands for a record of its stratum. */
  ghost predicate FromStrata(c: AuditCandidate, s: Strata, threshold: real) {
    match c.stratum
    case NearThresholdAccept => FromMatch(c, s.matches, threshold, true)
    case FarThresholdAccept => FromMatch(c, s.matches, threshold, false)
    case UnmatchedSubmitted => FromRow(c, s.unmatchedSubmitted)
    case UnmatchedReference => FromRow(c, s.unmatchedReference)
    case AmbiguousAnchor => FromRow(c, s.ambiguousAnchors)
    case TypeDisagreement => FromRow(c, s.typeDisagreements)
    case SeverityDisagreement => FromRow(c, s.severityDisagreements)
    case Domain => FromRow(c, s.domains)
  }

  /** One member for every match and every other record, and one for every domain. */
  function PopulationSize(s: Strata): nat {
    |s.matches| + |s.unmatchedSubmitted| + |s.unmatchedReference| + |s.ambiguousAnchors|
    + |s.typeDisagreements| + |s.severityDisagreements| + |Values(s.domains)|
  }

  lemma FromSomeRows(c: AuditCandidate, some: seq<ValueRow>, rows: seq<ValueRow>)
    requires FromRow(c, some) && forall r :: r in some ==> r in rows
    ensures FromRow(c, rows)
  {
  }

  method BuildPool(s: Strata, threshold: real, evidenceClass: EvidenceClass) returns (pool: seq<AuditCandidate>)
    ensures |pool| == PopulationSize(s) - |s.matches|
    ensures forall c :: c in pool ==> c.evidenceClass == evidenceClass && FromStrata(c, s, threshold)
    ensures forall c :: c in pool ==> c.stratum !in {NearThresholdAccept, FarThresholdAccept}
  {
    pool := AddSimple([], s.unmatchedSubmitted, UnmatchedSubmitted, evidenceClass);
    pool := AddSimple(pool, s.unmatchedReference, UnmatchedReference, evidenceClass);
    pool := AddSimple(pool, s.ambiguousAnchors, AmbiguousAnchor, evidenceClass);
    pool := AddSimple(pool, s.typeDisagreements, TypeDisagreement, evidenceClass);
    pool := AddSimple(pool, s.severityDisagreements, SeverityDisagreement, evidenceClass);
    assert forall c :: c in pool ==> c.evidenceClass == evidenceClass && FromStrata(c, s, threshold);
    var representatives := DomainRepresentatives(s.domains);
    ghost var before := pool;
    pool := AddSimple(pool, representatives, Domain, evidenceClass);
    forall c | c in pool && c !in before ensures FromStrata(c, s, threshold) {
      FromSomeRows(c, representatives, s.domains);
    }
  }

  /** The population in its groups: the near matches, the far ones and everything else, each as long as it
      has members. */
  ghost predicate PopulationGroups(groups: seq<seq<AuditCandidate>>, near: seq<AuditCandidate>, far: seq<AuditCandidate>,
      pool: seq<AuditCandidate>, s: Strata, threshold: real, evidenceClass: EvidenceClass) {
    && groups == Groups(near, far, pool) && Flatten(groups) == near + far + pool
    && Classified(s.matches, threshold, near, far) && |pool| == PopulationSize(s) - |s.matches|
    && (forall c :: c in near + far + pool ==> c.evidenceClass == evidenceClass && FromStrata(c, s, threshold))
    && (forall c :: c in pool ==> c.stratum !in {NearThresholdAccept, FarThresholdAccept})
  }

  /** The whole procedure: build the population, draw equal shares, and account for it. */
  method StratifyMatchDecisions(s: Strata, threshold: real, targetSize: int, evidenceClass: EvidenceClass,
      populationDenominator: Option<nat>)
    returns (sample: AuditSample, ghost near: seq<AuditCandidate>, ghost far: seq<AuditCandidate>, ghost pool: seq<AuditCandidate>)
    ensures sample.Valid() && sample.evidenceClass == evidenceClass
    ensures forall c :: c in sample.candidates ==> FromStrata(c, s, threshold)
    ensures targetSize >= 0 ==> |sample.candidates| <= targetSize
    ensures |sample.candidates| <= PopulationSize(s)
    ensures sample.populationDenominator == if populationDenominator.Some? then populationDenominator.value else PopulationSize(s)
    ensures populationDenominator.None? ==> BuildSessionManifest(sample).Some?
    ensures PopulationGroups(Groups(near, far, pool), near, far, pool, s, threshold, evidenceClass)
    ensures targetSize >= 0 && !(evidenceClass == Natural && populationDenominator == Some(0)) ==>
      SharedEqually(sample.candidates, Groups(near, far, pool), targetSize)
  {
    var nearby, others := SplitMatches(s.matches, threshold, evidenceClass);
    var rest := BuildPool(s, threshold, evidenceClass);
    near, far, pool := nearby, others, rest;
    FlattenGroups(nearby, others, rest);
    sample := StratifySample(nearby, others, rest, evidenceClass, targetSize, populationDenominator);
  }

  // ---- The session manifest ----------------------------------------------------------

  const NATURAL_TARGET := 100

  datatype AuditManifest = AuditManifest(
    evidenceClass: EvidenceClass, populationDenominator: nat, sampledCount: nat, naturalTargetMet: bool, claimsAuthorized: bool)
  {
    /** The manifest's own validator. */
    predicate Valid() {
      !claimsAuthorized && !(evidenceClass == Sample && naturalTargetMet) && sampledCount <= populationDenominator
    }
  }

  /** Building a manifest fails exactly when the sample is larger than its denominator, and the natural
      target is marked as met exactly by a natural sample of at least a hundred candidates. */
  function BuildSessionManifest(sample: AuditSample): (r: Option<AuditManifest>)
    ensures r.Some? <==> |sample.candidates| <= sample.populationDenominator
    ensures r.Some? ==> r.value.Valid() && r.value.sampledCount == |sample.candidates|
    ensures r.Some? ==>
      (r.value.naturalTargetMet <==> sample.evidenceClass == Natural && |sample.candidates| >= 100)
  {
    var met := sample.evidenceClass == Natural
      && sample.populationDenominator >= NATURAL_TARGET
      && |sample.candidates| >= Min(NATURAL_TARGET, if sample.populationDenominator > 1 then sample.populationDenominator else 1);
    var manifest := AuditManifest(sample.evidenceClass, sample.populationDenominator, |sample.candidates|, met, false);
    if manifest.Valid() then Some(manifest) else None
  }
}
