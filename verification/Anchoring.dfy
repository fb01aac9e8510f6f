/** Resolving the anchors of submitted concerns against a case. */
module Anchoring {
  import opened Wrappers
  import opened Models
  import opened Matching

  type AnchorIndex = m: map<string, Anchor> | forall id :: id in m ==> m[id].anchorId == id witness map[]

  /** The anchor dictionary of a case: a later anchor with the same id replaces an earlier one. */
  function AnchorsById(anchors: seq<Anchor>): AnchorIndex {
    if anchors == [] then map[]
    else
      var last := anchors[|anchors| - 1];
      AnchorsById(anchors[..|anchors| - 1])[last.anchorId := last]
  }

  /** The anchors a set of ids stands for; unknown ids stand for none. */
  function Lookup(ids: set<string>, index: AnchorIndex): set<Anchor> {
    set id | id in ids && id in index :: index[id]
  }

  lemma LookupAdd(ids: set<string>, id: string, index: AnchorIndex)
    ensures Lookup(ids + {id}, index) == Lookup(ids, index) + (if id in index then {index[id]} else {})
  {
  }

  /** The known anchors cited by the references. */
  function CitedAnchors(refs: set<Concern>, index: AnchorIndex): set<Anchor> {
    set c, id | c in refs && id in c.anchorIds && id in index :: index[id]
  }

  /** The anchors a submission is resolved against: the cited ones, or all when none is cited. */
  function AnchorPool(refs: set<Concern>, index: AnchorIndex): set<Anchor> {
    if CitedAnchors(refs, index) == {} then index.Values else CitedAnchors(refs, index)
  }

  function ResolutionList(ops: TextOps, anchors: seq<SubmittedAnchor>, pool: set<Anchor>): seq<AnchorResolution> {
    seq(|anchors|, i requires 0 <= i < |anchors| => Resolution(ops, anchors[i], pool).(submittedIndex := i))
  }

  function Resolve(ops: TextOps, s: SubmittedConcern, refs: set<Concern>, index: AnchorIndex): seq<AnchorResolution> {
    ResolutionList(ops, s.anchors, AnchorPool(refs, index))
  }

  lemma CitedAdd(refs: set<Concern>, c: Concern, index: AnchorIndex)
    ensures CitedAnchors(refs + {c}, index) == CitedAnchors(refs, index) + Lookup(ToSet(c.anchorIds), index)
  {
  }

  method ReferenceAnchors(references: seq<Concern>, index: AnchorIndex) returns (anchors: seq<Anchor>)
    ensures ToSet(anchors) == CitedAnchors(ToSet(references), index)
  {
    anchors := [];
    for i := 0 to |references|
      invariant ToSet(anchors) == CitedAnchors(ToSet(references[..i]), index)
    {
      var concern := references[i];
      ghost var before := ToSet(anchors);
      for j := 0 to |concern.anchorIds|
        invariant ToSet(anchors) == before + Lookup(ToSet(concern.anchorIds[..j]), index)
      {
        var id := concern.anchorIds[j];
        ToSetSnoc(concern.anchorIds, j);
        LookupAdd(ToSet(concern.anchorIds[..j]), id, index);
        if id in index {
          ghost var had := anchors;
          anchors := anchors + [index[id]];
          assert ToSet(anchors) == ToSet(had) + {index[id]};
        } else {
          assert Lookup(ToSet(concern.anchorIds[..j + 1]), index) == Lookup(ToSet(concern.anchorIds[..j]), index);
        }
      }
      assert concern.anchorIds[..|concern.anchorIds|] == concern.anchorIds;
      ToSetSnoc(references, i);
      CitedAdd(ToSet(references[..i]), concern, index);
    }
    assert references[..|references|] == references;
  }

  /** Drop anchors whose id was seen before; the set of anchors is unchanged. */
  method Deduplicate(anchors: seq<Anchor>, index: AnchorIndex) returns (unique: seq<Anchor>)
    requires forall a :: a in anchors ==> a.anchorId in index && index[a.anchorId] == a
    ensures ToSet(unique) == ToSet(anchors)
    ensures forall i, j :: 0 <= i < j < |unique| ==> unique[i].anchorId != unique[j].anchorId
  {
    var seen: set<string> := {};
    unique := [];
    for i := 0 to |anchors|
      invariant ToSet(unique) == ToSet(anchors[..i])
      invariant seen == set a | a in unique :: a.anchorId
      invariant forall i, j :: 0 <= i < j < |unique| ==> unique[i].anchorId != unique[j].anchorId
    {
      ToSetSnoc(anchors, i);
      if anchors[i].anchorId in seen {
        var a :| a in unique && a.anchorId == anchors[i].anchorId;
        assert a in ToSet(anchors[..i]);
        assert a == anchors[i];
        continue;
      }
      seen := seen + {anchors[i].anchorId};
      unique := unique + [anchors[i]];
    }
    assert anchors[..|anchors|] == anchors;
  }

  method Values(index: AnchorIndex) returns (anchors: seq<Anchor>)
    ensures ToSet(anchors) == index.Values
  {
    anchors := [];
    var rest := index.Keys;
    while rest != {}
      invariant rest <= index.Keys
      invariant ToSet(anchors) == Lookup(index.Keys - rest, index)
    {
      var id :| id in rest;
      assert index.Keys - (rest - {id}) == (index.Keys - rest) + {id};
      LookupAdd(index.Keys - rest, id, index);
      anchors := anchors + [index[id]];
      rest := rest - {id};
    }
  }

  method ResolveSubmitted(ops: TextOps, submitted: SubmittedConcern, references: seq<Concern>, index: AnchorIndex)
    returns (resolutions: seq<AnchorResolution>)
    ensures resolutions == Resolve(ops, submitted, ToSet(references), index)
  {
    var referenceAnchors := ReferenceAnchors(references, index);
    forall a | a in referenceAnchors ensures a.anchorId in index && index[a.anchorId] == a {
      assert a in ToSet(referenceAnchors);
    }
    var uniqueAnchors := Deduplicate(referenceAnchors, index);
    if uniqueAnchors == [] {
      assert CitedAnchors(ToSet(references), index) == {};
      uniqueAnchors := Values(index);
    } else {
      assert uniqueAnchors[0] in ToSet(uniqueAnchors);
    }
    var pool := ToSet(uniqueAnchors);
    resolutions := [];
    for i := 0 to |submitted.anchors|
      invariant |resolutions| == i
      invariant forall k :: 0 <= k < i ==> resolutions[k] == Resolution(ops, submitted.anchors[k], pool).(submittedIndex := k)
    {
      var resolution := ResolveAnchor(ops, submitted.anchors[i], uniqueAnchors);
      resolutions := resolutions + [resolution.(submittedIndex := i)];
    }
  }

  predicate Resolved(r: AnchorResolution) {
    r.status == Exact || r.status == Normalized || r.status == ObjectLabel || r.status == PageOnly
  }

  function ResolvedCount(rs: seq<AnchorResolution>): (n: nat)
    ensures n <= |rs|
  {
    if rs == [] then 0 else (if Resolved(rs[0]) then 1 else 0) + ResolvedCount(rs[1..])
  }
}
