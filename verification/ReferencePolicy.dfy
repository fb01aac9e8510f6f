/** Which reference concerns enter performance denominators, and with what weight. */
module ReferencePolicy {
  import opened Wrappers
  import opened Models

  datatype PolicyError = NotEligible(concernId: string)

  predicate GoldStatus(s: ConcernStatus) {
    s == Confirmed || s == Qualified
  }

  predicate IsEligible(c: Concern) {
    GoldStatus(c.status) || (c.status == Resolved && c.disposition == Some(ManuscriptCorrection))
  }

  /** The policy weight; it fails on exactly the concerns that are not eligible. */
  function GoldWeight(c: Concern): (r: Result<real, PolicyError>)
    ensures r.Ok? <==> IsEligible(c)
    ensures r.Ok? ==> r.value == 1.0
  {
    if GoldStatus(c.status) then Ok(1.0)
    else if c.status == Resolved && c.disposition == Some(ManuscriptCorrection) then Ok(1.0)
    else Err(NotEligible(c.concernId))
  }

  /** The eligible concerns, in order; an empty result stays empty. */
  function Eligible(cs: seq<Concern>): (r: seq<Concern>)
    ensures forall c :: c in r <==> c in cs && IsEligible(c)
  {
    if cs == [] then []
    else (if IsEligible(cs[0]) then [cs[0]] else []) + Eligible(cs[1..])
  }

  lemma EligibleCons(c: Concern, cs: seq<Concern>)
    ensures Eligible([c] + cs) == (if IsEligible(c) then [c] else []) + Eligible(cs)
  {
    assert ([c] + cs)[1..] == cs;
  }

  lemma BothEligible(q: Concern, r: Concern)
    requires IsEligible(q) && IsEligible(r)
    ensures Eligible([q, r]) == [q, r]
  {
    EligibleCons(q, [r]);
    EligibleCons(r, []);
    assert [q] + [r] == [q, r] && [r] + [] == [r];
  }

  lemma {:induction false} EligibleCounts(cs: seq<Concern>, c: Concern)
    ensures multiset(Eligible(cs))[c] == if IsEligible(c) then multiset(cs)[c] else 0
  {
    if cs != [] {
      EligibleCounts(cs[1..], c);
      assert cs == [cs[0]] + cs[1..];
    }
  }

  lemma EligiblePermutes(a: seq<Concern>, b: seq<Concern>)
    requires multiset(a) == multiset(b)
    ensures multiset(Eligible(a)) == multiset(Eligible(b))
  {
    forall c ensures multiset(Eligible(a))[c] == multiset(Eligible(b))[c] {
      EligibleCounts(a, c);
      EligibleCounts(b, c);
    }
  }
}
