/** When a matcher-audit candidate counts as adjudicated, and how many do across sessions. */
module MatcherAudit {
  import opened Wrappers

  datatype AuditDecision = CorrectMatch | PartialOverbroad | IncorrectMatch | UnresolvedMatch

  datatype AuditJudgment = AuditJudgment(
    candidateId: string,
    auditorId: string,
    decision: AuditDecision,
    decidedAt: int)

  // ---- The order in which judgments are read -----------------------------------------

  predicate TextLE(a: string, b: string) {
    a == "" || (b != "" && (a[0] < b[0] || (a[0] == b[0] && TextLE(a[1..], b[1..]))))
  }

  lemma {:induction false} TextTransitive(a: string, b: string, c: string)
    requires TextLE(a, b) && TextLE(b, c)
    ensures TextLE(a, c)
  {
    if a != "" && a[0] == b[0] == c[0] {
      TextTransitive(a[1..], b[1..], c[1..]);
    }
  }

  lemma {:induction false} TextTotal(a: string, b: string)
    ensures TextLE(a, b) || TextLE(b, a)
    ensures TextLE(a, a)
  {
    if a != "" {
      TextTotal(a[1..], if b == "" then "" else b[1..]);
    }
  }

  /** By time, then by auditor id. */
  predicate NotAfter(x: AuditJudgment, y: AuditJudgment) {
    x.decidedAt < y.decidedAt || (x.decidedAt == y.decidedAt && TextLE(x.auditorId, y.auditorId))
  }

  lemma NotAfterTransitive(x: AuditJudgment, y: AuditJudgment, z: AuditJudgment)
    requires NotAfter(x, y) && NotAfter(y, z)
    ensures NotAfter(x, z)
  {
    if x.decidedAt == y.decidedAt == z.decidedAt {
      TextTransitive(x.auditorId, y.auditorId, z.auditorId);
    }
  }

  function InsertJudgment(x: AuditJudgment, sorted: seq<AuditJudgment>): seq<AuditJudgment> {
    if sorted == [] || NotAfter(x, sorted[0]) then [x] + sorted
    else [sorted[0]] + InsertJudgment(x, sorted[1..])
  }

  /** The stable sort by (time, auditor). */
  function InOrder(js: seq<AuditJudgment>): seq<AuditJudgment> {
    if js == [] then [] else InsertJudgment(js[0], InOrder(js[1..]))
  }

  // ---- What completion means ---------------------------------------------------------

  function Auditors(js: seq<AuditJudgment>): set<string> {
    set j | j in js :: j.auditorId
  }

  /** An auditor's earliest judgment; of several at one time the one listed first. */
  function Earliest(js: seq<AuditJudgment>, auditor: string): Option<AuditJudgment> {
    if js == [] then None
    else
      var later := Earliest(js[1..], auditor);
      if js[0].auditorId == auditor && (later.None? || js[0].decidedAt <= later.value.decidedAt) then Some(js[0])
      else later
  }

  /** All auditors decided alike in their earliest judgments. */
  ghost predicate EarliestAgree(js: seq<AuditJudgment>) {
    forall a, b :: a in Auditors(js) && b in Auditors(js) ==> EarliestDecision(js, a) == EarliestDecision(js, b)
  }

  function EarliestDecision(js: seq<AuditJudgment>, auditor: string): Option<AuditDecision> {
    var e := Earliest(js, auditor);
    if e.Some? then Some(e.value.decision) else None
  }

  /** Three auditors, or two whose earliest judgments agree. */
  ghost predicate Completed(js: seq<AuditJudgment>) {
    |Auditors(js)| >= 3 || (|Auditors(js)| == 2 && EarliestAgree(js))
  }

  // ---- Facts about the order ---------------------------------------------------------

  ghost predicate Ordered(js: seq<AuditJudgment>) {
    forall i, j :: 0 <= i < j < |js| ==> NotAfter(js[i], js[j])
  }

  /** The first judgment of an auditor in list order. */
  function FirstOf(js: seq<AuditJudgment>, auditor: string): Option<AuditJudgment> {
    if js == [] then None
    else if js[0].auditorId == auditor then Some(js[0])
    else FirstOf(js[1..], auditor)
  }

  lemma {:induction false} FirstOfMember(js: seq<AuditJudgment>, auditor: string)
    ensures FirstOf(js, auditor).Some? <==> auditor in Auditors(js)
    ensures FirstOf(js, auditor).Some? ==> FirstOf(js, auditor).value in js && FirstOf(js, auditor).value.auditorId == auditor
  {
    if js != [] {
      FirstOfMember(js[1..], auditor);
      assert js == [js[0]] + js[1..];
      assert Auditors(js) == {js[0].auditorId} + Auditors(js[1..]);
    }
  }

  lemma {:induction false} InsertMembers(x: AuditJudgment, sorted: seq<AuditJudgment>)
    ensures multiset(InsertJudgment(x, sorted)) == multiset{x} + multiset(sorted)
  {
    if sorted != [] && !NotAfter(x, sorted[0]) {
      InsertMembers(x, sorted[1..]);
      assert sorted == [sorted[0]] + sorted[1..];
    }
  }

  lemma {:induction false} InsertOrders(x: AuditJudgment, sorted: seq<AuditJudgment>)
    requires Ordered(sorted)
    ensures Ordered(InsertJudgment(x, sorted))
  {
    if sorted == [] {
    } else if NotAfter(x, sorted[0]) {
      forall j | 0 <= j < |sorted| ensures NotAfter(x, sorted[j]) {
        if j > 0 {
          NotAfterTransitive(x, sorted[0], sorted[j]);
        }
      }
    } else {
      var rest := InsertJudgment(x, sorted[1..]);
      InsertOrders(x, sorted[1..]);
      InsertMembers(x, sorted[1..]);
      forall j | 0 <= j < |rest| ensures NotAfter(sorted[0], rest[j]) {
        assert rest[j] in multiset{x} + multiset(sorted[1..]);
        TextTotal(x.auditorId, sorted[0].auditorId);
      }
    }
  }

  lemma {:induction false} OrderHolds(js: seq<AuditJudgment>)
    ensures Ordered(InOrder(js)) && multiset(InOrder(js)) == multiset(js)
  {
    if js != [] {
      OrderHolds(js[1..]);
      InsertOrders(js[0], InOrder(js[1..]));
      InsertMembers(js[0], InOrder(js[1..]));
      assert js == [js[0]] + js[1..];
    }
  }

  lemma {:induction false} FirstAfterInsert(x: AuditJudgment, sorted: seq<AuditJudgment>, auditor: string)
    requires Ordered(sorted)
    ensures FirstOf(InsertJudgment(x, sorted), auditor)
         == if x.auditorId == auditor
               && (FirstOf(sorted, auditor).None? || x.decidedAt <= FirstOf(sorted, auditor).value.decidedAt)
            then Some(x) else FirstOf(sorted, auditor)
  {
    if sorted == [] || NotAfter(x, sorted[0]) {
      assert InsertJudgment(x, sorted)[1..] == sorted;
      FirstOfMember(sorted, auditor);
      if x.auditorId == auditor && FirstOf(sorted, auditor).Some? {
        assert sorted[0].decidedAt <= FirstOf(sorted, auditor).value.decidedAt;
      }
    } else {
      FirstAfterInsert(x, sorted[1..], auditor);
      assert InsertJudgment(x, sorted)[1..] == InsertJudgment(x, sorted[1..]);
      TextTotal(x.auditorId, x.auditorId);
    }
  }

  /** The first judgment of an auditor in sorted order is the earliest one. */
  lemma {:induction false} FirstIsEarliest(js: seq<AuditJudgment>, auditor: string)
    ensures FirstOf(InOrder(js), auditor) == Earliest(js, auditor)
  {
    if js != [] {
      FirstIsEarliest(js[1..], auditor);
      OrderHolds(js[1..]);
      FirstAfterInsert(js[0], InOrder(js[1..]), auditor);
    }
  }

  lemma SameAuditors(js: seq<AuditJudgment>)
    ensures Auditors(InOrder(js)) == Auditors(js)
  {
    OrderHolds(js);
    forall j ensures j in InOrder(js) <==> j in js {
      assert j in InOrder(js) <==> j in multiset(InOrder(js));
      assert j in js <==> j in multiset(js);
    }
  }

  // ---- The test ----------------------------------------------------------------------

  /** The first judgments of the first two auditors, or of all when there are fewer. */
  method PrimaryJudgments(ordered: seq<AuditJudgment>) returns (primaries: seq<AuditJudgment>)
    ensures |primaries| <= 2
    ensures forall p :: p in primaries ==> FirstOf(ordered, p.auditorId) == Some(p)
    ensures |primaries| == 2 ==> primaries[0].auditorId != primaries[1].auditorId
    ensures |primaries| < 2 ==> |Auditors(ordered)| == |primaries|
  {
    primaries := [];
    var seen: set<string> := {};
    for i := 0 to |ordered|
      invariant |primaries| < 2 && |seen| == |primaries|
      invariant seen == Auditors(ordered[..i]) == Auditors(primaries)
      invariant forall p :: p in primaries ==> FirstOf(ordered, p.auditorId) == Some(p)
    {
      var item := ordered[i];
      assert ordered[..i + 1] == ordered[..i] + [item];
      if item.auditorId in seen {
        continue;
      }
      NewAuditorIsFirst(ordered, i);
      primaries := primaries + [item];
      seen := seen + {item.auditorId};
      if |primaries| == 2 {
        assert primaries[0].auditorId in Auditors(ordered[..i]);
        return;
      }
    }
    assert ordered[..|ordered|] == ordered;
  }

  lemma {:induction false} NewAuditorIsFirst(js: seq<AuditJudgment>, i: nat)
    requires i < |js| && js[i].auditorId !in Auditors(js[..i])
    ensures FirstOf(js, js[i].auditorId) == Some(js[i])
  {
    if i > 0 {
      assert js[0] in js[..i];
      assert js[1..][..i - 1] == js[..i][1..];
      NewAuditorIsFirst(js[1..], i - 1);
    }
  }

  method IsCandidateAdjudicationComplete(judgments: seq<AuditJudgment>) returns (complete: bool)
    ensures complete <==> Completed(judgments)
  {
    SameAuditors(judgments);
    if |judgments| < 2 {
      FewJudgments(judgments);
      return false;
    }
    var ordered := InOrder(judgments);
    var primaries := PrimaryJudgments(ordered);
    if |primaries| < 2 {
      return false;
    }
    var p, q := primaries[0], primaries[1];
    FirstIsEarliest(judgments, p.auditorId);
    FirstIsEarliest(judgments, q.auditorId);
    FirstOfMember(ordered, p.auditorId);
    FirstOfMember(ordered, q.auditorId);
    TwoAuditors(judgments, p.auditorId, q.auditorId);
    if p.decision == q.decision {
      return true;
    }
    complete := exists item :: item in ordered && item.auditorId !in {p.auditorId, q.auditorId};
    ThirdAuditor(ordered, p.auditorId, q.auditorId);
  }

  lemma ThirdAuditor(js: seq<AuditJudgment>, p: string, q: string)
    requires p in Auditors(js) && q in Auditors(js)
    ensures (exists item :: item in js && item.auditorId !in {p, q}) <==> Auditors(js) != {p, q}
  {
    if exists item :: item in js && item.auditorId !in {p, q} {
      var item :| item in js && item.auditorId !in {p, q};
      assert item.auditorId in Auditors(js);
    } else {
      assert Auditors(js) <= {p, q};
    }
  }

  lemma FewJudgments(js: seq<AuditJudgment>)
    requires |js| < 2
    ensures |Auditors(js)| < 2
  {
    if js != [] {
      assert Auditors(js) == {js[0].auditorId};
    }
  }

  /** With two known auditors, completion is a third one or agreement of the two. */
  lemma TwoAuditors(js: seq<AuditJudgment>, p: string, q: string)
    requires p in Auditors(js) && q in Auditors(js) && p != q
    ensures Completed(js) <==> Auditors(js) != {p, q} || EarliestDecision(js, p) == EarliestDecision(js, q)
  {
    var all := Auditors(js);
    if all != {p, q} {
      assert {p, q} < all;
      var r :| r in all && r !in {p, q};
      assert {p, q, r} <= all;
      assert all == {p, q, r} + (all - {p, q, r});
      assert |{p, q, r}| == 3;
    }
  }

  // ---- Appending judgments -----------------------------------------------------------

  lemma AuditorsSnoc(js: seq<AuditJudgment>, j: AuditJudgment)
    ensures Auditors(js + [j]) == Auditors(js) + {j.auditorId}
  {
  }

  lemma {:induction false} EarliestSnoc(js: seq<AuditJudgment>, j: AuditJudgment, auditor: string)
    ensures Earliest(js + [j], auditor)
         == if j.auditorId == auditor && (Earliest(js, auditor).None? || j.decidedAt < Earliest(js, auditor).value.decidedAt)
            then Some(j) else Earliest(js, auditor)
    ensures Earliest(js, auditor).Some? <==> auditor in Auditors(js)
  {
    if js == [] {
      assert js + [j] == [j];
      assert [j][1..] == [];
    } else {
      EarliestSnoc(js[1..], j, auditor);
      assert (js + [j])[1..] == js[1..] + [j];
      assert js == [js[0]] + js[1..];
      assert Auditors(js) == {js[0].auditorId} + Auditors(js[1..]);
    }
  }

  /** A completed candidate reverts on exactly one kind of new judgment: with two auditors, a
      dissenting one that is dated before its own auditor's earliest judgment. */
  lemma RevertsExactly(js: seq<AuditJudgment>, j: AuditJudgment)
    requires Completed(js)
    ensures !Completed(js + [j]) <==>
      (|Auditors(js)| == 2 && Earliest(js, j.auditorId).Some?
       && j.decidedAt < Earliest(js, j.auditorId).value.decidedAt
       && j.decision != Earliest(js, j.auditorId).value.decision)
  {
    AuditorsSnoc(js, j);
    EarliestSnoc(js, j, j.auditorId);
    if |Auditors(js)| >= 3 || j.auditorId !in Auditors(js) {
      GrowingAuditors(Auditors(js), j.auditorId);
    } else {
      assert Auditors(js + [j]) == Auditors(js);
      assert |Auditors(js) - {j.auditorId}| == 1;
      var q :| q in Auditors(js) - {j.auditorId};
      assert |Auditors(js) - {j.auditorId} - {q}| == 0;
      assert Auditors(js) == {j.auditorId, q};
      EarliestSnoc(js, j, q);
      TwoAuditors(js, j.auditorId, q);
      TwoAuditors(js + [j], j.auditorId, q);
    }
  }

  /** Such a judgment: two auditors agree, and one of them adds an earlier dated dissent. */
  lemma EarlierDissentReverts(candidate: string, a: string, b: string, decision: AuditDecision, dissent: AuditDecision, t: int)
    requires a != b && decision != dissent
    ensures var js := [AuditJudgment(candidate, a, decision, t), AuditJudgment(candidate, b, decision, t)];
      Completed(js) && !Completed(js + [AuditJudgment(candidate, a, dissent, t - 1)])
  {
    var x, y := AuditJudgment(candidate, a, decision, t), AuditJudgment(candidate, b, decision, t);
    var js := [x, y];
    assert js == [] + [x] + [y];
    EarliestSnoc([], x, a);
    EarliestSnoc([x], y, a);
    EarliestSnoc([x], y, b);
    EarliestSnoc([], x, b);
    assert [] + [x] == [x];
    AuditorsSnoc([x], y);
    assert Auditors(js) == {a, b};
    TwoAuditors(js, a, b);
    RevertsExactly(js, AuditJudgment(candidate, a, dissent, t - 1));
  }

  lemma GrowingAuditors(s: set<string>, x: string)
    ensures x in s ==> s + {x} == s
    ensures x !in s ==> |s + {x}| == |s| + 1
  {
  }

  /** Judgments appended in time order never undo completion. */
  lemma CompletionIsStable(js: seq<AuditJudgment>, j: AuditJudgment)
    requires Completed(js)
    requires forall x :: x in js ==> x.decidedAt <= j.decidedAt
    ensures Completed(js + [j])
  {
    RevertsExactly(js, j);
    EarliestSnoc(js, j, j.auditorId);
    if j.auditorId in Auditors(js) {
      EarliestIsMember(js, j.auditorId);
    }
  }

  lemma {:induction false} EarliestIsMember(js: seq<AuditJudgment>, auditor: string)
    ensures Earliest(js, auditor).Some? ==> Earliest(js, auditor).value in js
  {
    if js != [] {
      EarliestIsMember(js[1..], auditor);
    }
  }
}
