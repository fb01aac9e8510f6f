/** Counting completed natural candidates across audit sessions. */
module AuditDiscovery {
  import opened Wrappers
  import opened MatcherAudit

  datatype EvidenceClass = Sample | Natural

  datatype SessionManifest = SessionManifest(
    sessionId: string, evidenceClass: EvidenceClass, claimsAuthorized: bool, sampleIdHash: string)

  datatype AgreementReport = AgreementReport(
    evidenceClass: EvidenceClass, sampleIdHash: string, judgments: seq<AuditJudgment>)

  /** A session file pair; an unreadable or missing part is None. */
  datatype Session = Session(manifest: Option<SessionManifest>, report: Option<AgreementReport>)
  {
    predicate IsNatural() {
      manifest.Some? && manifest.value.evidenceClass == Natural && !manifest.value.claimsAuthorized
    }

    predicate Accepted() {
      IsNatural() && report.Some? && report.value.evidenceClass == Natural
      && report.value.sampleIdHash == manifest.value.sampleIdHash
    }
  }

  function JudgmentsOf(js: seq<AuditJudgment>, candidate: string): seq<AuditJudgment> {
    if js == [] then []
    else JudgmentsOf(js[..|js| - 1], candidate)
         + (if js[|js| - 1].candidateId == candidate then [js[|js| - 1]] else [])
  }

  ghost predicate CompletedIn(s: Session, candidate: string) {
    s.Accepted() && Completed(JudgmentsOf(s.report.value.judgments, candidate))
  }

  /** The candidates completed in some accepted session. */
  ghost predicate CompletedSomewhere(sessions: set<Session>, candidate: string) {
    exists s :: s in sessions && CompletedIn(s, candidate)
  }

  datatype Discovery = Discovery(completed: set<string>, sessionIds: set<string>, naturalSessions: nat)
  {
    function Count(): nat { |completed| }
  }

  method GroupByCandidate(js: seq<AuditJudgment>) returns (groups: map<string, seq<AuditJudgment>>)
    ensures forall c :: JudgmentsOf(js, c) == if c in groups then groups[c] else []
  {
    groups := map[];
    for i := 0 to |js|
      invariant forall c :: JudgmentsOf(js[..i], c) == if c in groups then groups[c] else []
    {
      assert js[..i + 1][..i] == js[..i];
      var id := js[i].candidateId;
      groups := groups[id := (if id in groups then groups[id] else []) + [js[i]]];
    }
    assert js[..|js|] == js;
  }

  lemma NoJudgmentsIncomplete()
    ensures !Completed([])
  {
    assert Auditors([]) == {};
  }

  /** Adds the session's completed candidates; says whether any of them is new. */
  method CollectSession(s: Session, known: set<string>) returns (completed: set<string>, contributed: bool)
    requires s.Accepted()
    ensures forall c :: c in completed <==> c in known || CompletedIn(s, c)
    ensures contributed <==> exists c :: CompletedIn(s, c) && c !in known
  {
    var groups := GroupByCandidate(s.report.value.judgments);
    completed, contributed := known, false;
    var rest := groups.Keys;
    while rest != {}
      invariant rest <= groups.Keys
      invariant forall c :: c in completed <==> c in known || (c in groups.Keys - rest && Completed(groups[c]))
      invariant contributed <==> completed != known
    {
      var id :| id in rest;
      rest := rest - {id};
      var complete := IsCandidateAdjudicationComplete(groups[id]);
      if !complete {
        continue;
      }
      if id in completed {
        continue;
      }
      completed := completed + {id};
      contributed := true;
    }
    NoJudgmentsIncomplete();
    assert forall c :: CompletedIn(s, c) <==> c in groups && Completed(groups[c]);
    if contributed {
      assert known <= completed;
      var c :| c in completed && c !in known;
      assert CompletedIn(s, c);
    }
  }

  /** The auditor judged the candidate in the report. */
  ghost predicate JudgedBy(report: AgreementReport, candidate: string, auditor: string) {
    exists j :: j in report.judgments && j.candidateId == candidate && j.auditorId == auditor
  }

  /** The session counts for the candidate: its manifest is natural and claims nothing, its report is natural and
      of the same sample, and the report's judgments on the candidate complete it. */
  ghost predicate CountsFor(s: Session, candidate: string) {
    && s.manifest.Some? && s.report.Some?
    && s.manifest.value.evidenceClass == Natural && !s.manifest.value.claimsAuthorized
    && s.report.value.evidenceClass == Natural && s.report.value.sampleIdHash == s.manifest.value.sampleIdHash
    && Completed(JudgmentsOf(s.report.value.judgments, candidate))
  }

  lemma {:induction false} JudgmentsAre(js: seq<AuditJudgment>, candidate: string)
    ensures forall j :: j in JudgmentsOf(js, candidate) <==> j in js && j.candidateId == candidate
  {
    if js != [] {
      var init, last := js[..|js| - 1], js[|js| - 1];
      assert js == init + [last];
      JudgmentsAre(init, candidate);
    }
  }

  /** Sessions complete the candidates they count for, and each of these was judged by two auditors at least. */
  lemma CountedMeans(s: Session, candidate: string)
    ensures CompletedIn(s, candidate) <==> CountsFor(s, candidate)
    ensures CountsFor(s, candidate) ==>
      exists a, b :: a != b && JudgedBy(s.report.value, candidate, a) && JudgedBy(s.report.value, candidate, b)
  {
    if CountsFor(s, candidate) {
      var js := JudgmentsOf(s.report.value.judgments, candidate);
      JudgmentsAre(s.report.value.judgments, candidate);
      var a :| a in Auditors(js);
      assert |Auditors(js) - {a}| >= 1;
      var b :| b in Auditors(js) - {a};
      assert JudgedBy(s.report.value, candidate, a) && JudgedBy(s.report.value, candidate, b);
    }
  }

  /** The session completes a candidate that no earlier session completed. */
  ghost predicate Contributes(earlier: seq<Session>, s: Session) {
    exists c :: CompletedIn(s, c) && !CompletedSomewhere(ToSet(earlier), c)
  }

  /** A session of that id contributes to the count, in the order in which the sessions are read. */
  ghost predicate ContributedBy(sessions: seq<Session>, id: string) {
    exists i :: 0 <= i < |sessions| && sessions[i].manifest.Some? && sessions[i].manifest.value.sessionId == id
      && Contributes(sessions[..i], sessions[i])
  }

  function NaturalSessions(sessions: seq<Session>): nat {
    if sessions == [] then 0
    else NaturalSessions(sessions[..|sessions| - 1]) + (if sessions[|sessions| - 1].IsNatural() then 1 else 0)
  }

  lemma ContributedSnoc(sessions: seq<Session>, s: Session, id: string)
    ensures ContributedBy(sessions + [s], id) <==>
      ContributedBy(sessions, id) || (s.manifest.Some? && s.manifest.value.sessionId == id && Contributes(sessions, s))
  {
    var all, n := sessions + [s], |sessions|;
    assert all[..n] == sessions && all[n] == s;
    forall i | 0 <= i < n ensures all[..i] == sessions[..i] && all[i] == sessions[i] {
    }
    if ContributedBy(sessions, id) {
      var i :| 0 <= i < n && sessions[i].manifest.Some? && sessions[i].manifest.value.sessionId == id
        && Contributes(sessions[..i], sessions[i]);
      assert Contributes(all[..i], all[i]);
    }
  }

  lemma SomewhereSnoc(sessions: seq<Session>, s: Session, c: string)
    ensures CompletedSomewhere(ToSet(sessions + [s]), c) <==> CompletedSomewhere(ToSet(sessions), c) || CompletedIn(s, c)
  {
    assert ToSet(sessions + [s]) == ToSet(sessions) + {s};
  }

  /** One more session, which adds completed candidates or none. */
  lemma OneMoreSession(sessions: seq<Session>, s: Session, before: set<string>, after: set<string>, ids: seq<string>, ids': seq<string>)
    requires forall c :: c in before <==> CompletedSomewhere(ToSet(sessions), c)
    requires forall c :: c in after <==> c in before || CompletedIn(s, c)
    requires forall id :: id in ids <==> ContributedBy(sessions, id)
    requires ids' == if s.Accepted() && after != before then ids + [s.manifest.value.sessionId] else ids
    ensures forall c :: c in after <==> CompletedSomewhere(ToSet(sessions + [s]), c)
    ensures forall id :: id in ids' <==> ContributedBy(sessions + [s], id)
  {
    forall c ensures c in after <==> CompletedSomewhere(ToSet(sessions + [s]), c) {
      SomewhereSnoc(sessions, s, c);
    }
    assert Contributes(sessions, s) <==> s.Accepted() && after != before by {
      if after != before {
        var c :| c in after && c !in before;
        assert CompletedIn(s, c);
      }
    }
    forall id ensures id in ids' <==> ContributedBy(sessions + [s], id) {
      ContributedSnoc(sessions, s, id);
    }
  }

  lemma SomewhereCounts(sessions: seq<Session>, c: string)
    ensures CompletedSomewhere(ToSet(sessions), c) <==> exists s :: s in sessions && CountsFor(s, c)
  {
    forall s ensures CompletedIn(s, c) <==> CountsFor(s, c) {
      CountedMeans(s, c);
    }
    assert forall s :: s in ToSet(sessions) <==> s in sessions;
  }

  method DiscoverCompleted(sessions: seq<Session>) returns (d: Discovery)
    ensures forall c :: c in d.completed <==> CompletedSomewhere(ToSet(sessions), c)
    ensures forall c :: c in d.completed <==> exists s :: s in sessions && CountsFor(s, c)
    ensures forall id :: id in d.sessionIds <==> ContributedBy(sessions, id)
    ensures d.naturalSessions == NaturalSessions(sessions)
  {
    var completed: set<string> := {};
    var contributing: seq<string> := [];
    var natural := 0;
    for i := 0 to |sessions|
      invariant forall c :: c in completed <==> CompletedSomewhere(ToSet(sessions[..i]), c)
      invariant forall id :: id in contributing <==> ContributedBy(sessions[..i], id)
      invariant natural == NaturalSessions(sessions[..i])
    {
      var s := sessions[i];
      ghost var before, ids := completed, contributing;
      assert sessions[..i + 1] == sessions[..i] + [s];
      assert sessions[..i + 1][..i] == sessions[..i];
      if !s.IsNatural() {
        OneMoreSession(sessions[..i], s, before, completed, ids, contributing);
        continue;
      }
      natural := natural + 1;
      if !s.Accepted() {
        OneMoreSession(sessions[..i], s, before, completed, ids, contributing);
        continue;
      }
      var contributed;
      completed, contributed := CollectSession(s, completed);
      if contributed {
        contributing := contributing + [s.manifest.value.sessionId];
      }
      OneMoreSession(sessions[..i], s, before, completed, ids, contributing);
    }
    assert sessions[..|sessions|] == sessions;
    d := Discovery(completed, ToSet(contributing), natural);
    forall c ensures c in completed <==> exists s :: s in sessions && CountsFor(s, c) {
      SomewhereCounts(sessions, c);
    }
  }

  /** The count is determined by which sessions there are, not by their order or repetition. */
  lemma CountForgetsOrder(a: Discovery, b: Discovery, sessionsA: seq<Session>, sessionsB: seq<Session>)
    requires forall c :: c in a.completed <==> CompletedSomewhere(ToSet(sessionsA), c)
    requires forall c :: c in b.completed <==> CompletedSomewhere(ToSet(sessionsB), c)
    requires multiset(sessionsA) == multiset(sessionsB)
    ensures a.Count() == b.Count()
  {
    forall s ensures s in sessionsA <==> s in sessionsB {
      assert s in sessionsA <==> s in multiset(sessionsA);
      assert s in sessionsB <==> s in multiset(sessionsB);
    }
    assert ToSet(sessionsA) == ToSet(sessionsB);
    assert a.completed == b.completed;
  }
}
