/** The candidate sort is the stable descending sort, and thresholds commute with it. */
module SortTheorems {
  import opened Wrappers
  import opened Models
  import opened Matching

  ghost predicate Descending(ms: seq<ConcernMatch>) {
    forall i, j :: 0 <= i < j < |ms| ==> ms[i].score >= ms[j].score
  }

  /** No two positions carry the same score. */
  ghost predicate DistinctScores(ms: seq<ConcernMatch>) {
    forall i, j :: 0 <= i < j < |ms| ==> ms[i].score != ms[j].score
  }

  lemma HeadTail(ms: seq<ConcernMatch>)
    requires ms != []
    ensures ms == [ms[0]] + ms[1..]
    ensures multiset(ms) == multiset{ms[0]} + multiset(ms[1..])
  {
    assert ms == [ms[0]] + ms[1..];
  }

  lemma {:induction false} InsertPermutes(x: ConcernMatch, sorted: seq<ConcernMatch>)
    ensures multiset(InsertDesc(x, sorted)) == multiset{x} + multiset(sorted)
  {
    if sorted != [] && sorted[0].score > x.score {
      InsertPermutes(x, sorted[1..]);
      HeadTail(sorted);
    }
  }

  lemma {:induction false} InsertSorts(x: ConcernMatch, sorted: seq<ConcernMatch>)
    requires Descending(sorted)
    ensures Descending(InsertDesc(x, sorted))
  {
    if sorted != [] && sorted[0].score > x.score {
      var rest := InsertDesc(x, sorted[1..]);
      InsertSorts(x, sorted[1..]);
      InsertPermutes(x, sorted[1..]);
      forall i | 0 <= i < |rest| ensures sorted[0].score >= rest[i].score {
        assert rest[i] in multiset{x} + multiset(sorted[1..]);
      }
    }
  }

  lemma {:induction false} SortSorts(ms: seq<ConcernMatch>)
    ensures Descending(SortDesc(ms))
    ensures multiset(SortDesc(ms)) == multiset(ms)
  {
    if ms != [] {
      SortSorts(ms[1..]);
      InsertSorts(ms[0], SortDesc(ms[1..]));
      InsertPermutes(ms[0], SortDesc(ms[1..]));
      HeadTail(ms);
    }
  }

  lemma SortMembers(ms: seq<ConcernMatch>)
    ensures ToSet(SortDesc(ms)) == ToSet(ms)
  {
    SortSorts(ms);
    forall m ensures m in SortDesc(ms) <==> m in ms {
      assert m in SortDesc(ms) <==> m in multiset(SortDesc(ms));
      assert m in ms <==> m in multiset(ms);
    }
  }

  lemma {:induction false} SortedStays(ms: seq<ConcernMatch>)
    requires Descending(ms)
    ensures SortDesc(ms) == ms
  {
    if ms != [] {
      SortedStays(ms[1..]);
      HeadTail(ms);
    }
  }

  // ---- Stability ---------------------------------------------------------------------

  /** The candidates of one score, in list order. */
  ghost function OfScore(ms: seq<ConcernMatch>, v: real): seq<ConcernMatch> {
    if ms == [] then [] else (if ms[0].score == v then [ms[0]] else []) + OfScore(ms[1..], v)
  }

  lemma OfScoreCons(x: ConcernMatch, ms: seq<ConcernMatch>, v: real)
    ensures OfScore([x] + ms, v) == (if x.score == v then [x] else []) + OfScore(ms, v)
  {
    assert ([x] + ms)[1..] == ms;
  }

  lemma {:induction false} InsertStable(x: ConcernMatch, sorted: seq<ConcernMatch>, v: real)
    ensures OfScore(InsertDesc(x, sorted), v) == (if x.score == v then [x] else []) + OfScore(sorted, v)
  {
    if sorted != [] && sorted[0].score > x.score {
      var h, rest := sorted[0], sorted[1..];
      InsertStable(x, rest, v);
      OfScoreCons(h, InsertDesc(x, rest), v);
      OfScoreCons(h, rest, v);
      assert sorted == [h] + rest;
    } else {
      OfScoreCons(x, sorted, v);
    }
  }

  lemma {:induction false} SortStable(ms: seq<ConcernMatch>, v: real)
    ensures OfScore(SortDesc(ms), v) == OfScore(ms, v)
  {
    if ms != [] {
      SortStable(ms[1..], v);
      InsertStable(ms[0], SortDesc(ms[1..]), v);
    }
  }

  lemma {:induction false} OfScoreMember(ms: seq<ConcernMatch>, v: real)
    ensures OfScore(ms, v) != [] <==> exists m :: m in ms && m.score == v
    ensures forall m :: m in OfScore(ms, v) ==> m in ms
  {
    if ms != [] {
      OfScoreMember(ms[1..], v);
      assert forall m :: m in ms <==> m == ms[0] || m in ms[1..];
    }
  }

  lemma DescendingHeadsAgree(a: seq<ConcernMatch>, b: seq<ConcernMatch>)
    requires Descending(a) && Descending(b) && a != [] && b != []
    requires forall v :: OfScore(a, v) == OfScore(b, v)
    ensures a[0] == b[0]
  {
    OfScoreMember(a, b[0].score);
    OfScoreMember(b, a[0].score);
    assert b[0] in b && a[0] in a;
    OfScoreMember(b, b[0].score);
    OfScoreMember(a, a[0].score);
    assert a[0].score == b[0].score;
    assert OfScore(a, a[0].score)[0] == a[0] && OfScore(b, b[0].score)[0] == b[0];
  }

  lemma BothEmpty(a: seq<ConcernMatch>, b: seq<ConcernMatch>)
    requires forall v :: OfScore(a, v) == OfScore(b, v)
    ensures b == [] ==> a == []
  {
    if a != [] {
      assert OfScore(a, a[0].score) != [];
      OfScoreMember(b, a[0].score);
    }
  }

  lemma {:induction false} DescendingDetermined(a: seq<ConcernMatch>, b: seq<ConcernMatch>)
    requires Descending(a) && Descending(b)
    requires forall v :: OfScore(a, v) == OfScore(b, v)
    ensures a == b
  {
    if a == [] {
      BothEmpty(b, a);
    } else {
      BothEmpty(a, b);
      DescendingHeadsAgree(a, b);
      forall v ensures OfScore(a[1..], v) == OfScore(b[1..], v) {
        var head := if a[0].score == v then [a[0]] else [];
        assert OfScore(a[1..], v) == OfScore(a, v)[|head|..];
        assert OfScore(b[1..], v) == OfScore(b, v)[|head|..];
      }
      DescendingDetermined(a[1..], b[1..]);
      HeadTail(a);
      HeadTail(b);
    }
  }

  /** r orders the candidates by descending score and keeps the order among equals. */
  ghost predicate StableDescendingSort(ms: seq<ConcernMatch>, r: seq<ConcernMatch>) {
    Descending(r) && forall v :: OfScore(r, v) == OfScore(ms, v)
  }

  /** Any stable descending sort of the candidates is SortDesc. */
  lemma StableSortIsUnique(ms: seq<ConcernMatch>, r: seq<ConcernMatch>)
    ensures r == SortDesc(ms) <==> StableDescendingSort(ms, r)
  {
    SortSorts(ms);
    forall v ensures OfScore(SortDesc(ms), v) == OfScore(ms, v) {
      SortStable(ms, v);
    }
    assert StableDescendingSort(ms, SortDesc(ms));
    if StableDescendingSort(ms, r) {
      DescendingDetermined(r, SortDesc(ms));
    }
  }

  // ---- Permutations with distinct scores ---------------------------------------------

  /** Distinctness of a key is a property of the multiset. */
  lemma DistinctKeysTransfer<T, K>(a: seq<T>, b: seq<T>, key: T -> K)
    requires multiset(a) == multiset(b)
    requires forall i, j :: 0 <= i < j < |a| ==> key(a[i]) != key(a[j])
    ensures forall i, j :: 0 <= i < j < |b| ==> key(b[i]) != key(b[j])
  {
    forall i, j | 0 <= i < j < |b| ensures key(b[i]) != key(b[j]) {
      assert b[i] in multiset(a) && b[j] in multiset(a);
      var x :| 0 <= x < |a| && a[x] == b[i];
      var y :| 0 <= y < |a| && a[y] == b[j];
      KeyOccursOnce(a, key, x);
      if b[i] == b[j] {
        RepeatOccursTwice(b, i, j);
      }
    }
  }

  lemma SameHead(a: seq<ConcernMatch>, b: seq<ConcernMatch>)
    requires multiset(a) == multiset(b) && a != [] && b != []
    requires Descending(a) && Descending(b) && DistinctScores(a)
    ensures a[0] == b[0]
  {
    assert b[0] in multiset(a) && a[0] in multiset(b);
    var x :| 0 <= x < |a| && a[x] == b[0];
    var y :| 0 <= y < |b| && b[y] == a[0];
    assert a[0].score >= a[x].score && b[0].score >= b[y].score;
  }

  lemma {:induction false} StrictDescendingDetermined(a: seq<ConcernMatch>, b: seq<ConcernMatch>)
    requires multiset(a) == multiset(b)
    requires Descending(a) && Descending(b) && DistinctScores(a)
    ensures a == b
  {
    assert |a| == |multiset(a)| == |multiset(b)| == |b|;
    if a != [] {
      SameHead(a, b);
      HeadTail(a);
      HeadTail(b);
      assert multiset(a[1..]) == multiset(a) - multiset{a[0]};
      assert multiset(b[1..]) == multiset(b) - multiset{b[0]};
      StrictDescendingDetermined(a[1..], b[1..]);
    }
  }

  /** With pairwise distinct scores the sort forgets the order it was given. */
  lemma SortForgetsOrder(a: seq<ConcernMatch>, b: seq<ConcernMatch>)
    requires multiset(a) == multiset(b) && DistinctScores(a)
    ensures SortDesc(a) == SortDesc(b)
  {
    SortSorts(a);
    SortSorts(b);
    DistinctKeysTransfer(a, SortDesc(a), (m: ConcernMatch) => m.score);
    StrictDescendingDetermined(SortDesc(a), SortDesc(b));
  }

  // ---- Thresholds --------------------------------------------------------------------

  lemma {:induction false} AtLeastCounts(ms: seq<ConcernMatch>, t: real, m: ConcernMatch)
    ensures multiset(AtLeast(ms, t))[m] == if m.score >= t then multiset(ms)[m] else 0
  {
    if ms != [] {
      AtLeastCounts(ms[1..], t, m);
      HeadTail(ms);
    }
  }

  lemma AtLeastPermutes(a: seq<ConcernMatch>, b: seq<ConcernMatch>, t: real)
    requires multiset(a) == multiset(b)
    ensures multiset(AtLeast(a, t)) == multiset(AtLeast(b, t))
  {
    forall m ensures multiset(AtLeast(a, t))[m] == multiset(AtLeast(b, t))[m] {
      AtLeastCounts(a, t, m);
      AtLeastCounts(b, t, m);
    }
  }

  lemma AtLeastMember(ms: seq<ConcernMatch>, t: real, m: ConcernMatch)
    ensures m in AtLeast(ms, t) <==> m in ms && m.score >= t
  {
  }

  lemma {:induction false} AtLeastTwice(ms: seq<ConcernMatch>, low: real, high: real)
    requires low <= high
    ensures AtLeast(AtLeast(ms, low), high) == AtLeast(ms, high)
  {
    if ms != [] {
      AtLeastTwice(ms[1..], low, high);
      AtLeastCons(ms[0], AtLeast(ms[1..], low), high);
      assert [] + AtLeast(ms[1..], low) == AtLeast(ms[1..], low);
    }
  }

  lemma {:induction false} AtLeastNone(ms: seq<ConcernMatch>, t: real)
    requires forall i :: 0 <= i < |ms| ==> ms[i].score < t
    ensures AtLeast(ms, t) == []
  {
    if ms != [] {
      AtLeastNone(ms[1..], t);
    }
  }

  lemma {:induction false} AtLeastIsPrefix(ms: seq<ConcernMatch>, t: real)
    requires Descending(ms)
    ensures AtLeast(ms, t) <= ms
  {
    if ms != [] {
      HeadTail(ms);
      if ms[0].score >= t {
        AtLeastIsPrefix(ms[1..], t);
      } else {
        AtLeastNone(ms, t);
      }
    }
  }

  lemma InsertCons(x: ConcernMatch, y: ConcernMatch, ms: seq<ConcernMatch>)
    ensures InsertDesc(x, [y] + ms) == if y.score <= x.score then [x, y] + ms else [y] + InsertDesc(x, ms)
  {
    assert ([y] + ms)[1..] == ms;
  }

  lemma {:induction false} InsertThreshold(x: ConcernMatch, sorted: seq<ConcernMatch>, t: real)
    requires Descending(sorted)
    ensures AtLeast(InsertDesc(x, sorted), t)
         == if x.score >= t then InsertDesc(x, AtLeast(sorted, t)) else AtLeast(sorted, t)
  {
    if sorted == [] || sorted[0].score <= x.score {
      AtLeastCons(x, sorted, t);
      if x.score >= t {
        AtLeastIsPrefix(sorted, t);
      }
    } else {
      InsertThreshold(x, sorted[1..], t);
      AtLeastCons(sorted[0], InsertDesc(x, sorted[1..]), t);
      if x.score >= t {
        InsertCons(x, sorted[0], AtLeast(sorted[1..], t));
      }
    }
  }

  lemma {:induction false} ThresholdCommutesWithSort(ms: seq<ConcernMatch>, t: real)
    ensures SortDesc(AtLeast(ms, t)) == AtLeast(SortDesc(ms), t)
  {
    if ms != [] {
      var x, rest := ms[0], ms[1..];
      ThresholdCommutesWithSort(rest, t);
      SortSorts(rest);
      InsertThreshold(x, SortDesc(rest), t);
      SortCons(x, AtLeast(rest, t));
      assert [] + AtLeast(rest, t) == AtLeast(rest, t);
    }
  }

  lemma SortCons(x: ConcernMatch, ms: seq<ConcernMatch>)
    ensures SortDesc([x] + ms) == InsertDesc(x, SortDesc(ms))
  {
    assert ([x] + ms)[1..] == ms;
  }
}
