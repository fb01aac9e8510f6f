/** Cohen's kappa: the matcher audit's implementation and the expert programme's. */
module Kappa {
  import opened Wrappers

  type Label = string

  // ---- Counts ------------------------------------------------------------------------

  /** Positions at which both raters say c. */
  function Both(a: seq<Label>, b: seq<Label>, c: Label): nat
    requires |a| == |b|
  {
    if a == [] then 0 else (if a[0] == c && b[0] == c then 1 else 0) + Both(a[1..], b[1..], c)
  }

  function Agreements(a: seq<Label>, b: seq<Label>): (n: nat)
    requires |a| == |b|
    ensures n <= |a|
    ensures n == |a| <==> a == b
  {
    if a == [] then 0
    else
      assert a == [a[0]] + a[1..] && b == [b[0]] + b[1..];
      (if a[0] == b[0] then 1 else 0) + Agreements(a[1..], b[1..])
  }

  // ---- Sums over categories ----------------------------------------------------------

  ghost function SumOver(s: set<Label>, f: Label -> int): int {
    if s == {} then 0 else var x :| x in s; f(x) + SumOver(s - {x}, f)
  }

  lemma {:induction false} SumSplit(s: set<Label>, f: Label -> int, x: Label)
    requires x in s
    ensures SumOver(s, f) == f(x) + SumOver(s - {x}, f)
  {
    var y :| y in s && SumOver(s, f) == f(y) + SumOver(s - {y}, f);
    if y != x {
      SumSplit(s - {y}, f, x);
      SumSplit(s - {x}, f, y);
      assert s - {y} - {x} == s - {x} - {y};
    }
  }

  lemma {:induction false} SumSame(s: set<Label>, f: Label -> int, g: Label -> int)
    requires forall x :: x in s ==> f(x) == g(x)
    ensures SumOver(s, f) == SumOver(s, g)
  {
    if s != {} {
      var x :| x in s;
      SumSplit(s, f, x);
      SumSplit(s, g, x);
      SumSame(s - {x}, f, g);
    }
  }

  lemma {:induction false} SumOneMore(s: set<Label>, f: Label -> int, g: Label -> int, c: Label)
    requires c in s
    requires forall x :: x in s ==> f(x) == g(x) + if x == c then 1 else 0
    ensures SumOver(s, f) == SumOver(s, g) + 1
  {
    SumSplit(s, f, c);
    SumSplit(s, g, c);
    SumSame(s - {c}, f, g);
  }

  lemma {:induction false} SumZero(s: set<Label>, f: Label -> int)
    requires forall x :: x in s ==> f(x) == 0
    ensures SumOver(s, f) == 0
  {
    if s != {} {
      var x :| x in s;
      SumSplit(s, f, x);
      SumZero(s - {x}, f);
    }
  }

  ghost function CountSum(s: set<Label>, a: seq<Label>): int {
    SumOver(s, c => CountOf(a, c))
  }

  ghost function BothSum(s: set<Label>, a: seq<Label>, b: seq<Label>): int
    requires |a| == |b|
  {
    SumOver(s, c => Both(a, b, c))
  }

  /** The chance-agreement numerator: products of the raters' marginal counts. */
  ghost function Products(s: set<Label>, a: seq<Label>, b: seq<Label>): int {
    SumOver(s, c => CountOf(a, c) * CountOf(b, c))
  }

  /** The marginal counts of one rater add up to the number of items. */
  lemma {:induction false} CountsAddUp(s: set<Label>, a: seq<Label>)
    requires ToSet(a) <= s
    ensures CountSum(s, a) == |a|
  {
    if a == [] {
      SumZero(s, c => CountOf(a, c));
    } else {
      assert a[0] in ToSet(a);
      forall x | x in ToSet(a[1..]) ensures x in ToSet(a) {}
      CountsAddUp(s, a[1..]);
      SumOneMore(s, c => CountOf(a, c), c => CountOf(a[1..], c), a[0]);
    }
  }

  /** Joint counts on the diagonal add up to the agreements. */
  lemma {:induction false} AgreementsAddUp(s: set<Label>, a: seq<Label>, b: seq<Label>)
    requires |a| == |b| && ToSet(a) <= s
    ensures BothSum(s, a, b) == Agreements(a, b)
  {
    if a == [] {
      SumZero(s, c => Both(a, b, c));
    } else {
      assert a[0] in ToSet(a);
      forall x | x in ToSet(a[1..]) ensures x in ToSet(a) {}
      AgreementsAddUp(s, a[1..], b[1..]);
      if a[0] == b[0] {
        SumOneMore(s, c => Both(a, b, c), c => Both(a[1..], b[1..], c), a[0]);
      } else {
        SumSame(s, c => Both(a, b, c), c => Both(a[1..], b[1..], c));
      }
    }
  }

  /** Inclusion-exclusion for one category. */
  lemma {:induction false} Overlap(a: seq<Label>, b: seq<Label>, c: Label)
    requires |a| == |b|
    ensures CountOf(a, c) + CountOf(b, c) <= |a| + Both(a, b, c)
    ensures Both(a, b, c) <= CountOf(a, c) && Both(a, b, c) <= CountOf(b, c)
  {
    if a != [] {
      Overlap(a[1..], b[1..], c);
    }
  }

  /** The square bound for one category: p and q marginal counts, m joint, n items. */
  lemma SquareBound(p: int, q: int, m: int, n: int)
    requires 0 <= m <= p <= n && m <= q <= n && p + q <= n + m
    ensures 4 * (p * q) <= n * (p + q) + 2 * (n * m)
  {
    SquareOfSum(p, q);
    ProductMonotone(p + q, p + q, n + m);
    ProductMonotone(m, p + q, 2 * n);
    assert (p + q) * (n + m) == n * (p + q) + m * (p + q);
    assert m * (2 * n) == 2 * (n * m);
  }

  lemma SquareOfSum(p: int, q: int)
    ensures 4 * (p * q) <= (p + q) * (p + q)
  {
    assert (p + q) * (p + q) - 4 * (p * q) == (p - q) * (p - q);
  }

  lemma ProductMonotone(k: int, x: int, y: int)
    requires 0 <= k && x <= y
    ensures k * x <= k * y
  {
    assert k * (y - x) >= 0;
  }

  lemma {:induction false} ProductsBound(s: set<Label>, a: seq<Label>, b: seq<Label>)
    requires |a| == |b|
    ensures 4 * Products(s, a, b) <= |a| * (CountSum(s, a) + CountSum(s, b)) + 2 * (|a| * BothSum(s, a, b))
  {
    var n := |a|;
    if s != {} {
      var x :| x in s;
      var rest := s - {x};
      ProductsBound(rest, a, b);
      SumSplit(s, c => CountOf(a, c) * CountOf(b, c), x);
      SumSplit(s, c => CountOf(a, c), x);
      SumSplit(s, c => CountOf(b, c), x);
      SumSplit(s, c => Both(a, b, c), x);
      Overlap(a, b, x);
      SquareBound(CountOf(a, x), CountOf(b, x), Both(a, b, x), n);
      Distribute(n, CountOf(a, x) + CountOf(b, x), CountSum(rest, a) + CountSum(rest, b));
      Distribute(n, Both(a, b, x), BothSum(rest, a, b));
    } else {
      assert |a| * 0 == 0;
    }
  }

  lemma Distribute(n: int, x: int, y: int)
    ensures n * (x + y) == n * x + n * y
  {
  }

  lemma TermBelow(p: nat, q: nat, k: nat)
    requires p > 0 ==> q <= k
    ensures p * q <= k * p
  {
  }

  /** If b never meets a on more than k items of a label, the products stay below k times the items. */
  lemma {:induction false} ProductsBelow(s: set<Label>, a: seq<Label>, b: seq<Label>, k: nat)
    requires forall x :: x in s && CountOf(a, x) > 0 ==> CountOf(b, x) <= k
    ensures Products(s, a, b) <= k * CountSum(s, a)
  {
    if s != {} {
      var x :| x in s;
      ProductsBelow(s - {x}, a, b, k);
      SumSplit(s, c => CountOf(a, c) * CountOf(b, c), x);
      SumSplit(s, c => CountOf(a, c), x);
      TermBelow(CountOf(a, x), CountOf(b, x), k);
      Distribute(k, CountOf(a, x), CountSum(s - {x}, a));
    }
  }

  lemma ProductsSymmetric(s: set<Label>, a: seq<Label>, b: seq<Label>)
    ensures Products(s, a, b) == Products(s, b, a)
  {
    SumSame(s, c => CountOf(a, c) * CountOf(b, c), c => CountOf(b, c) * CountOf(a, c));
  }

  predicate AllAre(xs: seq<Label>, c: Label) {
    forall i :: 0 <= i < |xs| ==> xs[i] == c
  }

  lemma {:induction false} CountFull(a: seq<Label>, c: Label)
    ensures CountOf(a, c) == |a| <==> AllAre(a, c)
    ensures CountOf(a, c) > 0 <==> c in a
  {
    if a != [] {
      CountFull(a[1..], c);
      assert a == [a[0]] + a[1..];
    }
  }

  /** Both raters use one and the same label throughout. */
  ghost predicate Unanimous(a: seq<Label>, b: seq<Label>) {
    exists c :: AllAre(a, c) && AllAre(b, c)
  }

  ghost predicate Comparable(a: seq<Label>, b: seq<Label>) {
    a != [] && |a| == |b|
  }

  ghost function Categories(a: seq<Label>, b: seq<Label>): set<Label> {
    ToSet(a) + ToSet(b)
  }

  lemma UnanimousProducts(a: seq<Label>, b: seq<Label>)
    requires Comparable(a, b) && Unanimous(a, b)
    ensures a == b && Products(Categories(a, b), a, b) == |a| * |a|
  {
    var c :| AllAre(a, c) && AllAre(b, c);
    var s := Categories(a, b);
    CountFull(a, c);
    CountFull(b, c);
    assert a[0] in s;
    SumSplit(s, x => CountOf(a, x) * CountOf(b, x), c);
    assert s - {c} == {};
  }

  /** When b is constant and a is not, a never fills b's label. */
  lemma ConstantRater(a: seq<Label>, b: seq<Label>, x: Label)
    requires Comparable(a, b) && AllAre(b, x) && !Unanimous(a, b)
    ensures Products(Categories(a, b), b, a) <= (|a| - 1) * CountSum(Categories(a, b), b)
  {
    CountFull(a, x);
    forall y | y in Categories(a, b) && CountOf(b, y) > 0 ensures CountOf(a, y) <= |a| - 1 {
      CountFull(b, y);
    }
    ProductsBelow(Categories(a, b), b, a, |a| - 1);
  }

  /** Chance agreement is certain only for unanimous raters; otherwise it falls short by 1/n at least. */
  lemma ChanceGap(a: seq<Label>, b: seq<Label>)
    requires Comparable(a, b)
    ensures Unanimous(a, b) ==> a == b && Products(Categories(a, b), a, b) == |a| * |a|
    ensures !Unanimous(a, b) ==> Products(Categories(a, b), a, b) <= (|a| - 1) * |a|
  {
    var s := Categories(a, b);
    CountsAddUp(s, a);
    CountsAddUp(s, b);
    if Unanimous(a, b) {
      UnanimousProducts(a, b);
    } else if exists x :: AllAre(b, x) {
      var x :| AllAre(b, x);
      ConstantRater(a, b, x);
      ProductsSymmetric(s, a, b);
    } else {
      forall x | x in s && CountOf(a, x) > 0 ensures CountOf(b, x) <= |a| - 1 {
        CountFull(b, x);
      }
      ProductsBelow(s, a, b, |a| - 1);
    }
  }

  // ---- The two implementations -------------------------------------------------------

  /** A count as a share of the square of n. */
  function Share(k: int, n: nat): real
    requires n > 0
  {
    k as real / (n * n) as real
  }

  ghost function Observed(a: seq<Label>, b: seq<Label>): real
    requires Comparable(a, b)
  {
    Agreements(a, b) as real / |a| as real
  }

  ghost function Expected(a: seq<Label>, b: seq<Label>): real
    requires Comparable(a, b)
  {
    Share(Products(Categories(a, b), a, b), |a|)
  }

  const TOLERANCE := 0.000000000001

  /** A tolerance decides when chance agreement counts as certain. */
  function ToleranceKappa(po: real, pe: real): real {
    if -TOLERANCE < 1.0 - pe < TOLERANCE then (if po == 1.0 then 1.0 else 0.0) else (po - pe) / (1.0 - pe)
  }

  /** An exact comparison decides. */
  function ExactKappa(po: real, pe: real): Option<real> {
    if pe >= 1.0 then (if po >= 1.0 then Some(1.0) else None) else Some((po - pe) / (1.0 - pe))
  }

  /** The matcher audit's kappa. */
  ghost function CohenKappaOf(a: seq<Label>, b: seq<Label>): Option<real> {
    if !Comparable(a, b) then None else Some(ToleranceKappa(Observed(a, b), Expected(a, b)))
  }

  function Lefts(pairs: seq<(Label, Label)>): seq<Label> {
    seq(|pairs|, i requires 0 <= i < |pairs| => pairs[i].0)
  }

  function Rights(pairs: seq<(Label, Label)>): seq<Label> {
    seq(|pairs|, i requires 0 <= i < |pairs| => pairs[i].1)
  }

  function Zip(a: seq<Label>, b: seq<Label>): seq<(Label, Label)>
    requires |a| == |b|
  {
    seq(|a|, i requires 0 <= i < |a| => (a[i], b[i]))
  }

  /** The expert programme's kappa. */
  ghost function PairKappaOf(pairs: seq<(Label, Label)>): Option<real> {
    var a, b := Lefts(pairs), Rights(pairs);
    if pairs == [] then None else ExactKappa(Observed(a, b), Expected(a, b))
  }

  lemma FractionProduct(x: int, y: int, n: int)
    requires n > 0
    ensures (x as real / n as real) * (y as real / n as real) == (x * y) as real / (n * n) as real
  {
  }

  lemma AddProduct(k: int, x: int, y: int, n: nat)
    requires n > 0
    ensures Share(k, n) + (x as real / n as real) * (y as real / n as real) == Share(k + x * y, n)
  {
    FractionProduct(x, y, n);
    assert (k + x * y) as real == k as real + (x * y) as real;
  }

  lemma ProductsSplit(s: set<Label>, a: seq<Label>, b: seq<Label>, c: Label)
    requires c in s
    ensures Products(s, a, b) == CountOf(a, c) * CountOf(b, c) + Products(s - {c}, a, b)
  {
    SumSplit(s, x => CountOf(a, x) * CountOf(b, x), c);
  }

  /** Sum of the products of label frequencies, in any order of the labels. */
  method ChanceAgreement(a: seq<Label>, b: seq<Label>, categories: set<Label>) returns (pe: real)
    requires Comparable(a, b)
    ensures pe == Share(Products(categories, a, b), |a|)
  {
    var n := |a|;
    var rest := categories;
    pe := 0.0;
    while rest != {}
      invariant rest <= categories
      invariant pe == Share(Products(categories, a, b) - Products(rest, a, b), n)
    {
      var cat :| cat in rest;
      ProductsSplit(rest, a, b, cat);
      AddProduct(Products(categories, a, b) - Products(rest, a, b), CountOf(a, cat), CountOf(b, cat), n);
      pe := pe + (CountOf(a, cat) as real / n as real) * (CountOf(b, cat) as real / n as real);
      rest := rest - {cat};
    }
  }

  method CohenKappa(labelsA: seq<Label>, labelsB: seq<Label>) returns (k: Option<real>)
    ensures k == CohenKappaOf(labelsA, labelsB)
  {
    if labelsA == [] || |labelsA| != |labelsB| {
      return None;
    }
    var n := |labelsA|;
    var agree := Agreements(labelsA, labelsB) as real / n as real;
    var pe := ChanceAgreement(labelsA, labelsB, ToSet(labelsA) + ToSet(labelsB));
    return Some(ToleranceKappa(agree, pe));
  }

  method PairKappa(pairs: seq<(Label, Label)>) returns (k: Option<real>)
    ensures k == PairKappaOf(pairs)
  {
    if pairs == [] {
      return None;
    }
    var a, b := Lefts(pairs), Rights(pairs);
    var observed := Agreements(a, b) as real / |pairs| as real;
    var expected := ChanceAgreement(a, b, ToSet(a) + ToSet(b));
    return ExactKappa(observed, expected);
  }
}
