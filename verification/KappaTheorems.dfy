/** Bounds, symmetry and agreement of the two kappa implementations, over exact arithmetic. */
module KappaTheorems {
  import opened Wrappers
  import opened Kappa
  import opened Rounding

  // ---- Fractions ---------------------------------------------------------------------

  lemma Cancel(x: real, d: real)
    requires d > 0.0
    ensures (x * d) / d == x
    ensures (x / d) * d == x
  {
  }

  lemma UnitFraction(x: int, d: int)
    requires x <= d && d > 0
    ensures x as real / d as real <= 1.0
    ensures x as real / d as real == 1.0 <==> x == d
  {
  }

  lemma SquareOf(n: int)
    requires n > 0
    ensures n * n > 0 && (n * n) as real == n as real * n as real
  {
  }

  lemma GapFraction(p: int, n: int)
    requires n > 0 && p <= (n - 1) * n
    ensures n * n > 0 && p as real / (n * n) as real <= 1.0 - 1.0 / n as real
  {
  }

  lemma ScaleBySquare(k: real, w: real)
    requires w > 0.0
    ensures (1.0 + k / w) * (w * w) == w * w + w * k
  {
    Cancel(k, w);
    assert (k / w) * (w * w) == ((k / w) * w) * w;
  }

  lemma HalfFraction(p: int, m: int, n: int)
    requires n > 0 && 2 * p <= n * n + n * m
    ensures n * n > 0 && 2.0 * (p as real / (n * n) as real) <= 1.0 + m as real / n as real
  {
    var q, k, w := p as real, m as real, n as real;
    SquareOf(n);
    TwiceAsReal(p, m, n);
    ScaleBySquare(k, w);
    var f, d := 1.0 + k / w, (n * n) as real;
    assert d == w * w;
    assert 2.0 * q <= f * d;
    HalfQuotient(q, f, d);
  }

  lemma TwiceAsReal(p: int, m: int, n: int)
    requires 2 * p <= n * n + n * m
    ensures 2.0 * p as real <= n as real * n as real + n as real * m as real
  {
  }

  lemma HalfQuotient(q: real, f: real, d: real)
    requires d > 0.0 && 2.0 * q <= f * d
    ensures 2.0 * (q / d) <= f
  {
  }

  /** The chance-corrected ratio for po <= 1 and pe < 1. */
  lemma RatioBounds(po: real, pe: real)
    requires po <= 1.0 && pe < 1.0 && 2.0 * pe <= 1.0 + po
    ensures -1.0 <= (po - pe) / (1.0 - pe) <= 1.0
    ensures (po - pe) / (1.0 - pe) == 1.0 <==> po == 1.0
    ensures (po - pe) / (1.0 - pe) == 0.0 <==> po == pe
  {
    var d := 1.0 - pe;
    QuotientMonotone(po - pe, d, d);
    QuotientMonotone(-d, po - pe, d);
    Cancel(1.0, d);
    Cancel(-1.0, d);
    Cancel(po - pe, d);
    assert -1.0 * d == -d;
  }

  // ---- What the two agreements count ---------------------------------------------------

  /** The items on which the raters agree. */
  function AgreeAt(a: seq<Label>, b: seq<Label>): set<nat>
    requires |a| == |b|
  {
    set i: nat | i < |a| && a[i] == b[i]
  }

  /** The pairs of an item of one rater and an item of the other with the same label. */
  function PairedItems(a: seq<Label>, b: seq<Label>): set<(nat, nat)> {
    set i: nat, j: nat | i < |a| && j < |b| && a[i] == b[j] :: (i, j)
  }

  function ItemsOf(xs: seq<Label>, c: Label): set<nat> {
    set j: nat | j < |xs| && xs[j] == c
  }

  lemma {:induction false} ItemsCounted(xs: seq<Label>, c: Label)
    ensures |ItemsOf(xs, c)| == CountOf(xs, c)
  {
    if xs == [] {
      assert ItemsOf(xs, c) == {};
    } else {
      var init, x := xs[..|xs| - 1], xs[|xs| - 1];
      assert xs == init + [x];
      ItemsCounted(init, c);
      CountSnoc(init, x, c);
      assert ItemsOf(xs, c) == ItemsOf(init, c) + if x == c then {|init|} else {};
    }
  }

  lemma {:induction false} AgreementsSnoc(a: seq<Label>, x: Label, b: seq<Label>, y: Label)
    requires |a| == |b|
    ensures Agreements(a + [x], b + [y]) == Agreements(a, b) + if x == y then 1 else 0
  {
    if a == [] {
      assert a + [x] == [x] && b + [y] == [y] && [x][1..] == [] && [y][1..] == [];
    } else {
      assert (a + [x])[1..] == a[1..] + [x] && (b + [y])[1..] == b[1..] + [y];
      AgreementsSnoc(a[1..], x, b[1..], y);
    }
  }

  lemma AgreeSnoc(a: seq<Label>, x: Label, b: seq<Label>, y: Label)
    requires |a| == |b|
    ensures |AgreeAt(a + [x], b + [y])| == |AgreeAt(a, b)| + if x == y then 1 else 0
  {
    assert AgreeAt(a + [x], b + [y]) == AgreeAt(a, b) + if x == y then {|a|} else {};
  }

  lemma {:induction false} AgreementsCounted(a: seq<Label>, b: seq<Label>)
    requires |a| == |b|
    ensures Agreements(a, b) == |AgreeAt(a, b)|
  {
    if a == [] {
      assert AgreeAt(a, b) == {};
    } else {
      var n := |a| - 1;
      assert a == a[..n] + [a[n]] && b == b[..n] + [b[n]];
      AgreementsCounted(a[..n], b[..n]);
      AgreementsSnoc(a[..n], a[n], b[..n], b[n]);
      AgreeSnoc(a[..n], a[n], b[..n], b[n]);
    }
  }

  function Row(i: nat, js: set<nat>): set<(nat, nat)> {
    set j | j in js :: (i, j)
  }

  lemma {:induction false} RowSize(i: nat, js: set<nat>)
    ensures |Row(i, js)| == |js|
  {
    if js == {} {
      assert Row(i, js) == {};
    } else {
      var j :| j in js;
      RowSize(i, js - {j});
      assert Row(i, js) == Row(i, js - {j}) + {(i, j)};
      assert (i, j) !in Row(i, js - {j});
    }
  }

  lemma PairsSplit(a: seq<Label>, x: Label, b: seq<Label>)
    ensures PairedItems(a + [x], b) == PairedItems(a, b) + Row(|a|, ItemsOf(b, x))
    ensures PairedItems(a, b) !! Row(|a|, ItemsOf(b, x))
  {
    var all := a + [x];
    assert all[|a|] == x && forall i :: 0 <= i < |a| ==> all[i] == a[i];
  }

  lemma PairedSnoc(a: seq<Label>, x: Label, b: seq<Label>)
    ensures |PairedItems(a + [x], b)| == |PairedItems(a, b)| + CountOf(b, x)
  {
    PairsSplit(a, x, b);
    RowSize(|a|, ItemsOf(b, x));
    ItemsCounted(b, x);
  }

  lemma {:induction false} SumMoreAt(s: set<Label>, f: Label -> int, g: Label -> int, c: Label, k: int)
    requires c in s && f(c) == g(c) + k && forall x :: x in s && x != c ==> f(x) == g(x)
    ensures SumOver(s, f) == SumOver(s, g) + k
  {
    SumSplit(s, f, c);
    SumSplit(s, g, c);
    SumSame(s - {c}, f, g);
  }

  lemma ProductsSnoc(s: set<Label>, a: seq<Label>, x: Label, b: seq<Label>)
    requires x in s
    ensures Products(s, a + [x], b) == Products(s, a, b) + CountOf(b, x)
  {
    forall c ensures CountOf(a + [x], c) == CountOf(a, c) + if c == x then 1 else 0 {
      CountSnoc(a, x, c);
    }
    Distribute(CountOf(b, x), CountOf(a, x), 1);
    SumMoreAt(s, c => CountOf(a + [x], c) * CountOf(b, c), c => CountOf(a, c) * CountOf(b, c), x, CountOf(b, x));
  }

  lemma {:induction false} ProductsCounted(s: set<Label>, a: seq<Label>, b: seq<Label>)
    requires ToSet(a) <= s
    ensures Products(s, a, b) == |PairedItems(a, b)|
  {
    if a == [] {
      SumZero(s, c => CountOf(a, c) * CountOf(b, c));
      assert PairedItems(a, b) == {};
    } else {
      var init, x := a[..|a| - 1], a[|a| - 1];
      assert a == init + [x] && x in ToSet(a);
      forall y | y in ToSet(init) ensures y in s {
        assert y in ToSet(a);
      }
      ProductsCounted(s, init, b);
      ProductsSnoc(s, init, x, b);
      PairedSnoc(init, x, b);
    }
  }

  /** The observed agreement is the share of items with the same label; the chance agreement is the share of
      same-labelled pairs among all pairs of an item of one rater with an item of the other. */
  lemma AgreementsMean(a: seq<Label>, b: seq<Label>)
    requires Comparable(a, b)
    ensures Observed(a, b) == |AgreeAt(a, b)| as real / |a| as real
    ensures Expected(a, b) == |PairedItems(a, b)| as real / (|a| * |a|) as real
  {
    AgreementsCounted(a, b);
    ProductsCounted(Categories(a, b), a, b);
  }

  /** Both kappas are the excess of the observed over the chance agreement, as a share of what chance leaves;
      they differ only where chance leaves nothing, or less than the tolerance. */
  lemma KappasMean(a: seq<Label>, b: seq<Label>)
    requires Comparable(a, b)
    ensures var n := |a|;
      var po, pe := |AgreeAt(a, b)| as real / n as real, |PairedItems(a, b)| as real / (n * n) as real;
      && CohenKappaOf(a, b) == Some(
           if 1.0 - pe < 0.000000000001 then (if a == b then 1.0 else 0.0) else (po - pe) / (1.0 - pe))
      && PairKappaOf(Zip(a, b)) == Some(if pe == 1.0 then 1.0 else (po - pe) / (1.0 - pe))
  {
    AgreementsMean(a, b);
    Fractions(a, b);
    ZipProjections(a, b);
  }

  // ---- Observed and chance agreement -------------------------------------------------

  lemma ObservedUnit(a: seq<Label>, b: seq<Label>)
    requires Comparable(a, b)
    ensures Observed(a, b) <= 1.0 && (Observed(a, b) == 1.0 <==> a == b)
  {
    UnitFraction(Agreements(a, b), |a|);
  }

  /** Chance agreement is 1 for unanimous raters only, and then the raters agree. */
  lemma ExpectedUnit(a: seq<Label>, b: seq<Label>)
    requires Comparable(a, b)
    ensures Unanimous(a, b) ==> Expected(a, b) == 1.0 && a == b
    ensures !Unanimous(a, b) ==> Expected(a, b) <= 1.0 - 1.0 / |a| as real && Expected(a, b) < 1.0
  {
    var n, p := |a|, Products(Categories(a, b), a, b);
    ChanceGap(a, b);
    SquareOf(n);
    if Unanimous(a, b) {
      UnitFraction(p, n * n);
    } else {
      GapFraction(p, n);
    }
  }

  /** Twice the chance agreement exceeds the observed one by at most 1. */
  lemma ExpectedHalf(a: seq<Label>, b: seq<Label>)
    requires Comparable(a, b)
    ensures 2.0 * Expected(a, b) <= 1.0 + Observed(a, b)
  {
    var n, s := |a|, Categories(a, b);
    CountsAddUp(s, a);
    CountsAddUp(s, b);
    AgreementsAddUp(s, a, b);
    ProductsBound(s, a, b);
    Distribute(n, n, n);
    HalfFraction(Products(s, a, b), Agreements(a, b), n);
  }

  lemma Fractions(a: seq<Label>, b: seq<Label>)
    requires Comparable(a, b)
    ensures Observed(a, b) <= 1.0 && (Observed(a, b) == 1.0 <==> a == b)
    ensures Expected(a, b) <= 1.0 && (Expected(a, b) == 1.0 <==> Unanimous(a, b))
    ensures Unanimous(a, b) ==> a == b
    ensures 2.0 * Expected(a, b) <= 1.0 + Observed(a, b)
  {
    ObservedUnit(a, b);
    ExpectedUnit(a, b);
    ExpectedHalf(a, b);
  }

  /** Kappa lies between -1 and 1 and is 1 exactly when the raters agree on every item. */
  lemma CohenKappaBounds(a: seq<Label>, b: seq<Label>)
    ensures CohenKappaOf(a, b).Some? <==> Comparable(a, b)
    ensures Comparable(a, b) ==>
      -1.0 <= CohenKappaOf(a, b).value <= 1.0 && (CohenKappaOf(a, b).value == 1.0 <==> a == b)
  {
    if Comparable(a, b) {
      Fractions(a, b);
      if Expected(a, b) < 1.0 {
        RatioBounds(Observed(a, b), Expected(a, b));
      }
    }
  }

  /** On pairs the other implementation is total, with the same bounds and the same meaning of 1. */
  lemma PairKappaBounds(pairs: seq<(Label, Label)>)
    ensures PairKappaOf(pairs).Some? <==> pairs != []
    ensures pairs != [] ==>
      -1.0 <= PairKappaOf(pairs).value <= 1.0
      && (PairKappaOf(pairs).value == 1.0 <==> Lefts(pairs) == Rights(pairs))
  {
    var a, b := Lefts(pairs), Rights(pairs);
    if pairs != [] {
      Fractions(a, b);
      if Expected(a, b) < 1.0 {
        RatioBounds(Observed(a, b), Expected(a, b));
      }
    }
  }

  /** The raters are not unanimous, yet the tolerance treats chance agreement as certain. */
  ghost predicate ToleranceMisfires(a: seq<Label>, b: seq<Label>)
    requires Comparable(a, b)
  {
    !Unanimous(a, b) && 1.0 - Expected(a, b) < TOLERANCE
  }

  lemma ZipProjections(a: seq<Label>, b: seq<Label>)
    requires |a| == |b|
    ensures Lefts(Zip(a, b)) == a && Rights(Zip(a, b)) == b
  {
  }

  /** The two kappas differ exactly when the tolerance misfires on raters that disagree somewhere
      and whose agreement is not the chance agreement. */
  lemma KappasAgreeExactly(a: seq<Label>, b: seq<Label>)
    requires Comparable(a, b)
    ensures CohenKappaOf(a, b) == PairKappaOf(Zip(a, b))
      <==> !(ToleranceMisfires(a, b) && a != b && Observed(a, b) != Expected(a, b))
  {
    ZipProjections(a, b);
    Fractions(a, b);
    if Expected(a, b) < 1.0 {
      RatioBounds(Observed(a, b), Expected(a, b));
    }
  }

  // ---- When the tolerance can misfire ------------------------------------------------

  /** The largest number of items on which the tolerance never separates the implementations. */
  const LAST_EQUAL := 1_999_999_999_998

  lemma {:induction false} ProductsBelowSums(s: set<Label>, a: seq<Label>, b: seq<Label>)
    ensures 0 <= Products(s, a, b) <= CountSum(s, a) * CountSum(s, b)
    ensures CountSum(s, a) >= 0 && CountSum(s, b) >= 0
  {
    SumNonNegative(s, a);
    SumNonNegative(s, b);
    if s != {} {
      var x :| x in s;
      var rest := s - {x};
      ProductsBelowSums(rest, a, b);
      SumSplit(s, c => CountOf(a, c) * CountOf(b, c), x);
      SumSplit(s, c => CountOf(a, c), x);
      SumSplit(s, c => CountOf(b, c), x);
      ExpandedProduct(CountOf(a, x), CountSum(rest, a), CountOf(b, x), CountSum(rest, b));
    }
  }

  lemma ExpandedProduct(p: int, u: int, q: int, v: int)
    requires p >= 0 && u >= 0 && q >= 0 && v >= 0
    ensures p * q >= 0 && p * q + u * v <= (p + u) * (q + v)
  {
    assert (p + u) * (q + v) == p * q + p * v + u * q + u * v;
    assert p * v >= 0 && u * q >= 0;
  }

  lemma ProductOfGaps(u: int, v: int, m: int)
    ensures (m - u) * (m - v) == m * m - m * u - m * v + u * v
  {
  }

  lemma Corner(u: int, v: int, m: int)
    requires 0 <= u <= m && 0 <= v <= m
    ensures u * v + (m - u) * (m - v) <= m * m
  {
    ProductOfGaps(u, v, m);
    ProductMonotone(u, v, m);
    ProductMonotone(v, u, m);
  }

  /** For 1 <= p, q <= n - 1 the sum p q + (n - p)(n - q) is largest at the corners. */
  lemma CornerBound(p: int, q: int, n: int)
    requires 1 <= p <= n - 1 && 1 <= q <= n - 1
    ensures p * q + (n - p) * (n - q) <= n * n - 2 * n + 2
  {
    var u, v, m := p - 1, q - 1, n - 2;
    Corner(u, v, m);
    ShiftedProduct(u, v);
    ShiftedProduct(m - u, m - v);
    ShiftedProduct(m, m);
    ShiftedProduct(m + 1, m + 1);
  }

  lemma ShiftedProduct(x: int, y: int)
    ensures (x + 1) * (y + 1) == x * y + x + y + 1
  {
  }

  /** No rater says one label throughout. */
  ghost predicate Varied(xs: seq<Label>) {
    forall c :: !AllAre(xs, c)
  }

  lemma VariedProducts(a: seq<Label>, b: seq<Label>)
    requires Comparable(a, b) && Varied(a) && Varied(b)
    ensures |a| >= 2 && Products(Categories(a, b), a, b) <= |a| * |a| - 2 * |a| + 2
  {
    var s, n := Categories(a, b), |a|;
    assert !AllAre(a, a[0]);
    SquareAbove(n);
    if exists x :: x in s && CountOf(a, x) > 0 && CountOf(b, x) > 0 {
      var x :| x in s && CountOf(a, x) > 0 && CountOf(b, x) > 0;
      CountFull(a, x);
      CountFull(b, x);
      ProductsSplit(s, a, b, x);
      CountsAddUp(s, a);
      CountsAddUp(s, b);
      SumSplit(s, c => CountOf(a, c), x);
      SumSplit(s, c => CountOf(b, c), x);
      ProductsBelowSums(s - {x}, a, b);
      CornerBound(CountOf(a, x), CountOf(b, x), n);
    } else {
      forall x | x in s ensures CountOf(a, x) * CountOf(b, x) == 0 {
      }
      SumZero(s, x => CountOf(a, x) * CountOf(b, x));
    }
  }

  lemma SquareAbove(n: int)
    requires n >= 2
    ensures n * n - 2 * n + 2 >= 0
  {
    assert n * n - 2 * n + 2 == (n - 1) * (n - 1) + 1;
  }

  lemma {:induction false} ConstantAgreements(a: seq<Label>, b: seq<Label>, x: Label)
    requires |a| == |b| && AllAre(a, x)
    ensures Agreements(a, b) == CountOf(b, x)
  {
    if a != [] {
      ConstantAgreements(a[1..], b[1..], x);
    }
  }

  lemma CommonFactor(k: int, n: int)
    requires n > 0
    ensures n * n > 0 && k as real / n as real == (n * k) as real / (n * n) as real
  {
    SquareOf(n);
    var w, v := n as real, k as real;
    assert (n * k) as real == w * v;
    Cancel(v, w);
    assert (v / w) * (w * w) == ((v / w) * w) * w;
    Cancel(v / w, w * w);
  }

  /** A rater who says one label throughout agrees with the other exactly as often as by chance. */
  lemma ConstantRaterAgreesByChance(a: seq<Label>, b: seq<Label>, x: Label)
    requires Comparable(a, b) && AllAre(a, x)
    ensures Observed(a, b) == Expected(a, b)
  {
    var s, n := Categories(a, b), |a|;
    ConstantAgreements(a, b, x);
    assert a[0] in s;
    CountFull(a, x);
    ProductsSplit(s, a, b, x);
    forall c | c in s - {x} ensures CountOf(a, c) * CountOf(b, c) == 0 {
      CountFull(a, c);
    }
    SumZero(s - {x}, c => CountOf(a, c) * CountOf(b, c));
    CommonFactor(CountOf(b, x), n);
  }

  lemma SquareBelow(n: int, m: int, c: int)
    requires n + m == c && n >= 2 && m >= 2
    ensures n * n <= c * n - c
  {
    ShiftedProduct(n - 1, m - 1);
    ProductMonotone(n - 1, 1, m - 1);
    Distribute(n, n, m);
  }

  lemma NoRoomForTolerance(n: nat, p: int)
    requires 2 <= n <= LAST_EQUAL && p <= n * n - 2 * n + 2
    ensures n * n > 0 && 1.0 - p as real / (n * n) as real >= TOLERANCE
  {
    SquareOf(n);
    SquareBelow(n, LAST_EQUAL + 2 - n, LAST_EQUAL + 2);
    ShareFarFromOne(n, n * n, p);
  }

  lemma ToleranceOf(n: int, d: real)
    ensures d <= 2000000000000.0 * n as real - 2000000000000.0 ==> TOLERANCE * d <= 2.0 * n as real - 2.0
    ensures d > 2000000000000.0 * n as real - 2000000000000.0 ==> TOLERANCE * d > 2.0 * n as real - 2.0
  {
  }

  lemma ShareFarFromOne(n: nat, square: int, p: int)
    requires 0 < square <= (LAST_EQUAL + 2) * n - (LAST_EQUAL + 2) && p <= square - 2 * n + 2
    ensures 1.0 - p as real / square as real >= TOLERANCE
  {
    ToleranceOf(n, square as real);
    var x := p as real / square as real;
    Cancel(p as real, square as real);
    FarFromOne(x, square as real, n as real, p as real);
  }

  lemma FarFromOne(x: real, d: real, w: real, p: real)
    requires d > 0.0 && x * d == p && p <= d - 2.0 * w + 2.0 && TOLERANCE * d <= 2.0 * w - 2.0
    ensures 1.0 - x >= TOLERANCE
  {
    NotBelow(x, TOLERANCE, d);
  }

  lemma NotBelow(x: real, t: real, d: real)
    requires d > 0.0 && t * d <= d - x * d
    ensures 1.0 - x >= t
  {
    assert (1.0 - x) * d == d - x * d;
    if t * d < (1.0 - x) * d {
      CompareScaled(t, 1.0 - x, d);
    } else {
      Cancel(t, d);
      Cancel(1.0 - x, d);
    }
  }

  /** Up to two short of 2 * 10^12 items the implementations are one function. */
  lemma KappasAgree(a: seq<Label>, b: seq<Label>)
    requires Comparable(a, b) && |a| <= LAST_EQUAL
    ensures CohenKappaOf(a, b) == PairKappaOf(Zip(a, b))
  {
    KappasAgreeExactly(a, b);
    if Varied(a) && Varied(b) {
      VariedProducts(a, b);
      NoRoomForTolerance(|a|, Products(Categories(a, b), a, b));
    } else if x :| AllAre(a, x) {
      ConstantRaterAgreesByChance(a, b, x);
    } else {
      var x :| AllAre(b, x);
      ConstantRaterAgreesByChance(b, a, x);
      PartsSymmetric(a, b);
    }
  }

  lemma {:induction false} AgreementsSymmetric(a: seq<Label>, b: seq<Label>)
    requires |a| == |b|
    ensures Agreements(a, b) == Agreements(b, a)
  {
    if a != [] {
      AgreementsSymmetric(a[1..], b[1..]);
    }
  }

  lemma PartsSymmetric(a: seq<Label>, b: seq<Label>)
    requires Comparable(a, b)
    ensures Observed(a, b) == Observed(b, a) && Expected(a, b) == Expected(b, a)
  {
    AgreementsSymmetric(a, b);
    ProductsSymmetric(Categories(a, b), a, b);
    assert Categories(a, b) == Categories(b, a);
  }

  /** Neither implementation distinguishes the raters. */
  lemma KappasSymmetric(a: seq<Label>, b: seq<Label>)
    ensures CohenKappaOf(a, b) == CohenKappaOf(b, a)
    ensures |a| == |b| ==> PairKappaOf(Zip(a, b)) == PairKappaOf(Zip(b, a))
  {
    if Comparable(a, b) {
      PartsSymmetric(a, b);
      ZipProjections(a, b);
      ZipProjections(b, a);
    }
  }

  // ---- Where the implementations part ------------------------------------------------

  function Repeat(c: Label, n: nat): (xs: seq<Label>)
    ensures |xs| == n && AllAre(xs, c)
  {
    if n == 0 then [] else [c] + Repeat(c, n - 1)
  }

  lemma {:induction false} CountSplit(a: seq<Label>, b: seq<Label>, c: Label)
    ensures CountOf(a + b, c) == CountOf(a, c) + CountOf(b, c)
  {
    if a == [] {
      assert a + b == b;
    } else {
      assert (a + b)[1..] == a[1..] + b;
      CountSplit(a[1..], b, c);
    }
  }

  lemma {:induction false} AgreementsSplit(a: seq<Label>, a': seq<Label>, b: seq<Label>, b': seq<Label>)
    requires |a| == |a'| && |b| == |b'|
    ensures Agreements(a + b, a' + b') == Agreements(a, a') + Agreements(b, b')
  {
    if a == [] {
      assert a + b == b && a' + b' == b';
    } else {
      assert (a + b)[1..] == a[1..] + b && (a' + b')[1..] == a'[1..] + b';
      AgreementsSplit(a[1..], a'[1..], b, b');
    }
  }

  lemma CountRepeat(c: Label, n: nat, d: Label)
    ensures CountOf(Repeat(c, n), d) == if c == d then n else 0
  {
    CountFull(Repeat(c, n), d);
  }

  /** One dissent each, on different items. */
  function FirstDissent(n: nat): seq<Label>
    requires n >= 3
  {
    ["x"] + Repeat("y", n - 2) + ["y"]
  }

  function LastDissent(n: nat): seq<Label>
    requires n >= 3
  {
    ["y"] + Repeat("y", n - 2) + ["x"]
  }

  lemma DissentCounts(n: nat)
    requires n >= 3
    ensures CountOf(FirstDissent(n), "x") == 1 && CountOf(FirstDissent(n), "y") == n - 1
    ensures CountOf(LastDissent(n), "x") == 1 && CountOf(LastDissent(n), "y") == n - 1
  {
    var middle := Repeat("y", n - 2);
    CountRepeat("y", n - 2, "x");
    CountRepeat("y", n - 2, "y");
    CountSplit(["x"] + middle, ["y"], "x");
    CountSplit(["x"] + middle, ["y"], "y");
    CountSplit(["x"], middle, "x");
    CountSplit(["x"], middle, "y");
    CountSplit(["y"] + middle, ["x"], "x");
    CountSplit(["y"] + middle, ["x"], "y");
    CountSplit(["y"], middle, "x");
    CountSplit(["y"], middle, "y");
  }

  lemma DissentAgreement(n: nat)
    requires n >= 3
    ensures Agreements(FirstDissent(n), LastDissent(n)) == n - 2
    ensures Products(Categories(FirstDissent(n), LastDissent(n)), FirstDissent(n), LastDissent(n)) == 1 + (n - 1) * (n - 1)
  {
    var middle := Repeat("y", n - 2);
    AgreementsSplit(["x"] + middle, ["y"] + middle, ["y"], ["x"]);
    AgreementsSplit(["x"], ["y"], middle, middle);
    DissentCounts(n);
    TwoLabels(FirstDissent(n), LastDissent(n), "x", "y");
  }

  /** From one item more on, the tolerance makes one kappa 0 while the other is negative. */
  lemma KappasPart(n: nat)
    requires n > LAST_EQUAL
    ensures CohenKappaOf(FirstDissent(n), LastDissent(n)) == Some(0.0)
    ensures PairKappaOf(Zip(FirstDissent(n), LastDissent(n))).Some?
    ensures PairKappaOf(Zip(FirstDissent(n), LastDissent(n))).value < 0.0
  {
    var a, b := FirstDissent(n), LastDissent(n);
    DissentAgreement(n);
    DissentFractions(n);
    ZipProjections(a, b);
    NegativeRatio(Observed(a, b), Expected(a, b));
  }

  /** The implementations agree on all lists of n items exactly up to that size. */
  lemma KappasAgreeUpTo(n: nat)
    ensures (forall a, b :: Comparable(a, b) && |a| == n ==> CohenKappaOf(a, b) == PairKappaOf(Zip(a, b))) <==> n <= LAST_EQUAL
  {
    if n <= LAST_EQUAL {
      forall a, b | Comparable(a, b) && |a| == n ensures CohenKappaOf(a, b) == PairKappaOf(Zip(a, b)) {
        KappasAgree(a, b);
      }
    } else {
      KappasPart(n);
      var a, b := FirstDissent(n), LastDissent(n);
      assert Comparable(a, b) && |a| == n && CohenKappaOf(a, b) != PairKappaOf(Zip(a, b));
    }
  }

  lemma DissentFractions(n: nat)
    requires n > LAST_EQUAL
    ensures n * n > 0
    ensures var po, pe := (n - 2) as real / n as real, (1 + (n - 1) * (n - 1)) as real / (n * n) as real;
      po < pe && pe < 1.0 && 1.0 - pe < TOLERANCE
  {
    SquareOf(n);
    ShiftedProduct(n - 1, n - 1);
    ObservedScaled(n, n * n);
    SquareBeyond(n, LAST_EQUAL + 2);
    DissentShares((n - 2) as real / n as real, 1 + (n - 1) * (n - 1), n, n * n);
  }

  lemma ObservedScaled(n: nat, square: int)
    requires n > 0 && square == n * n
    ensures ((n - 2) as real / n as real) * square as real == square as real - 2.0 * n as real
  {
    var w := n as real;
    SquareOf(n);
    Cancel((n - 2) as real, w);
    assert ((n - 2) as real / w) * (w * w) == (((n - 2) as real / w) * w) * w;
  }

  lemma DissentShares(po: real, p: int, n: nat, square: int)
    requires square > 0 && po * square as real == square as real - 2.0 * n as real
    requires p == square - 2 * n + 2 && n > 1
    requires square > (LAST_EQUAL + 2) * n - (LAST_EQUAL + 2)
    ensures var pe := p as real / square as real;
      po < pe && pe < 1.0 && 1.0 - pe < TOLERANCE
  {
    ToleranceOf(n, square as real);
    var pe := p as real / square as real;
    Cancel(p as real, square as real);
    NearOne(po, pe, square as real, n as real);
  }

  lemma GapScaled(x: real, d: real)
    ensures (1.0 - x) * d == d - x * d
  {
  }

  lemma NearOne(po: real, pe: real, d: real, w: real)
    requires d > 0.0 && w > 1.0 && TOLERANCE * d > 2.0 * w - 2.0
    requires po * d == d - 2.0 * w && pe * d == d - 2.0 * w + 2.0
    ensures po < pe && pe < 1.0 && 1.0 - pe < TOLERANCE
  {
    CompareScaled(po, pe, d);
    assert 1.0 * d == d;
    CompareScaled(pe, 1.0, d);
    GapScaled(pe, d);
    CompareProducts(1.0 - pe, 2.0 * w - 2.0, TOLERANCE, TOLERANCE * d, d);
  }

  lemma SquareBeyond(n: int, c: int)
    requires n >= c - 1 && n > 0
    ensures n * n > c * n - c
  {
    Distribute(n, n - c, c);
    if n >= c {
      ProductMonotone(n, 0, n - c);
    } else {
      assert n * (n - c) == -n;
    }
  }

  lemma CompareScaled(x: real, y: real, d: real)
    requires d > 0.0 && x * d < y * d
    ensures x < y
  {
  }

  lemma CompareProducts(x: real, p: real, y: real, q: real, d: real)
    requires d > 0.0 && x * d == p && y * d == q && p < q
    ensures x < y
  {
    Cancel(x, d);
    Cancel(y, d);
    QuotientMonotone(p, q, d);
  }

  lemma NegativeRatio(po: real, pe: real)
    requires po < pe < 1.0
    ensures (po - pe) / (1.0 - pe) < 0.0
  {
    Cancel(po - pe, 1.0 - pe);
  }

  lemma TwoLabels(a: seq<Label>, b: seq<Label>, c: Label, d: Label)
    requires Comparable(a, b) && c != d && CountOf(a, c) > 0 && CountOf(a, d) > 0
    requires CountOf(a, c) + CountOf(a, d) == |a| && CountOf(b, c) + CountOf(b, d) == |b|
    ensures Products(Categories(a, b), a, b) == CountOf(a, c) * CountOf(b, c) + CountOf(a, d) * CountOf(b, d)
  {
    var s := Categories(a, b);
    CountFull(a, c);
    CountFull(a, d);
    CountsAddUp(s, a);
    SumSplit(s, x => CountOf(a, x), c);
    SumSplit(s - {c}, x => CountOf(a, x), d);
    SumSplit(s, x => CountOf(a, x) * CountOf(b, x), c);
    SumSplit(s - {c}, x => CountOf(a, x) * CountOf(b, x), d);
    var rest := s - {c} - {d};
    forall x | x in rest ensures CountOf(a, x) == 0 {
      RestCounts(rest, a, x);
    }
    SumZero(rest, x => CountOf(a, x) * CountOf(b, x));
  }

  lemma {:induction false} SumNonNegative(s: set<Label>, a: seq<Label>)
    ensures CountSum(s, a) >= 0
  {
    if s != {} {
      var x :| x in s;
      SumSplit(s, c => CountOf(a, c), x);
      SumNonNegative(s - {x}, a);
    }
  }

  lemma RestCounts(s: set<Label>, a: seq<Label>, x: Label)
    requires x in s && CountSum(s, a) == 0
    ensures CountOf(a, x) == 0
  {
    SumSplit(s, c => CountOf(a, c), x);
    SumNonNegative(s - {x}, a);
  }
}
