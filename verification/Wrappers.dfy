/** Optional values, fallible results and the members of a list. */
module Wrappers {
  datatype Option<+T> = None | Some(value: T)

  datatype Result<+T, +E> = Ok(value: T) | Err(error: E)

  function ToSet<T(==)>(xs: seq<T>): set<T> {
    set x | x in xs
  }

  function CountOf<T(==)>(xs: seq<T>, x: T): (n: nat)
    ensures n <= |xs|
  {
    if xs == [] then 0 else (if xs[0] == x then 1 else 0) + CountOf(xs[1..], x)
  }

  lemma {:induction false} CountSnoc<T>(xs: seq<T>, y: T, x: T)
    ensures CountOf(xs + [y], x) == CountOf(xs, x) + if y == x then 1 else 0
  {
    if xs == [] {
      assert xs + [y] == [y];
    } else {
      assert (xs + [y])[1..] == xs[1..] + [y];
      CountSnoc(xs[1..], y, x);
    }
  }

  lemma NothingIn<T(!new)>(xs: seq<T>)
    ensures xs == [] <==> forall x :: x !in xs
  {
    if xs != [] {
      assert xs[0] in xs;
    }
  }

  lemma KeyOccursOnce<T, K>(xs: seq<T>, key: T -> K, x: nat)
    requires x < |xs| && forall i, j :: 0 <= i < j < |xs| ==> key(xs[i]) != key(xs[j])
    ensures multiset(xs)[xs[x]] == 1
  {
    assert xs == xs[..x] + [xs[x]] + xs[x + 1..];
    assert xs[x] !in xs[..x] && xs[x] !in xs[x + 1..];
    assert multiset(xs[..x])[xs[x]] == 0 && multiset(xs[x + 1..])[xs[x]] == 0;
  }

  lemma RepeatOccursTwice<T>(xs: seq<T>, i: nat, j: nat)
    requires i < j < |xs| && xs[i] == xs[j]
    ensures multiset(xs)[xs[i]] >= 2
  {
    assert xs == xs[..j] + [xs[j]] + xs[j + 1..];
    assert xs[..j][i] == xs[i];
    assert multiset(xs[..j])[xs[i]] >= 1;
  }
}
