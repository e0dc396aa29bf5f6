/**
 * Sums over sequences, the shape of the source's `forEach` accumulations and
 * `reduce` folds, with the facts that make them independent of order.
 */
module Folds {
  import opened Wrappers

  /** The sum of `f` over the elements of `s`. */
  function SumOf<T>(s: seq<T>, f: T -> int): int {
    if s == [] then 0 else f(s[0]) + SumOf(s[1..], f)
  }

  lemma {:induction false} SumOfConcat<T>(a: seq<T>, b: seq<T>, f: T -> int)
    ensures SumOf(a + b, f) == SumOf(a, f) + SumOf(b, f)
  {
    if a == [] {
      assert a + b == b;
    } else {
      assert (a + b)[1..] == a[1..] + b;
      SumOfConcat(a[1..], b, f);
    }
  }

  lemma SumOfSnoc<T>(a: seq<T>, x: T, f: T -> int)
    ensures SumOf(a + [x], f) == SumOf(a, f) + f(x)
  {
    SumOfConcat(a, [x], f);
  }

  /** One more element of a prefix adds its term. */
  lemma SumOfPrefix<T>(s: seq<T>, i: nat, f: T -> int)
    requires i < |s|
    ensures SumOf(s[..i + 1], f) == SumOf(s[..i], f) + f(s[i])
  {
    assert s[..i + 1] == s[..i] + [s[i]];
    SumOfSnoc(s[..i], s[i], f);
  }

  /** Taking one term out of a sum. */
  lemma SumOfRemove<T>(b: seq<T>, i: nat, f: T -> int)
    requires i < |b|
    ensures SumOf(b, f) == f(b[i]) + SumOf(b[..i] + b[i + 1..], f)
  {
    assert b == b[..i] + ([b[i]] + b[i + 1..]);
    SumOfConcat(b[..i], [b[i]] + b[i + 1..], f);
    SumOfConcat(b[..i], b[i + 1..], f);
  }

  /** Taking one element out of a sequence takes it out of its multiset. */
  lemma MultisetRemove<T>(b: seq<T>, i: nat)
    requires i < |b|
    ensures multiset(b[..i] + b[i + 1..]) == multiset(b) - multiset{b[i]}
  {
    assert b == b[..i] + [b[i]] + b[i + 1..];
  }

  /** A sum does not depend on the order of its terms. */
  lemma {:induction false} SumOfPerm<T>(a: seq<T>, b: seq<T>, f: T -> int)
    requires multiset(a) == multiset(b)
    ensures SumOf(a, f) == SumOf(b, f)
  {
    if a == [] {
      assert |b| == |multiset(b)| == 0;
    } else {
      assert a[0] in multiset(b);
      var i :| 0 <= i < |b| && b[i] == a[0];
      MultisetRemove(b, i);
      assert a == [a[0]] + a[1..];
      assert multiset(a[1..]) == multiset(a) - multiset{a[0]};
      SumOfPerm(a[1..], b[..i] + b[i + 1..], f);
      SumOfRemove(b, i, f);
    }
  }

  /** Term-wise comparison carries over to the sums. */
  lemma {:induction false} SumOfLe<T>(s: seq<T>, f: T -> int, g: T -> int)
    requires forall x :: x in s ==> f(x) <= g(x)
    ensures SumOf(s, f) <= SumOf(s, g)
  {
    if s != [] { SumOfLe(s[1..], f, g); }
  }

  /** Term-wise addition carries over to the sums. */
  lemma {:induction false} SumOfAdd<T>(s: seq<T>, f: T -> int, g: T -> int, h: T -> int)
    requires forall x :: x in s ==> h(x) == f(x) + g(x)
    ensures SumOf(s, h) == SumOf(s, f) + SumOf(s, g)
  {
    if s != [] { SumOfAdd(s[1..], f, g, h); }
  }

  /** Sums of term-wise equal functions are equal. */
  lemma {:induction false} SumOfEq<T>(s: seq<T>, f: T -> int, g: T -> int)
    requires forall x :: x in s ==> f(x) == g(x)
    ensures SumOf(s, f) == SumOf(s, g)
  {
    if s != [] { SumOfEq(s[1..], f, g); }
  }

  /** A sum of terms that are all zero is zero. */
  lemma {:induction false} SumOfZero<T>(s: seq<T>, f: T -> int)
    requires forall x :: x in s ==> f(x) == 0
    ensures SumOf(s, f) == 0
  {
    if s != [] { SumOfZero(s[1..], f); }
  }

  /** A sum of non-negative terms is non-negative. */
  lemma {:induction false} SumOfNonNeg<T>(s: seq<T>, f: T -> int)
    requires forall x :: x in s ==> f(x) >= 0
    ensures SumOf(s, f) >= 0
  {
    if s != [] { SumOfNonNeg(s[1..], f); }
  }

  /** `f` with its first argument fixed: a row of a table. */
  function Row<A, B>(f: (A, B) -> int, x: A): B -> int {
    (y: B) => f(x, y)
  }

  /** `f` with its second argument fixed: a column of a table. */
  function Col<A, B>(f: (A, B) -> int, y: B): A -> int {
    (x: A) => f(x, y)
  }

  /** The row sums of the table `f` over the columns `ys`. */
  function RowSums<A, B>(ys: seq<B>, f: (A, B) -> int): A -> int {
    (x: A) => SumOf(ys, Row(f, x))
  }

  /** The column sums of the table `f` over the rows `xs`. */
  function ColSums<A, B>(xs: seq<A>, f: (A, B) -> int): B -> int {
    (y: B) => SumOf(xs, Col(f, y))
  }

  /** Summing a table row by row or column by column gives the same total. */
  lemma {:induction false} SumOfSwap<A, B>(xs: seq<A>, ys: seq<B>, f: (A, B) -> int)
    ensures SumOf(xs, RowSums(ys, f)) == SumOf(ys, ColSums(xs, f))
  {
    if xs == [] {
      SumOfZero(ys, ColSums(xs, f));
    } else {
      SumOfSwap(xs[1..], ys, f);
      forall y | y in ys
        ensures ColSums(xs, f)(y) == Row(f, xs[0])(y) + ColSums(xs[1..], f)(y)
      {
      }
      SumOfAdd(ys, Row(f, xs[0]), ColSums(xs[1..], f), ColSums(xs, f));
    }
  }

  /** `m` at the position of `key` among the distinct `keys`, 0 elsewhere. */
  function Indicator<K(==)>(key: Option<K>, m: int): K -> int {
    (k: K) => if key == Some(k) then m else 0
  }

  predicate Distinct<K(==)>(keys: seq<K>) {
    forall i, j :: 0 <= i < j < |keys| ==> keys[i] != keys[j]
  }

  /** Over distinct keys, an indicator sums to `m` when its key is among
      them and to 0 otherwise. */
  lemma {:induction false} SumOfIndicator<K>(keys: seq<K>, key: Option<K>, m: int)
    requires Distinct(keys)
    ensures SumOf(keys, Indicator(key, m)) == if key.Some? && key.value in keys then m else 0
  {
    if keys != [] {
      assert Distinct(keys[1..]) by {
        forall i, j | 0 <= i < j < |keys[1..]| ensures keys[1..][i] != keys[1..][j] {
          assert keys[1..][i] == keys[i + 1] && keys[1..][j] == keys[j + 1];
        }
      }
      SumOfIndicator(keys[1..], key, m);
      if key == Some(keys[0]) {
        forall j | 0 <= j < |keys[1..]| ensures keys[1..][j] != keys[0] {
          assert keys[1..][j] == keys[j + 1];
        }
      }
      assert keys == [keys[0]] + keys[1..];
    }
  }
}
