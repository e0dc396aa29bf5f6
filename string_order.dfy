/**
 * `Array.prototype.sort()` without a comparator on strings: the elements
 * are ordered character by character, a proper prefix first. The model is
 * an insertion sort; what the source relies on is that the result is
 * ordered and holds the same elements, which determines it when the
 * elements are distinct.
 */
module StringOrder {
  import opened Folds

  /** `a` sorts no later than `b`. */
  predicate LexLe(a: string, b: string) {
    a == [] || (b != [] && (a[0] < b[0] || (a[0] == b[0] && LexLe(a[1..], b[1..]))))
  }

  lemma {:induction false} LexLeTotal(a: string, b: string)
    ensures LexLe(a, b) || LexLe(b, a)
  {
    if a != [] && b != [] && a[0] == b[0] {
      LexLeTotal(a[1..], b[1..]);
    }
  }

  lemma {:induction false} LexLeAntisymmetric(a: string, b: string)
    requires LexLe(a, b) && LexLe(b, a)
    ensures a == b
  {
    if a != [] && b != [] {
      LexLeAntisymmetric(a[1..], b[1..]);
      assert a == [a[0]] + a[1..] && b == [b[0]] + b[1..];
    }
  }

  lemma {:induction false} LexLeTransitive(a: string, b: string, c: string)
    requires LexLe(a, b) && LexLe(b, c)
    ensures LexLe(a, c)
  {
    if a != [] && a[0] == b[0] && b[0] == c[0] {
      LexLeTransitive(a[1..], b[1..], c[1..]);
    }
  }

  ghost predicate SortedLex(s: seq<string>) {
    forall i, j :: 0 <= i < j < |s| ==> LexLe(s[i], s[j])
  }

  /** Inserts `x` before the first element it does not sort after. */
  function InsertString(x: string, s: seq<string>): seq<string> {
    if s == [] || LexLe(x, s[0]) then [x] + s else [s[0]] + InsertString(x, s[1..])
  }

  function SortStrings(s: seq<string>): seq<string> {
    if s == [] then [] else InsertString(s[0], SortStrings(s[1..]))
  }

  lemma {:induction false} InsertStringPerm(x: string, s: seq<string>)
    ensures multiset(InsertString(x, s)) == multiset{x} + multiset(s)
  {
    if s != [] && !LexLe(x, s[0]) {
      InsertStringPerm(x, s[1..]);
      assert s == [s[0]] + s[1..];
    }
  }

  /** A string sorting no later than any of an ordered sequence can go first. */
  lemma ConsSortedLex(y: string, s: seq<string>)
    requires SortedLex(s)
    requires forall x :: x in s ==> LexLe(y, x)
    ensures SortedLex([y] + s)
  {
    var r := [y] + s;
    forall i, j | 0 <= i < j < |r| ensures LexLe(r[i], r[j]) {
      assert r[j] == s[j - 1];
      if i > 0 {
        assert r[i] == s[i - 1];
      }
    }
  }

  lemma {:induction false} InsertStringSorted(x: string, s: seq<string>)
    requires SortedLex(s)
    ensures SortedLex(InsertString(x, s))
  {
    if s == [] || LexLe(x, s[0]) {
      forall y | y in s ensures LexLe(x, y) {
        var j :| 0 <= j < |s| && s[j] == y;
        if j > 0 {
          LexLeTransitive(x, s[0], s[j]);
        }
      }
      ConsSortedLex(x, s);
    } else {
      LexLeTotal(x, s[0]);
      var rest := InsertString(x, s[1..]);
      assert SortedLex(s[1..]);
      InsertStringSorted(x, s[1..]);
      InsertStringPerm(x, s[1..]);
      forall y | y in rest ensures LexLe(s[0], y) {
        assert y in multiset{x} + multiset(s[1..]);
        if y != x {
          var j :| 0 <= j < |s[1..]| && s[1..][j] == y;
          assert s[1..][j] == s[j + 1];
        }
      }
      ConsSortedLex(s[0], rest);
    }
  }

  /** The result is ordered and a permutation of the input. */
  lemma {:induction false} SortStringsProps(s: seq<string>)
    ensures SortedLex(SortStrings(s))
    ensures multiset(SortStrings(s)) == multiset(s)
  {
    if s != [] {
      SortStringsProps(s[1..]);
      InsertStringSorted(s[0], SortStrings(s[1..]));
      InsertStringPerm(s[0], SortStrings(s[1..]));
      assert s == [s[0]] + s[1..];
    }
  }

  lemma DistinctCons(x: string, s: seq<string>)
    requires Distinct(s) && x !in s
    ensures Distinct([x] + s)
  {
    var r := [x] + s;
    forall i, j | 0 <= i < j < |r| ensures r[i] != r[j] {
      assert r[j] == s[j - 1];
      if i > 0 {
        assert r[i] == s[i - 1];
      }
    }
  }

  lemma DistinctTail(s: seq<string>)
    requires s != [] && Distinct(s)
    ensures Distinct(s[1..]) && s[0] !in s[1..]
  {
    forall i, j | 0 <= i < j < |s[1..]| ensures s[1..][i] != s[1..][j] {
      assert s[1..][i] == s[i + 1] && s[1..][j] == s[j + 1];
    }
    forall j | 0 <= j < |s[1..]| ensures s[1..][j] != s[0] {
      assert s[1..][j] == s[j + 1];
    }
  }

  lemma {:induction false} InsertStringDistinct(x: string, s: seq<string>)
    requires Distinct(s) && x !in s
    ensures Distinct(InsertString(x, s))
  {
    if s == [] || LexLe(x, s[0]) {
      DistinctCons(x, s);
    } else {
      DistinctTail(s);
      InsertStringDistinct(x, s[1..]);
      InsertStringPerm(x, s[1..]);
      assert s[0] !in multiset(InsertString(x, s[1..]));
      DistinctCons(s[0], InsertString(x, s[1..]));
    }
  }

  /** Sorting keeps distinct elements distinct. */
  lemma {:induction false} SortStringsDistinct(s: seq<string>)
    requires Distinct(s)
    ensures Distinct(SortStrings(s))
  {
    if s != [] {
      DistinctTail(s);
      SortStringsDistinct(s[1..]);
      SortStringsProps(s[1..]);
      assert s[0] !in multiset(SortStrings(s[1..]));
      InsertStringDistinct(s[0], SortStrings(s[1..]));
    }
  }

  /** The first element of an ordered sequence sorts before all of it. */
  lemma SortedLexHead(s: seq<string>, x: string)
    requires SortedLex(s) && x in s
    ensures LexLe(s[0], x)
  {
    var j :| 0 <= j < |s| && s[j] == x;
    if j == 0 {
      LexLeTotal(x, x);
    }
  }

  lemma HeadIn(s: seq<string>)
    ensures s != [] ==> s[0] in s
  {
  }

  /** Two ordered sequences of distinct strings holding the same strings are
      equal: the sorted keys do not depend on the order they were added in. */
  lemma {:induction false} SortedLexUnique(a: seq<string>, b: seq<string>)
    requires SortedLex(a) && SortedLex(b) && Distinct(a) && Distinct(b)
    requires forall x :: x in a <==> x in b
    ensures a == b
  {
    if a == [] || b == [] {
      HeadIn(a);
      HeadIn(b);
    } else {
      assert a[0] in b && b[0] in a;
      SortedLexHead(a, b[0]);
      SortedLexHead(b, a[0]);
      LexLeAntisymmetric(a[0], b[0]);
      DistinctTail(a);
      DistinctTail(b);
      assert SortedLex(a[1..]) && SortedLex(b[1..]);
      forall x ensures x in a[1..] <==> x in b[1..] {
        if x in a[1..] {
          assert x in a && x != a[0];
        }
        if x in b[1..] {
          assert x in b && x != b[0];
        }
      }
      SortedLexUnique(a[1..], b[1..]);
      assert a == [a[0]] + a[1..] && b == [b[0]] + b[1..];
    }
  }
}
