/**
 * Keyed buckets filled by one pass over a list: a map from keys to the
 * column sums of a table whose rows are the list's elements. This is the
 * shape of the source's `obj[key] += value` accumulations.
 */
module Buckets {
  import opened Wrappers
  import opened Folds

  /** `m` holds, for each of `keys`, the sum of column `k` of the table `f`
      over the rows `ws`. */
  ghost predicate Bucket<T>(m: map<string, int>, ws: seq<T>, f: (T, string) -> int, keys: seq<string>) {
    m.Keys == (set k | k in keys) && forall k :: k in keys ==> m[k] == SumOf(ws, Col(f, k))
  }

  lemma BucketStart<T>(ws: seq<T>, f: (T, string) -> int, keys: seq<string>)
    requires ws == []
    ensures Bucket(map k | k in keys :: 0, ws, f, keys)
  {
  }

  /** One more row adds `delta` to bucket `key` when it falls in one, and
      leaves the buckets as they are when `key` is `None`. */
  lemma BucketStep<T>(m: map<string, int>, m': map<string, int>, ws: seq<T>, i: nat,
                      f: (T, string) -> int, keys: seq<string>, key: Option<string>, delta: int)
    requires i < |ws| && Bucket(m, ws[..i], f, keys)
    requires key.Some? ==> key.value in keys
    requires forall k :: k in keys ==> f(ws[i], k) == if key == Some(k) then delta else 0
    requires m' == if key.Some? then m[key.value := m[key.value] + delta] else m
    ensures Bucket(m', ws[..i + 1], f, keys)
  {
    forall k | k in keys
      ensures SumOf(ws[..i + 1], Col(f, k)) == SumOf(ws[..i], Col(f, k)) + f(ws[i], k)
    {
      SumOfPrefix(ws, i, Col(f, k));
    }
  }

  /** The column sums of `f` over `ws`, one per key. */
  function Sums<T>(ws: seq<T>, f: (T, string) -> int, keys: seq<string>): map<string, int> {
    map k | k in keys :: SumOf(ws, Col(f, k))
  }

  lemma BucketIsMap<T>(m: map<string, int>, ws: seq<T>, f: (T, string) -> int, keys: seq<string>)
    requires Bucket(m, ws, f, keys)
    ensures m == Sums(ws, f, keys)
  {
  }

  /** `m[key] += delta` when there is a key; nothing otherwise. */
  method AddTo<T>(m: map<string, int>, key: Option<string>, delta: int,
                  ghost ws: seq<T>, ghost i: nat, ghost f: (T, string) -> int, ghost keys: seq<string>)
    returns (m': map<string, int>)
    requires i < |ws| && Bucket(m, ws[..i], f, keys)
    requires key.Some? ==> key.value in keys
    requires forall k :: k in keys ==> f(ws[i], k) == if key == Some(k) then delta else 0
    ensures Bucket(m', ws[..i + 1], f, keys)
  {
    if key.Some? {
      m' := m[key.value := m[key.value] + delta];
    } else {
      m' := m;
    }
    BucketStep(m, m', ws, i, f, keys, key, delta);
  }

  /** `m` holds, for each of `rows`, the buckets of the table `cell(r)` over
      the columns `cols`: a two-level `obj[row][col] += value`. */
  ghost predicate NestedBucket<T>(m: map<string, map<string, int>>, ws: seq<T>, cell: string -> (T, string) -> int,
                                  rows: seq<string>, cols: seq<string>)
  {
    m.Keys == (set r | r in rows) && forall r :: r in rows ==> Bucket(m[r], ws, cell(r), cols)
  }

  /** The column sums of each of the tables `cell(r)`, one map per row. */
  function NestedSums<T>(ws: seq<T>, cell: string -> (T, string) -> int, rows: seq<string>, cols: seq<string>)
    : map<string, map<string, int>>
  {
    map r | r in rows :: Sums(ws, cell(r), cols)
  }

  lemma NestedIsMap<T>(m: map<string, map<string, int>>, ws: seq<T>, cell: string -> (T, string) -> int,
                       rows: seq<string>, cols: seq<string>)
    requires NestedBucket(m, ws, cell, rows, cols)
    ensures m == NestedSums(ws, cell, rows, cols)
  {
    forall r | r in rows ensures m[r] == Sums(ws, cell(r), cols) {
      BucketIsMap(m[r], ws, cell(r), cols);
    }
    assert m.Keys == NestedSums(ws, cell, rows, cols).Keys;
  }

  /** A new row whose tables have nothing in any column over `ws` starts
      at zero. */
  lemma NestedGrow<T>(m: map<string, map<string, int>>, ws: seq<T>, cell: string -> (T, string) -> int,
                      rows: seq<string>, cols: seq<string>, r: string)
    requires NestedBucket(m, ws, cell, rows, cols) && r !in rows
    requires forall c :: c in cols ==> SumOf(ws, Col(cell(r), c)) == 0
    ensures NestedBucket(m[r := map c | c in cols :: 0], ws, cell, rows + [r], cols)
  {
    var m' := m[r := map c | c in cols :: 0];
    forall x | x in rows + [r] ensures Bucket(m'[x], ws, cell(x), cols) {
      if x != r {
        assert x in rows;
      }
    }
  }

  /** The rows a new element does not fall in stay as they are. */
  lemma NestedOthers<T>(m: map<string, map<string, int>>, m': map<string, map<string, int>>, ws: seq<T>, i: nat,
                        cell: string -> (T, string) -> int, rows: seq<string>, cols: seq<string>, row: Option<string>)
    requires i < |ws| && NestedBucket(m, ws[..i], cell, rows, cols)
    requires m'.Keys == m.Keys
    requires forall r :: r in rows && row != Some(r) ==> m'[r] == m[r]
    requires forall r, c :: r in rows && c in cols && row != Some(r) ==> cell(r)(ws[i], c) == 0
    ensures forall r :: r in rows && row != Some(r) ==> Bucket(m'[r], ws[..i + 1], cell(r), cols)
  {
    forall r | r in rows && row != Some(r)
      ensures Bucket(m'[r], ws[..i + 1], cell(r), cols)
    {
      BucketStep(m[r], m'[r], ws, i, cell(r), cols, None, 0);
    }
  }

  /** `m[row][col] += delta` when there are both keys; nothing otherwise:
      the new element's cells are zero outside row `row`, and within it
      `delta` in column `col` only. */
  method AddToNested<T>(m: map<string, map<string, int>>, row: Option<string>, col: Option<string>, delta: int,
                        ghost ws: seq<T>, ghost i: nat, ghost cell: string -> (T, string) -> int,
                        ghost rows: seq<string>, ghost cols: seq<string>)
    returns (m': map<string, map<string, int>>)
    requires i < |ws| && NestedBucket(m, ws[..i], cell, rows, cols)
    requires row.Some? ==> row.value in rows
    requires col.Some? ==> col.value in cols
    requires forall r, c :: r in rows && c in cols && row != Some(r) ==> cell(r)(ws[i], c) == 0
    requires row.Some? ==> forall c :: c in cols ==> cell(row.value)(ws[i], c) == if col == Some(c) then delta else 0
    ensures NestedBucket(m', ws[..i + 1], cell, rows, cols)
  {
    if row.Some? {
      var buckets := AddTo(m[row.value], col, delta, ws, i, cell(row.value), cols);
      m' := m[row.value := buckets];
    } else {
      m' := m;
    }
    NestedOthers(m, m', ws, i, cell, rows, cols, row);
  }

  /** The sum of the entries of `m` at `keys`. */
  function MapTotal(m: map<string, int>, keys: seq<string>): int {
    if keys == [] then 0 else (if keys[0] in m then m[keys[0]] else 0) + MapTotal(m, keys[1..])
  }

  lemma {:induction false} MapTotalCols<T>(m: map<string, int>, ws: seq<T>, f: (T, string) -> int, keys: seq<string>)
    requires forall k :: k in keys ==> k in m && m[k] == SumOf(ws, Col(f, k))
    ensures MapTotal(m, keys) == SumOf(keys, ColSums(ws, f))
  {
    if keys != [] {
      MapTotalCols(m, ws, f, keys[1..]);
    }
  }

  /** `val(w)` when `key(w)` is one of `keys`, 0 otherwise. */
  function InKeys<T>(keys: seq<string>, key: T -> Option<string>, val: T -> int): T -> int {
    (w: T) => if key(w).Some? && key(w).value in keys then val(w) else 0
  }

  /** A table whose row `w` holds `val(w)` in column `key(w)` sums, over
      distinct columns, to the values whose key is among them. */
  lemma ColumnTotal<T>(ws: seq<T>, keys: seq<string>, f: (T, string) -> int, key: T -> Option<string>, val: T -> int)
    requires Distinct(keys)
    requires forall w, k :: f(w, k) == if key(w) == Some(k) then val(w) else 0
    ensures SumOf(keys, ColSums(ws, f)) == SumOf(ws, InKeys(keys, key, val))
  {
    SumOfSwap(ws, keys, f);
    forall w | w in ws ensures RowSums(keys, f)(w) == InKeys(keys, key, val)(w) {
      SumOfEq(keys, Row(f, w), Indicator(key(w), val(w)));
      SumOfIndicator(keys, key(w), val(w));
    }
    SumOfEq(ws, RowSums(keys, f), InKeys(keys, key, val));
  }
}
