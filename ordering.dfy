/**
 * `ORDER BY k1 DESC, k2 DESC, k3 DESC LIMIT n` over a row set. SQL leaves the
 * order of rows with equal keys open, so the clause is specified by
 * IsTopN, and TopN computes one answer that meets it.
 */
module Ordering {

  /** A sort key; rows are compared on `a`, then `b`, then `c`. */
  datatype Key = Key(a: int, b: int, c: int)

  /** `x` sorts no earlier than `y` under DESC on every component, lexicographically. */
  predicate KeyLe(x: Key, y: Key) {
    x.a < y.a || (x.a == y.a && (x.b < y.b || (x.b == y.b && x.c <= y.c)))
  }

  predicate SortedDesc<T>(s: seq<T>, key: T -> Key) {
    forall i, j :: 0 <= i < j < |s| ==> KeyLe(key(s[j]), key(s[i]))
  }

  /** Places `x` after every element whose key is not smaller than its own. */
  function Insert<T>(x: T, s: seq<T>, key: T -> Key): (r: seq<T>)
    ensures multiset(r) == multiset(s) + multiset{x}
    ensures |r| == |s| + 1
  {
    if s == [] then [x]
    else if KeyLe(key(s[0]), key(x)) && key(s[0]) != key(x) then [x] + s
    else
      assert s == [s[0]] + s[1..];
      [s[0]] + Insert(x, s[1..], key)
  }

  lemma {:induction false} InsertSorted<T>(x: T, s: seq<T>, key: T -> Key)
    requires SortedDesc(s, key)
    ensures SortedDesc(Insert(x, s, key), key)
    decreases |s|
  {
    if s != [] && !(KeyLe(key(s[0]), key(x)) && key(s[0]) != key(x)) {
      InsertSorted(x, s[1..], key);
      var r := Insert(x, s, key);
      var tail := Insert(x, s[1..], key);
      assert r == [s[0]] + tail;
      forall j | 0 <= j < |tail| ensures KeyLe(key(tail[j]), key(s[0])) {
        assert tail[j] in multiset(tail);
        assert tail[j] in multiset(s[1..]) + multiset{x};
        if tail[j] != x || tail[j] in multiset(s[1..]) {
          if tail[j] in multiset(s[1..]) {
            var k :| 0 <= k < |s[1..]| && s[1..][k] == tail[j];
            assert s[k + 1] == tail[j];
          }
        }
      }
    }
  }

  /** Insertion sort, largest key first. */
  function SortDesc<T>(s: seq<T>, key: T -> Key): (r: seq<T>)
    ensures multiset(r) == multiset(s)
    ensures |r| == |s|
  {
    if s == [] then []
    else
      assert s == [s[0]] + s[1..];
      Insert(s[0], SortDesc(s[1..], key), key)
  }

  lemma {:induction false} SortDescSorted<T>(s: seq<T>, key: T -> Key)
    ensures SortedDesc(SortDesc(s, key), key)
  {
    if s != [] {
      SortDescSorted(s[1..], key);
      InsertSorted(s[0], SortDesc(s[1..], key), key);
    }
  }

  function Min(a: int, b: int): int {
    if a <= b then a else b
  }

  /**
   * `r` is a correct answer to `ORDER BY key DESC LIMIT n` over `rows`: sorted,
   * made of rows, as long as the limit allows, and no row left out sorts
   * before a row kept.
   */
  ghost predicate IsTopN<T>(rows: seq<T>, r: seq<T>, n: nat, key: T -> Key) {
    && SortedDesc(r, key)
    && multiset(r) <= multiset(rows)
    && |r| == Min(n, |rows|)
    && forall x, y :: x in multiset(rows) - multiset(r) && y in r ==> KeyLe(key(x), key(y))
  }

  /** The first `n` rows of the sorted table. */
  function TopN<T>(rows: seq<T>, n: nat, key: T -> Key): seq<T> {
    SortDesc(rows, key)[..Min(n, |rows|)]
  }

  lemma TopNSpec<T>(rows: seq<T>, n: nat, key: T -> Key)
    ensures IsTopN(rows, TopN(rows, n, key), n, key)
  {
    var sorted := SortDesc(rows, key);
    SortDescSorted(rows, key);
    var m := Min(n, |rows|);
    var r := sorted[..m];
    var rest := sorted[m..];
    assert sorted == r + rest;
    assert multiset(sorted) == multiset(r) + multiset(rest);
    assert multiset(rows) - multiset(r) == multiset(rest);
    SortedSplit(sorted, m, key);
  }

  /** In a sorted list, nothing after position `m` sorts before anything up to it. */
  lemma SortedSplit<T>(sorted: seq<T>, m: nat, key: T -> Key)
    requires SortedDesc(sorted, key) && m <= |sorted|
    ensures forall x, y :: x in multiset(sorted[m..]) && y in sorted[..m] ==> KeyLe(key(x), key(y))
  {
    forall x, y | x in multiset(sorted[m..]) && y in sorted[..m] ensures KeyLe(key(x), key(y)) {
      var j :| 0 <= j < |sorted[m..]| && sorted[m..][j] == x;
      var i :| 0 <= i < m && sorted[..m][i] == y;
      assert sorted[m + j] == x && sorted[i] == y;
    }
  }
}
