/** `ORDER BY key [ASC|DESC]` over the rows of a query. Postgres promises an
    order on the key and nothing about ties, so a sort is specified by two
    facts: the result is ordered, and it holds the same rows. */
module Sorting {
  import opened Js
  import Order
  import Rows

  /** `x` may precede `y` in `ORDER BY key` (descending when `descending`). */
  predicate Precedes<R>(key: R -> JsVal, descending: bool, x: R, y: R)
  {
    if descending then Order.Le(key(y), key(x)) else Order.Le(key(x), key(y))
  }

  predicate SortedBy<R>(key: R -> JsVal, descending: bool, s: seq<R>)
  {
    forall i, j :: 0 <= i < j < |s| ==> Precedes(key, descending, s[i], s[j])
  }

  lemma PrecedesTotal<R>(key: R -> JsVal, descending: bool, x: R, y: R)
    ensures Precedes(key, descending, x, y) || Precedes(key, descending, y, x)
  {
    Order.LeTotal(key(x), key(y));
  }

  lemma PrecedesTransitive<R>(key: R -> JsVal, descending: bool, x: R, y: R, z: R)
    requires Precedes(key, descending, x, y) && Precedes(key, descending, y, z)
    ensures Precedes(key, descending, x, z)
  {
    if descending {
      Order.LeTransitive(key(z), key(y), key(x));
    } else {
      Order.LeTransitive(key(x), key(y), key(z));
    }
  }

  /** Places `x` before the first row it precedes. */
  function Insert<R>(key: R -> JsVal, descending: bool, x: R, s: seq<R>): (r: seq<R>)
    requires SortedBy(key, descending, s)
    ensures SortedBy(key, descending, r)
    ensures multiset(r) == multiset(s) + multiset{x}
    decreases |s|, 1
  {
    if s == [] then
      [x]
    else if Precedes(key, descending, x, s[0]) then
      PrecedesAll(key, descending, x, s);
      SortedCons(key, descending, x, s);
      [x] + s
    else
      var rest := Insert(key, descending, x, s[1..]);
      PrecedesTotal(key, descending, x, s[0]);
      InsertAfter(key, descending, s[0], x, s[1..]);
      SortedCons(key, descending, s[0], rest);
      assert s == [s[0]] + s[1..];
      [s[0]] + rest
  }

  /** A row that precedes every row of a sorted sequence can head it. */
  lemma SortedCons<R>(key: R -> JsVal, descending: bool, x: R, s: seq<R>)
    requires SortedBy(key, descending, s)
    requires forall k :: 0 <= k < |s| ==> Precedes(key, descending, x, s[k])
    ensures SortedBy(key, descending, [x] + s)
  {
    forall i, j | 0 <= i < j < |[x] + s| ensures Precedes(key, descending, ([x] + s)[i], ([x] + s)[j]) {
      if i > 0 {
        assert ([x] + s)[i] == s[i - 1];
      }
      assert ([x] + s)[j] == s[j - 1];
    }
  }

  /** A row that precedes the first row of a sorted sequence precedes all of them. */
  lemma PrecedesAll<R>(key: R -> JsVal, descending: bool, x: R, s: seq<R>)
    requires SortedBy(key, descending, s) && s != [] && Precedes(key, descending, x, s[0])
    ensures forall k :: 0 <= k < |s| ==> Precedes(key, descending, x, s[k])
  {
    forall k | 0 < k < |s| ensures Precedes(key, descending, x, s[k]) {
      PrecedesTransitive(key, descending, x, s[0], s[k]);
    }
  }

  /** A row that precedes `x` and every row of `s` precedes every row once
      `x` is inserted. */
  lemma {:induction false} InsertAfter<R>(key: R -> JsVal, descending: bool, b: R, x: R, s: seq<R>)
    requires SortedBy(key, descending, s) && Precedes(key, descending, b, x)
    requires forall k :: 0 <= k < |s| ==> Precedes(key, descending, b, s[k])
    ensures forall k :: 0 <= k < |Insert(key, descending, x, s)| ==> Precedes(key, descending, b, Insert(key, descending, x, s)[k])
    decreases |s|, 2
  {
    if s != [] && !Precedes(key, descending, x, s[0]) {
      InsertAfter(key, descending, b, x, s[1..]);
    }
  }

  /** The rows of `s` in `ORDER BY key` order. */
  function SortBy<R>(key: R -> JsVal, descending: bool, s: seq<R>): (r: seq<R>)
    ensures SortedBy(key, descending, r)
    ensures multiset(r) == multiset(s)
    ensures |r| == |s|
  {
    if s == [] then
      []
    else
      assert s == [s[0]] + s[1..];
      Insert(key, descending, s[0], SortBy(key, descending, s[1..]))
  }

  /** `WHERE p ORDER BY key`: the rows of `s` that satisfy `p`, each as often
      as in `s`, in order. */
  function OrderedWhere<R>(s: seq<R>, p: R -> bool, key: R -> JsVal, descending: bool): (r: seq<R>)
    ensures SortedBy(key, descending, r)
    ensures |r| <= |s| && multiset(r) <= multiset(s)
    ensures forall k :: 0 <= k < |r| ==> r[k] in s && p(r[k])
    ensures forall k :: 0 <= k < |s| && p(s[k]) ==> s[k] in r
    ensures forall k :: 0 <= k < |s| && p(s[k]) ==> multiset(r)[s[k]] == multiset(s)[s[k]]
    ensures multiset(r) == multiset(Rows.Filter(s, p))
  {
    var matching := Rows.Filter(s, p);
    var r := SortBy(key, descending, matching);
    forall k | 0 <= k < |r| ensures r[k] in s && p(r[k]) {
      assert r[k] in multiset(matching);
      var m :| 0 <= m < |matching| && matching[m] == r[k];
      assert matching[m] in multiset(s);
    }
    forall k | 0 <= k < |s| && p(s[k]) ensures s[k] in r {
      assert s[k] in multiset(matching);
    }
    r
  }
}
