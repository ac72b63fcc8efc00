/** What the store does with the rows of one table: select by a condition,
    find by primary key, delete by primary key, update by primary key. A
    table is a sequence in insertion order; `key` gives a row's `id`. */
module Rows {
  import opened Js
  import opened Outcomes

  /** `WHERE p`: the rows that satisfy `p`, in table order. */
  function Filter<R>(s: seq<R>, p: R -> bool): (r: seq<R>)
    ensures |r| <= |s|
    ensures forall k :: 0 <= k < |r| ==> p(r[k])
    ensures multiset(r) <= multiset(s)
    ensures forall k :: 0 <= k < |s| && p(s[k]) ==> s[k] in r
    ensures forall k :: 0 <= k < |s| && p(s[k]) ==> multiset(r)[s[k]] == multiset(s)[s[k]]
  {
    if s == [] then
      []
    else
      var rest := Filter(s[1..], p);
      SelectsCons(s, p, rest);
      var r := (if p(s[0]) then [s[0]] else []) + rest;
      assert forall k :: 0 <= k < |s| && p(s[k]) ==> multiset(r)[s[k]] > 0;
      r
  }

  /** `r` holds the rows of `s` that satisfy `p`, each as often as in `s`. */
  ghost predicate Selects<R>(s: seq<R>, p: R -> bool, r: seq<R>)
  {
    && |r| <= |s|
    && (forall k :: 0 <= k < |r| ==> p(r[k]))
    && multiset(r) <= multiset(s)
    && (forall k :: 0 <= k < |s| && p(s[k]) ==> multiset(r)[s[k]] == multiset(s)[s[k]])
  }

  /** A selection from the rows after the first extends to all rows by
      keeping the first row exactly when it satisfies `p`. */
  lemma SelectsCons<R>(s: seq<R>, p: R -> bool, rest: seq<R>)
    requires s != [] && Selects(s[1..], p, rest)
    ensures Selects(s, p, (if p(s[0]) then [s[0]] else []) + rest)
  {
    var r := (if p(s[0]) then [s[0]] else []) + rest;
    assert multiset(s) == multiset{s[0]} + multiset(s[1..]) by {
      assert s == [s[0]] + s[1..];
    }
    CountsCons(s, p, rest);
  }

  /** The counting half of `SelectsCons`. */
  lemma CountsCons<R>(s: seq<R>, p: R -> bool, rest: seq<R>)
    requires s != [] && multiset(rest) <= multiset(s[1..])
    requires forall k :: 0 <= k < |s[1..]| && p(s[1..][k]) ==> multiset(rest)[s[1..][k]] == multiset(s[1..])[s[1..][k]]
    ensures var r := (if p(s[0]) then [s[0]] else []) + rest;
      forall k :: 0 <= k < |s| && p(s[k]) ==> multiset(r)[s[k]] == multiset(s)[s[k]]
  {
    var r := (if p(s[0]) then [s[0]] else []) + rest;
    assert s == [s[0]] + s[1..];
    forall k | 0 <= k < |s| && p(s[k]) ensures multiset(r)[s[k]] == multiset(s)[s[k]] {
      if s[k] in s[1..] {
        var j :| 0 <= j < |s[1..]| && s[1..][j] == s[k];
      }
    }
  }

  /** The number of rows of `s` that satisfy `p` (`COUNT(*) ... WHERE p`). */
  function Count<R>(s: seq<R>, p: R -> bool): nat
  {
    |Filter(s, p)|
  }

  /** Selecting with a condition every row meets keeps the table as it is. */
  lemma {:induction false} FilterAll<R>(s: seq<R>, p: R -> bool)
    requires forall k :: 0 <= k < |s| ==> p(s[k])
    ensures Filter(s, p) == s
  {
    if s != [] {
      FilterAll(s[1..], p);
      assert s == [s[0]] + s[1..];
    }
  }

  /** Selecting with a condition no row meets selects nothing. */
  lemma {:induction false} FilterNone<R>(s: seq<R>, p: R -> bool)
    requires forall k :: 0 <= k < |s| ==> !p(s[k])
    ensures Filter(s, p) == []
  {
    if s != [] {
      FilterNone(s[1..], p);
    }
  }

  /** Selecting twice with the same condition selects nothing more. */
  lemma FilterTwice<R>(s: seq<R>, p: R -> bool)
    ensures Filter(Filter(s, p), p) == Filter(s, p)
  {
    FilterAll(Filter(s, p), p);
  }

  /** A row appended to a table adds one to the count of the rows meeting
      `p` when it meets `p`, and nothing otherwise. */
  lemma {:induction false} CountAppend<R>(s: seq<R>, p: R -> bool, x: R)
    ensures Count(s + [x], p) == Count(s, p) + if p(x) then 1 else 0
  {
    if s != [] {
      assert (s + [x])[1..] == s[1..] + [x];
      CountAppend(s[1..], p, x);
    }
  }

  /** Counting over two tables put end to end adds the two counts. */
  lemma {:induction false} CountConcat<R>(s: seq<R>, t: seq<R>, p: R -> bool)
    ensures Count(s + t, p) == Count(s, p) + Count(t, p)
  {
    if s != [] {
      assert (s + t)[1..] == s[1..] + t;
      CountConcat(s[1..], t, p);
    } else {
      assert s + t == t;
    }
  }

  /** Every row meets exactly one of a condition and its negation: the rows
      selected by each together are the table. */
  lemma FilterComplement<R>(s: seq<R>, p: R -> bool, q: R -> bool)
    requires forall x :: q(x) == !p(x)
    ensures multiset(Filter(s, p)) + multiset(Filter(s, q)) == multiset(s)
    ensures |Filter(s, p)| + |Filter(s, q)| == |s|
  {
    var a, b := Filter(s, p), Filter(s, q);
    forall x ensures multiset(a)[x] + multiset(b)[x] == multiset(s)[x] {
      if x in s {
        var k :| 0 <= k < |s| && s[k] == x;
      }
    }
    assert multiset(a) + multiset(b) == multiset(s);
    assert |multiset(a) + multiset(b)| == |multiset(s)|;
  }

  /** Primary keys are strictly ascending in table order. */
  ghost predicate Ascending<R>(s: seq<R>, key: R -> nat)
  {
    forall i, j :: 0 <= i < j < |s| ==> key(s[i]) < key(s[j])
  }

  /** Primary keys are strictly ascending in table order and below the next
      value of the table's id sequence. */
  ghost predicate Keyed<R>(s: seq<R>, key: R -> nat, next: nat)
  {
    && Ascending(s, key)
    && (forall i :: 0 <= i < |s| ==> key(s[i]) < next)
  }

  lemma KeyedMonotone<R>(s: seq<R>, key: R -> nat, next: nat, next': nat)
    requires Keyed(s, key, next) && next <= next'
    ensures Keyed(s, key, next')
  {
  }

  /** A row given the next id of the sequence keeps the table keyed. */
  lemma KeyedAppend<R>(s: seq<R>, key: R -> nat, next: nat, x: R)
    requires Keyed(s, key, next) && key(x) == next
    ensures Keyed(s + [x], key, next + 1)
  {
  }

  /** A table with strictly ascending keys holds each of its rows once. */
  lemma {:induction false} AscendingOnce<R>(s: seq<R>, key: R -> nat, i: nat)
    requires Ascending(s, key) && i < |s|
    ensures multiset(s)[s[i]] == 1
  {
    assert multiset(s) == multiset{s[0]} + multiset(s[1..]) by {
      assert s == [s[0]] + s[1..];
    }
    if i == 0 {
      assert s[0] !in s[1..] by {
        forall k | 0 <= k < |s[1..]| ensures s[1..][k] != s[0] {
          assert key(s[1..][k]) == key(s[k + 1]) > key(s[0]);
        }
      }
    } else {
      AscendingTail(s, key);
      AscendingOnce(s[1..], key, i - 1);
      assert s[1..][i - 1] == s[i] && key(s[0]) < key(s[i]);
    }
  }

  lemma AscendingTail<R>(s: seq<R>, key: R -> nat)
    requires Ascending(s, key) && s != []
    ensures Ascending(s[1..], key)
  {
    forall a, b | 0 <= a < b < |s[1..]| ensures key(s[1..][a]) < key(s[1..][b]) {
      assert s[1..][a] == s[a + 1] && s[1..][b] == s[b + 1];
    }
  }

  /** One view per row, as a join computes it, holds each view as often as
      the table holds its row, provided the row can be read back from its
      view. */
  lemma {:induction false} CountMapped<R, V>(s: seq<R>, vs: seq<V>, f: R -> V, back: V -> R, x: R)
    requires |vs| == |s|
    requires forall k :: 0 <= k < |s| ==> vs[k] == f(s[k])
    requires forall y :: back(f(y)) == y
    ensures multiset(vs)[f(x)] == multiset(s)[x]
  {
    if s != [] {
      CountMapped(s[1..], vs[1..], f, back, x);
      assert s == [s[0]] + s[1..];
      assert vs == [vs[0]] + vs[1..];
      assert back(f(s[0])) == s[0] && back(f(x)) == x;
    }
  }

  /** The same, for every row of the table at once. */
  lemma CountsMapped<R, V>(s: seq<R>, vs: seq<V>, f: R -> V, back: V -> R)
    requires |vs| == |s|
    requires forall k :: 0 <= k < |s| ==> vs[k] == f(s[k])
    requires forall y :: back(f(y)) == y
    ensures forall k :: 0 <= k < |s| ==> multiset(vs)[vs[k]] == multiset(s)[s[k]]
  {
    forall k | 0 <= k < |s| ensures multiset(vs)[vs[k]] == multiset(s)[s[k]] {
      CountMapped(s, vs, f, back, s[k]);
    }
  }

  /** `SELECT * FROM t WHERE id = $1`, first row. */
  function Find<R>(s: seq<R>, key: R -> nat, id: nat): (r: Option<R>)
    ensures r.None? <==> forall k :: 0 <= k < |s| ==> key(s[k]) != id
    ensures r.Some? ==> r.value in s && key(r.value) == id
  {
    if s == [] then None
    else if key(s[0]) == id then Some(s[0])
    else
      var r := Find(s[1..], key, id);
      assert forall k :: 1 <= k < |s| ==> s[k] == s[1..][k - 1];
      r
  }

  /** In a keyed table the row found is the one row with that id. */
  lemma {:induction false} FindKeyed<R>(s: seq<R>, key: R -> nat, next: nat, i: nat)
    requires Keyed(s, key, next) && i < |s|
    ensures Find(s, key, key(s[i])) == Some(s[i])
  {
    FindAscending(s, key, i);
  }

  lemma {:induction false} FindAscending<R>(s: seq<R>, key: R -> nat, i: nat)
    requires Ascending(s, key) && i < |s|
    ensures Find(s, key, key(s[i])) == Some(s[i])
  {
    if i > 0 {
      assert Ascending(s[1..], key) by {
        forall a, b | 0 <= a < b < |s[1..]| ensures key(s[1..][a]) < key(s[1..][b]) {
          assert s[1..][a] == s[a + 1] && s[1..][b] == s[b + 1];
        }
      }
      FindAscending(s[1..], key, i - 1);
    }
  }

  /** `DELETE FROM t WHERE id = $1`: the table without the rows with that id. */
  function Delete<R>(s: seq<R>, key: R -> nat, id: nat): (r: seq<R>)
    ensures |r| <= |s|
    ensures forall k :: 0 <= k < |r| ==> key(r[k]) != id
    ensures multiset(r) <= multiset(s)
  {
    if s == [] then
      []
    else
      assert s == [s[0]] + s[1..];
      (if key(s[0]) == id then [] else [s[0]]) + Delete(s[1..], key, id)
  }

  /** Deleting keeps the remaining rows in table order, so keys stay ascending. */
  lemma {:induction false} DeleteKeyed<R>(s: seq<R>, key: R -> nat, next: nat, id: nat)
    requires Keyed(s, key, next)
    ensures Keyed(Delete(s, key, id), key, next)
  {
    if s != [] {
      DeleteKeyed(s[1..], key, next, id);
      DeleteAbove(s[1..], key, id, key(s[0]));
    }
  }

  /** Deleting keeps every remaining key above a bound the table's keys are above. */
  lemma {:induction false} DeleteAbove<R>(s: seq<R>, key: R -> nat, id: nat, low: nat)
    requires forall k :: 0 <= k < |s| ==> low < key(s[k])
    ensures forall k :: 0 <= k < |Delete(s, key, id)| ==> low < key(Delete(s, key, id)[k])
  {
    if s != [] {
      DeleteAbove(s[1..], key, id, low);
    }
  }

  /** Deleting an id no row has changes nothing. */
  lemma {:induction false} DeleteAbsent<R>(s: seq<R>, key: R -> nat, id: nat)
    requires forall k :: 0 <= k < |s| ==> key(s[k]) != id
    ensures Delete(s, key, id) == s
  {
    if s != [] {
      DeleteAbsent(s[1..], key, id);
      assert s == [s[0]] + s[1..];
    }
  }

  /** When keys are ascending, deleting the id of row `i` removes that row and only it. */
  lemma {:induction false} DeletePresent<R>(s: seq<R>, key: R -> nat, i: nat)
    requires Ascending(s, key) && i < |s|
    ensures Delete(s, key, key(s[i])) == s[..i] + s[i + 1..]
  {
    var t := s[1..];
    assert Ascending(t, key) by {
      forall a, b | 0 <= a < b < |t| ensures key(t[a]) < key(t[b]) {
        assert t[a] == s[a + 1] && t[b] == s[b + 1];
      }
    }
    if i == 0 {
      assert forall k :: 0 <= k < |t| ==> key(t[k]) != key(s[0]) by {
        forall k | 0 <= k < |t| ensures key(t[k]) != key(s[0]) {
          assert t[k] == s[k + 1];
        }
      }
      DeleteAbsent(t, key, key(s[0]));
    } else {
      assert t[i - 1] == s[i];
      assert key(s[0]) < key(s[i]);
      DeletePresent(t, key, i - 1);
      RemoveAfterHead(s, i);
    }
  }

  /** Taking element `i` out of a sequence takes one copy of it out of its multiset. */
  lemma RemoveOne<R>(s: seq<R>, i: nat)
    requires i < |s|
    ensures multiset(s[..i] + s[i + 1..]) == multiset(s) - multiset{s[i]}
  {
    assert s == s[..i] + [s[i]] + s[i + 1..];
  }

  lemma RemoveAfterHead<R>(s: seq<R>, i: nat)
    requires 0 < i < |s|
    ensures s[..i] + s[i + 1..] == [s[0]] + (s[1..][..i - 1] + s[1..][i..])
  {
    assert s[..i] == [s[0]] + s[1..][..i - 1];
    assert s[i + 1..] == s[1..][i..];
  }

  /** In a keyed table `DELETE WHERE id = $1` removes the row `Find` returns,
      or nothing when no row has the id. */
  lemma DeleteFound<R>(s: seq<R>, key: R -> nat, next: nat, id: nat)
    requires Keyed(s, key, next)
    ensures Keyed(Delete(s, key, id), key, next)
    ensures Find(s, key, id).None? ==> Delete(s, key, id) == s
    ensures Find(s, key, id).Some? ==> multiset(Delete(s, key, id)) == multiset(s) - multiset{Find(s, key, id).value}
  {
    DeleteKeyed(s, key, next, id);
    if Find(s, key, id).None? {
      DeleteAbsent(s, key, id);
    } else {
      var i :| 0 <= i < |s| && s[i] == Find(s, key, id).value;
      DeleteRow(s, key, i);
    }
  }

  /** Deleting the id of row `i` of an ascending table takes exactly that
      row out of its multiset. */
  lemma DeleteRow<R>(s: seq<R>, key: R -> nat, i: nat)
    requires Ascending(s, key) && i < |s|
    ensures multiset(Delete(s, key, key(s[i]))) == multiset(s) - multiset{s[i]}
  {
    DeletePresent(s, key, i);
    RemoveOne(s, i);
  }

  /** `UPDATE t SET ... WHERE id = $1`, where `f` computes a row's new values. */
  function Patch<R>(s: seq<R>, key: R -> nat, id: nat, f: R -> R): (r: seq<R>)
    ensures |r| == |s|
    ensures forall k :: 0 <= k < |s| ==> r[k] == if key(s[k]) == id then f(s[k]) else s[k]
  {
    seq(|s|, k requires 0 <= k < |s| => if key(s[k]) == id then f(s[k]) else s[k])
  }

  /** An update that leaves the id alone keeps the table keyed, and the
      row then found under the id is the updated row. */
  lemma PatchKeyed<R>(s: seq<R>, key: R -> nat, next: nat, id: nat, f: R -> R)
    requires Keyed(s, key, next)
    requires forall x :: key(f(x)) == key(x)
    ensures Keyed(Patch(s, key, id, f), key, next)
    ensures Find(s, key, id).None? ==> Find(Patch(s, key, id, f), key, id).None?
    ensures Find(s, key, id).Some? ==> Find(Patch(s, key, id, f), key, id) == Some(f(Find(s, key, id).value))
  {
    var r := Patch(s, key, id, f);
    if Find(s, key, id).Some? {
      var i :| 0 <= i < |s| && s[i] == Find(s, key, id).value;
      FindKeyed(s, key, next, i);
      FindKeyed(r, key, next, i);
    }
  }

  /** Running `f`, which computes the same row as `g` from every row and
      keeps its id, is updating with `g`: the table stays keyed and the row
      then found under the id is `g` of the row found before. */
  lemma PatchAs<R>(s: seq<R>, key: R -> nat, next: nat, id: nat, f: R -> R, g: R -> R)
    requires Keyed(s, key, next)
    requires forall x :: f(x) == g(x) && key(g(x)) == key(x)
    ensures Patch(s, key, id, f) == Patch(s, key, id, g)
    ensures Keyed(Patch(s, key, id, g), key, next)
    ensures Find(Patch(s, key, id, g), key, id) == if Find(s, key, id).None? then None else Some(g(Find(s, key, id).value))
  {
    PatchKeyed(s, key, next, id, g);
  }

  /** The row a foreign-key column refers to, as `JOIN t ON fk = t.id`
      finds it: none when the column is NULL or holds no existing id. */
  function Ref<R>(s: seq<R>, key: R -> nat, fk: JsVal): (r: Option<R>)
    ensures r.Some? ==> r.value in s && fk == Num(key(r.value))
    ensures r.None? ==> forall k :: 0 <= k < |s| ==> fk != Num(key(s[k]))
  {
    if fk.Num? && fk.n >= 0 then Find(s, key, fk.n) else None
  }

  /** Some row of `s` has the id `fk` holds: an inner join on `fk` keeps the row. */
  ghost predicate Refers<R>(s: seq<R>, key: R -> nat, fk: JsVal)
  {
    exists m :: 0 <= m < |s| && fk == Num(key(s[m]))
  }

  lemma RefersRef<R>(s: seq<R>, key: R -> nat, fk: JsVal)
    ensures Refers(s, key, fk) <==> Ref(s, key, fk).Some?
  {
    if Ref(s, key, fk).Some? {
      var m :| 0 <= m < |s| && s[m] == Ref(s, key, fk).value;
    }
  }

  /** `o` is what `LEFT JOIN t ON fk = t.id` pairs with a row whose foreign
      key is `fk`: a row of `t` with that id, or none when `t` has no such row. */
  ghost predicate Joins<R>(s: seq<R>, key: R -> nat, fk: JsVal, o: Option<R>)
  {
    match o
    case Some(x) => x in s && fk == Num(key(x))
    case None => forall k :: 0 <= k < |s| ==> fk != Num(key(s[k]))
  }

  /** Primary keys make the joined row unique: `Ref` is the only row that joins. */
  lemma JoinsUnique<R>(s: seq<R>, key: R -> nat, fk: JsVal, o: Option<R>)
    requires Ascending(s, key) && Joins(s, key, fk, o)
    ensures o == Ref(s, key, fk)
  {
    if o.Some? {
      var i :| 0 <= i < |s| && s[i] == o.value;
      FindAscending(s, key, i);
    }
  }
}
