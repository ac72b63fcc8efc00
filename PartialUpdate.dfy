/** The partial-update builder that `updateBooking`, `updateHotel`,
    `updateCustomer`, `updateRoom`, `updateRoomType` and `updateReview` each
    spell out: walk a fixed allow-list of columns, emit `column = $n` for every
    column whose value is not `undefined`, collect the values in the same
    order, append the id and refuse an empty update. Also what the store does
    with the command it builds, and the proof that the two together change
    exactly the supplied columns. */
module PartialUpdate {
  import opened Js
  import opened Outcomes

  /** One `column = $placeholder` fragment of a SET list. */
  datatype Assignment = Assignment(column: string, placeholder: nat)

  /** `UPDATE t SET <sets, joined by ", "> WHERE id = $<wherePlaceholder>`,
      run with the parameter list `values`. */
  datatype Command = Command(sets: seq<Assignment>, values: seq<JsVal>, wherePlaceholder: nat)

  /** The fields the caller intentionally supplied: each allow-listed column
      whose value is not `undefined` (an explicit null included), paired with
      that value, in allow-list order. Keys outside the allow-list are never read. */
  function Supplied(columns: seq<string>, data: Object): seq<(string, JsVal)>
  {
    if columns == [] then
      []
    else
      var c := columns[|columns| - 1];
      Supplied(columns[..|columns| - 1], data) + (if Get(data, c) != Undefined then [(c, Get(data, c))] else [])
  }

  predicate Distinct(columns: seq<string>)
  {
    forall i, j :: 0 <= i < j < |columns| ==> columns[i] != columns[j]
  }

  /** `cmd` is the command for the supplied `pairs` and the id: the i-th
      fragment assigns the i-th pair's column from placeholder i + 1, the
      parameters are the pairs' values followed by the id, and the WHERE
      clause uses the placeholder after the last fragment. */
  ghost predicate Describes(cmd: Command, pairs: seq<(string, JsVal)>, id: nat)
  {
    && |cmd.sets| == |pairs|
    && |cmd.values| == |pairs| + 1
    && (forall i :: 0 <= i < |pairs| ==> cmd.sets[i] == Assignment(pairs[i].0, i + 1))
    && (forall i :: 0 <= i < |pairs| ==> cmd.values[i] == pairs[i].1)
    && cmd.values[|pairs|] == Num(id)
    && cmd.wherePlaceholder == |pairs| + 1
  }

  /** Builds the update for row `id` from the allow-listed fields of `data`,
      or fails with `NoFieldsToUpdate`, before any query, when none is supplied. */
  method Build(columns: seq<string>, data: Object, id: nat) returns (r: Result<Command>)
    ensures r.Failure? <==> forall j :: 0 <= j < |columns| ==> Get(data, columns[j]) == Undefined
    ensures r.Failure? ==> r.error == NoFieldsToUpdate
    ensures r.Success? ==> Describes(r.value, Supplied(columns, data), id)
  {
    var sets: seq<Assignment> := [];
    var values: seq<JsVal> := [];
    var i := 0;
    while i < |columns|
      invariant 0 <= i <= |columns|
      invariant |sets| == |values| == |Supplied(columns[..i], data)|
      invariant forall n :: 0 <= n < |sets| ==> sets[n] == Assignment(Supplied(columns[..i], data)[n].0, n + 1)
      invariant forall n :: 0 <= n < |values| ==> values[n] == Supplied(columns[..i], data)[n].1
      invariant sets == [] <==> forall j :: 0 <= j < i ==> Get(data, columns[j]) == Undefined
    {
      SuppliedStep(columns, data, i + 1);
      var v := Get(data, columns[i]);
      if v != Undefined {
        sets := sets + [Assignment(columns[i], |sets| + 1)];
        values := values + [v];
      }
      i := i + 1;
    }
    assert columns[..i] == columns;
    if |sets| == 0 {
      return Failure(NoFieldsToUpdate);
    }
    values := values + [Num(id)];
    r := Success(Command(sets, values, |sets| + 1));
  }

  /** Every supplied pair names an allow-listed column and carries that
      column's defined value from `data`; with an allow-list that names each
      column once, no column is assigned twice. */
  lemma {:induction false} SuppliedFromData(columns: seq<string>, data: Object)
    ensures |Supplied(columns, data)| <= |columns|
    ensures forall n :: 0 <= n < |Supplied(columns, data)| ==>
      var (c, v) := Supplied(columns, data)[n]; c in columns && v == Get(data, c) && v != Undefined
    ensures Distinct(columns) ==> forall m, n :: 0 <= m < n < |Supplied(columns, data)| ==>
      Supplied(columns, data)[m].0 != Supplied(columns, data)[n].0
  {
    if columns != [] {
      var init := columns[..|columns| - 1];
      var last := columns[|columns| - 1];
      SuppliedFromData(init, data);
      assert forall c :: c in init ==> c in columns;
      if Distinct(columns) {
        assert Distinct(init);
        assert last !in init;
      }
    }
  }

  /** The allow-list is all the builder reads: changing a key outside it
      changes nothing in the update. */
  lemma {:induction false} SuppliedIgnoresUnlisted(columns: seq<string>, data: Object, key: string, v: JsVal)
    requires key !in columns
    ensures Supplied(columns, data[key := v]) == Supplied(columns, data)
  {
    if columns != [] {
      var init := columns[..|columns| - 1];
      assert key !in init by {
        assert forall c :: c in init ==> c in columns;
      }
      SuppliedIgnoresUnlisted(init, data, key, v);
    }
  }

  /** The pairs supplied from a prefix of the allow-list begin the pairs
      supplied from the whole of it. */
  lemma {:induction false} SuppliedPrefix(columns: seq<string>, data: Object, n: nat)
    requires n <= |columns|
    ensures Supplied(columns[..n], data) <= Supplied(columns, data)
    decreases |columns| - n
  {
    if n < |columns| {
      var init := columns[..|columns| - 1];
      assert init[..n] == columns[..n];
      SuppliedPrefix(init, data, n);
    } else {
      assert columns[..n] == columns;
    }
  }

  function IndexOf(columns: seq<string>, c: string): (j: nat)
    requires c in columns
    ensures j < |columns| && columns[j] == c
    ensures forall k :: 0 <= k < j ==> columns[k] != c
  {
    if columns[0] == c then 0 else 1 + IndexOf(columns[1..], c)
  }

  /** A command the store accepts for a table with these columns: every
      fragment names one of them and a parameter that exists. */
  ghost predicate Runs(columns: seq<string>, sets: seq<Assignment>, values: seq<JsVal>)
  {
    forall n :: 0 <= n < |sets| ==> sets[n].column in columns && 1 <= sets[n].placeholder <= |values|
  }

  /** The row's allow-listed cells, in `columns` order, after the store runs
      the fragments `sets` with parameters `values`. */
  function Assign(columns: seq<string>, sets: seq<Assignment>, values: seq<JsVal>, cells: seq<JsVal>): (r: seq<JsVal>)
    requires |cells| == |columns| && Runs(columns, sets, values)
    ensures |r| == |cells|
  {
    if sets == [] then
      cells
    else
      var a := sets[|sets| - 1];
      Assign(columns, sets[..|sets| - 1], values, cells)[IndexOf(columns, a.column) := Stored(values[a.placeholder - 1])]
  }

  /** The intended outcome of a partial update of one row: a supplied column
      takes the supplied value, null included; every other keeps its value. */
  function Merge(columns: seq<string>, data: Object, cells: seq<JsVal>): seq<JsVal>
    requires |cells| == |columns|
  {
    seq(|cells|, j requires 0 <= j < |cells| => if Get(data, columns[j]) != Undefined then Get(data, columns[j]) else cells[j])
  }

  /** Running the built command on a row gives exactly the intended merge:
      each supplied column is written (an explicit null as NULL) and no other
      column changes. */
  lemma ExecuteBuilt(columns: seq<string>, data: Object, id: nat, cmd: Command, cells: seq<JsVal>)
    requires Distinct(columns) && |cells| == |columns|
    requires Describes(cmd, Supplied(columns, data), id)
    ensures Runs(columns, cmd.sets, cmd.values)
    ensures Assign(columns, cmd.sets, cmd.values, cells) == Merge(columns, data, cells)
  {
    SuppliedFromData(columns, data);
    AssignPrefix(columns, data, id, cmd, cells, |columns|);
    assert columns[..|columns|] == columns;
    assert cmd.sets[..|cmd.sets|] == cmd.sets;
    MergedAll(columns, data, cells, Assign(columns, cmd.sets, cmd.values, cells));
  }

  /** A row merged up to the last column is the merge. */
  lemma MergedAll(columns: seq<string>, data: Object, cells: seq<JsVal>, row: seq<JsVal>)
    requires |cells| == |columns| && MergedUpTo(columns, data, cells, row, |columns|)
    ensures row == Merge(columns, data, cells)
  {
  }

  /** `ExecuteBuilt` for the fragments that come from the first `n` columns. */
  lemma {:induction false} AssignPrefix(columns: seq<string>, data: Object, id: nat, cmd: Command, cells: seq<JsVal>, n: nat)
    requires Distinct(columns) && |cells| == |columns| && n <= |columns|
    requires Describes(cmd, Supplied(columns, data), id)
    requires Runs(columns, cmd.sets, cmd.values)
    ensures |Supplied(columns[..n], data)| <= |cmd.sets|
    ensures Runs(columns, cmd.sets[..|Supplied(columns[..n], data)|], cmd.values)
    ensures MergedUpTo(columns, data, cells, Assign(columns, cmd.sets[..|Supplied(columns[..n], data)|], cmd.values, cells), n)
  {
    SuppliedPrefix(columns, data, n);
    var m := |Supplied(columns[..n], data)|;
    RunsPrefix(columns, cmd.sets, cmd.values, m);
    if n == 0 {
      assert cmd.sets[..m] == [];
    } else {
      AssignPrefix(columns, data, id, cmd, cells, n - 1);
      AssignNext(columns, data, id, cmd, cells, n);
    }
  }

  /** The fragments from the first `n` columns write what those from the
      first `n - 1` write, and column `n - 1`'s value when it is defined. */
  lemma AssignNext(columns: seq<string>, data: Object, id: nat, cmd: Command, cells: seq<JsVal>, n: nat)
    requires Distinct(columns) && |cells| == |columns| && 0 < n <= |columns|
    requires Describes(cmd, Supplied(columns, data), id)
    requires Runs(columns, cmd.sets, cmd.values)
    requires |Supplied(columns[..n - 1], data)| <= |cmd.sets|
    requires Runs(columns, cmd.sets[..|Supplied(columns[..n - 1], data)|], cmd.values)
    requires MergedUpTo(columns, data, cells, Assign(columns, cmd.sets[..|Supplied(columns[..n - 1], data)|], cmd.values, cells), n - 1)
    ensures |Supplied(columns[..n], data)| <= |cmd.sets|
    ensures Runs(columns, cmd.sets[..|Supplied(columns[..n], data)|], cmd.values)
    ensures MergedUpTo(columns, data, cells, Assign(columns, cmd.sets[..|Supplied(columns[..n], data)|], cmd.values, cells), n)
  {
    SuppliedStep(columns, data, n);
    SuppliedPrefix(columns, data, n);
    var m, m' := |Supplied(columns[..n], data)|, |Supplied(columns[..n - 1], data)|;
    RunsPrefix(columns, cmd.sets, cmd.values, m);
    var before := Assign(columns, cmd.sets[..m'], cmd.values, cells);
    if Get(data, columns[n - 1]) != Undefined {
      BuiltFragment(columns, data, id, cmd, n);
      AssignStep(columns, cmd.sets, cmd.values, cells, m');
      DistinctIndex(columns, n - 1);
      MergeStep(columns, data, cells, before, before[n - 1 := Get(data, columns[n - 1])], n);
    } else {
      MergeStep(columns, data, cells, before, before, n);
    }
  }

  /** Writing column `n - 1` when it is defined extends the merge of the
      first `n - 1` columns to the first `n`. */
  lemma MergeStep(columns: seq<string>, data: Object, cells: seq<JsVal>, before: seq<JsVal>, after: seq<JsVal>, n: nat)
    requires |cells| == |columns| && 0 < n <= |columns|
    requires MergedUpTo(columns, data, cells, before, n - 1)
    requires after == if Get(data, columns[n - 1]) != Undefined then before[n - 1 := Get(data, columns[n - 1])] else before
    ensures MergedUpTo(columns, data, cells, after, n)
  {
  }

  /** `row` holds the supplied values of the first `n` columns and the
      original cells elsewhere. */
  ghost predicate MergedUpTo(columns: seq<string>, data: Object, cells: seq<JsVal>, row: seq<JsVal>, n: nat)
    requires |cells| == |columns|
  {
    && |row| == |cells|
    && forall j :: 0 <= j < |cells| ==>
         row[j] == if j < n && Get(data, columns[j]) != Undefined then Get(data, columns[j]) else cells[j]
  }

  /** A prefix of an accepted SET list is accepted. */
  lemma RunsPrefix(columns: seq<string>, sets: seq<Assignment>, values: seq<JsVal>, m: nat)
    requires Runs(columns, sets, values) && m <= |sets|
    ensures Runs(columns, sets[..m], values)
  {
    assert forall k :: 0 <= k < m ==> sets[..m][k] == sets[k];
  }

  /** The pairs supplied from the first `n` columns are those from the first
      `n - 1`, then column `n - 1`'s when it is defined. */
  lemma SuppliedStep(columns: seq<string>, data: Object, n: nat)
    requires 0 < n <= |columns|
    ensures Supplied(columns[..n], data) == Supplied(columns[..n - 1], data)
      + (if Get(data, columns[n - 1]) != Undefined then [(columns[n - 1], Get(data, columns[n - 1]))] else [])
  {
    assert columns[..n][..n - 1] == columns[..n - 1];
  }

  /** The fragment the builder emits for a defined column `n - 1`: it assigns
      that column from the placeholder of that column's value. */
  lemma BuiltFragment(columns: seq<string>, data: Object, id: nat, cmd: Command, n: nat)
    requires 0 < n <= |columns| && Get(data, columns[n - 1]) != Undefined
    requires Describes(cmd, Supplied(columns, data), id)
    ensures
      var m' := |Supplied(columns[..n - 1], data)|;
      m' < |cmd.sets| && cmd.sets[m'] == Assignment(columns[n - 1], m' + 1) && cmd.values[m'] == Get(data, columns[n - 1])
  {
    var m' := |Supplied(columns[..n - 1], data)|;
    SuppliedStep(columns, data, n);
    SuppliedPrefix(columns, data, n);
    assert Supplied(columns[..n], data)[m'] == (columns[n - 1], Get(data, columns[n - 1]));
  }

  /** Running one more fragment writes its parameter into its column. */
  lemma AssignStep(columns: seq<string>, sets: seq<Assignment>, values: seq<JsVal>, cells: seq<JsVal>, m: nat)
    requires |cells| == |columns| && Runs(columns, sets, values) && m < |sets|
    ensures Runs(columns, sets[..m], values) && Runs(columns, sets[..m + 1], values)
    ensures Assign(columns, sets[..m + 1], values, cells)
      == Assign(columns, sets[..m], values, cells)[IndexOf(columns, sets[m].column) := Stored(values[sets[m].placeholder - 1])]
  {
    RunsPrefix(columns, sets, values, m);
    RunsPrefix(columns, sets, values, m + 1);
    assert sets[..m + 1][..m] == sets[..m];
  }

  /** In a list without repeats a column's index is its position. */
  lemma DistinctIndex(columns: seq<string>, i: nat)
    requires Distinct(columns) && i < |columns|
    ensures IndexOf(columns, columns[i]) == i
  {
  }
}
