/** Selected and checked rows of a datagrid. Selecting checks and checking selects, each
    operation calling the other once with a flag that stops the recursion; both lists are kept
    by row id. Event handlers that could veto are left out. */
module DataGridSelection {
  import opened Wrappers

  /** A row object and the value of its id field, which may be missing. */
  datatype Row = Row(object: nat, id: Option<int>)

  // ---------------------------------------------------------------- arrays keyed by id

  /** `indexOfArray(a, idField, id)`: a missing id is taken for "no id given", and then the
      array is searched for the field's name, which is never there. */
  function IndexOf(a: seq<Row>, id: Option<int>): (r: int)
    ensures r == -1 || 0 <= r < |a|
    ensures r >= 0 ==> id.Some? && a[r].id == id && forall k :: 0 <= k < r ==> a[k].id != id
    ensures r == -1 && id.Some? ==> forall k :: 0 <= k < |a| ==> a[k].id != id
  {
    if id.None? then -1 else IndexFrom(a, id, 0)
  }

  function IndexFrom(a: seq<Row>, id: Option<int>, i: nat): (r: int)
    requires i <= |a|
    ensures r == -1 || i <= r < |a|
    ensures r >= 0 ==> a[r].id == id && forall k :: i <= k < r ==> a[k].id != id
    ensures r == -1 ==> forall k :: i <= k < |a| ==> a[k].id != id
    decreases |a| - i
  {
    if i == |a| then -1 else if a[i].id == id then i else IndexFrom(a, id, i + 1)
  }

  /** `addArrayItem(a, idField, row)` */
  function WithItem(a: seq<Row>, row: Row): seq<Row> {
    var i := IndexOf(a, row.id);
    if i == -1 then a + [row] else a[i := row]
  }

  /** `removeArrayItem(a, idField, id)`: here a missing id does match a row without one. */
  function WithoutItem(a: seq<Row>, id: Option<int>): seq<Row> {
    var i := IndexFrom(a, id, 0);
    if i == -1 then a else a[..i] + a[i + 1..]
  }

  /** The row takes the place of the first one with its id; when there is none, or it has no id itself, it
      comes last. */
  lemma WithItemIs(a: seq<Row>, row: Row)
    ensures row.id.None? || (forall k :: 0 <= k < |a| ==> a[k].id != row.id) ==> WithItem(a, row) == a + [row]
    ensures forall i :: 0 <= i < |a| && row.id.Some? && a[i].id == row.id && (forall k :: 0 <= k < i ==> a[k].id != row.id) ==>
              WithItem(a, row) == a[..i] + [row] + a[i + 1..]
  {}

  /** The first row with the id is cut out, and nothing else changes. */
  lemma WithoutItemIs(a: seq<Row>, id: Option<int>)
    ensures (forall k :: 0 <= k < |a| ==> a[k].id != id) ==> WithoutItem(a, id) == a
    ensures forall i :: 0 <= i < |a| && a[i].id == id && (forall k :: 0 <= k < i ==> a[k].id != id) ==>
              WithoutItem(a, id) == a[..i] + a[i + 1..]
  {}

  /** No two rows have the same id, or both none. */
  ghost predicate Distinct(a: seq<Row>) {
    forall i, j :: 0 <= i < j < |a| ==> a[i].id != a[j].id
  }

  ghost function Ids(a: seq<Row>): set<Option<int>> {
    set r | r in a :: r.id
  }

  lemma IdsOf(a: seq<Row>, id: Option<int>)
    ensures id in Ids(a) <==> exists i :: 0 <= i < |a| && a[i].id == id
  {
    if id in Ids(a) {
      var r :| r in a && r.id == id;
      var i :| 0 <= i < |a| && a[i] == r;
    }
  }

  /** Adding a row that has an id is adding to the set of ids. */
  lemma WithItemIds(a: seq<Row>, row: Row)
    requires Distinct(a) && row.id.Some?
    ensures Distinct(WithItem(a, row)) && Ids(WithItem(a, row)) == Ids(a) + {row.id}
  {
    var b := WithItem(a, row);
    forall id ensures id in Ids(b) <==> id in Ids(a) + {row.id} {
      IdsOf(a, id);
      IdsOf(b, id);
      var i := IndexOf(a, row.id);
      if exists k :: 0 <= k < |a| && a[k].id == id {
        var k :| 0 <= k < |a| && a[k].id == id;
        assert b[k].id == id;
      }
      if id == row.id {
        assert b[if i == -1 then |a| else i].id == id;
      }
    }
  }

  lemma WithoutItemIds(a: seq<Row>, id: Option<int>)
    requires Distinct(a)
    ensures Distinct(WithoutItem(a, id)) && Ids(WithoutItem(a, id)) == Ids(a) - {id}
  {
    var b, i := WithoutItem(a, id), IndexFrom(a, id, 0);
    forall x ensures x in Ids(b) <==> x in Ids(a) - {id} {
      IdsOf(a, x);
      IdsOf(b, x);
      if x != id && exists k :: 0 <= k < |a| && a[k].id == x {
        var k :| 0 <= k < |a| && a[k].id == x;
        assert b[if i == -1 || k < i then k else k - 1].id == x;
      }
    }
  }

  /** The list stays free of duplicates exactly when the new row has an id or no listed row
      lacks one. */
  lemma StaysDistinct(a: seq<Row>, row: Row)
    requires Distinct(a)
    ensures Distinct(WithItem(a, row)) <==> row.id.Some? || None !in Ids(a)
  {
    IdsOf(a, None);
    if row.id.Some? {
      WithItemIds(a, row);
    } else {
      assert WithItem(a, row) == a + [row];
      if exists i :: 0 <= i < |a| && a[i].id == None {
        var i :| 0 <= i < |a| && a[i].id == None;
        assert (a + [row])[i].id == (a + [row])[|a|].id;
      }
    }
  }

  /** Selecting a row without an id twice lists it twice. */
  lemma NoIdNoSet()
    ensures var r := Row(0, None); WithItem(WithItem([], r), r) == [r, r]
  {}

  // ---------------------------------------------------------------- all rows of the page

  function WithAll(a: seq<Row>, rows: seq<Row>): seq<Row> {
    if rows == [] then a else WithItem(WithAll(a, rows[..|rows| - 1]), rows[|rows| - 1])
  }

  function WithoutAll(a: seq<Row>, rows: seq<Row>): seq<Row> {
    if rows == [] then a else WithoutItem(WithoutAll(a, rows[..|rows| - 1]), rows[|rows| - 1].id)
  }

  ghost predicate HaveIds(rows: seq<Row>) {
    forall r :: r in rows ==> r.id.Some?
  }

  lemma IdsSnoc(rows: seq<Row>)
    requires rows != []
    ensures Ids(rows) == Ids(rows[..|rows| - 1]) + {rows[|rows| - 1].id}
  {
    assert rows == rows[..|rows| - 1] + [rows[|rows| - 1]];
  }

  lemma {:induction false} WithAllIds(a: seq<Row>, rows: seq<Row>)
    requires Distinct(a) && HaveIds(rows)
    ensures Distinct(WithAll(a, rows)) && Ids(WithAll(a, rows)) == Ids(a) + Ids(rows)
  {
    if rows == [] {
      assert Ids(rows) == {};
    } else {
      WithAllIds(a, rows[..|rows| - 1]);
      WithItemIds(WithAll(a, rows[..|rows| - 1]), rows[|rows| - 1]);
      IdsSnoc(rows);
    }
  }

  lemma {:induction false} WithoutAllIds(a: seq<Row>, rows: seq<Row>)
    requires Distinct(a)
    ensures Distinct(WithoutAll(a, rows)) && Ids(WithoutAll(a, rows)) == Ids(a) - Ids(rows)
  {
    if rows == [] {
      assert Ids(rows) == {};
    } else {
      WithoutAllIds(a, rows[..|rows| - 1]);
      WithoutItemIds(WithoutAll(a, rows[..|rows| - 1]), rows[|rows| - 1].id);
      IdsSnoc(rows);
    }
  }

  /** The rows with ids that are not among the given ones, in their order. */
  ghost function Others(rows: seq<Row>, ids: set<Option<int>>): seq<Row> {
    if rows == [] then []
    else Others(rows[..|rows| - 1], ids) + if rows[|rows| - 1].id in ids then [] else [rows[|rows| - 1]]
  }

  /** Listed rows have kept their places and are replaced by those shown under their ids; the others shown
      follow in their order. */
  ghost predicate Merged(a: seq<Row>, rows: seq<Row>, b: seq<Row>) {
    && |a| <= |b| && b[|a|..] == Others(rows, Ids(a))
    && forall k :: 0 <= k < |a| ==> b[k].id == a[k].id && if a[k].id in Ids(rows) then b[k] in rows else b[k] == a[k]
  }

  lemma {:induction false} WithAllIs(a: seq<Row>, rows: seq<Row>)
    requires Distinct(a) && Distinct(rows) && HaveIds(rows)
    ensures Merged(a, rows, WithAll(a, rows))
  {
    if rows == [] {
      assert Ids(rows) == {};
    } else {
      var front, row := rows[..|rows| - 1], rows[|rows| - 1];
      WithAllIs(a, front);
      WithAllIds(a, front);
      NotBefore(rows);
      hide Merged, Ids, Distinct, WithItem;
      if row.id in Ids(a) {
        MergedListed(a, rows, WithAll(a, front));
      } else {
        MergedNew(a, rows, WithAll(a, front));
      }
    }
  }

  lemma MergedListed(a: seq<Row>, rows: seq<Row>, b: seq<Row>)
    requires rows != [] && Merged(a, rows[..|rows| - 1], b) && Distinct(b)
    requires var row := rows[|rows| - 1]; row.id.Some? && row.id in Ids(a)
    ensures Merged(a, rows, WithItem(b, rows[|rows| - 1]))
  {
    var front, row := rows[..|rows| - 1], rows[|rows| - 1];
    IdsSnoc(rows);
    assert rows == front + [row];
    IdsOf(a, row.id);
    hide Ids;
    var i :| 0 <= i < |a| && a[i].id == row.id;
    WithItemIs(b, row);
    hide WithItem;
    assert WithItem(b, row) == b[..i] + [row] + b[i + 1..];
  }

  lemma MergedNew(a: seq<Row>, rows: seq<Row>, b: seq<Row>)
    requires rows != [] && Merged(a, rows[..|rows| - 1], b)
    requires var row := rows[|rows| - 1]; row.id !in Ids(a) && row.id !in Ids(b)
    ensures Merged(a, rows, WithItem(b, rows[|rows| - 1]))
  {
    var front, row := rows[..|rows| - 1], rows[|rows| - 1];
    IdsSnoc(rows);
    assert rows == front + [row];
    IdsOf(b, row.id);
    WithItemIs(b, row);
    forall k | 0 <= k < |a| ensures a[k].id in Ids(a) { assert a[k] in a; }
    hide Ids, WithItem;
    assert WithItem(b, row) == b + [row];
  }

  lemma NotBefore(rows: seq<Row>)
    requires Distinct(rows) && rows != []
    ensures rows[|rows| - 1].id !in Ids(rows[..|rows| - 1]) && Distinct(rows[..|rows| - 1])
  {
    IdsOf(rows[..|rows| - 1], rows[|rows| - 1].id);
  }

  lemma WithoutSnoc(a: seq<Row>, row: Row, id: Option<int>)
    ensures WithoutItem(a + [row], id) ==
            if id in Ids(a) then WithoutItem(a, id) + [row] else if row.id == id then a else a + [row]
  {
    IdsOf(a, id);
    hide Ids, WithoutItem;
    var b := a + [row];
    if id in Ids(a) {
      var i := IndexFrom(a, id, 0);
      WithoutAt(a, id, i);
      WithoutAt(b, id, i);
      assert b[..i] + b[i + 1..] == (a[..i] + a[i + 1..]) + [row];
    } else if row.id == id {
      WithoutAt(b, id, |a|);
      assert b[..|a|] + b[|a| + 1..] == a;
    } else {
      WithoutItemIs(b, id);
    }
  }

  lemma WithoutAt(a: seq<Row>, id: Option<int>, i: nat)
    requires i < |a| && a[i].id == id && forall k :: 0 <= k < i ==> a[k].id != id
    ensures WithoutItem(a, id) == a[..i] + a[i + 1..]
  {}

  lemma {:induction false} OthersIds(a: seq<Row>, ids: set<Option<int>>)
    ensures Ids(Others(a, ids)) == Ids(a) - ids
  {
    if a != [] {
      var others, row := Others(a[..|a| - 1], ids), a[|a| - 1];
      OthersIds(a[..|a| - 1], ids);
      IdsSnoc(a);
      IdsSnoc(others + [row]);
      assert (others + [row])[..|others|] == others && others + [] == others;
      hide Ids;
    }
  }

  lemma NotThere(a: seq<Row>, id: Option<int>)
    requires id !in Ids(a)
    ensures WithoutItem(a, id) == a
  {
    IdsOf(a, id);
    WithoutItemIs(a, id);
  }

  lemma {:induction false} OthersLess(a: seq<Row>, ids: set<Option<int>>, id: Option<int>)
    requires Distinct(a)
    ensures WithoutItem(Others(a, ids), id) == Others(a, ids + {id})
  {
    if a == [] {
      assert Ids([]) == {};
      NotThere([], id);
    } else {
      var front, row := a[..|a| - 1], a[|a| - 1];
      var x, y := Others(front, ids), Others(front, ids + {id});
      NotBefore(a);
      OthersSnoc(a, ids);
      OthersSnoc(a, ids + {id});
      hide WithoutItem, Ids, Distinct, Others;
      OthersLess(front, ids, id);
      OthersIds(front, ids);
      WithoutSnoc(x, row, id);
      if row.id !in ids && (row.id == id || id !in Ids(x)) { NotThere(x, id); }
    }
  }

  lemma OthersSnoc(a: seq<Row>, ids: set<Option<int>>)
    requires a != []
    ensures var x, row := Others(a[..|a| - 1], ids), a[|a| - 1];
            Others(a, ids) == if row.id in ids then x else x + [row]
  {}

  /** The rows that stay are those whose ids are not shown, in their order. */
  lemma {:induction false} WithoutAllIs(a: seq<Row>, rows: seq<Row>)
    requires Distinct(a)
    ensures WithoutAll(a, rows) == Others(a, Ids(rows))
  {
    if rows == [] {
      NoOthers(a);
      assert Ids(rows) == {};
    } else {
      var front := rows[..|rows| - 1];
      WithoutAllIs(a, front);
      IdsSnoc(rows);
      OthersLess(a, Ids(front), rows[|rows| - 1].id);
    }
  }

  lemma {:induction false} NoOthers(a: seq<Row>)
    ensures Others(a, {}) == a
  {
    if a != [] { NoOthers(a[..|a| - 1]); }
  }

  // ---------------------------------------------------------------- the rows of a snapshot

  function IdList(a: seq<Row>): (ids: seq<Option<int>>)
    ensures |ids| == |a|
  {
    seq(|a|, i requires 0 <= i < |a| => a[i].id)
  }

  /** The rows found by their ids one after the other, each chosen in an empty list. */
  function Found(rows: seq<Row>, ids: seq<Option<int>>, only: bool): seq<Row> {
    if ids == [] then [] else
      var a, k := Found(rows, ids[..|ids| - 1], only), IndexFrom(rows, ids[|ids| - 1], 0);
      if k == -1 then a else if only then [rows[k]] else WithItem(a, rows[k])
  }

  /** Of a list of rows exactly those come back whose ids are among the rows, as the rows
      themselves, and each id once. */
  lemma {:induction false} FoundIds(rows: seq<Row>, ids: seq<Option<int>>)
    requires forall i, j :: 0 <= i < j < |ids| ==> ids[i] != ids[j]
    ensures var a := Found(rows, ids, false);
            && Distinct(a) && (forall r :: r in a ==> r in rows)
            && (forall id :: id in Ids(a) <==> id in ids && id in Ids(rows))
  {
    if ids != [] {
      var id := ids[|ids| - 1];
      var a, k := Found(rows, ids[..|ids| - 1], false), IndexFrom(rows, id, 0);
      FoundIds(rows, ids[..|ids| - 1]);
      IdsOf(rows, id);
      assert ids == ids[..|ids| - 1] + [id];
      if k != -1 {
        hide Found, IndexFrom;
        NewItem(a, rows[k]);
      }
    }
  }

  /** The ids that are among those given, in their order. */
  ghost function Among(ids: seq<Option<int>>, given: set<Option<int>>): seq<Option<int>> {
    if ids == [] then []
    else Among(ids[..|ids| - 1], given) + if ids[|ids| - 1] in given then [ids[|ids| - 1]] else []
  }

  ghost predicate IsFirst(rows: seq<Row>, row: Row) {
    exists j :: 0 <= j < |rows| && rows[j] == row && forall i :: 0 <= i < j ==> rows[i].id != row.id
  }

  /** They come in the order of the ids, and each is the first of the rows with its id. */
  lemma {:induction false} FoundInOrder(rows: seq<Row>, ids: seq<Option<int>>)
    requires forall i, j :: 0 <= i < j < |ids| ==> ids[i] != ids[j]
    ensures var a := Found(rows, ids, false);
            IdList(a) == Among(ids, Ids(rows)) && forall r :: r in a ==> IsFirst(rows, r)
  {
    if ids != [] {
      var front, id := ids[..|ids| - 1], ids[|ids| - 1];
      var a, k := Found(rows, front, false), IndexFrom(rows, id, 0);
      FoundInOrder(rows, front);
      FoundIds(rows, front);
      IdsOf(rows, id);
      assert id !in front;
      if k != -1 {
        assert IsFirst(rows, rows[k]);
        hide Found, IndexFrom, IsFirst;
        NewItem(a, rows[k]);
      }
    }
  }

  /** With single selection it is the last id found that counts. */
  lemma {:induction false} FoundLast(rows: seq<Row>, ids: seq<Option<int>>, i: nat)
    requires i < |ids| && ids[i] in Ids(rows) && forall j :: i < j < |ids| ==> ids[j] !in Ids(rows)
    ensures var a := Found(rows, ids, true); |a| == 1 && a[0].id == ids[i] && IsFirst(rows, a[0])
    decreases |ids|
  {
    var id := ids[|ids| - 1];
    var k := IndexFrom(rows, id, 0);
    IdsOf(rows, id);
    if k == -1 {
      FoundLast(rows, ids[..|ids| - 1], i);
    } else {
      assert i == |ids| - 1;
      assert IsFirst(rows, rows[k]);
    }
  }

  /** A row whose id is not listed yet, be it a missing one, comes last. */
  lemma NewItem(a: seq<Row>, row: Row)
    requires Distinct(a) && row.id !in Ids(a)
    ensures WithItem(a, row) == a + [row] && Distinct(a + [row]) && Ids(a + [row]) == Ids(a) + {row.id}
  {
    IdsOf(a, row.id);
  }

  lemma {:induction false} FoundOnly(rows: seq<Row>, ids: seq<Option<int>>)
    ensures var a := Found(rows, ids, true);
            && |a| <= 1 && (forall r :: r in a ==> r in rows && r.id in ids)
            && (a == [] <==> forall id :: id in ids ==> id !in Ids(rows))
  {
    if ids != [] {
      var id := ids[|ids| - 1];
      FoundOnly(rows, ids[..|ids| - 1]);
      IdsOf(rows, id);
      assert ids == ids[..|ids| - 1] + [id];
    }
  }

  // ---------------------------------------------------------------- the grid

  class Selection {
    const singleSelect: bool
    const selectOnCheck: bool
    const checkOnSelect: bool
    var rows: seq<Row>
    var selectedRows: seq<Row>
    var checkedRows: seq<Row>

    /** The two lists hold the same ids, each once. */
    ghost predicate Linked()
      reads this
    {
      Distinct(selectedRows) && Distinct(checkedRows) && Ids(selectedRows) == Ids(checkedRows)
    }

    constructor (singleSelect: bool, selectOnCheck: bool, checkOnSelect: bool, rows: seq<Row>)
      ensures Linked() && selectedRows == checkedRows == [] && this.rows == rows
      ensures this.singleSelect == singleSelect && this.selectOnCheck == selectOnCheck && this.checkOnSelect == checkOnSelect
    {
      this.singleSelect, this.selectOnCheck, this.checkOnSelect := singleSelect, selectOnCheck, checkOnSelect;
      this.rows, selectedRows, checkedRows := rows, [], [];
    }

    /** One list after one of its rows is chosen. */
    function Chosen(a: seq<Row>, row: Row, only: bool): seq<Row> {
      if only then [row] else WithItem(a, row)
    }

    method SelectRow(index: nat, quiet: bool)
      requires index < |rows|
      modifies this`selectedRows, this`checkedRows
      ensures selectedRows == Chosen(old(selectedRows), rows[index], singleSelect)
      ensures checkedRows == if !quiet && checkOnSelect then Chosen(old(checkedRows), rows[index], singleSelect && selectOnCheck) else old(checkedRows)
      ensures !quiet && checkOnSelect && selectOnCheck && rows[index].id.Some? && old(Linked()) ==>
                Linked() && Ids(selectedRows) == if singleSelect then {rows[index].id} else old(Ids(selectedRows)) + {rows[index].id}
      decreases if quiet then 0 else 1
    {
      var row := rows[index];
      if singleSelect {
        UnselectAll(true);
        selectedRows := [];
      }
      if !quiet && checkOnSelect {
        CheckRow(index, true);
      }
      selectedRows := WithItem(selectedRows, row);
      ChosenIds(old(selectedRows), row, singleSelect);
      ChosenIds(old(checkedRows), row, singleSelect && selectOnCheck);
    }

    method CheckRow(index: nat, quiet: bool)
      requires index < |rows|
      modifies this`selectedRows, this`checkedRows
      ensures checkedRows == Chosen(old(checkedRows), rows[index], singleSelect && selectOnCheck)
      ensures selectedRows == if !quiet && selectOnCheck then Chosen(old(selectedRows), rows[index], singleSelect) else old(selectedRows)
      ensures !quiet && checkOnSelect && selectOnCheck && rows[index].id.Some? && old(Linked()) ==>
                Linked() && Ids(selectedRows) == if singleSelect then {rows[index].id} else old(Ids(selectedRows)) + {rows[index].id}
      decreases if quiet then 0 else 1
    {
      var row := rows[index];
      if singleSelect && selectOnCheck {
        UncheckAll(true);
        checkedRows := [];
      }
      if !quiet && selectOnCheck {
        SelectRow(index, true);
      }
      checkedRows := WithItem(checkedRows, row);
      ChosenIds(old(selectedRows), row, singleSelect);
      ChosenIds(old(checkedRows), row, singleSelect && selectOnCheck);
    }

    lemma ChosenIds(a: seq<Row>, row: Row, only: bool)
      ensures only ==> Chosen(a, row, only) == [row] && Distinct(Chosen(a, row, only)) && Ids(Chosen(a, row, only)) == {row.id}
      ensures !only && Distinct(a) && row.id.Some? ==> Distinct(Chosen(a, row, only)) && Ids(Chosen(a, row, only)) == Ids(a) + {row.id}
    {
      if !only && Distinct(a) && row.id.Some? { WithItemIds(a, row); }
    }

    method UnselectRow(index: nat, quiet: bool)
      requires index < |rows|
      modifies this`selectedRows, this`checkedRows
      ensures selectedRows == WithoutItem(old(selectedRows), rows[index].id)
      ensures checkedRows == if !quiet && checkOnSelect then WithoutItem(old(checkedRows), rows[index].id) else old(checkedRows)
      ensures !quiet && checkOnSelect && old(Linked()) ==> Linked() && Ids(selectedRows) == old(Ids(selectedRows)) - {rows[index].id}
      decreases if quiet then 0 else 1
    {
      if !quiet && checkOnSelect {
        UncheckRow(index, true);
      }
      selectedRows := WithoutItem(selectedRows, rows[index].id);
      if old(Linked()) {
        WithoutItemIds(old(selectedRows), rows[index].id);
        WithoutItemIds(old(checkedRows), rows[index].id);
      }
    }

    method UncheckRow(index: nat, quiet: bool)
      requires index < |rows|
      modifies this`selectedRows, this`checkedRows
      ensures checkedRows == WithoutItem(old(checkedRows), rows[index].id)
      ensures selectedRows == if !quiet && selectOnCheck then WithoutItem(old(selectedRows), rows[index].id) else old(selectedRows)
      ensures !quiet && selectOnCheck && old(Linked()) ==> Linked() && Ids(selectedRows) == old(Ids(selectedRows)) - {rows[index].id}
      decreases if quiet then 0 else 1
    {
      if !quiet && selectOnCheck {
        UnselectRow(index, true);
      }
      checkedRows := WithoutItem(checkedRows, rows[index].id);
      if old(Linked()) {
        WithoutItemIds(old(selectedRows), rows[index].id);
        WithoutItemIds(old(checkedRows), rows[index].id);
      }
    }

    method SelectAll(quiet: bool)
      modifies this`selectedRows, this`checkedRows
      ensures selectedRows == WithAll(old(selectedRows), rows)
      ensures checkedRows == if !quiet && checkOnSelect then WithAll(old(checkedRows), rows) else old(checkedRows)
      ensures !quiet && checkOnSelect && HaveIds(rows) && old(Linked()) ==> Linked() && Ids(selectedRows) == old(Ids(selectedRows)) + Ids(rows)
      decreases if quiet then 0 else 1
    {
      hide WithItem, Ids, Distinct;
      if !quiet && checkOnSelect {
        CheckAll(true);
      }
      for i := 0 to |rows|
        invariant selectedRows == WithAll(old(selectedRows), rows[..i])
        invariant checkedRows == if !quiet && checkOnSelect then WithAll(old(checkedRows), rows) else old(checkedRows)
      {
        assert rows[..i + 1][..i] == rows[..i];
        selectedRows := WithItem(selectedRows, rows[i]);
      }
      assert rows[..|rows|] == rows;
      if HaveIds(rows) && old(Linked()) {
        WithAllIds(old(selectedRows), rows);
        WithAllIds(old(checkedRows), rows);
      }
    }

    method CheckAll(quiet: bool)
      modifies this`selectedRows, this`checkedRows
      ensures checkedRows == WithAll(old(checkedRows), rows)
      ensures selectedRows == if !quiet && selectOnCheck then WithAll(old(selectedRows), rows) else old(selectedRows)
      ensures !quiet && selectOnCheck && HaveIds(rows) && old(Linked()) ==> Linked() && Ids(selectedRows) == old(Ids(selectedRows)) + Ids(rows)
      decreases if quiet then 0 else 1
    {
      hide WithItem, Ids, Distinct;
      if !quiet && selectOnCheck {
        SelectAll(true);
      }
      for i := 0 to |rows|
        invariant checkedRows == WithAll(old(checkedRows), rows[..i])
        invariant selectedRows == if !quiet && selectOnCheck then WithAll(old(selectedRows), rows) else old(selectedRows)
      {
        assert rows[..i + 1][..i] == rows[..i];
        checkedRows := WithItem(checkedRows, rows[i]);
      }
      assert rows[..|rows|] == rows;
      if HaveIds(rows) && old(Linked()) {
        WithAllIds(old(selectedRows), rows);
        WithAllIds(old(checkedRows), rows);
      }
    }

    method UnselectAll(quiet: bool)
      modifies this`selectedRows, this`checkedRows
      ensures selectedRows == WithoutAll(old(selectedRows), rows)
      ensures checkedRows == if !quiet && checkOnSelect then WithoutAll(old(checkedRows), rows) else old(checkedRows)
      ensures !quiet && checkOnSelect && old(Linked()) ==> Linked() && Ids(selectedRows) == old(Ids(selectedRows)) - Ids(rows)
      decreases if quiet then 0 else 1
    {
      hide WithoutItem, Ids, Distinct;
      if !quiet && checkOnSelect {
        UncheckAll(true);
      }
      for i := 0 to |rows|
        invariant selectedRows == WithoutAll(old(selectedRows), rows[..i])
        invariant checkedRows == if !quiet && checkOnSelect then WithoutAll(old(checkedRows), rows) else old(checkedRows)
      {
        assert rows[..i + 1][..i] == rows[..i];
        selectedRows := WithoutItem(selectedRows, rows[i].id);
      }
      assert rows[..|rows|] == rows;
      if old(Linked()) {
        WithoutAllIds(old(selectedRows), rows);
        WithoutAllIds(old(checkedRows), rows);
      }
    }

    method UncheckAll(quiet: bool)
      modifies this`selectedRows, this`checkedRows
      ensures checkedRows == WithoutAll(old(checkedRows), rows)
      ensures selectedRows == if !quiet && selectOnCheck then WithoutAll(old(selectedRows), rows) else old(selectedRows)
      ensures !quiet && selectOnCheck && old(Linked()) ==> Linked() && Ids(selectedRows) == old(Ids(selectedRows)) - Ids(rows)
      decreases if quiet then 0 else 1
    {
      hide WithoutItem, Ids, Distinct;
      if !quiet && selectOnCheck {
        UnselectAll(true);
      }
      for i := 0 to |rows|
        invariant checkedRows == WithoutAll(old(checkedRows), rows[..i])
        invariant selectedRows == if !quiet && selectOnCheck then WithoutAll(old(selectedRows), rows) else old(selectedRows)
      {
        assert rows[..i + 1][..i] == rows[..i];
        checkedRows := WithoutItem(checkedRows, rows[i].id);
      }
      assert rows[..|rows|] == rows;
      if old(Linked()) {
        WithoutAllIds(old(selectedRows), rows);
        WithoutAllIds(old(checkedRows), rows);
      }
    }

    method ClearSelections()
      modifies this`selectedRows, this`checkedRows
      ensures selectedRows == [] && (checkOnSelect ==> checkedRows == [] && Linked())
      ensures !checkOnSelect ==> checkedRows == old(checkedRows)
    {
      selectedRows := [];
      UnselectAll(false);
      EmptyWithout(rows);
      if checkOnSelect {
        checkedRows := [];
      }
    }

    method ClearChecked()
      modifies this`selectedRows, this`checkedRows
      ensures checkedRows == [] && (selectOnCheck ==> selectedRows == [] && Linked())
      ensures !selectOnCheck ==> selectedRows == old(selectedRows)
    {
      checkedRows := [];
      UncheckAll(false);
      EmptyWithout(rows);
      if selectOnCheck {
        selectedRows := [];
      }
    }

    /** The rows with the given ids are selected, or checked, without touching the other list. */
    method Choose(ids: seq<Option<int>>, check: bool)
      requires if check then checkedRows == [] else selectedRows == []
      modifies this`selectedRows, this`checkedRows
      ensures !check ==> selectedRows == Found(rows, ids, singleSelect) && checkedRows == old(checkedRows)
      ensures check ==> checkedRows == Found(rows, ids, singleSelect && selectOnCheck) && selectedRows == old(selectedRows)
    {
      hide WithItem, Ids, Distinct, IndexFrom;
      for i := 0 to |ids|
        invariant !check ==> selectedRows == Found(rows, ids[..i], singleSelect) && checkedRows == old(checkedRows)
        invariant check ==> checkedRows == Found(rows, ids[..i], singleSelect && selectOnCheck) && selectedRows == old(selectedRows)
      {
        assert ids[..i + 1][..i] == ids[..i];
        var k := IndexFrom(rows, ids[i], 0);
        if k >= 0 {
          if check { CheckRow(k, true); } else { SelectRow(k, true); }
        }
      }
      assert ids[..|ids|] == ids;
    }

    /** What `rejectChanges` does to the lists: they are emptied, and whatever they listed is
        looked up by its id among the restored rows. */
    method Restore(restored: seq<Row>)
      modifies this
      ensures rows == restored
      ensures selectedRows == Found(restored, IdList(old(selectedRows)), singleSelect)
      ensures checkedRows == Found(restored, IdList(old(checkedRows)), singleSelect && selectOnCheck)
      ensures !singleSelect && old(Linked()) ==> Linked() && Ids(selectedRows) == old(Ids(selectedRows)) * Ids(restored)
    {
      var selected, checked := IdList(selectedRows), IdList(checkedRows);
      ghost var was, checkedWas := selectedRows, checkedRows;
      selectedRows, checkedRows := [], [];
      rows := restored;
      Choose(selected, false);
      Choose(checked, true);
      if !singleSelect && old(Linked()) {
        FoundAgain(restored, was);
        FoundAgain(restored, checkedWas);
      }
    }

    /** A deleted row leaves both lists, whatever the link options. */
    method DeleteRow(index: nat)
      requires index < |rows|
      modifies this
      ensures rows == old(rows[..index] + rows[index + 1..])
      ensures selectedRows == WithoutItem(old(selectedRows), old(rows)[index].id) && checkedRows == WithoutItem(old(checkedRows), old(rows)[index].id)
      ensures old(Linked()) ==> Linked() && Ids(selectedRows) == old(Ids(selectedRows)) - {old(rows)[index].id}
    {
      var row := rows[index];
      selectedRows := WithoutItem(selectedRows, row.id);
      checkedRows := WithoutItem(checkedRows, row.id);
      rows := rows[..index] + rows[index + 1..];
      if old(Linked()) {
        WithoutItemIds(old(selectedRows), row.id);
        WithoutItemIds(old(checkedRows), row.id);
      }
    }
  }

  lemma FoundAgain(rows: seq<Row>, a: seq<Row>)
    requires Distinct(a)
    ensures Distinct(Found(rows, IdList(a), false)) && Ids(Found(rows, IdList(a), false)) == Ids(a) * Ids(rows)
  {
    FoundIds(rows, IdList(a));
    forall id ensures id in Ids(Found(rows, IdList(a), false)) <==> id in Ids(a) * Ids(rows) {
      IdsOf(a, id);
      if id in Ids(a) {
        var i :| 0 <= i < |a| && a[i].id == id;
        assert IdList(a)[i] == id;
      }
    }
  }

  lemma {:induction false} EmptyWithout(rows: seq<Row>)
    ensures WithoutAll([], rows) == []
  {
    if rows != [] {
      EmptyWithout(rows[..|rows| - 1]);
    }
  }
}
