/** A datagrid's record of inserted, deleted and updated rows. Rows are objects: the three
    lists and the data share them, and only the snapshot for `rejectChanges` holds copies. */
module DataGridChanges {

  class Row {
    var fields: map<string, int>

    constructor (fields: map<string, int>)
      ensures this.fields == fields
    {
      this.fields := fields;
    }
  }

  /** `indexOfArray(a, row)`: the place of the object itself. */
  function IndexOf(a: seq<Row>, row: Row): (r: int)
    ensures r == -1 || 0 <= r < |a|
    ensures r >= 0 ==> a[r] == row && row !in a[..r]
    ensures r == -1 ==> row !in a
  {
    if a == [] then -1
    else
      var before := IndexOf(a[..|a| - 1], row);
      if before >= 0 then before else if a[|a| - 1] == row then |a| - 1 else -1
  }

  /** `removeArrayItem(a, row)` */
  function Without(a: seq<Row>, row: Row): (r: seq<Row>)
    ensures |r| == if row in a then |a| - 1 else |a|
    ensures forall x :: x in r ==> x in a
  {
    var i := IndexOf(a, row);
    if i == -1 then a else a[..i] + a[i + 1..]
  }

  /** The first place of the row is cut out, and nothing else changes. */
  lemma WithoutIs(a: seq<Row>, row: Row)
    ensures row !in a ==> Without(a, row) == a
    ensures row in a ==> exists i :: 0 <= i < |a| && a[i] == row && row !in a[..i] && Without(a, row) == a[..i] + a[i + 1..]
  {
    if row in a {
      var i := IndexOf(a, row);
      assert a[i] == row && row !in a[..i] && Without(a, row) == a[..i] + a[i + 1..];
    }
  }

  lemma WithoutOne(a: seq<Row>, row: Row)
    requires row in a
    ensures multiset(Without(a, row)) + multiset{row} == multiset(a)
  {
    var i := IndexOf(a, row);
    assert a == a[..i] + [a[i]] + a[i + 1..];
    hide IndexOf;
  }

  lemma Taken(a: seq<Row>, i: nat)
    requires i < |a|
    ensures multiset(a[..i] + a[i + 1..]) + multiset{a[i]} == multiset(a)
  {
    assert a == a[..i] + [a[i]] + a[i + 1..];
  }

  /** What is shown and what was deleted is what was there and what was inserted. */
  ghost predicate Balanced(rows: seq<Row>, deleted: seq<Row>, base: multiset<Row>, inserted: seq<Row>) {
    multiset(rows) + multiset(deleted) == base + multiset(inserted)
  }

  lemma BalancedInsert(rows: seq<Row>, deleted: seq<Row>, base: multiset<Row>, inserted: seq<Row>, i: nat, row: Row)
    requires Balanced(rows, deleted, base, inserted) && i <= |rows|
    ensures Balanced(rows[..i] + [row] + rows[i..], deleted, base, inserted + [row])
  {
    assert rows == rows[..i] + rows[i..];
    assert multiset(rows[..i] + [row] + rows[i..]) == multiset(rows) + multiset{row};
    assert multiset(inserted + [row]) == multiset(inserted) + multiset{row};
    forall x ensures (multiset(rows) + multiset{row} + multiset(deleted))[x] == (base + (multiset(inserted) + multiset{row}))[x] {
      assert (multiset(rows) + multiset(deleted))[x] == (base + multiset(inserted))[x];
    }
  }

  lemma BalancedDelete(rows: seq<Row>, deleted: seq<Row>, base: multiset<Row>, inserted: seq<Row>, i: nat)
    requires Balanced(rows, deleted, base, inserted) && i < |rows|
    ensures Balanced(rows[..i] + rows[i + 1..], deleted + [rows[i]], base, inserted)
    ensures rows[i] in inserted ==> Balanced(rows[..i] + rows[i + 1..], deleted, base, Without(inserted, rows[i]))
  {
    Taken(rows, i);
    if rows[i] in inserted {
      WithoutOne(inserted, rows[i]);
      BalancedLess(multiset(rows[..i] + rows[i + 1..]), multiset(deleted), base, multiset(Without(inserted, rows[i])), rows[i]);
    }
    assert multiset(deleted + [rows[i]]) == multiset(deleted) + multiset{rows[i]};
  }

  lemma BalancedLess(a: multiset<Row>, b: multiset<Row>, c: multiset<Row>, d: multiset<Row>, row: Row)
    requires a + multiset{row} + b == c + (d + multiset{row})
    ensures a + b == c + d
  {
    forall x ensures (a + b)[x] == (c + d)[x] {
      assert (a + multiset{row} + b)[x] == (c + (d + multiset{row}))[x];
    }
  }

  /** What the rows of a list hold. */
  function FieldsOf(a: seq<Row>): (fs: seq<map<string, int>>)
    reads a
    ensures |fs| == |a|
  {
    seq(|a|, i requires 0 <= i < |a| reads a => a[i].fields)
  }

  class Grid {
    var rows: seq<Row>
    var total: int
    var originalRows: seq<Row>
    var insertedRows: seq<Row>
    var updatedRows: seq<Row>
    var deletedRows: seq<Row>
    ghost var snapshot: seq<map<string, int>>   // the rows when changes were last accepted
    ghost var snapshotTotal: int
    ghost var base: multiset<Row>               // the row objects at that time

    /** The snapshot's objects are nobody else's, and both the count and the objects balance. */
    ghost predicate Valid()
      reads this, originalRows
    {
      && FieldsOf(originalRows) == snapshot
      && (forall r :: r in originalRows ==> r !in rows)
      && total + |deletedRows| - |insertedRows| == snapshotTotal
      && Balanced(rows, deletedRows, base, insertedRows)
    }

    constructor ()
      ensures Valid() && rows == [] && total == 0
    {
      rows, total, originalRows, insertedRows, updatedRows, deletedRows := [], 0, [], [], [], [];
      snapshot, snapshotTotal, base := [], 0, multiset{};
    }

    /** `loadData`, with the default filter and no local sort. */
    method LoadData(rows: seq<Row>, total: int)
      modifies this
      ensures Valid() && this.rows == rows && this.total == total
      ensures snapshot == FieldsOf(rows) && snapshotTotal == total
    {
      this.rows, this.total := rows, total;
      AcceptChanges();
    }

    /** `$.extend({}, row)` for every row, and empty lists. */
    method AcceptChanges()
      modifies this
      ensures Valid() && rows == old(rows) && total == old(total) && fresh(originalRows)
      ensures snapshot == FieldsOf(rows) && snapshotTotal == total && base == multiset(rows)
      ensures insertedRows == updatedRows == deletedRows == []
    {
      var copies: seq<Row> := [];
      for i := 0 to |rows|
        invariant |copies| == i && fresh(copies) && rows == old(rows) && total == old(total)
        invariant forall k :: 0 <= k < i ==> copies[k].fields == rows[k].fields
      {
        var copy := new Row(rows[i].fields);
        copies := copies + [copy];
      }
      originalRows := copies;
      updatedRows, insertedRows, deletedRows := [], [], [];
      snapshot, snapshotTotal, base := FieldsOf(rows), total, multiset(rows);
    }

    method InsertRow(index: nat, row: Row)
      requires Valid() && row !in originalRows
      modifies this
      ensures Valid() && Kept() && base == old(base)
      ensures var i := if index > |old(rows)| then |old(rows)| else index; rows == old(rows[..i] + [row] + rows[i..])
      ensures total == old(total) + 1 && insertedRows == old(insertedRows) + [row]
      ensures deletedRows == old(deletedRows) && updatedRows == old(updatedRows)
    {
      var i := if index > |rows| then |rows| else index;
      BalancedInsert(rows, deletedRows, base, insertedRows, i, row);
      hide Balanced;
      total := total + 1;
      rows := rows[..i] + [row] + rows[i..];
      insertedRows := insertedRows + [row];
    }

    method AppendRow(row: Row)
      requires Valid() && row !in originalRows
      modifies this
      ensures Valid() && Kept() && base == old(base)
      ensures rows == old(rows) + [row] && total == old(total) + 1 && insertedRows == old(insertedRows) + [row]
      ensures deletedRows == old(deletedRows) && updatedRows == old(updatedRows)
    {
      BalancedInsert(rows, deletedRows, base, insertedRows, |rows|, row);
      assert rows[..|rows|] + [row] + rows[|rows|..] == rows + [row];
      hide Balanced;
      total := total + 1;
      rows := rows + [row];
      insertedRows := insertedRows + [row];
    }

    /** An inserted row is forgotten, any other one remembered as deleted. */
    method DeleteRow(index: nat)
      requires Valid() && index < |rows|
      modifies this
      ensures Valid() && Kept() && base == old(base)
      ensures rows == old(rows[..index] + rows[index + 1..]) && total == old(total) - 1
      ensures var row := old(rows[index]);
              if row in old(insertedRows) then insertedRows == Without(old(insertedRows), row) && deletedRows == old(deletedRows)
              else insertedRows == old(insertedRows) && deletedRows == old(deletedRows) + [row]
      ensures updatedRows == old(updatedRows)
    {
      BalancedDelete(rows, deletedRows, base, insertedRows, index);
      hide IndexOf, Without, Balanced;
      var row := rows[index];
      if IndexOf(insertedRows, row) >= 0 {
        insertedRows := Without(insertedRows, row);
      } else {
        deletedRows := deletedRows + [row];
      }
      total := total - 1;
      rows := rows[..index] + rows[index + 1..];
    }

    /** Changed fields are written into the row object itself, wherever it is listed. */
    method UpdateRow(index: nat, fields: map<string, int>)
      requires Valid() && index < |rows|
      modifies this, rows[index]
      ensures Valid() && Kept() && base == old(base)
      ensures rows == old(rows) && total == old(total) && insertedRows == old(insertedRows) && deletedRows == old(deletedRows)
      ensures forall k :: k in rows[index].fields <==> k in old(rows[index].fields) || k in fields
      ensures forall k :: k in rows[index].fields ==> rows[index].fields[k] == if k in fields then fields[k] else old(rows[index].fields)[k]
      ensures var changed := exists k :: k in fields && (k !in old(rows[index].fields) || old(rows[index].fields)[k] != fields[k]);
              updatedRows == if changed && rows[index] !in old(insertedRows) && rows[index] !in old(updatedRows)
                             then old(updatedRows) + [rows[index]] else old(updatedRows)
    {
      var row := rows[index];
      if !Same(row.fields, fields) {
        if IndexOf(insertedRows, row) == -1 {
          if IndexOf(updatedRows, row) == -1 {
            updatedRows := updatedRows + [row];
          }
        }
        row.fields := row.fields + fields;
      }
      assert row !in originalRows;
      forall i | 0 <= i < |originalRows| ensures originalRows[i].fields == old(originalRows[i].fields) {}
      assert FieldsOf(originalRows) == old(FieldsOf(originalRows));
    }

    /** The snapshot comes back, with its rows as the new data, and is taken again. */
    method RejectChanges()
      requires Valid()
      modifies this
      ensures Valid() && Kept()
      ensures FieldsOf(rows) == old(snapshot) && total == old(snapshotTotal)
      ensures insertedRows == updatedRows == deletedRows == []
    {
      total := total + (|deletedRows| - |insertedRows|);
      rows := originalRows;
      AcceptChanges();
    }

    /** Nothing but `acceptChanges` and `loadData` moves the snapshot. */
    twostate predicate Kept()
      reads this
    {
      snapshot == old(snapshot) && snapshotTotal == old(snapshotTotal)
    }
  }

  /** No field differs. */
  predicate Same(old_: map<string, int>, new_: map<string, int>) {
    forall k :: k in new_ ==> k in old_ && old_[k] == new_[k]
  }
}
