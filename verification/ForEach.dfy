/** `$.easyui.forEach`: a walk over rows and their children by a worklist, stopped by the callback. */
module ForEach {

  /** A row with no `children` is one with none. */
  datatype Row = Row(id: int, children: seq<Row>)

  /** Each row before its children, and these before its next sibling. */
  function Preorder(rows: seq<Row>, deep: bool): seq<Row> {
    if rows == [] then [] else
      var below := if deep then Preorder(rows[0].children, deep) else [];
      [rows[0]] + below + Preorder(rows[1..], deep)
  }

  lemma {:induction false} PreorderOf(s: seq<Row>, t: seq<Row>, deep: bool)
    ensures Preorder(s + t, deep) == Preorder(s, deep) + Preorder(t, deep)
  {
    if s == [] {
      assert s + t == t;
    } else {
      PreorderOf(s[1..], t, deep);
      assert (s + t)[0] == s[0] && (s + t)[1..] == s[1..] + t;
      var below := if deep then Preorder(s[0].children, deep) else [];
      assert ([s[0]] + below) + (Preorder(s[1..], deep) + Preorder(t, deep)) ==
             (([s[0]] + below) + Preorder(s[1..], deep)) + Preorder(t, deep);
    }
  }

  /** Of any row the walk gives first all that stands before it with what is below that, then the row itself,
      then what is below it, and only then its next siblings. */
  lemma WalkAround(rows: seq<Row>, i: nat, deep: bool)
    requires i < |rows|
    ensures Preorder(rows, deep) ==
            Preorder(rows[..i], deep) + [rows[i]] + (if deep then Preorder(rows[i].children, deep) else []) + Preorder(rows[i + 1..], deep)
    ensures Preorder([], deep) == []
  {
    assert rows == rows[..i] + rows[i..];
    PreorderOf(rows[..i], rows[i..], deep);
    var below := if deep then Preorder(rows[i].children, deep) else [];
    assert Preorder(rows[i..], deep) == [rows[i]] + below + Preorder(rows[i + 1..], deep) by { assert rows[i..][1..] == rows[i + 1..]; }
    hide Preorder;
  }

  function Below(row: Row, deep: bool): seq<Row> {
    if deep then row.children else []
  }

  lemma Regroup(a: seq<Row>, b: seq<Row>, c: seq<Row>)
    ensures (a + b) + c == a + (b + c) && [] + c == c
  {}

  /** Taking the first row off and putting its children in its place goes one step on. */
  lemma OneStep(list: seq<Row>, deep: bool)
    requires list != []
    ensures Preorder(list, deep) == [list[0]] + Preorder(Below(list[0], deep) + list[1..], deep)
  {
    var below := if deep then Preorder(list[0].children, deep) else [];
    var rest := Preorder(list[1..], deep);
    assert Preorder(list, deep) == [list[0]] + below + rest;
    assert deep ==> Preorder(Below(list[0], deep) + list[1..], deep) == below + rest by {
      PreorderOf(list[0].children, list[1..], deep);
    }
    Regroup([], [], list[1..]);
    hide Preorder;
    Regroup([list[0]], below, rest);
  }

  lemma ThroughOne(before: seq<Row>, row: Row, rest: seq<Row>, stops: Row -> bool)
    ensures before + Through([row] + rest, stops) ==
            if stops(row) then before + [row] else (before + [row]) + Through(rest, stops)
  {
    assert ([row] + rest)[1..] == rest;
    assert before + ([row] + Through(rest, stops)) == (before + [row]) + Through(rest, stops);
  }

  /** The rows up to the first that the callback answers with false, and that one. */
  function Through(rows: seq<Row>, stops: Row -> bool): seq<Row> {
    if rows == [] then [] else
    if stops(rows[0]) then [rows[0]] else [rows[0]] + Through(rows[1..], stops)
  }

  /** The children go in front of the list, from the last to the first. */
  method Unshift(children: seq<Row>, rest: seq<Row>) returns (list: seq<Row>)
    ensures list == children + rest
  {
    list := rest;
    var i := |children|;
    while i > 0
      invariant 0 <= i <= |children| && list == children[i..] + rest
    {
      i := i - 1;
      list := [children[i]] + list;
    }
  }

  /** The rows the callback is given: the walk in preorder, cut off after the row that stops it. */
  method ForEach(rows: seq<Row>, deep: bool, stops: Row -> bool) returns (visited: seq<Row>)
    ensures visited == Through(Preorder(rows, deep), stops)
  {
    hide Preorder, Through;
    var list: seq<Row> := [];
    for i := 0 to |rows|
      invariant list == rows[..i]
    {
      list := list + [rows[i]];
    }
    visited := [];
    assert list == rows;
    Regroup([], [], Through(Preorder(rows, deep), stops));
    while |list| > 0
      invariant visited + Through(Preorder(list, deep), stops) == Through(Preorder(rows, deep), stops)
      decreases |Preorder(list, deep)|
    {
      OneStep(list, deep);
      var row := list[0];
      list := list[1..];
      ThroughOne(visited, row, Preorder(Below(row, deep) + list, deep), stops);
      visited := visited + [row];
      if stops(row) { return; }
      Regroup([], [], list);
      if deep {
        list := Unshift(row.children, list);
      }
    }
    NoRows(deep, stops);
  }

  lemma NoRows(deep: bool, stops: Row -> bool)
    ensures Through(Preorder([], deep), stops) == []
  {}

  /** A callback that never stops is given every row, as many as there are. */
  lemma {:induction false} NothingStops(rows: seq<Row>, stops: Row -> bool)
    requires forall i :: 0 <= i < |rows| ==> !stops(rows[i])
    ensures Through(rows, stops) == rows
  {
    if rows != [] {
      assert forall i :: 0 <= i < |rows| - 1 ==> rows[1..][i] == rows[i + 1];
      NothingStops(rows[1..], stops);
    }
  }

  /** A row that stops the walk is the last one given, and no row before it does. */
  lemma {:induction false} StopsAt(rows: seq<Row>, stops: Row -> bool, i: nat)
    requires i < |rows| && stops(rows[i]) && forall j :: 0 <= j < i ==> !stops(rows[j])
    ensures Through(rows, stops) == rows[..i + 1]
  {
    if i > 0 {
      assert forall j :: 0 <= j < i - 1 ==> rows[1..][j] == rows[j + 1];
      StopsAt(rows[1..], stops, i - 1);
      assert [rows[0]] + rows[1..][..i] == rows[..i + 1];
    }
  }
}
