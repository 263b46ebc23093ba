/** The result row the register fills in (a reporting DataSetRow): cells
    keyed by column name in insertion order, where adding a value under a
    name that is already present replaces that value in place, as a
    LinkedHashMap put does. Columns are identified by their name. */
module Rows {
  import opened Optional
  import opened Facts

  /** The position of the first cell called `name`, if any. */
  function IndexOfName(cells: seq<Cell>, name: string): (r: Option<nat>)
    ensures r.Some? ==> r.value < |cells| && cells[r.value].name == name
    ensures r.Some? ==> forall i :: 0 <= i < r.value ==> cells[i].name != name
    ensures r.None? ==> forall i :: 0 <= i < |cells| ==> cells[i].name != name
  {
    if cells == [] then None
    else if cells[0].name == name then Some(0)
    else match IndexOfName(cells[1..], name)
      case None => None
      case Some(i) => Some(i + 1)
  }

  /** A position holding `name` with no earlier one is the one found. */
  lemma FirstNamed(cells: seq<Cell>, name: string, k: nat)
    requires k < |cells| && cells[k].name == name
    requires forall i :: 0 <= i < k ==> cells[i].name != name
    ensures IndexOfName(cells, name) == Some(k)
  {
  }

  predicate DistinctNames(cells: seq<Cell>) {
    forall i, j :: 0 <= i < j < |cells| ==> cells[i].name != cells[j].name
  }

  /** The value held under `name`, if the row has such a column. */
  function Lookup(cells: seq<Cell>, name: string): Option<Value> {
    match IndexOfName(cells, name)
    case None => None
    case Some(i) => Some(cells[i].value)
  }

  /** DataSetRow.addColumnValue. */
  function Put(cells: seq<Cell>, c: Cell): (r: seq<Cell>)
    ensures c in r && |cells| <= |r| <= |cells| + 1
    ensures forall i :: 0 <= i < |cells| ==> r[i].name == cells[i].name
  {
    match IndexOfName(cells, c.name)
    case None => cells + [c]
    case Some(i) =>
      assert cells[i := c][i] == c;
      cells[i := c]
  }

  /** Adding a value keeps the names distinct and the existing columns in
      their places, makes the new value the one held under its name,
      leaves every other column's value alone, and grows the row by one
      column exactly when the name is new. */
  lemma PutSemantics(cells: seq<Cell>, c: Cell, other: string)
    requires DistinctNames(cells)
    ensures DistinctNames(Put(cells, c))
    ensures forall i :: 0 <= i < |cells| ==> Put(cells, c)[i].name == cells[i].name
    ensures Lookup(Put(cells, c), c.name) == Some(c.value)
    ensures other != c.name ==> Lookup(Put(cells, c), other) == Lookup(cells, other)
    ensures |Put(cells, c)| == if Lookup(cells, c.name).None? then |cells| + 1 else |cells|
  {
    var r := Put(cells, c);
    match IndexOfName(cells, c.name)
    case None =>
      FirstNamed(r, c.name, |cells|);
    case Some(k) =>
      FirstNamed(r, c.name, k);
    if other != c.name {
      match IndexOfName(cells, other)
      case None =>
        assert forall i :: 0 <= i < |r| ==> r[i].name != other;
      case Some(k) =>
        FirstNamed(r, other, k);
    }
  }

  /** The values added one after the other, left to right. */
  function Apply(cells: seq<Cell>, writes: seq<Cell>): seq<Cell> {
    if writes == [] then cells else Put(Apply(cells, writes[..|writes| - 1]), writes[|writes| - 1])
  }

  lemma ApplySnoc(cells: seq<Cell>, writes: seq<Cell>, c: Cell)
    ensures Apply(cells, writes + [c]) == Put(Apply(cells, writes), c)
  {
    assert (writes + [c])[..|writes|] == writes;
  }

  /** Adding two runs of values is adding the first and then the second. */
  lemma {:induction false} ApplyConcat(cells: seq<Cell>, first: seq<Cell>, second: seq<Cell>)
    ensures Apply(cells, first + second) == Apply(Apply(cells, first), second)
    decreases |second|
  {
    if second == [] {
      assert first + second == first;
    } else {
      var init := second[..|second| - 1];
      var c := second[|second| - 1];
      assert second == init + [c];
      assert first + second == (first + init) + [c];
      ApplyConcat(cells, first, init);
      ApplySnoc(cells, first + init, c);
      ApplySnoc(Apply(cells, first), init, c);
    }
  }

  /** The value of the last write to `name` in a run, if any. */
  function LastWrite(writes: seq<Cell>, name: string): Option<Value> {
    if writes == [] then None
    else if writes[|writes| - 1].name == name then Some(writes[|writes| - 1].value)
    else LastWrite(writes[..|writes| - 1], name)
  }

  /** After a run of values, a column holds the value of the last write to
      its name, or its old value when the run never names it; names stay
      distinct. */
  lemma {:induction false} ApplyLookup(cells: seq<Cell>, writes: seq<Cell>, name: string)
    requires DistinctNames(cells)
    ensures DistinctNames(Apply(cells, writes))
    ensures Lookup(Apply(cells, writes), name)
         == match LastWrite(writes, name)
            case None => Lookup(cells, name)
            case Some(v) => Some(v)
  {
    if writes != [] {
      var init := writes[..|writes| - 1];
      ApplyLookup(cells, init, name);
      PutSemantics(Apply(cells, init), writes[|writes| - 1], name);
    }
  }
}
