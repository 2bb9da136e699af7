/** The lookup tables of latticeconverter/convert.py built from the rows of
    the name map: each row is a LatticeJSON name followed by one list of
    names per foreign format (elegant first, then MAD-X). */
module NameMap {
  import opened LatticeData

  datatype Row = Row(canonical: string, foreign: seq<seq<string>>)

  /** The column of each foreign format in a row. */
  const Elegant: nat := 0
  const Madx: nat := 1

  /** The LatticeJSON names of the rows. */
  function Canonicals(rows: seq<Row>): set<string> {
    set i | 0 <= i < |rows| :: rows[i].canonical
  }

  /** The foreign names of the rows' column. */
  function Foreigns(rows: seq<Row>, col: nat): set<string> {
    set i, y | 0 <= i < |rows| && col < |rows[i].foreign| && y in rows[i].foreign[col] :: y
  }

  /** `{x: y[col][0] for x, *y in rows}`: each LatticeJSON name to the first
      foreign name of its row; a row without a first name in the column
      raises `IndexError`. */
  function ToTable(rows: seq<Row>, col: nat): (r: Result<map<string, string>>)
    ensures r.Ok? <==> forall i :: 0 <= i < |rows| ==> col < |rows[i].foreign| && |rows[i].foreign[col]| > 0
    ensures r.Err? ==> r.error == IndexError
    ensures r.Ok? ==> r.value.Keys == Canonicals(rows)
    decreases |rows|
  {
    if rows == [] then Ok(map[])
    else
      var n := |rows| - 1;
      var prefix := ToTable(rows[..n], col);
      assert forall i :: 0 <= i < n ==> rows[..n][i] == rows[i];
      assert Canonicals(rows) == Canonicals(rows[..n]) + {rows[n].canonical};
      if prefix.Err? then prefix
      else if col >= |rows[n].foreign| || |rows[n].foreign[col]| == 0 then Err(IndexError)
      else Ok(prefix.value[rows[n].canonical := rows[n].foreign[col][0]])
  }

  /** The later row wins: a name maps to the first foreign name of the last
      row that carries it. */
  lemma {:induction false} ToTableLast(rows: seq<Row>, col: nat, i: nat)
    requires ToTable(rows, col).Ok? && i < |rows|
    requires forall j :: i < j < |rows| ==> rows[j].canonical != rows[i].canonical
    ensures ToTable(rows, col).value[rows[i].canonical] == rows[i].foreign[col][0]
    decreases |rows|
  {
    var n := |rows| - 1;
    if i < n {
      assert forall j :: 0 <= j < n ==> rows[..n][j] == rows[j];
      ToTableLast(rows[..n], col, i);
    }
  }

  /** The foreign names of one row's column as a map to its LatticeJSON name. */
  function RowEntries(row: Row, col: nat): map<string, string>
    requires col < |row.foreign|
  {
    map y | y in row.foreign[col] :: row.canonical
  }

  /** `{y: x for x, *tup in rows for y in tup[col]}`: every foreign name of a
      row to that row's LatticeJSON name; a row without the column raises
      `IndexError`. */
  function FromTable(rows: seq<Row>, col: nat): (r: Result<map<string, string>>)
    ensures r.Ok? <==> forall i :: 0 <= i < |rows| ==> col < |rows[i].foreign|
    ensures r.Err? ==> r.error == IndexError
    ensures r.Ok? ==> r.value.Keys == Foreigns(rows, col)
    decreases |rows|
  {
    if rows == [] then Ok(map[])
    else
      var n := |rows| - 1;
      var prefix := FromTable(rows[..n], col);
      assert forall i :: 0 <= i < n ==> rows[..n][i] == rows[i];
      if prefix.Err? then prefix
      else if col >= |rows[n].foreign| then Err(IndexError)
      else
        assert Foreigns(rows, col) == Foreigns(rows[..n], col) + RowEntries(rows[n], col).Keys by {
          forall y | y in Foreigns(rows, col) ensures y in Foreigns(rows[..n], col) + RowEntries(rows[n], col).Keys {
            var i :| 0 <= i < |rows| && col < |rows[i].foreign| && y in rows[i].foreign[col];
            if i < n {
              assert rows[..n][i] == rows[i];
            }
          }
        }
        Ok(prefix.value + RowEntries(rows[n], col))
  }

  /** The later row wins: a foreign name maps to the LatticeJSON name of the
      last row that lists it. */
  lemma {:induction false} FromTableLast(rows: seq<Row>, col: nat, i: nat, y: string)
    requires FromTable(rows, col).Ok? && i < |rows| && y in rows[i].foreign[col]
    requires forall j :: i < j < |rows| ==> y !in rows[j].foreign[col]
    ensures FromTable(rows, col).value[y] == rows[i].canonical
    decreases |rows|
  {
    var n := |rows| - 1;
    if i < n {
      assert forall j :: 0 <= j < n ==> rows[..n][j] == rows[j];
      FromTableLast(rows[..n], col, i, y);
    }
  }

  /** The last row with the same LatticeJSON name as row `i`. */
  lemma {:induction false} LastRow(rows: seq<Row>, i: nat) returns (l: nat)
    requires i < |rows|
    ensures i <= l < |rows| && rows[l].canonical == rows[i].canonical
    ensures forall j :: l < j < |rows| ==> rows[j].canonical != rows[i].canonical
    decreases |rows| - i
  {
    l := i;
    var j := i + 1;
    while j < |rows|
      invariant i <= l < j <= |rows| && rows[l].canonical == rows[i].canonical
      invariant forall k :: l < k < j ==> rows[k].canonical != rows[i].canonical
    {
      if rows[j].canonical == rows[i].canonical {
        l := j;
      }
      j := j + 1;
    }
  }

  /** No foreign name of the column is listed by two different rows. */
  ghost predicate UniqueForeign(rows: seq<Row>, col: nat)
    requires forall i :: 0 <= i < |rows| ==> col < |rows[i].foreign|
  {
    forall i, j, y :: 0 <= i < j < |rows| && y in rows[i].foreign[col] ==> y !in rows[j].foreign[col]
  }

  /** `FROM_X[TO_X[x]] == x` for every LatticeJSON name, when `TO_X` builds
      and no foreign name is shared between rows. */
  lemma FromAfterTo(rows: seq<Row>, col: nat)
    requires ToTable(rows, col).Ok?
    requires UniqueForeign(rows, col)
    ensures FromTable(rows, col).Ok?
    ensures forall x :: x in ToTable(rows, col).value ==>
              ToTable(rows, col).value[x] in FromTable(rows, col).value
              && FromTable(rows, col).value[ToTable(rows, col).value[x]] == x
  {
    var to := ToTable(rows, col).value;
    var from := FromTable(rows, col).value;
    forall x | x in to ensures to[x] in from && from[to[x]] == x {
      assert x in Canonicals(rows);
      var i :| 0 <= i < |rows| && rows[i].canonical == x;
      var l := LastRow(rows, i);
      ToTableLast(rows, col, l);
      var y := to[x];
      assert y == rows[l].foreign[col][0] && y in rows[l].foreign[col];
      assert y in Foreigns(rows, col);
      FromTableLast(rows, col, l, y);
    }
  }
}
