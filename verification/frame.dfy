/**
  The tabular data the operator works on. A table is an ordered sequence of
  rows and each row maps column names to string cells. A column that a row
  lacks is simply absent from that row's map.
 */
module Frame {

  type Row = map<string, string>

  type Table = seq<Row>

  /** The cell of `row` in column `key`, or the empty string when the column is absent. */
  function Cell(row: Row, key: string): string {
    if key in row then row[key] else ""
  }

  /** A row is eligible for a prompt when its input cell is non-empty (Python truthiness of a string). */
  predicate Present(row: Row, key: string) {
    Cell(row, key) != ""
  }

  /**
    `after` is `before` with column `key` set positionally to `values`: same
    rows in the same order, row `i` holds `values[i]` under `key`, and every
    other column of every row is untouched.
   */
  ghost predicate ColumnAssigned(before: Table, after: Table, key: string, values: seq<string>) {
    && |after| == |before| == |values|
    && (forall i :: 0 <= i < |after| ==> after[i].Keys == before[i].Keys + {key})
    && (forall i :: 0 <= i < |after| ==> Cell(after[i], key) == values[i])
    && (forall i, k :: 0 <= i < |after| && k != key ==> Cell(after[i], k) == Cell(before[i], k))
  }

  /**
    Positional assignment of a whole column: row `i` receives `values[i]` in
    column `key`; every other column of every row keeps its value.
    Only defined when there is exactly one value per row.
   */
  function AssignColumn(t: Table, key: string, values: seq<string>): (r: Table)
    requires |values| == |t|
    ensures ColumnAssigned(t, r, key, values)
  {
    seq(|t|, i requires 0 <= i < |t| => t[i][key := values[i]])
  }

  /** Assigning the same column twice with the same values is the same as assigning it once. */
  lemma AssignColumnTwice(t: Table, key: string, values: seq<string>)
    requires |values| == |t|
    ensures AssignColumn(AssignColumn(t, key, values), key, values) == AssignColumn(t, key, values)
  {
    var once := AssignColumn(t, key, values);
    var twice := AssignColumn(once, key, values);
    forall i | 0 <= i < |t|
      ensures twice[i] == once[i]
    {
      assert twice[i] == once[i][key := values[i]];
      assert once[i] == t[i][key := values[i]];
    }
  }
}
