/** A CSV table as the scripts see it once pandas has read it: column labels
    and rows of text cells. */
module Tables {
  import opened Types

  datatype Table = Table(columns: seq<string>, rows: seq<seq<string>>)

  /** Every row has one cell per column, as in any table pandas reads. */
  predicate WellFormed(t: Table)
  {
    forall k :: 0 <= k < |t.rows| ==> |t.rows[k]| == |t.columns|
  }

  /** A table written to the file at `path`. */
  datatype Written = Written(path: string, table: Table)

  /** Index of the first column labelled `name`, None when there is none. */
  function ColumnIndex(columns: seq<string>, name: string): (r: Option<nat>)
    ensures r.Some? ==> r.value < |columns| && columns[r.value] == name
    ensures r.Some? ==> forall k :: 0 <= k < r.value ==> columns[k] != name
    ensures r.None? <==> name !in columns
  {
    if columns == [] then None
    else if columns[0] == name then Some(0)
    else match ColumnIndex(columns[1..], name)
      case None => None
      case Some(k) => Some(k + 1)
  }
}
