/**
 * Cell values and the two row shapes both stores hand out: a row read through
 * `sqlite3.Row`/`DictCursor` is a mapping from column name to value (`Dict`), and a row
 * bound to an INSERT statement is a positional tuple of values (`Tuple`).
 */
module Rows {
  import opened Timestamp

  datatype Date = Date(year: int, month: int, day: int)

  /** One cell: SQL NULL, text (UUIDs included), a number, a UTC instant or a date. */
  datatype Value = Null | Text(s: string) | Int(i: int) | Real(r: real) | Stamp(t: Instant) | Day(d: Date)

  type Dict = map<string, Value>

  type Tuple = seq<Value>

  predicate Distinct<T(==)>(s: seq<T>) {
    forall i, j :: 0 <= i < j < |s| ==> s[i] != s[j]
  }

  /** The row a positional tuple becomes once bound to a column list. */
  function Zip(columns: seq<string>, values: Tuple): (d: Dict)
    requires |columns| == |values|
    requires Distinct(columns)
    ensures d.Keys == set c | c in columns
    ensures forall i :: 0 <= i < |columns| ==> d[columns[i]] == values[i]
  {
    map i | 0 <= i < |columns| :: columns[i] := values[i]
  }
}
