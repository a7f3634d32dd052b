/** Spreadsheet rows as the helpers read them through `row.get(column)`, and
    the JavaScript conversions applied to values that may be `undefined`. */
module Sheets {
  import opened Wrappers

  /** One spreadsheet row: header name to cell text. A header that is not a
      key reads as `undefined`. */
  type Row = map<string, string>

  /** `row.get(column)`. */
  function Cell(row: Row, column: string): Option<string>
  {
    if column in row then Some(row[column]) else None
  }

  /** JavaScript truthiness of a string that may be `undefined`. */
  predicate Truthy(v: Option<string>)
  {
    v.Some? && v.value != ""
  }

  /** `v || fallback`. */
  function OrElse(v: Option<string>, fallback: string): (r: string)
    ensures Truthy(v) ==> r == v.value
    ensures !Truthy(v) ==> r == fallback
  {
    if Truthy(v) then v.value else fallback
  }

  /** A possibly-undefined string inside `+` or a template literal. */
  function TemplateText(v: Option<string>): string
  {
    if v.Some? then v.value else "undefined"
  }

  /** A possibly-undefined element of an array passed to `join`. */
  function JoinedText(v: Option<string>): string
  {
    if v.Some? then v.value else ""
  }

  /** `rows.find(row => row.get(column) === value)`, as an index: the first
      row whose cell in that column is exactly `value`. */
  function FindRow(rows: seq<Row>, column: string, value: string): (r: Option<nat>)
    ensures r.Some? ==> r.value < |rows| && Cell(rows[r.value], column) == Some(value)
    ensures r.Some? ==> forall j | 0 <= j < r.value :: Cell(rows[j], column) != Some(value)
    ensures r.None? ==> forall j | 0 <= j < |rows| :: Cell(rows[j], column) != Some(value)
    decreases |rows|
  {
    if rows == [] then None
    else if Cell(rows[0], column) == Some(value) then Some(0)
    else match FindRow(rows[1..], column, value)
      case None => None
      case Some(k) => Some(k + 1)
  }

  /** Removing the only row holding a value leaves no row to find under it,
      so a second delete of the same value finds nothing. */
  lemma RemoveOnlyMatch(rows: seq<Row>, column: string, value: string)
    requires FindRow(rows, column, value).Some?
    requires forall j | 0 <= j < |rows| && j != FindRow(rows, column, value).value ::
      Cell(rows[j], column) != Some(value)
    ensures var i := FindRow(rows, column, value).value;
      FindRow(rows[..i] + rows[i + 1..], column, value).None?
  {
    var i := FindRow(rows, column, value).value;
    var rest := rows[..i] + rows[i + 1..];
    forall j | 0 <= j < |rest| ensures Cell(rest[j], column) != Some(value) {
      if j < i { assert rest[j] == rows[j]; } else { assert rest[j] == rows[j + 1]; }
    }
  }
}
