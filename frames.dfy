/**
 * The source table as the pipeline receives it from the file reader: ordered
 * headers and rows of cells, each cell text or missing.
 */
module Frames {
  import opened Wrappers

  /** A raw cell: text, or missing (`NaN` in the data frame). */
  type Cell = Option<string>

  datatype Table = Table(headers: seq<string>, rows: seq<seq<Cell>>)

  /** A data frame is rectangular: every row has one cell per header. */
  predicate Rectangular(t: Table) {
    forall i :: 0 <= i < |t.rows| ==> |t.rows[i]| == |t.headers|
  }

  /** The text `astype(str)` gives a missing cell. */
  const MISSING_TEXT: string := "nan"

  /** `str(cell)`, as `astype(str)` applies it to each cell. */
  function AsText(c: Cell): (s: string)
    ensures c.Some? ==> s == c.value
    ensures c.None? ==> s == MISSING_TEXT
  {
    match c
    case Some(s) => s
    case None => MISSING_TEXT
  }

  /** `df[src_col].astype(str)`: the header at position `j` as a column of text. */
  function Column(t: Table, j: nat): (col: seq<string>)
    requires Rectangular(t) && j < |t.headers|
    ensures |col| == |t.rows|
    ensures forall i :: 0 <= i < |t.rows| ==> col[i] == AsText(t.rows[i][j])
  {
    seq(|t.rows|, i requires 0 <= i < |t.rows| => AsText(t.rows[i][j]))
  }

  /** `[""] * n` */
  function Blank(n: nat): (col: seq<string>)
    ensures |col| == n && forall i :: 0 <= i < n ==> col[i] == ""
  {
    seq(n, _ => "")
  }
}
