/**
 * The tabular values the transform works on. A pandas DataFrame is modelled
 * column by column: a height and a map from column name to that column's cells.
 * The column order of a frame never matters to the transform (every stage ends
 * by selecting columns by name), so it is not kept.
 */
module Frames {

  /** A calendar date; the transform copies dates and never compares them. */
  datatype Date = Date(year: int, month: int, day: int)

  /** One cell of a frame: null, an integer (account codes, amounts in cents), a date or text. */
  datatype Cell = Null | Int(value: int) | Day(date: Date) | Text(text: string)

  /** A column of `n` nulls, what pandas stores for `df[c] = pd.NA`. */
  function Nulls(n: nat): (r: seq<Cell>)
    ensures |r| == n
    ensures forall i :: 0 <= i < n ==> r[i] == Null
  {
    seq(n, _ => Null)
  }

  datatype Frame = Frame(height: nat, cols: map<string, seq<Cell>>) {
    /** Every column holds exactly one cell per row. */
    ghost predicate Valid() {
      forall c :: c in cols ==> |cols[c]| == height
    }
  }

  /** A frame whose columns are in a fixed order, as written to the output CSV: a header and row-major cells. */
  datatype Table = Table(header: seq<string>, rows: seq<seq<Cell>>)
}
