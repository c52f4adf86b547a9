/**
 The slice of pandas the cohort helpers rely on: a data frame is a set of
 column names and a sequence of rows, a row maps column names to cells.
 */
module Frames {

  /** A cell of a data frame; `Missing` is pandas' NaN. */
  datatype Cell = Str(text: string) | Num(number: int) | Missing

  type Row = map<string, Cell>

  datatype Frame = Frame(columns: set<string>, rows: seq<Row>)

  /** The cell of column `c`, `Missing` where the row has none. */
  function CellAt(row: Row, c: string): Cell
  {
    if c in row then row[c] else Missing
  }

  /** Every row has exactly the frame's columns. */
  predicate WellFormed(f: Frame)
  {
    forall i :: 0 <= i < |f.rows| ==> f.rows[i].Keys == f.columns
  }
}
