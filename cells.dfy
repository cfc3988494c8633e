/** The board's value objects: a cell's status and the cell itself. */
module Cells {

  /** Optional value, standing in for Kotlin's nullable `Cell?`. */
  datatype Option<+T> = None | Some(value: T)

  /** Closed: face down. Opened: face up, waiting to be resolved. Match: retired for good. */
  datatype CellStatus = Closed | Opened | Match

  /** An immutable cell: every change replaces it by a status-updated copy.
      Equality is structural on all four fields, as for a Kotlin data class. */
  datatype Cell = Cell(status: CellStatus, cellValue: int, column: int, row: int)
}
