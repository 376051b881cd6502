// The 5 x 8 board of the variant: logical coordinates, bounds and the
// 180-degree rotation that the game applies after every completed move.
module Geometry {

  /** Number of columns (ChessModel.col). */
  const Cols: int := 5
  /** Number of rows (ChessModel.row). */
  const Rows: int := 8

  /** A logical board cell, (column, row). */
  type Square = (int, int)

  /** The bounds test of isValidMove: 0 <= c < 5 and 0 <= r < 8. */
  predicate InBounds(c: int, r: int) {
    0 <= c < Cols && 0 <= r < Rows
  }

  /** Math.abs on coordinate differences (unbounded, see README). */
  function Abs(x: int): nat {
    if x < 0 then -x else x
  }

  /** x lies strictly between a and b, in either order. */
  predicate Between(x: int, a: int, b: int) {
    (a < x < b) || (b < x < a)
  }

  /** The cell that flipBoard moves (c, r) to: (4 - c, 7 - r). */
  function Rotate(c: int, r: int): (s: Square)
    ensures InBounds(c, r) <==> InBounds(s.0, s.1)
    ensures (Cols - 1 - s.0, Rows - 1 - s.1) == (c, r)
  {
    (Cols - 1 - c, Rows - 1 - r)
  }

  /** Row-major position of a cell: the order in which getValidMoves scans the board. */
  function RowMajor(c: int, r: int): int {
    r * Cols + c
  }

  /** The cell scanned at row-major position k. */
  function CellAt(k: nat): (s: Square)
    requires k < Cols * Rows
    ensures InBounds(s.0, s.1)
    ensures RowMajor(s.0, s.1) == k
  {
    (k % Cols, k / Cols)
  }

  /** Scanning position and cell determine each other on the board. */
  lemma CellAtRowMajor(c: int, r: int)
    requires InBounds(c, r)
    ensures 0 <= RowMajor(c, r) < Cols * Rows
    ensures CellAt(RowMajor(c, r)) == (c, r)
  {
  }
}
