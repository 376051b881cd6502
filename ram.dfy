// Ram.java: the pawn-like piece. It steps one row along its current
// direction, which the reachEnd flag selects; the flag is toggled by every
// legality query made while the Ram stands on row 0 or row 7 (the stateful
// part lives in Pieces.Piece.IsValid).
module RamPiece {

  /** The rows on which Ram.isAtEdge toggles reachEnd. */
  predicate AtEdge(row: int) {
    row == 7 || row == 0
  }

  /** The row offset of the one target: +1 once reachEnd is set, -1 before. */
  function Forward(reachEnd: bool): int {
    if reachEnd then 1 else -1
  }

  /** Ram.isValid after its isAtEdge step: same column, row + Forward(reachEnd). */
  predicate Accepts(col: int, row: int, reachEnd: bool, c: int, r: int) {
    c == col && r == row + Forward(reachEnd)
  }

  /** The Ram never accepts another column or a row distance other than one. */
  lemma OneRowSameColumn(col: int, row: int, reachEnd: bool, c: int, r: int)
    requires Accepts(col, row, reachEnd, c, r)
    ensures c == col && (r == row + 1 || r == row - 1)
  {
  }
}
