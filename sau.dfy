// Sau.java: the king-like piece, one step in any of the eight directions.
// Its capture ends the game; it inherits the default "never blocked" rule.
module SauPiece {
  import opened Geometry

  /** Sau.isValid, the eight explicit (row - r, col - c) comparisons in source order. */
  predicate Accepts(col: int, row: int, c: int, r: int) {
    if row - r == 1 && col - c == 0 then true        // up
    else if row - r == 1 && col - c == 1 then true   // up-right
    else if row - r == 1 && col - c == -1 then true  // up-left
    else if col - c == 1 && row - r == 0 then true   // left
    else if col - c == -1 && row - r == 0 then true  // right
    else if col - c == 0 && row - r == -1 then true  // down
    else if col - c == 1 && row - r == -1 then true  // down-left
    else if col - c == -1 && row - r == -1 then true // down-right
    else false
  }

  function Max(a: int, b: int): int {
    if a < b then b else a
  }

  /** The eight comparisons amount to "king distance exactly 1". */
  lemma AcceptsIffKingStep(col: int, row: int, c: int, r: int)
    ensures Accepts(col, row, c, r) <==> Max(Abs(c - col), Abs(r - row)) == 1
  {
  }

  /** The Sau cannot "move" onto its own square. */
  lemma OwnSquareRejected(col: int, row: int)
    ensures !Accepts(col, row, col, row)
  {
  }

  /** The eight cells around (col, row). */
  function Neighbours(col: int, row: int): set<Square> {
    { (col - 1, row - 1), (col, row - 1), (col + 1, row - 1),
      (col - 1, row),                     (col + 1, row),
      (col - 1, row + 1), (col, row + 1), (col + 1, row + 1) }
  }

  /** Exactly the eight neighbours of (col, row) are accepted. */
  lemma AcceptsIffNeighbour(col: int, row: int, c: int, r: int)
    ensures Accepts(col, row, c, r) <==> (c, r) in Neighbours(col, row)
  {
  }

  /** A Sau always has eight candidate targets. */
  lemma EightNeighbours(col: int, row: int)
    ensures |Neighbours(col, row)| == 8
  {
    var above, below := Triple(col, row - 1), Triple(col, row + 1);
    var beside := {(col - 1, row), (col + 1, row)};
    TripleSize(col, row - 1);
    TripleSize(col, row + 1);
    assert above * below == {};
    assert |above + below| == 6;
    assert (above + below) * beside == {};
    assert Neighbours(col, row) == above + below + beside;
  }

  /** The three cells of row r around column col. */
  function Triple(col: int, r: int): set<Square> {
    {(col - 1, r), (col, r), (col + 1, r)}
  }

  lemma TripleSize(col: int, r: int)
    ensures |Triple(col, r)| == 3
  {
    assert |{(col - 1, r), (col, r)}| == 2;
  }

  /** From an interior square all eight targets lie on the board. */
  lemma InteriorTargetsOnBoard(col: int, row: int)
    requires 1 <= col < Cols - 1 && 1 <= row < Rows - 1
    ensures forall s :: s in Neighbours(col, row) ==> InBounds(s.0, s.1)
  {
  }

  /** The rule looks the same after the board is rotated by 180 degrees. */
  lemma RotationInvariant(col: int, row: int, c: int, r: int)
    ensures Accepts(col, row, c, r)
        <==> Accepts(Rotate(col, row).0, Rotate(col, row).1, Rotate(c, r).0, Rotate(c, r).1)
  {
    AcceptsIffKingStep(col, row, c, r);
    AcceptsIffKingStep(Rotate(col, row).0, Rotate(col, row).1, Rotate(c, r).0, Rotate(c, r).1);
  }
}
