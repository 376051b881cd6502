// Xor.java: the bishop-like piece. It moves along a diagonal and is blocked
// by any occupied cell strictly between it and the target on that diagonal.
module XorPiece {
  import opened Geometry

  /** Xor.isValid: |col - c| == |row - r|; the Xor's own square included. */
  predicate Accepts(col: int, row: int, c: int, r: int) {
    Abs(col - c) == Abs(row - r)
  }

  /** The coordinate i steps from `from` in the direction of `to`. */
  function Toward(from: int, to: int, i: int): int {
    if to > from then from + i else from - i
  }

  /** What the four scans of Xor.isCollide compute, for any target: when both
      coordinates change, one of the cells i = 1 .. |col - c| - 1 steps along the
      diagonal towards the target is occupied. A target on the Xor's own row or
      column enters no branch. The scans themselves are ChessModel.XorCollide. */
  ghost predicate Blocked(col: int, row: int, c: int, r: int, occupied: set<Square>) {
    c != col && r != row &&
    exists i :: 1 <= i < Abs(col - c) && (Toward(col, c, i), Toward(row, r, i)) in occupied
  }

  /** s lies strictly inside the diagonal segment from (col, row) to (c, r). */
  predicate InsideDiagonalPath(col: int, row: int, c: int, r: int, s: Square) {
    Between(s.0, col, c) && Between(s.1, row, r) && Abs(s.0 - col) == Abs(s.1 - row)
  }

  /** For a target the Xor accepts, the scans report a block exactly when an
      occupied cell lies strictly inside the diagonal path. */
  lemma BlockedIffPathOccupied(col: int, row: int, c: int, r: int, occupied: set<Square>)
    requires Accepts(col, row, c, r)
    ensures Blocked(col, row, c, r, occupied)
        <==> exists s :: s in occupied && InsideDiagonalPath(col, row, c, r, s)
  {
    if Blocked(col, row, c, r, occupied) {
      var i :| 1 <= i < Abs(col - c) && (Toward(col, c, i), Toward(row, r, i)) in occupied;
      var s := (Toward(col, c, i), Toward(row, r, i));
      assert InsideDiagonalPath(col, row, c, r, s);
    }
    if s :| s in occupied && InsideDiagonalPath(col, row, c, r, s) {
      var i := Abs(s.0 - col);
      assert Toward(col, c, i) == s.0;
      assert Toward(row, r, i) == s.1;
      assert 1 <= i < Abs(col - c) && (Toward(col, c, i), Toward(row, r, i)) in occupied;
    }
  }

  /** A diagonal neighbour is never blocked: every scan is empty. */
  lemma NearTargetsNeverBlocked(col: int, row: int, c: int, r: int, occupied: set<Square>)
    requires Abs(c - col) <= 1
    ensures !Blocked(col, row, c, r, occupied)
  {
  }

  /** A target on the Xor's own row or column is never blocked: no branch applies. */
  lemma StraightTargetsNeverBlocked(col: int, row: int, c: int, r: int, occupied: set<Square>)
    requires c == col || r == row
    ensures !Blocked(col, row, c, r, occupied)
  {
  }
}
