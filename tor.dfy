// Tor.java: the rook-like piece. It moves along its row or column and is
// blocked by any occupied cell strictly between it and the target.
module TorPiece {
  import opened Geometry

  /** Tor.isValid: |c - col| == 0 or |r - row| == 0; the Tor's own square included. */
  predicate Accepts(col: int, row: int, c: int, r: int) {
    Abs(c - col) == 0 || Abs(r - row) == 0
  }

  /** Some occupied cell of the Tor's row lies strictly between col and c:
      what the left and right scans of Tor.isCollide look for. */
  ghost predicate RowBlocked(col: int, row: int, c: int, occupied: set<Square>) {
    exists x :: Between(x, col, c) && (x, row) in occupied
  }

  /** Some occupied cell of the Tor's column lies strictly between row and r:
      what the upward and downward scans look for. */
  ghost predicate ColumnBlocked(col: int, row: int, r: int, occupied: set<Square>) {
    exists y :: Between(y, row, r) && (col, y) in occupied
  }

  /** What the four scans of Tor.isCollide compute, for any target. The scans
      themselves are ChessModel.TorCollide. */
  ghost predicate Blocked(col: int, row: int, c: int, r: int, occupied: set<Square>) {
    RowBlocked(col, row, c, occupied) || ColumnBlocked(col, row, r, occupied)
  }

  /** s lies strictly inside the straight segment from (col, row) to (c, r). */
  predicate InsideStraightPath(col: int, row: int, c: int, r: int, s: Square) {
    (s.1 == row && r == row && Between(s.0, col, c)) ||
    (s.0 == col && c == col && Between(s.1, row, r))
  }

  /** For a target the Tor accepts, the scans report a block exactly when an
      occupied cell lies strictly inside the straight path. */
  lemma BlockedIffPathOccupied(col: int, row: int, c: int, r: int, occupied: set<Square>)
    requires Accepts(col, row, c, r)
    ensures Blocked(col, row, c, r, occupied)
        <==> exists s :: s in occupied && InsideStraightPath(col, row, c, r, s)
  {
    if Blocked(col, row, c, r, occupied) {
      if x :| Between(x, col, c) && (x, row) in occupied {
        assert r == row;
        assert InsideStraightPath(col, row, c, r, (x, row));
      } else {
        var y :| Between(y, row, r) && (col, y) in occupied;
        assert c == col;
        assert InsideStraightPath(col, row, c, r, (col, y));
      }
    }
    if s :| s in occupied && InsideStraightPath(col, row, c, r, s) {
      if s.1 == row && r == row && Between(s.0, col, c) {
        assert (s.0, row) == s;
      } else {
        assert (col, s.1) == s;
      }
    }
  }

  /** A target at king distance at most one is never blocked: every scan is empty. */
  lemma NearTargetsNeverBlocked(col: int, row: int, c: int, r: int, occupied: set<Square>)
    requires Abs(c - col) <= 1 && Abs(r - row) <= 1
    ensures !Blocked(col, row, c, r, occupied)
  {
  }

  /** Example: a Tor at (0, 0) with another piece at (0, 3)
      is blocked towards (0, 5) but not towards (0, 2). */
  lemma ExampleBlockedColumn()
    ensures Blocked(0, 0, 0, 5, {(0, 0), (0, 3)})
    ensures !Blocked(0, 0, 0, 2, {(0, 0), (0, 3)})
  {
    assert Between(3, 0, 5) && (0, 3) in {(0, 0), (0, 3)};
  }
}
