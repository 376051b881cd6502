// Biz.java: the knight-like piece. Its shape rule is a single product test;
// it inherits the default "never blocked" obstruction rule.
module BizPiece {
  import opened Geometry

  /** Biz.isValid: |c - col| * |r - row| == 2. */
  predicate Accepts(col: int, row: int, c: int, r: int) {
    Abs(c - col) * Abs(r - row) == 2
  }

  /** One of the eight L-shaped offsets: two squares on one axis, one on the other. */
  predicate IsLOffset(dc: int, dr: int) {
    (Abs(dc) == 1 && Abs(dr) == 2) || (Abs(dc) == 2 && Abs(dr) == 1)
  }

  /** The product test accepts exactly the eight L-shaped offsets. */
  lemma AcceptsIffLShape(col: int, row: int, c: int, r: int)
    ensures Accepts(col, row, c, r) <==> IsLOffset(c - col, r - row)
  {
    var a, b := Abs(c - col), Abs(r - row);
    if !IsLOffset(c - col, r - row) {
      if a == 0 || b == 0 {
        assert a * b == 0;
      } else if a >= 3 {
        assert a * b >= 3 * b >= 3;
      } else if b >= 3 {
        assert a * b >= a * 3 >= 3;
      } else {
        assert (a == 1 && b == 1) || (a == 2 && b == 2);
      }
    }
  }

  /** Neither the Biz's own square nor any cell on its row or column is a target. */
  lemma StraightTargetsRejected(col: int, row: int, c: int, r: int)
    requires c == col || r == row
    ensures !Accepts(col, row, c, r)
  {
    if c == col {
      assert Abs(c - col) == 0;
    } else {
      assert Abs(r - row) == 0;
    }
  }

  /** Example: from (2, 4) the eight L targets, and not (2, 6) or (1, 4). */
  lemma ExampleFromTwoFour()
    ensures Accepts(2, 4, 0, 3) && Accepts(2, 4, 0, 5) && Accepts(2, 4, 4, 3) && Accepts(2, 4, 4, 5)
    ensures Accepts(2, 4, 1, 2) && Accepts(2, 4, 3, 2) && Accepts(2, 4, 1, 6) && Accepts(2, 4, 3, 6)
    ensures !Accepts(2, 4, 2, 6) && !Accepts(2, 4, 1, 4)
  {
  }

  /** The rule looks the same after the board is rotated by 180 degrees. */
  lemma RotationInvariant(col: int, row: int, c: int, r: int)
    ensures Accepts(col, row, c, r)
        <==> Accepts(Rotate(col, row).0, Rotate(col, row).1, Rotate(c, r).0, Rotate(c, r).1)
  {
    assert Abs(Rotate(c, r).0 - Rotate(col, row).0) == Abs(c - col);
    assert Abs(Rotate(c, r).1 - Rotate(col, row).1) == Abs(r - row);
  }
}
