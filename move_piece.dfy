// MovePiece.java: an immutable move descriptor. It records the mover's
// origin, the destination, the mover and the piece that getPiece found on
// the destination when the move was built (null if the cell was empty).
// The constructor, which needs the board, is Chess.ChessModel.NewMove.
module Moves {
  import opened Pieces

  datatype MovePiece = MovePiece(col: int, row: int, newCol: int, newRow: int, piece: Piece, capture: Piece?)

  /** MovePiece.isSau: the captured piece's name is "Sau". */
  function IsSau(m: MovePiece): (b: bool)
    requires m.capture != null
    ensures b <==> m.capture.kind == Sau
  {
    KindNameInjective(m.capture.kind, Sau);
    m.capture.Name() == "Sau"
  }

  /** MovePiece.getWinnerColor: the team opposite to the captured piece. */
  function WinnerColor(m: MovePiece): bool
    requires m.capture != null
  {
    !m.capture.isRed
  }

  /** For a capture of an opposing piece, the winner colour is the mover's team. */
  lemma WinnerIsMover(m: MovePiece)
    requires m.capture != null && m.capture.isRed != m.piece.isRed
    ensures WinnerColor(m) == m.piece.isRed
  {
  }

  /** The destination cells of a list of moves, in order. */
  function Destinations(moves: seq<MovePiece>): (cells: seq<(int, int)>)
    ensures |cells| == |moves|
    ensures forall i :: 0 <= i < |moves| ==> cells[i] == (moves[i].newCol, moves[i].newRow)
  {
    seq(|moves|, i requires 0 <= i < |moves| => (moves[i].newCol, moves[i].newRow))
  }

  lemma DestinationsSnoc(moves: seq<MovePiece>, m: MovePiece)
    ensures Destinations(moves + [m]) == Destinations(moves) + [(m.newCol, m.newRow)]
  {
  }
}
