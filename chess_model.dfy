// ChessModel.java: the game-state object. It owns the piece list and the
// turn flag, turn counter, game-over flag and winner, and updates them in
// place. Each method is proved against the value-level specification in
// GameRules and SaveFormat, through the ghost view Game().
module Chess {
  import opened Options
  import opened Geometry
  import opened Pieces
  import opened Moves
  import opened GameRules
  import opened SaveFormat
  import TorPiece
  import XorPiece

  /** The position of piece p in the list: its first (on a valid model, only)
      occurrence. */
  ghost function IndexOf(ps: seq<Piece>, p: Piece): (k: nat)
    requires p in ps
    ensures k < |ps| && ps[k] == p
    ensures forall j :: 0 <= j < k ==> ps[j] != p
  {
    if ps[0] == p then 0 else IndexOf(ps[1..], p) + 1
  }

  /** In a list without repeated objects, the search for the k-th entry
      stops at position k. */
  lemma {:induction false} IndexOfListed(ps: seq<Piece>, k: nat)
    requires k < |ps| && forall i, j :: 0 <= i < j < |ps| ==> ps[i] != ps[j]
    ensures IndexOf(ps, ps[k]) == k
  {
    if k > 0 {
      assert ps[0] != ps[k];
      assert ps[1..][k - 1] == ps[k];
      IndexOfListed(ps[1..], k - 1);
    }
  }

  /** The piece a move to (c, r) captures, for the pieces ps whose states are
      b: the object getPiece finds there, or null. */
  ghost function CaptureIn(b: Board, ps: seq<Piece>, c: int, r: int): Piece? {
    match IndexAt(b, c, r)
    case None => null
    case Some(k) => if k < |ps| then ps[k] else null
  }

  class ChessModel {
    var isRedTurn: bool
    var pieces: seq<Piece>
    var selectedPiece: Piece?
    var turnCount: int
    var gameOver: bool
    var winner: string

    /** The list never holds the same piece object twice. */
    ghost predicate Valid()
      reads this
    {
      forall i, j :: 0 <= i < j < |pieces| ==> pieces[i] != pieces[j]
    }

    /** The states of the listed pieces, in list order. */
    ghost function Snapshot(): (b: Board)
      reads this`pieces, pieces
      ensures |b| == |pieces|
    {
      var ps := pieces;
      seq(|ps|, j requires 0 <= j < |ps| reads ps => ps[j].State())
    }

    /** The whole game as a value. */
    ghost function Game(): GameState
      reads this, pieces
    {
      GameState(Snapshot(), isRedTurn, turnCount, gameOver, winner)
    }

    /** ChessModel(): Red to move, no turns played, an empty winner, and the
        starting layout. */
    constructor ()
      ensures Valid()
      ensures Game() == GameState(InitialLayout(), true, 0, false, "")
      ensures selectedPiece == null
      ensures forall j :: 0 <= j < |pieces| ==> fresh(pieces[j])
    {
      isRedTurn := true;
      pieces := [];
      selectedPiece := null;
      turnCount := 0;
      gameOver := false;
      winner := "";
      new;
      ghost var before := pieces;
      InitializeBoard();
      assert forall j :: 0 <= j < |pieces| ==> pieces[j] !in before;
    }

    /** ArrayList.add of a piece not yet listed. */
    method Add(p: Piece)
      requires Valid() && p !in pieces
      modifies this`pieces
      ensures Valid()
      ensures pieces == old(pieces) + [p]
      ensures Snapshot() == old(Snapshot()) + [p.State()]
    {
      pieces := pieces + [p];
    }

    /** piecesArr.add(new X(squareSize, col, row, isRed)) for kind X. */
    method AddNew(kind: Kind, col: int, row: int, isRed: bool)
      requires Valid()
      modifies this`pieces
      ensures Valid()
      ensures Snapshot() == old(Snapshot()) + [Fresh(kind, col, row, isRed)]
      ensures forall j :: 0 <= j < |pieces| ==> pieces[j] in old(pieces) || fresh(pieces[j])
    {
      var p := new Piece(kind, col, row, isRed);
      Add(p);
    }

    /** initializeBoard: appends the twenty starting pieces, in the source's
        order, to whatever the list holds. */
    method InitializeBoard()
      requires Valid()
      modifies this`pieces
      ensures Valid()
      ensures Snapshot() == old(Snapshot()) + InitialLayout()
      ensures forall j :: 0 <= j < |pieces| ==> pieces[j] in old(pieces) || fresh(pieces[j])
    {
      AddRams();
      AddBackRanks();
    }

    /** The loop of initializeBoard: a Red and a Blue Ram for each column. */
    method AddRams()
      requires Valid()
      modifies this`pieces
      ensures Valid()
      ensures Snapshot() == old(Snapshot()) + RamPairs(Cols)
      ensures forall j :: 0 <= j < |pieces| ==> pieces[j] in old(pieces) || fresh(pieces[j])
    {
      var i := 0;
      while i < Cols
        invariant 0 <= i <= Cols
        invariant Valid()
        invariant Snapshot() == old(Snapshot()) + RamPairs(i)
        invariant forall j :: 0 <= j < |pieces| ==> pieces[j] in old(pieces) || fresh(pieces[j])
      {
        AddNew(Ram, i, 6, true);
        AddNew(Ram, i, 1, false);
        i := i + 1;
      }
    }

    /** The ten adds that follow the loop in initializeBoard. */
    method AddBackRanks()
      requires Valid()
      modifies this`pieces
      ensures Valid()
      ensures Snapshot() == old(Snapshot()) + BackRanks()
      ensures forall j :: 0 <= j < |pieces| ==> pieces[j] in old(pieces) || fresh(pieces[j])
    {
      ghost var before := Snapshot();
      AddBizes();
      ghost var bizes := Snapshot();
      AddTorsAndXors();
      ghost var rooks := Snapshot();
      AddSaus();
      assert Snapshot() == before + (bizes[|before|..] + rooks[|bizes|..] + Snapshot()[|rooks|..]);
    }

    /** The four Biz adds of initializeBoard. */
    method AddBizes()
      requires Valid()
      modifies this`pieces
      ensures Valid()
      ensures Snapshot() == old(Snapshot()) + BackRanks()[..4]
      ensures forall j :: 0 <= j < |pieces| ==> pieces[j] in old(pieces) || fresh(pieces[j])
    {
      AddNew(Biz, 1, 7, true);
      AddNew(Biz, 3, 7, true);
      AddNew(Biz, 1, 0, false);
      AddNew(Biz, 3, 0, false);
    }

    /** The two Tor and two Xor adds of initializeBoard. */
    method AddTorsAndXors()
      requires Valid()
      modifies this`pieces
      ensures Valid()
      ensures Snapshot() == old(Snapshot()) + BackRanks()[4..8]
      ensures forall j :: 0 <= j < |pieces| ==> pieces[j] in old(pieces) || fresh(pieces[j])
    {
      AddNew(Tor, 4, 7, true);
      AddNew(Tor, 0, 0, false);
      AddNew(Xor, 4, 0, false);
      AddNew(Xor, 0, 7, true);
    }

    /** The two Sau adds of initializeBoard. */
    method AddSaus()
      requires Valid()
      modifies this`pieces
      ensures Valid()
      ensures Snapshot() == old(Snapshot()) + BackRanks()[8..]
      ensures forall j :: 0 <= j < |pieces| ==> pieces[j] in old(pieces) || fresh(pieces[j])
    {
      AddNew(Sau, 2, 7, true);
      AddNew(Sau, 2, 0, false);
    }

    /** getPiece: the first listed piece standing on (c, r), or null. */
    method GetPiece(c: int, r: int) returns (p: Piece?)
      ensures IndexAt(Snapshot(), c, r).None? ==> p == null
      ensures IndexAt(Snapshot(), c, r).Some? ==> p == pieces[IndexAt(Snapshot(), c, r).value]
      ensures p == null <==> (c, r) !in Squares(Snapshot())
    {
      var i := 0;
      while i < |pieces|
        invariant 0 <= i <= |pieces|
        invariant forall j :: 0 <= j < i ==> !At(Snapshot()[j], c, r)
      {
        if pieces[i].col == c && pieces[i].row == r {
          assert At(Snapshot()[i], c, r);
          return pieces[i];
        }
        i := i + 1;
      }
      return null;
    }

    /** sameTeam: both pieces present and on the same team. */
    function SameTeam(p1: Piece?, p2: Piece?): bool {
      if p1 == null || p2 == null then false else p1.isRed == p2.isRed
    }

    /** The MovePiece constructor: records the mover's cell, the destination,
        the mover, and whatever getPiece finds on the destination. */
    method NewMove(p: Piece, newCol: int, newRow: int) returns (m: MovePiece)
      ensures m.piece == p && m.col == p.col && m.row == p.row
      ensures m.newCol == newCol && m.newRow == newRow
      ensures m.capture == CaptureAt(newCol, newRow)
    {
      var capture := GetPiece(newCol, newRow);
      m := MovePiece(p.col, p.row, newCol, newRow, p, capture);
    }

    /** The piece a move to (c, r) captures on the current board. */
    ghost function CaptureAt(c: int, r: int): Piece?
      reads this, pieces
    {
      CaptureIn(Snapshot(), pieces, c, r)
    }

    /** Tor.isCollide: the scans along the Tor's row, then along its column;
        the first occupied cell found ends the search. */
    method TorCollide(p: Piece, c: int, r: int) returns (blocked: bool)
      ensures blocked == TorPiece.Blocked(p.col, p.row, c, r, Squares(Snapshot()))
    {
      blocked := TorScanRow(p.col, p.row, c);
      if !blocked {
        blocked := TorScanColumn(p.col, p.row, r);
      }
    }

    /** The left and right scans of Tor.isCollide, from the Tor's cell
        (col, row) towards column c. */
    method TorScanRow(col: int, row: int, c: int) returns (blocked: bool)
      ensures blocked == TorPiece.RowBlocked(col, row, c, Squares(Snapshot()))
    {
      ghost var occ := Squares(Snapshot());
      if col > c {
        var x := col - 1;
        while x > c
          invariant c <= x <= col - 1
          invariant forall x' :: x < x' < col ==> (x', row) !in occ
        {
          var q := GetPiece(x, row);
          if q != null {
            assert Between(x, col, c);
            return true;
          }
          x := x - 1;
        }
      }
      if col < c {
        var x := col + 1;
        while x < c
          invariant col + 1 <= x <= c
          invariant forall x' :: col < x' < x ==> (x', row) !in occ
        {
          var q := GetPiece(x, row);
          if q != null {
            assert Between(x, col, c);
            return true;
          }
          x := x + 1;
        }
      }
      return false;
    }

    /** The upward and downward scans of Tor.isCollide, from the Tor's cell
        (col, row) towards row r. */
    method TorScanColumn(col: int, row: int, r: int) returns (blocked: bool)
      ensures blocked == TorPiece.ColumnBlocked(col, row, r, Squares(Snapshot()))
    {
      ghost var occ := Squares(Snapshot());
      if row > r {
        var y := row - 1;
        while y > r
          invariant r <= y <= row - 1
          invariant forall y' :: y < y' < row ==> (col, y') !in occ
        {
          var q := GetPiece(col, y);
          if q != null {
            assert Between(y, row, r);
            return true;
          }
          y := y - 1;
        }
      }
      if row < r {
        var y := row + 1;
        while y < r
          invariant row + 1 <= y <= r
          invariant forall y' :: row < y' < y ==> (col, y') !in occ
        {
          var q := GetPiece(col, y);
          if q != null {
            assert Between(y, row, r);
            return true;
          }
          y := y + 1;
        }
      }
      return false;
    }

    /** The Xor's four diagonal scans of isCollide, one per direction, each
        looking at the cells 1 .. |col - c| - 1 steps from the Xor. */
    method XorCollide(p: Piece, c: int, r: int) returns (blocked: bool)
      ensures blocked == XorPiece.Blocked(p.col, p.row, c, r, Squares(Snapshot()))
    {
      ghost var occ := Squares(Snapshot());
      if p.col != c && p.row != r {
        var i := 1;
        while i < Abs(p.col - c)
          invariant 1 <= i
          invariant forall i' :: 1 <= i' < i ==> (XorPiece.Toward(p.col, c, i'), XorPiece.Toward(p.row, r, i')) !in occ
        {
          var q := GetPiece(XorPiece.Toward(p.col, c, i), XorPiece.Toward(p.row, r, i));
          if q != null {
            return true;
          }
          i := i + 1;
        }
      }
      return false;
    }

    /** isCollide of the mover's kind: the Tor and Xor scans; Ram, Biz and Sau
        keep the default of no obstruction. */
    method IsCollide(p: Piece, c: int, r: int) returns (blocked: bool)
      ensures blocked == Blocked(p.State(), c, r, Squares(Snapshot()))
    {
      match p.kind
      case Tor => blocked := TorCollide(p, c, r);
      case Xor => blocked := XorCollide(p, c, r);
      case _ => blocked := false;
    }
 
    /** isValidMove: the five checks in order, each failure returning false
        at once. The kind's isValid query, with its side effect, is only
        reached when the first three checks pass. */
    method IsValidMove(m: MovePiece) returns (ok: bool)
      modifies m.piece`reachEnd, m.piece`flipped
      ensures m.piece.State() == (if m.piece.isRed == isRedTurn && InBounds(m.newCol, m.newRow)
                                    && !SameTeam(m.piece, m.capture)
                                  then QueryStep(old(m.piece.State())) else old(m.piece.State()))
      ensures ok <==> && m.piece.isRed == isRedTurn
                      && InBounds(m.newCol, m.newRow)
                      && !SameTeam(m.piece, m.capture)
                      && Accepts(m.piece.State(), m.newCol, m.newRow)
                      && !Blocked(m.piece.State(), m.newCol, m.newRow, Squares(Snapshot()))
      ensures SameLayout(Snapshot(), old(Snapshot()))
      ensures m.capture == old(CaptureAt(m.newCol, m.newRow)) ==>
        (ok, m.piece.State()) == CellCheck(old(Snapshot()), isRedTurn, old(m.piece.State()), m.newCol, m.newRow)
    {
      ghost var b0 := Snapshot();
      if m.piece.isRed != isRedTurn {
        return false;
      }
      if m.newCol < 0 || m.newCol >= Cols || m.newRow < 0 || m.newRow >= Rows {
        return false;
      }
      if SameTeam(m.piece, m.capture) {
        return false;
      }
      var accepted := m.piece.IsValid(m.newCol, m.newRow);
      QueryKeepsPlacement(old(m.piece.State()));
      assert SameLayout(Snapshot(), b0);
      SameLayoutSquares(Snapshot(), b0);
      if !accepted {
        return false;
      }
      var blocked := IsCollide(m.piece, m.newCol, m.newRow);
      if blocked {
        return false;
      }
      return true;
    }
 
    /** getValidMoves for the selected piece: every cell in row-major order
        (rows outer, columns inner), a move built for it and kept when
        isValidMove accepts it. The result is the scan Enumerate describes, on
        the board as it was, and the selected piece is left in the state the
        successive queries put it in. */
    method GetValidMoves() returns (moves: seq<MovePiece>)
      requires selectedPiece != null
      modifies selectedPiece`reachEnd, selectedPiece`flipped
      ensures Destinations(moves)
           == Enumerate(old(Snapshot()), isRedTurn, old(selectedPiece.State()), Cols * Rows).0
      ensures selectedPiece.State()
           == Enumerate(old(Snapshot()), isRedTurn, old(selectedPiece.State()), Cols * Rows).1
      ensures forall i :: 0 <= i < |moves| ==> moves[i].piece == selectedPiece
      ensures forall i :: 0 <= i < |moves| ==>
                moves[i].capture == CaptureIn(old(Snapshot()), pieces, moves[i].newCol, moves[i].newRow)
      ensures SameLayout(Snapshot(), old(Snapshot()))
    {
      ghost var b0, s0 := Snapshot(), selectedPiece.State();
      var p := selectedPiece;
      moves := [];
      var r := 0;
      while r < Rows
        invariant 0 <= r <= Rows
        invariant SameLayout(Snapshot(), b0)
        invariant Destinations(moves) == Enumerate(b0, isRedTurn, s0, r * Cols).0
        invariant p.State() == Enumerate(b0, isRedTurn, s0, r * Cols).1
        invariant forall i :: 0 <= i < |moves| ==> moves[i].piece == p
        invariant forall i :: 0 <= i < |moves| ==>
                    moves[i].capture == CaptureIn(b0, pieces, moves[i].newCol, moves[i].newRow)
      {
        moves := ScanRow(p, r, b0, s0, moves);
        r := r + 1;
      }
    }

    /** The inner loop of getValidMoves: the five cells of row r. */
    method ScanRow(p: Piece, r: int, ghost b0: Board, ghost s0: PieceState, moves0: seq<MovePiece>)
      returns (moves: seq<MovePiece>)
      requires 0 <= r < Rows && SameLayout(Snapshot(), b0)
      requires Destinations(moves0) == Enumerate(b0, isRedTurn, s0, r * Cols).0
      requires p.State() == Enumerate(b0, isRedTurn, s0, r * Cols).1
      requires forall i :: 0 <= i < |moves0| ==> moves0[i].piece == p
      requires forall i :: 0 <= i < |moves0| ==>
                 moves0[i].capture == CaptureIn(b0, pieces, moves0[i].newCol, moves0[i].newRow)
      modifies p`reachEnd, p`flipped
      ensures SameLayout(Snapshot(), b0)
      ensures Destinations(moves) == Enumerate(b0, isRedTurn, s0, (r + 1) * Cols).0
      ensures p.State() == Enumerate(b0, isRedTurn, s0, (r + 1) * Cols).1
      ensures forall i :: 0 <= i < |moves| ==> moves[i].piece == p
      ensures forall i :: 0 <= i < |moves| ==>
                moves[i].capture == CaptureIn(b0, pieces, moves[i].newCol, moves[i].newRow)
    {
      moves := moves0;
      var c := 0;
      while c < Cols
        invariant 0 <= c <= Cols
        invariant SameLayout(Snapshot(), b0)
        invariant (Destinations(moves), p.State()) == Enumerate(b0, isRedTurn, s0, RowMajor(c, r))
        invariant forall i :: 0 <= i < |moves| ==> moves[i].piece == p
        invariant forall i :: 0 <= i < |moves| ==>
                    moves[i].capture == CaptureIn(b0, pieces, moves[i].newCol, moves[i].newRow)
      {
        CellAtRowMajor(c, r);
        moves := ConsiderCell(p, c, r, b0, s0, RowMajor(c, r), moves);
        c := c + 1;
      }
      assert RowMajor(c, r) == (r + 1) * Cols;
    }

    /** One cell of getValidMoves: the move to (c, r) is appended to moves
        when isValidMove accepts it. With (c, r) the k-th cell of the scan,
        this advances the scan of the board b0 by one cell. */
    method ConsiderCell(p: Piece, c: int, r: int, ghost b0: Board, ghost s0: PieceState, ghost k: nat,
                        moves0: seq<MovePiece>)
      returns (moves: seq<MovePiece>)
      requires SameLayout(Snapshot(), b0)
      requires k < Cols * Rows && CellAt(k) == (c, r)
      requires (Destinations(moves0), p.State()) == Enumerate(b0, isRedTurn, s0, k)
      requires forall i :: 0 <= i < |moves0| ==> moves0[i].piece == p
      requires forall i :: 0 <= i < |moves0| ==>
                 moves0[i].capture == CaptureIn(b0, pieces, moves0[i].newCol, moves0[i].newRow)
      modifies p`reachEnd, p`flipped
      ensures (Destinations(moves), p.State()) == Enumerate(b0, isRedTurn, s0, k + 1)
      ensures forall i :: 0 <= i < |moves| ==> moves[i].piece == p
      ensures forall i :: 0 <= i < |moves| ==>
                moves[i].capture == CaptureIn(b0, pieces, moves[i].newCol, moves[i].newRow)
      ensures SameLayout(Snapshot(), b0)
    {
      ghost var before := Snapshot();
      SameLayoutCheck(before, b0, isRedTurn, p.State(), c, r);
      SameLayoutLookup(before, b0, c, r);
      var m := NewMove(p, c, r);
      var ok := IsValidMove(m);
      moves := moves0;
      if ok {
        DestinationsSnoc(moves, m);
        moves := moves + [m];
      }
    }
 
    // ------------------------------------------------------------- list edits

    /** The position of p among the listed pieces, as ArrayList.remove(Object)
        finds it: the first entry that is p (Pieces does not override equals). */
    method Find(p: Piece) returns (k: Option<nat>)
      ensures k.None? <==> p !in pieces
      ensures k.Some? ==> p in pieces && k.value == IndexOf(pieces, p)
    {
      var i := 0;
      while i < |pieces|
        invariant 0 <= i <= |pieces|
        invariant forall j :: 0 <= j < i ==> pieces[j] != p
      {
        if pieces[i] == p {
          return Some(i);
        }
        i := i + 1;
      }
      return None;
    }

    /** Removing the entry at position k shifts the later entries down by one. */
    method RemoveEntry(k: nat)
      requires Valid() && k < |pieces|
      modifies this`pieces
      ensures Valid()
      ensures pieces == old(pieces[..k] + pieces[k + 1..])
      ensures Snapshot() == RemoveAt(old(Snapshot()), k)
    {
      ghost var b := Snapshot();
      pieces := pieces[..k] + pieces[k + 1..];
      assert forall j :: 0 <= j < |pieces| ==> pieces[j] == old(pieces)[if j < k then j else j + 1];
    }

    /** kill: the captured piece leaves the list; nothing happens when there
        is no captured piece or it is no longer listed. */
    method Kill(m: MovePiece)
      requires Valid()
      modifies this`pieces
      ensures Valid()
      ensures forall p :: p in pieces ==> p in old(pieces)
      ensures m.capture == null || m.capture !in old(pieces) ==> pieces == old(pieces)
      ensures m.capture != null && m.capture in old(pieces) ==>
        Snapshot() == RemoveAt(old(Snapshot()), IndexOf(old(pieces), m.capture))
    {
      if m.capture != null {
        var k := Find(m.capture);
        if k.Some? {
          RemoveEntry(k.value);
        }
      }
    }

    /** clearPieces. */
    method ClearPieces()
      modifies this`pieces
      ensures Valid() && pieces == []
    {
      pieces := [];
    }

    // ------------------------------------------------------ moves and turns

    /** The list position of a listed piece, None for null. */
    ghost function ListIndex(p: Piece?): Option<nat>
      reads this
      requires p != null ==> p in pieces
    {
      if p == null then None else Some(IndexOf(pieces, p))
    }

    /** makeMove: relocate the mover; on a capture record whether it was a
        Sau, and if so name the winner and clear the list; remove the captured
        piece; then end the turn, whatever happened. */
    method MakeMove(m: MovePiece)
      requires Valid() && m.piece in pieces
      requires m.capture != null ==> m.capture in pieces
      modifies this, set p | p in pieces
      ensures Valid()
      ensures Game() == MakeMoveSpec(old(Game()), old(IndexOf(pieces, m.piece)), old(ListIndex(m.capture)),
                                     m.newCol, m.newRow)
      ensures selectedPiece == old(selectedPiece)
      ensures forall j :: 0 <= j < |pieces| ==> pieces[j] in old(pieces) || fresh(pieces[j])
    {
      ghost var g, mi, ci := Game(), IndexOf(pieces, m.piece), ListIndex(m.capture);
      Relocate(m.piece, m.newCol, m.newRow);
      if m.capture != null {
        Capture(m);
      }
      assert Game() == MoveBeforeEndTurn(g, mi, ci, m.newCol, m.newRow);
      EndTurn();
    }

    /** The capture branch of makeMove. */
    method Capture(m: MovePiece)
      requires Valid() && m.capture != null && m.capture in pieces
      modifies this`gameOver, this`winner, this`pieces
      ensures Valid()
      ensures forall p :: p in pieces ==> p in old(pieces)
      ensures m.capture.kind == Sau ==>
        pieces == [] && gameOver && winner == (if m.capture.isRed then "Blue" else "Red")
      ensures m.capture.kind != Sau ==>
        Snapshot() == RemoveAt(old(Snapshot()), old(IndexOf(pieces, m.capture)))
        && !gameOver && winner == old(winner)
    {
      gameOver := IsSau(m);
      if gameOver {
        var winnerColor := WinnerColor(m);
        if winnerColor {
          winner := "Red";
        } else {
          winner := "Blue";
        }
        ClearPieces();
      }
      Kill(m);
    }

    /** The two setters makeMove applies to the mover. */
    method Relocate(p: Piece, c: int, r: int)
      requires Valid() && p in pieces
      modifies p`col, p`row
      ensures Snapshot() == old(Snapshot())[IndexOf(pieces, p) := old(p.State()).(col := c, row := r)]
    {
      p.SetCol(c);
      p.SetRow(r);
    }

    /** endTurn: toggle the turn, count it, swap every Tor and Xor when the
        new count is a multiple of four, then rotate the board. */
    method EndTurn()
      requires Valid()
      modifies this, pieces
      ensures Valid()
      ensures Game() == EndTurnSpec(old(Game()))
      ensures selectedPiece == old(selectedPiece)
      ensures forall j :: 0 <= j < |pieces| ==> pieces[j] in old(pieces) || fresh(pieces[j])
    {
      ghost var g := Game();
      ghost var b1 := if (g.turnCount + 1) % 4 == 0 then SwapRoles(g.board) else g.board;
      assert EndTurnSpec(g) == GameState(FlipAll(b1), !g.isRedTurn, g.turnCount + 1, g.gameOver, g.winner);
      AdvanceTurn();
      FlipBoard();
      assert Snapshot() == FlipAll(b1);
    }

    /** The part of endTurn before flipBoard. */
    method AdvanceTurn()
      requires Valid()
      modifies this`isRedTurn, this`turnCount, this`pieces
      ensures Valid()
      ensures isRedTurn == !old(isRedTurn) && turnCount == old(turnCount) + 1
      ensures Snapshot() == if turnCount % 4 == 0 then SwapRoles(old(Snapshot())) else old(Snapshot())
      ensures forall j :: 0 <= j < |pieces| ==> pieces[j] in old(pieces) || fresh(pieces[j])
    {
      isRedTurn := !isRedTurn;
      turnCount := turnCount + 1;
      if turnCount % 4 == 0 {
        SwapTorXor();
      }
    }

    /** The swap loop of endTurn: each Tor or Xor entry is replaced by a new
        piece of the other kind on the same cell and team. */
    method SwapTorXor()
      requires Valid()
      modifies this`pieces
      ensures Valid()
      ensures Snapshot() == SwapRoles(old(Snapshot()))
      ensures |pieces| == |old(pieces)|
      ensures forall j :: 0 <= j < |pieces| ==> pieces[j] in old(pieces) || fresh(pieces[j])
      ensures forall j :: 0 <= j < |pieces| && (old(pieces)[j].kind == Tor || old(pieces)[j].kind == Xor) ==>
                fresh(pieces[j])
      ensures forall j :: 0 <= j < |pieces| && old(pieces)[j].kind != Tor && old(pieces)[j].kind != Xor ==>
                pieces[j] == old(pieces)[j]
    {
      var i := 0;
      while i < |pieces|
        invariant 0 <= i <= |pieces| == |old(pieces)|
        invariant Valid()
        invariant forall j :: 0 <= j < |pieces| ==> pieces[j] in old(pieces) || fresh(pieces[j])
        invariant forall j :: 0 <= j < i ==> pieces[j].State() == SwapRole(old(pieces[j].State()))
        invariant forall j :: 0 <= j < i && (old(pieces)[j].kind == Tor || old(pieces)[j].kind == Xor) ==>
                    fresh(pieces[j])
        invariant forall j :: 0 <= j < i && old(pieces)[j].kind != Tor && old(pieces)[j].kind != Xor ==>
                    pieces[j] == old(pieces)[j]
        invariant forall j :: i <= j < |pieces| ==> pieces[j] == old(pieces[j])
      {
        SwapEntry(i);
        i := i + 1;
      }
    }

    /** One pass of the swap loop: a Tor or Xor at position i is replaced by a
        new piece of the other kind on the same cell and team. */
    method SwapEntry(i: nat)
      requires Valid() && i < |pieces|
      modifies this`pieces
      ensures Valid() && |pieces| == |old(pieces)|
      ensures pieces[i].State() == SwapRole(old(pieces[i].State()))
      ensures old(pieces[i]).kind == Tor || old(pieces[i]).kind == Xor ==> fresh(pieces[i])
      ensures old(pieces[i]).kind != Tor && old(pieces[i]).kind != Xor ==> pieces[i] == old(pieces[i])
      ensures forall j :: 0 <= j < |pieces| && j != i ==> pieces[j] == old(pieces[j])
    {
      var piece := pieces[i];
      if piece.kind == Tor {
        var q := new Piece(Xor, piece.col, piece.row, piece.isRed);
        pieces := pieces[i := q];
      } else if piece.kind == Xor {
        var q := new Piece(Tor, piece.col, piece.row, piece.isRed);
        pieces := pieces[i := q];
      }
    }

    /** flipBoard: every piece rotated by 180 degrees and its orientation
        toggled. */
    method FlipBoard()
      requires Valid()
      modifies pieces
      ensures Snapshot() == FlipAll(old(Snapshot()))
    {
      var i := 0;
      while i < |pieces|
        invariant 0 <= i <= |pieces|
        invariant forall j :: 0 <= j < i ==> pieces[j].State() == FlipPiece(old(pieces[j].State()))
        invariant forall j :: i <= j < |pieces| ==> pieces[j].State() == old(pieces[j].State())
      {
        var piece := pieces[i];
        piece.SetCol((Cols - 1) - piece.col);
        piece.SetRow((Rows - 1) - piece.row);
        piece.FlipOrientation();
        i := i + 1;
      }
    }

    /** flipImage: every orientation toggled, positions untouched. */
    method FlipImage()
      requires Valid()
      modifies pieces
      ensures Snapshot() == ToggleAll(old(Snapshot()))
    {
      var i := 0;
      while i < |pieces|
        invariant 0 <= i <= |pieces|
        invariant forall j :: 0 <= j < i ==> pieces[j].State() == Toggled(old(pieces[j].State()))
        invariant forall j :: i <= j < |pieces| ==> pieces[j].State() == old(pieces[j].State())
      {
        pieces[i].FlipOrientation();
        i := i + 1;
      }
    }

    /** resetBoard: a new starting layout, Red to move, count and game-over
        flag reset; the winner is left as it was. */
    method ResetBoard()
      modifies this
      ensures Valid()
      ensures Game() == GameState(InitialLayout(), true, 0, false, old(winner))
      ensures selectedPiece == old(selectedPiece)
      ensures forall j :: 0 <= j < |pieces| ==> fresh(pieces[j])
    {
      ClearPieces();
      InitializeBoard();
      assert Snapshot() == [] + InitialLayout();
      turnCount := 0;
      isRedTurn := true;
      gameOver := false;
    }

    /** setRedTurn: only the turn flag changes. */
    method SetRedTurn(b: bool)
      modifies this`isRedTurn
      ensures isRedTurn == b
    {
      isRedTurn := b;
    }
 
    // ------------------------------------------------------------ save, load

    /** saveGame: the text written to the file, the header line and then one
        line per listed piece. */
    method SaveGame() returns (text: string)
      ensures text == SaveText(isRedTurn, Snapshot())
    {
      text := "Is it Red's Turn," + BoolText(isRedTurn) + "\n";
      assert text == Unlines([Header(isRedTurn)] + PieceLines(Snapshot()[..0]));
      var i := 0;
      while i < |pieces|
        invariant 0 <= i <= |pieces|
        invariant text == Unlines([Header(isRedTurn)] + PieceLines(Snapshot()[..i]))
      {
        var piece := pieces[i];
        var line := piece.Name() + "," + IntText(piece.col) + "," + IntText(piece.row) + "," + BoolText(piece.isRed);
        SavedLine(isRedTurn, Snapshot(), i, line);
        text := text + line + "\n";
        i := i + 1;
      }
      assert Snapshot()[..i] == Snapshot();
    }

    /** createPiece: a new piece of the named kind, or null for any other name. */
    method CreatePiece(name: string, col: int, row: int, isRed: bool) returns (p: Piece?)
      ensures p == null <==> KindOfName(name).None?
      ensures p != null ==> fresh(p) && p.State() == Fresh(KindOfName(name).value, col, row, isRed)
    {
      if name == "Ram" {
        p := new Piece(Ram, col, row, isRed);
      } else if name == "Biz" {
        p := new Piece(Biz, col, row, isRed);
      } else if name == "Tor" {
        p := new Piece(Tor, col, row, isRed);
      } else if name == "Xor" {
        p := new Piece(Xor, col, row, isRed);
      } else if name == "Sau" {
        p := new Piece(Sau, col, row, isRed);
      } else {
        p := null;
      }
    }

    /** loadGame on the file's text (None when it cannot be read): the list is
        cleared first; the header gives the turn; the remaining lines are read
        as pieces; a Blue turn ends with two flipImage calls. An unchecked
        exception ends the load where it is raised, with the outcome Threw. */
    method LoadGame(content: Option<string>) returns (outcome: LoadOutcome)
      modifies this
      ensures Valid()
      ensures LoadResult(outcome, isRedTurn, Snapshot()) == LoadText(old(isRedTurn), content)
      ensures turnCount == old(turnCount) && gameOver == old(gameOver) && winner == old(winner)
      ensures selectedPiece == old(selectedPiece)
      ensures forall j :: 0 <= j < |pieces| ==> fresh(pieces[j])
    {
      ClearPieces();
      if content.None? {
        return ReadFailed;
      }
      var lines := ReadLines(content.value);
      if |lines| == 0 {
        return Threw;
      }
      var line := lines[0];
      if StartsWithIs(line) {
        var header := Split(line);
        if |header| < 2 {
          return Threw;
        }
        isRedTurn := ParseBool(header[1]);
      }
      outcome := LoadPieces(lines[1..]);
      if outcome == Loaded && !isRedTurn {
        FlipImage();
        FlipImage();
      }
    }

    /** The while loop of loadGame over the lines after the header. */
    method LoadPieces(lines: seq<string>) returns (outcome: LoadOutcome)
      requires Valid()
      modifies this`pieces
      ensures Valid()
      ensures LoadResult(outcome, isRedTurn, Snapshot()) == LoadBody(isRedTurn, lines, old(Snapshot()))
      ensures forall j :: 0 <= j < |pieces| ==> pieces[j] in old(pieces) || fresh(pieces[j])
    {
      var i := 0;
      while i < |lines|
        invariant 0 <= i <= |lines|
        invariant Valid()
        invariant forall j :: 0 <= j < |pieces| ==> pieces[j] in old(pieces) || fresh(pieces[j])
        invariant LoadBody(isRedTurn, lines[i..], Snapshot()) == LoadBody(isRedTurn, lines, old(Snapshot()))
      {
        assert lines[i..][1..] == lines[i + 1..];
        var ok := LoadLine(lines[i]);
        if !ok {
          return Threw;
        }
        i := i + 1;
      }
      return Loaded;
    }

    /** One pass of loadGame's loop: split the line, read the column, row and
        team, and add the piece createPiece builds, facing !isRedTurn; false
        when a field is missing or not a number. */
    method LoadLine(line: string) returns (ok: bool)
      requires Valid()
      modifies this`pieces
      ensures Valid()
      ensures ok <==> ParseLine(line).Some?
      ensures !ok ==> pieces == old(pieces)
      ensures ok ==> Snapshot() == match KindOfName(ParseLine(line).value.name)
                                   case None => old(Snapshot())
                                   case Some(k) => old(Snapshot()) + [LoadedPiece(k, ParseLine(line).value, isRedTurn)]
      ensures forall j :: 0 <= j < |pieces| ==> pieces[j] in old(pieces) || fresh(pieces[j])
    {
      var parts := Split(line);
      if |parts| < 2 {
        return false;
      }
      var col := ParseInt(parts[1]);
      if col.None? || |parts| < 3 {
        return false;
      }
      var row := ParseInt(parts[2]);
      if row.None? || |parts| < 4 {
        return false;
      }
      var isRed := ParseBool(parts[3]);
      var piece := CreatePiece(parts[0], col.value, row.value, isRed);
      if piece != null {
        piece.SetFlipped(!isRedTurn);
        Add(piece);
      }
      return true;
    }
  }

  /** The line saveGame writes for the piece at position i is that piece's
      line of the save format, appended with its newline. */
  lemma SavedLine(turn: bool, b: Board, i: nat, line: string)
    requires i < |b|
    requires line == KindName(b[i].kind) + "," + IntText(b[i].col) + "," + IntText(b[i].row) + "," + BoolText(b[i].isRed)
    ensures Unlines([Header(turn)] + PieceLines(b[..i + 1]))
         == Unlines([Header(turn)] + PieceLines(b[..i])) + line + "\n"
  {
    JoinFour(KindName(b[i].kind), IntText(b[i].col), IntText(b[i].row), BoolText(b[i].isRed));
    assert [Header(turn)] + PieceLines(b[..i + 1]) == ([Header(turn)] + PieceLines(b[..i])) + [line];
    UnlinesSnoc([Header(turn)] + PieceLines(b[..i]), line);
  }
}
