// The game state of ChessModel as a value: the piece list as a sequence of
// piece states plus the turn flag, turn counter, game-over flag and winner.
// These functions are the specification that the methods of Chess.ChessModel
// are proved against; the lemmas state what the game promises about them.
module GameRules {
  import opened Options
  import opened Geometry
  import opened Pieces
  import RamPiece

  /** The piece list, in list order. */
  type Board = seq<PieceState>

  /** isRedTurn, turnCount, gameOver and winner, with the board. */
  datatype GameState = GameState(board: Board, isRedTurn: bool, turnCount: int, gameOver: bool, winner: string)

  // ---------------------------------------------------------------- lookup

  predicate At(s: PieceState, c: int, r: int) {
    s.col == c && s.row == r
  }

  /** The occupied cells. */
  function Squares(b: Board): set<Square> {
    set j | 0 <= j < |b| :: (b[j].col, b[j].row)
  }

  /** getPiece as a position in the list: the first piece standing on (c, r). */
  function IndexAt(b: Board, c: int, r: int): (k: Option<nat>)
    ensures k.Some? ==> k.value < |b| && At(b[k.value], c, r)
    ensures k.Some? ==> forall j :: 0 <= j < k.value ==> !At(b[j], c, r)
    ensures k.None? ==> forall j :: 0 <= j < |b| ==> !At(b[j], c, r)
    ensures k.Some? <==> (c, r) in Squares(b)
  {
    if |b| == 0 then None
    else if At(b[0], c, r) then
      assert (b[0].col, b[0].row) in Squares(b);
      Some(0)
    else
      match IndexAt(b[1..], c, r)
      case None =>
        assert forall j :: 1 <= j < |b| ==> b[j] == b[1..][j - 1];
        None
      case Some(k) =>
        assert (b[1..][k].col, b[1..][k].row) in Squares(b);
        Some(k + 1)
  }

  /** Every piece on the board. */
  predicate AllInBounds(b: Board) {
    forall j :: 0 <= j < |b| ==> InBounds(b[j].col, b[j].row)
  }

  /** No two pieces on one cell. */
  predicate DistinctSquares(b: Board) {
    forall i, j :: 0 <= i < j < |b| ==> !At(b[i], b[j].col, b[j].row)
  }

  /** A well-placed board: every piece in bounds, no two on one cell. */
  predicate Placed(b: Board) {
    AllInBounds(b) && DistinctSquares(b)
  }

  /** On a well-placed board the piece that getPiece finds on a piece's own
      cell is that piece. */
  lemma IndexAtOwnSquare(b: Board, i: nat)
    requires DistinctSquares(b) && i < |b|
    ensures IndexAt(b, b[i].col, b[i].row) == Some(i)
  {
    var k := IndexAt(b, b[i].col, b[i].row);
    assert k.Some? by {
      assert (b[i].col, b[i].row) in Squares(b);
    }
  }

  // ---------------------------------------------------------- initial layout

  /** The Rams initializeBoard's loop adds for columns 0 .. n - 1: per
      column a Red one on row 6, then a Blue one on row 1. */
  function RamPairs(n: nat): Board {
    if n == 0 then [] else RamPairs(n - 1) + [Fresh(Ram, n - 1, 6, true), Fresh(Ram, n - 1, 1, false)]
  }

  /** The ten pieces initializeBoard adds after the Rams, in order. */
  function BackRanks(): Board {
    [ Fresh(Biz, 1, 7, true), Fresh(Biz, 3, 7, true),
      Fresh(Biz, 1, 0, false), Fresh(Biz, 3, 0, false),
      Fresh(Tor, 4, 7, true), Fresh(Tor, 0, 0, false),
      Fresh(Xor, 4, 0, false), Fresh(Xor, 0, 7, true),
      Fresh(Sau, 2, 7, true), Fresh(Sau, 2, 0, false) ]
  }

  /** initializeBoard: the twenty pieces in the order the source adds them. */
  function InitialLayout(): Board {
    RamPairs(Cols) + BackRanks()
  }

  /** The starting board has twenty pieces, all on the board, no two on one cell. */
  lemma InitialLayoutPlaced()
    ensures |InitialLayout()| == 20
    ensures Placed(InitialLayout())
  {
    var rams, back := RamPairs(Cols), BackRanks();
    RamPairsPlaced(Cols);
    BackRanksPlaced();
    var b := rams + back;
    assert AllInBounds(b);
    forall i, j | 0 <= i < j < |b|
      ensures !At(b[i], b[j].col, b[j].row)
    {
      if j < |rams| {
        assert b[i] == rams[i] && b[j] == rams[j];
      } else if i >= |rams| {
        assert b[i] == back[i - |rams|] && b[j] == back[j - |rams|];
      } else {
        assert b[i].row == 1 || b[i].row == 6;
        assert b[j].row == 0 || b[j].row == 7;
      }
    }
  }

  /** The Rams of columns 0 .. n - 1 are at list positions 2c (Red, row 6)
      and 2c + 1 (Blue, row 1). */
  lemma {:induction false} RamPairsAt(n: nat, j: nat)
    requires j < 2 * n
    ensures |RamPairs(n)| == 2 * n
    ensures RamPairs(n)[j] == Fresh(Ram, j / 2, if j % 2 == 0 then 6 else 1, j % 2 == 0)
  {
    if j < 2 * (n - 1) {
      RamPairsAt(n - 1, j);
    } else {
      RamPairsLength(n - 1);
    }
  }

  lemma {:induction false} RamPairsLength(n: nat)
    ensures |RamPairs(n)| == 2 * n
  {
    if n > 0 {
      RamPairsLength(n - 1);
    }
  }

  /** The Rams stand on rows 1 and 6 of columns 0 .. 4, one per cell. */
  lemma RamPairsPlaced(n: nat)
    requires n <= Cols
    ensures |RamPairs(n)| == 2 * n && Placed(RamPairs(n))
    ensures forall j :: 0 <= j < |RamPairs(n)| ==> RamPairs(n)[j].row == 1 || RamPairs(n)[j].row == 6
  {
    var rams := RamPairs(n);
    RamPairsLength(n);
    forall j | 0 <= j < |rams|
      ensures InBounds(rams[j].col, rams[j].row) && (rams[j].row == 1 || rams[j].row == 6)
    {
      RamPairsAt(n, j);
    }
    forall i, j | 0 <= i < j < |rams|
      ensures !At(rams[i], rams[j].col, rams[j].row)
    {
      RamPairsAt(n, i);
      RamPairsAt(n, j);
    }
  }

  /** The other ten pieces stand on rows 0 and 7, one per cell. */
  lemma BackRanksPlaced()
    ensures |BackRanks()| == 10 && Placed(BackRanks())
    ensures forall j :: 0 <= j < 10 ==> BackRanks()[j].row == 0 || BackRanks()[j].row == 7
  {
    var b := BackRanks();
    forall i, j | 0 <= i < j < |b|
      ensures !At(b[i], b[j].col, b[j].row)
    {
      assert RowMajor(b[i].col, b[i].row) != RowMajor(b[j].col, b[j].row);
    }
  }

  // ------------------------------------------------------ flipBoard, flipImage

  /** flipBoard on one piece: rotate by 180 degrees and toggle the orientation. */
  function FlipPiece(s: PieceState): PieceState {
    Toggled(s.(col := Rotate(s.col, s.row).0, row := Rotate(s.col, s.row).1))
  }

  /** flipBoard. */
  function FlipAll(b: Board): Board {
    seq(|b|, j requires 0 <= j < |b| => FlipPiece(b[j]))
  }

  /** flipImage: every orientation flag toggled, positions untouched. */
  function ToggleAll(b: Board): Board {
    seq(|b|, j requires 0 <= j < |b| => Toggled(b[j]))
  }

  /** Flipping the board twice is the identity. */
  lemma FlipAllTwice(b: Board)
    ensures FlipAll(FlipAll(b)) == b
  {
    assert forall j :: 0 <= j < |b| ==> FlipAll(FlipAll(b))[j] == b[j];
  }

  /** flipImage twice leaves every orientation flag as it was. */
  lemma ToggleAllTwice(b: Board)
    ensures ToggleAll(ToggleAll(b)) == b
  {
    assert forall j :: 0 <= j < |b| ==> ToggleAll(ToggleAll(b))[j] == b[j];
  }

  /** Flipping the board keeps every piece on the board and squares distinct. */
  lemma FlipAllPlaced(b: Board)
    requires Placed(b)
    ensures Placed(FlipAll(b))
  {
    var f := FlipAll(b);
    forall i, j | 0 <= i < j < |f|
      ensures !At(f[i], f[j].col, f[j].row)
    {
      assert !At(b[i], b[j].col, b[j].row);
    }
  }

  // ---------------------------------------------------- Tor/Xor alternation

  /** The kind a Tor/Xor swap turns a kind into. */
  function Swapped(k: Kind): Kind {
    match k
    case Tor => Xor
    case Xor => Tor
    case _ => k
  }

  /** The list entry after the swap: a Tor or Xor is replaced by a newly built
      piece of the other kind at the same cell and team; others are untouched. */
  function SwapRole(s: PieceState): PieceState {
    if s.kind == Tor || s.kind == Xor then Fresh(Swapped(s.kind), s.col, s.row, s.isRed) else s
  }

  /** The swap loop of endTurn over the whole list. */
  function SwapRoles(b: Board): Board {
    seq(|b|, j requires 0 <= j < |b| => SwapRole(b[j]))
  }

  /** The swap keeps every entry's list position, cell and team; a Tor or Xor
      entry becomes a newly built piece of the other kind, so its orientation
      flag is reset to false; every other entry is untouched. */
  lemma SwapRolesEffect(b: Board, j: nat)
    requires j < |b|
    ensures |SwapRoles(b)| == |b|
    ensures var s, t := b[j], SwapRoles(b)[j];
      && t.kind == Swapped(s.kind) && t.col == s.col && t.row == s.row && t.isRed == s.isRed
      && (s.kind == Tor || s.kind == Xor ==> !t.flipped)
      && (s.kind != Tor && s.kind != Xor ==> t == s)
  {
  }

  /** endTurn: toggle the turn, count it, swap Tor and Xor when the new count
      is a multiple of four, then rotate the board. */
  function EndTurnSpec(g: GameState): (h: GameState)
    ensures |h.board| == |g.board|
  {
    var count := g.turnCount + 1;
    var b := if count % 4 == 0 then SwapRoles(g.board) else g.board;
    GameState(FlipAll(b), !g.isRedTurn, count, g.gameOver, g.winner)
  }

  /** What endTurn does to each piece: same list position and team, cell
      rotated, kind swapped exactly when the new count is a multiple of four,
      orientation toggled (a swapped-in piece is new, so its flag ends up
      toggled from false), and nothing else about the game changes. */
  lemma EndTurnEffect(g: GameState, j: nat)
    requires j < |g.board|
    ensures var h := EndTurnSpec(g);
      && |h.board| == |g.board|
      && h.isRedTurn == !g.isRedTurn && h.turnCount == g.turnCount + 1
      && h.gameOver == g.gameOver && h.winner == g.winner
      && h.board[j].isRed == g.board[j].isRed
      && (h.board[j].col, h.board[j].row) == Rotate(g.board[j].col, g.board[j].row)
      && h.board[j].kind == (if h.turnCount % 4 == 0 then Swapped(g.board[j].kind) else g.board[j].kind)
      && (var renewed := h.turnCount % 4 == 0 && (g.board[j].kind == Tor || g.board[j].kind == Xor);
          && h.board[j].flipped == (if renewed then true else !g.board[j].flipped)
          && h.board[j].reachEnd == (if renewed then false else g.board[j].reachEnd))
  {
  }

  /** endTurn keeps every piece on the board and squares distinct. */
  lemma EndTurnPlaced(g: GameState)
    requires Placed(g.board)
    ensures Placed(EndTurnSpec(g).board)
  {
    var count := g.turnCount + 1;
    var b := if count % 4 == 0 then SwapRoles(g.board) else g.board;
    assert forall j :: 0 <= j < |b| ==> (b[j].col, b[j].row) == (g.board[j].col, g.board[j].row);
    assert Placed(b);
    FlipAllPlaced(b);
  }

  /** n consecutive endTurn calls. */
  function EndTurns(g: GameState, n: nat): (h: GameState)
    ensures |h.board| == |g.board|
  {
    if n == 0 then g else EndTurnSpec(EndTurns(g, n - 1))
  }

  /** How many of the counts t + 1 .. t + n are multiples of four. */
  function Multiples(t: int, n: nat): nat {
    if n == 0 then 0 else Multiples(t, n - 1) + (if (t + n) % 4 == 0 then 1 else 0)
  }

  /** Any four consecutive counts contain exactly one multiple of four. */
  lemma FourConsecutive(t: int)
    ensures Multiples(t, 4) == 1
  {
    var q := t % 4;
    assert t == 4 * (t / 4) + q;
    assert Multiples(t, 1) == (if q == 3 then 1 else 0);
    assert Multiples(t, 2) == (if q >= 2 then 1 else 0);
    assert Multiples(t, 3) == (if q >= 1 then 1 else 0);
  }

  /** After n turns, the piece at list position j has swapped kind once per
      multiple of four crossed, and sits on its original cell after an even
      number of turns and on the rotated cell after an odd number. */
  lemma EndTurnsEffect(g: GameState, n: nat, j: nat)
    requires j < |g.board|
    ensures var h := EndTurns(g, n);
      && |h.board| == |g.board|
      && h.turnCount == g.turnCount + n
      && h.isRedTurn == (if n % 2 == 0 then g.isRedTurn else !g.isRedTurn)
      && h.board[j].isRed == g.board[j].isRed
      && (h.board[j].col, h.board[j].row)
           == (if n % 2 == 0 then (g.board[j].col, g.board[j].row) else Rotate(g.board[j].col, g.board[j].row))
      && h.board[j].kind
           == (if Multiples(g.turnCount, n) % 2 == 0 then g.board[j].kind else Swapped(g.board[j].kind))
  {
    EndTurnsMotion(g, n, j);
    EndTurnsKind(g, n, j);
  }

  /** The turn, count, team and cell part of EndTurnsEffect. */
  lemma {:induction false} EndTurnsMotion(g: GameState, n: nat, j: nat)
    requires j < |g.board|
    ensures var h := EndTurns(g, n);
      && h.turnCount == g.turnCount + n
      && h.isRedTurn == (if n % 2 == 0 then g.isRedTurn else !g.isRedTurn)
      && h.board[j].isRed == g.board[j].isRed
      && (h.board[j].col, h.board[j].row)
           == (if n % 2 == 0 then (g.board[j].col, g.board[j].row) else Rotate(g.board[j].col, g.board[j].row))
  {
    if n > 0 {
      EndTurnsMotion(g, n - 1, j);
      EndTurnEffect(EndTurns(g, n - 1), j);
    }
  }

  /** The kind part of EndTurnsEffect. */
  lemma {:induction false} EndTurnsKind(g: GameState, n: nat, j: nat)
    requires j < |g.board|
    ensures var h := EndTurns(g, n);
      && h.turnCount == g.turnCount + n
      && h.board[j].kind
           == (if Multiples(g.turnCount, n) % 2 == 0 then g.board[j].kind else Swapped(g.board[j].kind))
  {
    if n > 0 {
      EndTurnsKind(g, n - 1, j);
      EndTurnEffect(EndTurns(g, n - 1), j);
    }
  }

  /** Every block of 4m consecutive counts holds exactly m multiples of four. */
  lemma {:induction false} MultiplesOfFour(t: int, m: nat)
    ensures Multiples(t, 4 * m) == m
  {
    if m > 0 {
      MultiplesOfFour(t, m - 1);
      MultiplesSplit(t, 4 * (m - 1), 4);
      FourConsecutive(t + 4 * (m - 1));
    }
  }

  /** After 4m turns from any count, every piece is back on its own cell with
      its own team, it is the same side's turn, and every Tor and Xor has swapped
      kind m times: swapped when m is odd, restored when m is even. */
  lemma RolePeriod(g: GameState, m: nat, j: nat)
    requires j < |g.board|
    ensures var h := EndTurns(g, 4 * m);
      && h.turnCount == g.turnCount + 4 * m
      && h.isRedTurn == g.isRedTurn
      && h.board[j].isRed == g.board[j].isRed
      && (h.board[j].col, h.board[j].row) == (g.board[j].col, g.board[j].row)
      && h.board[j].kind == (if m % 2 == 0 then g.board[j].kind else Swapped(g.board[j].kind))
  {
    EndTurnsEffect(g, 4 * m, j);
    MultiplesOfFour(g.turnCount, m);
  }

  /** Counting over n + m turns splits at n. */
  lemma {:induction false} MultiplesSplit(t: int, n: nat, m: nat)
    ensures Multiples(t, n + m) == Multiples(t, n) + Multiples(t + n, m)
  {
    if m > 0 {
      MultiplesSplit(t, n, m - 1);
    }
  }

  // ---------------------------------------------------------------- makeMove

  /** The list without its k-th entry (ArrayList.remove of that element). */
  function RemoveAt(b: Board, k: nat): Board
    requires k < |b|
  {
    seq(|b| - 1, j requires 0 <= j < |b| - 1 => if j < k then b[j] else b[j + 1])
  }

  /** makeMove up to its final endTurn call, for the mover at list position
      mi and the captured piece at list position ci (None when the
      destination was empty): relocate the mover; on a capture set gameOver to
      "the capture was a Sau", and on a Sau capture set the winner to the team
      opposite the Sau and clear the list, otherwise remove the captured piece. */
  function MoveBeforeEndTurn(g: GameState, mi: nat, ci: Option<nat>, nc: int, nr: int): GameState
    requires mi < |g.board|
    requires ci.Some? ==> ci.value < |g.board|
  {
    var moved := g.board[mi := g.board[mi].(col := nc, row := nr)];
    match ci
    case None => g.(board := moved)
    case Some(k) =>
      var captured := g.board[k];
      if captured.kind == Sau then
        g.(board := [], gameOver := true, winner := if captured.isRed then "Blue" else "Red")
      else
        g.(board := RemoveAt(moved, k), gameOver := false)
  }

  /** makeMove: the above, then endTurn in every case. */
  function MakeMoveSpec(g: GameState, mi: nat, ci: Option<nat>, nc: int, nr: int): GameState
    requires mi < |g.board|
    requires ci.Some? ==> ci.value < |g.board|
  {
    EndTurnSpec(MoveBeforeEndTurn(g, mi, ci, nc, nr))
  }

  /** The conditions of isValidMove that concern the destination: it is on the
      board, ci is what getPiece finds there, and that piece is not the mover's
      team (which also makes it a different piece from the mover). */
  predicate FairDestination(b: Board, mi: nat, ci: Option<nat>, nc: int, nr: int)
    requires mi < |b|
  {
    && InBounds(nc, nr)
    && ci == IndexAt(b, nc, nr)
    && (ci.Some? ==> b[ci.value].isRed != b[mi].isRed)
  }

  /** A move onto an empty cell keeps the number of pieces. */
  lemma QuietMoveKeepsCount(g: GameState, mi: nat, nc: int, nr: int)
    requires mi < |g.board|
    ensures |MakeMoveSpec(g, mi, None, nc, nr).board| == |g.board|
  {
  }

  /** Capturing anything but a Sau removes exactly the captured piece: the count
      drops by one, the game is not over, and the turn passes. */
  lemma CaptureRemovesOne(g: GameState, mi: nat, k: nat, nc: int, nr: int)
    requires mi < |g.board| && k < |g.board| && g.board[k].kind != Sau
    ensures var h := MakeMoveSpec(g, mi, Some(k), nc, nr);
      && |h.board| == |g.board| - 1
      && !h.gameOver
      && h.isRedTurn == !g.isRedTurn && h.turnCount == g.turnCount + 1
  {
  }

  /** Capturing a Sau ends the game: gameOver is set, the winner is the team
      opposite the captured Sau, the list is empty, and endTurn still toggles
      the turn and counts it. */
  lemma SauCaptureEndsGame(g: GameState, mi: nat, k: nat, nc: int, nr: int)
    requires mi < |g.board| && k < |g.board| && g.board[k].kind == Sau
    ensures var h := MakeMoveSpec(g, mi, Some(k), nc, nr);
      && h.gameOver
      && h.winner == (if g.board[k].isRed then "Blue" else "Red")
      && h.board == []
      && h.isRedTurn == !g.isRedTurn && h.turnCount == g.turnCount + 1
  {
  }

  /** The board right after relocating the mover and removing a non-Sau capture. */
  function AfterMove(b: Board, mi: nat, ci: Option<nat>, nc: int, nr: int): Board
    requires mi < |b| && (ci.Some? ==> ci.value < |b|)
  {
    var moved := b[mi := b[mi].(col := nc, row := nr)];
    if ci.Some? then RemoveAt(moved, ci.value) else moved
  }

  /** The mover's list position once the captured piece is gone. */
  function MoverIndex(mi: nat, ci: Option<nat>): nat {
    if ci.Some? && ci.value < mi then mi - 1 else mi
  }

  /** Relocating onto a fair destination and removing the capture keeps the
      board well placed, and the mover stands on the destination. */
  lemma AfterMovePlaced(b: Board, mi: nat, ci: Option<nat>, nc: int, nr: int)
    requires mi < |b| && Placed(b) && FairDestination(b, mi, ci, nc, nr)
    ensures ci.Some? ==> ci.value != mi
    ensures var a := AfterMove(b, mi, ci, nc, nr);
      && Placed(a)
      && MoverIndex(mi, ci) < |a|
      && a[MoverIndex(mi, ci)] == b[mi].(col := nc, row := nr)
  {
    var moved := b[mi := b[mi].(col := nc, row := nr)];
    var a := AfterMove(b, mi, ci, nc, nr);
    // the only pieces the mover could share its new cell with
    assert forall j :: 0 <= j < |b| && j != mi && At(b[j], nc, nr) ==> ci == Some(j) by {
      forall j | 0 <= j < |b| && j != mi && At(b[j], nc, nr)
        ensures ci == Some(j)
      {
        IndexAtOwnSquare(b, j);
      }
    }
    if ci.Some? {
      var k := ci.value;
      assert k != mi;
      forall i, j | 0 <= i < j < |a|
        ensures !At(a[i], a[j].col, a[j].row)
      {
        var i' := if i < k then i else i + 1;
        var j' := if j < k then j else j + 1;
        assert a[i] == moved[i'] && a[j] == moved[j'];
        assert i' < j' && i' != k && j' != k;
      }
    } else {
      forall i, j | 0 <= i < j < |a|
        ensures !At(a[i], a[j].col, a[j].row)
      {
      }
    }
  }

  /** A move to a fair destination that does not take a Sau keeps the board
      well placed, and afterwards (the board having been rotated by endTurn)
      the mover, at its list position, stands on the rotated destination
      (4 - newCol, 7 - newRow). */
  lemma MovePreservesPlacement(g: GameState, mi: nat, ci: Option<nat>, nc: int, nr: int)
    requires mi < |g.board| && Placed(g.board) && FairDestination(g.board, mi, ci, nc, nr)
    requires ci.Some? ==> g.board[ci.value].kind != Sau
    ensures var h := MakeMoveSpec(g, mi, ci, nc, nr);
      && Placed(h.board)
      && |h.board| == (if ci.Some? then |g.board| - 1 else |g.board|)
      && MoverIndex(mi, ci) < |h.board|
      && (h.board[MoverIndex(mi, ci)].col, h.board[MoverIndex(mi, ci)].row) == Rotate(nc, nr)
      && h.board[MoverIndex(mi, ci)].isRed == g.board[mi].isRed
  {
    AfterMovePlaced(g.board, mi, ci, nc, nr);
    var a := AfterMove(g.board, mi, ci, nc, nr);
    var g' := if ci.Some? then g.(board := a, gameOver := false) else g.(board := a);
    assert MakeMoveSpec(g, mi, ci, nc, nr) == EndTurnSpec(g');
    EndTurnPlaced(g');
    EndTurnEffect(g', MoverIndex(mi, ci));
  }

  // ------------------------------------------------------------- move checks

  /** isValidMove for the mover in state s and destination (c, r) on board b,
      where whose turn it is is `turn`: the first component is the verdict, the
      second the mover's state afterwards. Checks 1-3 (turn, bounds, not a
      same-team capture) short-circuit before the kind's isValid query, whose
      side effect is kept; then isValid and isCollide decide. */
  ghost function CellCheck(b: Board, turn: bool, s: PieceState, c: int, r: int): (bool, PieceState) {
    var capture := IndexAt(b, c, r);
    if s.isRed != turn then (false, s)
    else if !InBounds(c, r) then (false, s)
    else if capture.Some? && b[capture.value].isRed == s.isRed then (false, s)
    else
      var t := QueryStep(s);
      (Accepts(t, c, r) && !Blocked(t, c, r, Squares(b)), t)
  }

  /** A move onto the mover's own cell is always rejected on a well-placed
      board: getPiece finds the mover itself there, a same-team piece. */
  lemma OwnSquareRejected(b: Board, turn: bool, i: nat, s: PieceState)
    requires DistinctSquares(b) && i < |b|
    requires s.col == b[i].col && s.row == b[i].row && s.isRed == b[i].isRed
    ensures !CellCheck(b, turn, s, s.col, s.row).0
    ensures CellCheck(b, turn, s, s.col, s.row).1 == s
  {
    IndexAtOwnSquare(b, i);
  }

  /** getValidMoves over the first k cells in row-major order: the accepted
      cells in scan order, and the mover's state after all the queries. */
  ghost function Enumerate(b: Board, turn: bool, s: PieceState, k: nat): (seq<Square>, PieceState)
    requires k <= Cols * Rows
  {
    if k == 0 then ([], s)
    else
      var prev := Enumerate(b, turn, s, k - 1);
      var sq := CellAt(k - 1);
      var check := CellCheck(b, turn, prev.1, sq.0, sq.1);
      (if check.0 then prev.0 + [sq] else prev.0, check.1)
  }

  /** Cells on the board, listed in strictly increasing row-major order, all
      before position k. */
  predicate ScanOrdered(cells: seq<Square>, k: int) {
    && (forall i :: 0 <= i < |cells| ==> InBounds(cells[i].0, cells[i].1))
    && (forall i :: 0 <= i < |cells| ==> RowMajor(cells[i].0, cells[i].1) < k)
    && (forall i, j :: 0 <= i < j < |cells| ==>
          RowMajor(cells[i].0, cells[i].1) < RowMajor(cells[j].0, cells[j].1))
  }

  /** Every listed cell is on the board, the list is strictly increasing in
      row-major order (so no cell appears twice), and only cells scanned so far
      appear. */
  lemma {:induction false} EnumerateOrdered(b: Board, turn: bool, s: PieceState, k: nat)
    requires k <= Cols * Rows
    ensures ScanOrdered(Enumerate(b, turn, s, k).0, k)
  {
    if k > 0 {
      EnumerateOrdered(b, turn, s, k - 1);
      var prev := Enumerate(b, turn, s, k - 1).0;
      var sq := CellAt(k - 1);
      assert RowMajor(sq.0, sq.1) == k - 1;
      var cells := Enumerate(b, turn, s, k).0;
      assert cells == prev || cells == prev + [sq];
      forall i | 0 <= i < |cells|
        ensures InBounds(cells[i].0, cells[i].1) && RowMajor(cells[i].0, cells[i].1) < k
      {
        if i < |prev| {
          assert cells[i] == prev[i];
        } else {
          assert cells[i] == sq;
        }
      }
      forall i, i' | 0 <= i < i' < |cells|
        ensures RowMajor(cells[i].0, cells[i].1) < RowMajor(cells[i'].0, cells[i'].1)
      {
        if i' < |prev| {
          assert cells[i] == prev[i] && cells[i'] == prev[i'];
        } else {
          assert cells[i] == prev[i] && cells[i'] == sq;
        }
      }
    }
  }

  /** A cell scanned before position k is listed exactly when the check made
      for it, with the mover's state at that point of the scan, accepted it. */
  lemma {:induction false} EnumerateMembers(b: Board, turn: bool, s: PieceState, k: nat, j: nat)
    requires j < k <= Cols * Rows
    ensures CellAt(j) in Enumerate(b, turn, s, k).0
        <==> CellCheck(b, turn, Enumerate(b, turn, s, j).1, CellAt(j).0, CellAt(j).1).0
  {
    EnumerateOrdered(b, turn, s, k - 1);
    if j < k - 1 {
      EnumerateMembers(b, turn, s, k - 1, j);
      var cells := Enumerate(b, turn, s, k - 1).0;
      var sq := CellAt(k - 1);
      assert RowMajor(sq.0, sq.1) == k - 1 && RowMajor(CellAt(j).0, CellAt(j).1) == j;
    } else {
      EnumerateOrdered(b, turn, s, j);
      var cells := Enumerate(b, turn, s, j).0;
      forall i | 0 <= i < |cells|
        ensures cells[i] != CellAt(j)
      {
      }
    }
  }

  /** For a mover whose queries have no side effect (any piece but a Ram on
      row 0 or 7), the scan keeps its state, and a cell is listed exactly when
      isValidMove accepts it. */
  lemma {:induction false} EnumerateStateless(b: Board, turn: bool, s: PieceState, k: nat, j: nat)
    requires s.kind != Ram || !RamPiece.AtEdge(s.row)
    requires j < k <= Cols * Rows
    ensures Enumerate(b, turn, s, k).1 == s
    ensures CellAt(j) in Enumerate(b, turn, s, k).0 <==> CellCheck(b, turn, s, CellAt(j).0, CellAt(j).1).0
  {
    StatelessPrefix(b, turn, s, k);
    StatelessPrefix(b, turn, s, j);
    EnumerateMembers(b, turn, s, k, j);
  }

  lemma {:induction false} StatelessPrefix(b: Board, turn: bool, s: PieceState, k: nat)
    requires s.kind != Ram || !RamPiece.AtEdge(s.row)
    requires k <= Cols * Rows
    ensures Enumerate(b, turn, s, k).1 == s
  {
    if k > 0 {
      StatelessPrefix(b, turn, s, k - 1);
    }
  }

  /** What isValidMove reads of each listed piece: kind, cell and team. */
  function Layout(b: Board): (l: seq<(Kind, int, int, bool)>)
    ensures |l| == |b|
  {
    seq(|b|, j requires 0 <= j < |b| => (b[j].kind, b[j].col, b[j].row, b[j].isRed))
  }

  predicate SameLayout(b: Board, b': Board) {
    Layout(b) == Layout(b')
  }

  /** Boards that agree on every piece's kind, cell and team give the same
      verdicts: isValidMove reads nothing else of the other pieces. */
  lemma SameLayoutCheck(b: Board, b': Board, turn: bool, s: PieceState, c: int, r: int)
    requires SameLayout(b, b')
    ensures CellCheck(b, turn, s, c, r) == CellCheck(b', turn, s, c, r)
  {
    SameLayoutLookup(b, b', c, r);
    SameLayoutSquares(b, b');
    var k := IndexAt(b, c, r);
    if k.Some? {
      assert Layout(b)[k.value] == Layout(b')[k.value];
    }
  }

  /** Boards with the same layout occupy the same cells. */
  lemma SameLayoutSquares(b: Board, b': Board)
    requires SameLayout(b, b')
    ensures Squares(b) == Squares(b')
  {
    forall sq | sq in Squares(b) ensures sq in Squares(b') {
      var j :| 0 <= j < |b| && sq == (b[j].col, b[j].row);
      assert Layout(b)[j] == Layout(b')[j];
      assert sq == (b'[j].col, b'[j].row);
    }
    forall sq | sq in Squares(b') ensures sq in Squares(b) {
      var j :| 0 <= j < |b'| && sq == (b'[j].col, b'[j].row);
      assert Layout(b)[j] == Layout(b')[j];
      assert sq == (b[j].col, b[j].row);
    }
  }

  /** Boards with the same layout are equally well placed. */
  lemma SameLayoutPlaced(b: Board, b': Board)
    requires SameLayout(b, b') && Placed(b)
    ensures Placed(b')
  {
    forall j | 0 <= j < |b'| ensures InBounds(b'[j].col, b'[j].row) {
      assert Layout(b)[j] == Layout(b')[j];
    }
    forall i, j | 0 <= i < j < |b'| ensures !At(b'[i], b'[j].col, b'[j].row) {
      assert Layout(b)[i] == Layout(b')[i];
      assert Layout(b)[j] == Layout(b')[j];
    }
  }

  lemma {:induction false} SameLayoutLookup(b: Board, b': Board, c: int, r: int)
    requires SameLayout(b, b')
    ensures IndexAt(b, c, r) == IndexAt(b', c, r)
  {
    if |b| > 0 {
      assert Layout(b)[0] == Layout(b')[0];
      if !At(b[0], c, r) {
        assert Layout(b[1..]) == Layout(b)[1..];
        assert Layout(b'[1..]) == Layout(b')[1..];
        SameLayoutLookup(b[1..], b'[1..], c, r);
      }
    }
  }
}
