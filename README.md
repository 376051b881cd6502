# Chess-in-Java rules engine, modelled in Dafny

This project models the game state and rules of a 5 × 8 chess variant with
the five piece kinds Ram, Biz, Tor, Xor and Sau, written in Java, and proves
what the game promises about it.

- `ChessModel` is modelled as the class `Chess.ChessModel`. It keeps the piece
  list (`seq<Piece>`), the turn flag, the turn counter, the game-over flag and
  the winner, and updates them in place. Its methods follow the Java code step
  by step and are proved against value-level specifications. The ghost view
  `Game()` is the whole game as a `GameRules.GameState`, and `Snapshot()` is
  the list of piece states.
- `Pieces` and its five subclasses are modelled as the class `Pieces.Piece`,
  with a constant `kind` tag instead of subclassing. Its setters,
  `flipOrientation` and the Ram's stateful `isAtEdge`/`isValid` update its
  fields in place.
- The movement rule of each kind is a pure predicate in its own module:
  `RamPiece`, `BizPiece`, `TorPiece`, `XorPiece` and `SauPiece`. The
  path-obstruction rules of Tor and Xor are quantified predicates there. The
  Java scans that implement them need the board, so they are methods of
  `ChessModel` (`TorCollide`, `XorCollide`).
- `MovePiece` is an immutable datatype (module `Moves`). Its constructor needs
  the board, so it is `ChessModel.NewMove`.
- `GameRules` holds the value-level specification:
  - the initial layout;
  - `endTurn` with the Tor/Xor swap and the 180° board rotation;
  - `makeMove`;
  - the per-cell `isValidMove` verdict (`CellCheck`);
  - the row-major enumeration of `getValidMoves` (`Enumerate`).
- `SaveFormat` holds the text written by `saveGame` and the parser of
  `loadGame`. The Java library behaviour they rely on is written out as
  string functions:
  - `String.split(",")` drops trailing empty fields;
  - `Integer.parseInt` takes an optional sign, decimal digits, and a value in
    the `int` range;
  - `Boolean.parseBoolean` is "true" in any letter case;
  - `BufferedReader.readLine` ends a line at `\n`, `\r` or `\r\n`.

Behaviour of the code worth noting (the model follows it):

- `initializeBoard` places 20 pieces (10 per side).
- `makeMove` calls `endTurn` even after a Sau capture has ended the game. The
  turn is toggled and counted on the empty board.
- A blank or malformed line in a save file is not skipped. `split` yields a
  single field, `parts[1]` throws, and the exception escapes `loadGame`. The
  pieces read so far stay in the list. Only lines with an unknown piece name
  are skipped.
- `resetBoard` does not reset `winner`. `loadGame` resets neither `gameOver`
  nor `turnCount`.

Other behaviour the source has and the model keeps:

- A Ram's legality query toggles its `reachEnd` flag on rows 0 and 7 every
  time it is asked. So `getValidMoves` changes the selected Ram, and the
  direction it reports depends on how often it was queried (`RamQueryParity`).
- Any capture sets `gameOver` to "the capture was a Sau".
- `isValidMove` never looks at `gameOver`.
- A swapped Tor/Xor is a new object whose orientation flag is false.

## Model

| member | source | states |
|---|---|---|
| Geometry.Rotate | ChessModel.java:309-310 | the cell flipBoard moves (c, r) to is on the board exactly when (c, r) is, and rotating it back gives (c, r) |
| Geometry.CellAt | ChessModel.java:201-202 | the k-th cell of the row-major scan (rows outer, columns inner) is on the board and has scan position k |
| Geometry.CellAtRowMajor | ChessModel.java:201-202 | every board cell is reached by the scan exactly at its row-major position |
| RamPiece.OneRowSameColumn | Ram.java:50-52 | a Ram never accepts another column or a row distance other than one |
| BizPiece.AcceptsIffLShape | Biz.java:26 | the product test accepts exactly the eight L-shaped offsets (±1, ±2), (±2, ±1) |
| BizPiece.StraightTargetsRejected | Biz.java:26 | the Biz's own square and every cell on its row or column are rejected |
| BizPiece.ExampleFromTwoFour | Biz.java:26 | from (2, 4) the eight L targets are accepted and (2, 6), (1, 4) rejected |
| BizPiece.RotationInvariant | Biz.java:26 | a target is accepted iff the rotated target is accepted from the rotated square |
| TorPiece.BlockedIffPathOccupied | Tor.java:38-75 | for a target on the Tor's row or column, the four scans report a block iff an occupied cell lies strictly inside the straight path |
| TorPiece.NearTargetsNeverBlocked | Tor.java:40-73 | a target at king distance at most one is never blocked |
| TorPiece.ExampleBlockedColumn | Tor.java:67-73 | a Tor at (0, 0) with a piece at (0, 3) is blocked towards (0, 5) and not towards (0, 2) |
| XorPiece.BlockedIffPathOccupied | Xor.java:35-75 | for a diagonal target, the four scans report a block iff an occupied cell lies strictly inside the diagonal path |
| XorPiece.NearTargetsNeverBlocked | Xor.java:40-71 | a target one column away is never blocked |
| XorPiece.StraightTargetsNeverBlocked | Xor.java:39-74 | a target on the Xor's row or column is never blocked, since no branch applies |
| SauPiece.AcceptsIffKingStep | Sau.java:23-55 | the eight comparisons accept exactly the targets at king distance one |
| SauPiece.OwnSquareRejected | Sau.java:54 | the Sau's own square is rejected |
| SauPiece.AcceptsIffNeighbour | Sau.java:28-51 | a target is accepted iff it is one of the eight neighbouring cells |
| SauPiece.EightNeighbours | Sau.java:28-51 | there are exactly eight neighbouring cells |
| SauPiece.InteriorTargetsOnBoard | Sau.java:28-51 | from an interior square all eight accepted targets are on the board |
| SauPiece.RotationInvariant | Sau.java:28-51 | a target is accepted iff the rotated target is accepted from the rotated square |
| Pieces.KindNameInjective | Pieces.java:195-197 | two kinds have the same name iff they are the same kind |
| Pieces.ToggledTwice | Pieces.java:137-145 | toggling the orientation twice restores the piece |
| Pieces.RamQueryOffEdge | Ram.java:46-53 | off rows 0 and 7 a query changes nothing, and the Ram accepts only (col, row - 1) before reaching an end and (col, row + 1) after |
| Pieces.RamQueryAtEdge | Ram.java:27-39 | on row 0 or 7 a query toggles reachEnd once, keeps cell, kind and team, and sets flipped to reachEnd for Red and to its negation for Blue |
| Pieces.RamQueryParity | Ram.java:29-38 | after n queries on an edge row, reachEnd is toggled iff n is odd; two queries cancel |
| Pieces.QueriesWithoutEffect | Ram.java:27-39 | any number of queries leave every piece but a Ram on an edge row unchanged |
| Pieces.QueryKeepsPlacement | Ram.java:27-39 | a query never changes a piece's kind, cell or team |
| Pieces.Piece.constructor | Pieces.java:23-32 | a new piece stores kind, column, row and team, with flipped and reachEnd false |
| Pieces.Piece.SetCol | Pieces.java:199-201 | only the column changes, to the argument |
| Pieces.Piece.SetRow | Pieces.java:203-205 | only the row changes, to the argument |
| Pieces.Piece.SetFlipped | Pieces.java:163-165 | only the orientation flag changes, to the argument |
| Pieces.Piece.FlipOrientation | Pieces.java:137-145 | only the orientation flag changes, toggled |
| Pieces.Piece.IsAtEdge | Ram.java:27-39 | the piece's new state is the query step: reachEnd toggled and flipped set on rows 0 and 7, nothing changed elsewhere |
| Pieces.Piece.IsValid | Ram.java:46-53 | the kind's isValid: the piece takes its query step, and the verdict is the kind's rule on the piece's new state |
| Moves.IsSau | MovePiece.java:42-48 | true iff the captured piece is a Sau |
| Moves.WinnerIsMover | MovePiece.java:51-53 | when an opposing piece is captured, the winner colour is the mover's team |
| GameRules.IndexAt | ChessModel.java:127-134 | getPiece's lookup: the first listed piece on (c, r), none iff no piece stands there |
| GameRules.IndexAtOwnSquare | ChessModel.java:127-134 | with distinct squares, the lookup on a piece's own cell finds that piece |
| GameRules.InitialLayoutPlaced | ChessModel.java:60-81 | the starting layout has 20 pieces, all on the board, no two on one cell |
| GameRules.RamPairsAt | ChessModel.java:62-65 | entry j of the Ram loop is the Ram of column j / 2, Red on row 6 for even j and Blue on row 1 for odd j |
| GameRules.RamPairsPlaced | ChessModel.java:62-65 | the Rams stand on rows 1 and 6, on the board, one per cell |
| GameRules.BackRanksPlaced | ChessModel.java:68-80 | the other ten pieces stand on rows 0 and 7, on the board, one per cell |
| GameRules.FlipAllTwice | ChessModel.java:307-316 | flipping the board twice is the identity |
| GameRules.ToggleAllTwice | ChessModel.java:321-325 | flipImage twice leaves every piece as it was |
| GameRules.FlipAllPlaced | ChessModel.java:307-316 | flipping keeps every piece on the board and squares distinct |
| GameRules.SwapRolesEffect | ChessModel.java:337-344 | the swap keeps every entry's list position, cell and team, turns Tor into Xor and Xor into Tor with flipped false, and leaves other entries untouched |
| GameRules.EndTurnEffect | ChessModel.java:329-352 | endTurn toggles the turn, adds one to the count, rotates every piece, swaps kinds iff the new count is a multiple of 4, toggles each orientation flag (a swapped-in piece starts from false, with reachEnd false), and keeps team, gameOver and winner |
| GameRules.SameLayoutPlaced | ChessModel.java:172-195 | a board whose cells, kinds and teams are unchanged, as after isValidMove's queries, is as well placed as before |
| GameRules.EndTurnPlaced | ChessModel.java:329-352 | endTurn keeps every piece on the board and squares distinct |
| GameRules.EndTurnsEffect | ChessModel.java:329-352 | after n turns, the count grew by n, turn and cell alternate with the parity of n, and kinds swapped once per multiple of four crossed |
| GameRules.MultiplesOfFour | ChessModel.java:336 | 4m consecutive counts hold exactly m multiples of four |
| GameRules.RolePeriod | ChessModel.java:333-345 | after 4m turns every piece is back on its cell with the same side to move, and Tor/Xor are swapped iff m is odd, so after 8 turns all kinds are restored |
| GameRules.QuietMoveKeepsCount | ChessModel.java:138-162 | a move onto an empty cell keeps the number of pieces |
| GameRules.CaptureRemovesOne | ChessModel.java:145-161 | a non-Sau capture removes exactly one piece, sets gameOver false and passes the turn |
| GameRules.SauCaptureEndsGame | ChessModel.java:145-161 | a Sau capture sets gameOver, names the team opposite the Sau as winner, empties the list, and endTurn still toggles and counts the turn |
| GameRules.AfterMovePlaced | ChessModel.java:138-168 | relocating onto an in-bounds cell not held by the mover's team, then removing the capture, keeps squares distinct and leaves the mover on the destination |
| GameRules.MovePreservesPlacement | ChessModel.java:138-162 | a valid move that does not take a Sau keeps the board well placed, changes the count by the capture, and leaves the mover on (4 - newCol, 7 - newRow) with its team |
| GameRules.OwnSquareRejected | ChessModel.java:182-184 | a move onto the mover's own cell is rejected, since getPiece finds the mover itself, a same-team piece |
| GameRules.EnumerateOrdered | ChessModel.java:199-210 | every listed cell is on the board and the list is strictly increasing in row-major order, so no cell appears twice |
| GameRules.EnumerateMembers | ChessModel.java:199-210 | a cell is listed iff isValidMove accepted it with the mover's state at that point of the scan |
| GameRules.EnumerateStateless | ChessModel.java:199-210 | for a mover without query side effects, a cell is listed iff isValidMove accepts it, and the mover is unchanged |
| SaveFormat.ParseBoolText | ChessModel.java:256 | parseBoolean reads back the text of every boolean |
| SaveFormat.ParseBoolExamples | ChessModel.java:249 | any letter case of "true" is true; "1", "yes", "" and " true" are false |
| SaveFormat.ParseInt | ChessModel.java:254-255 | a parsed value is always in the Java int range |
| SaveFormat.ParseIntText | ChessModel.java:254-255 | parseInt reads back the decimal text of every int |
| SaveFormat.ParseIntAccepts | ChessModel.java:254-255 | leading zeros and a sign are accepted |
| SaveFormat.ParseIntRejects | ChessModel.java:254-255 | the empty string, a lone sign and a non-digit are rejected |
| SaveFormat.SplitJoin | ChessModel.java:252 | split takes apart comma-joined fields without commas, when there are at least two and the last is not empty |
| SaveFormat.SplitEmptyFields | ChessModel.java:252 | an empty line splits into one empty field, and a line of commas into no fields |
| SaveFormat.ReadLinesUnlines | ChessModel.java:247-251 | readLine returns the written lines one per call |
| SaveFormat.KindOfName | ChessModel.java:277-292 | a recognised name is the name of the kind it gives |
| SaveFormat.KindOfNameOfKind | ChessModel.java:277-292 | every kind's own name is recognised as that kind |
| SaveFormat.LoadBody | ChessModel.java:251-262 | the load loop never reports a read failure, keeps the turn, and only appends to the pieces loaded before |
| SaveFormat.ParsePieceLine | ChessModel.java:252-256 | a saved piece line parses back to the piece's name, column, row and team |
| SaveFormat.ReadHeader | ChessModel.java:248-249 | the header starts with "Is" and its second field parses back to the turn flag |
| SaveFormat.ReadSavedLines | ChessModel.java:247-251 | reading the saved text line by line gives back the header and the piece lines |
| SaveFormat.LoadBodyOfPieceLines | ChessModel.java:251-262 | the load loop over saved piece lines adds every piece in order, facing !isRedTurn |
| SaveFormat.LoadSaved | ChessModel.java:229-273 | loading a save, whatever the turn before, restores the turn flag and every piece's kind, cell and team in list order, with flipped = !isRedTurn |
| SaveFormat.UnknownNameSkipped | ChessModel.java:257-261 | a well-formed line with an unknown name is skipped and the load goes on |
| SaveFormat.BlankLineThrows | ChessModel.java:252-254 | a blank line ends the load with an exception and keeps the pieces read so far |
| SaveFormat.EmptyFileThrows | ChessModel.java:247-248 | an empty file ends the load with an exception and an empty list |
| Chess.ChessModel.constructor | ChessModel.java:28-37 | a new game is the starting layout with Red to move, count 0, not over, no winner and no selection; every listed piece is a new object |
| Chess.ChessModel.InitializeBoard | ChessModel.java:60-81 | the 20 starting pieces are appended in the source's order as new objects, no object listed twice |
| Chess.ChessModel.AddRams | ChessModel.java:62-65 | the loop appends a Red Ram on row 6 and a Blue Ram on row 1 for each column |
| Chess.ChessModel.AddBackRanks | ChessModel.java:68-80 | the Biz, Tor, Xor and Sau adds append the ten back-rank pieces |
| Chess.ChessModel.GetPiece | ChessModel.java:127-134 | the result is the first listed piece on (c, r), and null iff no piece stands there |
| Chess.ChessModel.NewMove | MovePiece.java:12-20 | the move records the mover, its cell, the destination unchanged, and the piece getPiece finds on the destination |
| Chess.ChessModel.TorCollide | Tor.java:38-75 | the result is the Tor's obstruction predicate on the occupied cells |
| Chess.ChessModel.TorScanRow | Tor.java:39-55 | the left and right scans report a piece strictly between the Tor and the target column |
| Chess.ChessModel.TorScanColumn | Tor.java:57-73 | the up and down scans report a piece strictly between the Tor and the target row |
| Chess.ChessModel.XorCollide | Xor.java:35-75 | the result is the Xor's obstruction predicate on the occupied cells |
| Chess.ChessModel.IsCollide | Pieces.java:157-159 | Tor and Xor use their scans, every other kind reports no obstruction |
| Chess.ChessModel.IsValidMove | ChessModel.java:172-195 | true iff the mover's team is to move, the destination is on the board, the capture is not a team-mate, the kind's isValid accepts and isCollide is false; the query step happens iff the first three pass; no cell or team changes |
| Chess.ChessModel.GetValidMoves | ChessModel.java:199-210 | the destinations are the row-major scan of accepted cells on the board as it was, each move's capture is the piece getPiece finds on its destination, and the selected piece ends in the state the successive queries leave |
| Chess.ChessModel.ScanRow | ChessModel.java:202-207 | the inner loop extends the scan by the five cells of row r |
| Chess.ChessModel.ConsiderCell | ChessModel.java:203-206 | for (c, r) the k-th cell of the scan, the move, with the piece on (c, r) as its capture, is appended iff isValidMove accepts it, so the scan advances by one cell |
| Chess.IndexOfListed | ChessModel.java:167 | in a list without repeated objects, remove(Object)'s search for the k-th entry finds position k |
| Chess.ChessModel.Find | ChessModel.java:167 | the position of the first entry that is the given object, none iff it is not listed |
| Chess.ChessModel.Kill | ChessModel.java:166-168 | the captured piece's entry is removed, later entries shift down, and nothing changes when there is no capture or it is not listed |
| Chess.ChessModel.ClearPieces | ChessModel.java:223-225 | the list is empty |
| Chess.ChessModel.MakeMove | ChessModel.java:138-162 | the new game is the move specification: relocate, handle a capture or Sau capture, then endTurn; every listed object was listed before or is new |
| Chess.ChessModel.Capture | ChessModel.java:145-160 | a Sau capture clears the list, sets gameOver and names the winner; another capture removes that piece and sets gameOver false |
| Chess.ChessModel.Relocate | ChessModel.java:139-142 | only the mover's column and row change, to the destination |
| Chess.ChessModel.EndTurn | ChessModel.java:329-352 | the new game is the endTurn specification of the old one; the selection is kept; every listed object was listed before or is new |
| Chess.ChessModel.AdvanceTurn | ChessModel.java:331-345 | the turn toggles, the count grows by one, and the list is swapped iff the new count is a multiple of 4 |
| Chess.ChessModel.SwapTorXor | ChessModel.java:336-345 | every Tor and Xor entry is replaced by a new piece of the other kind on the same cell and team, and every other entry is the same object |
| Chess.ChessModel.SwapEntry | ChessModel.java:338-343 | entry i becomes a new object when it was a Tor or Xor and stays the same object otherwise; every other entry is the same object |
| Chess.ChessModel.FlipBoard | ChessModel.java:307-316 | every piece moves to (4 - col, 7 - row) and its orientation toggles |
| Chess.ChessModel.FlipImage | ChessModel.java:321-325 | every orientation toggles and nothing else changes |
| Chess.ChessModel.ResetBoard | ChessModel.java:296-303 | the starting layout, Red to move, count 0, not over; the winner is kept; every listed piece is a new object |
| Chess.ChessModel.SetRedTurn | ChessModel.java:356-358 | the turn flag becomes the argument |
| Chess.ChessModel.SaveGame | ChessModel.java:229-240 | the text written is the header line and one line per listed piece, in list order |
| Chess.SavedLine | ChessModel.java:233-234 | the line written for a piece is its save-format line followed by a newline |
| Chess.ChessModel.CreatePiece | ChessModel.java:277-292 | a new piece of the named kind with the given cell and team, and null iff the name is unknown |
| Chess.ChessModel.LoadGame | ChessModel.java:244-273 | the outcome, turn flag and list are the load specification of the text; count, gameOver and winner are kept; every listed piece is a new object |
| Chess.ChessModel.LoadPieces | ChessModel.java:251-262 | the loop's outcome and list are the specification of the load loop |
| Chess.ChessModel.LoadLine | ChessModel.java:252-261 | true iff the line parses; then the piece is appended facing !isRedTurn, or skipped for an unknown name |

## Left out

- Observers and notifications (`addObserver`, `notifyObservers`, `notifyWinner`) are left out: they only tell the user interface to redraw.
- Images, `squareSize`, the pixel positions `xPos`/`yPos` and their setters are left out: they are presentation state only.
- `System.out`/`System.err` logging is left out.
- The files of `saveGame` and `loadGame` are not modelled: saving returns the text, and loading takes the file's text, or `None` when it cannot be opened or read.
- An `IOException` part-way through reading a file is not modelled: the text is either fully available or not at all.
- Java `int` overflow of coordinates, of `Math.abs` and of the product `|dc| * |dr|` in `Biz.isValid` (Biz.java:26) is not modelled. The model's integers are unbounded. Pieces placed by the game stay on the 40 cells. A save file can put a piece on any `int` coordinates, and there Java's arithmetic can wrap where the model's does not.
- The `turnCount` wrap-around after 2^31 turns is not modelled. The divisibility test is unaffected, because 2^32 is a multiple of 4 and Java's remainder is 0 exactly when the Euclidean one is.
- `Integer.parseInt` accepts non-ASCII Unicode digits, which the model does not.
- The base `Pieces.isValid` (always true) is not modelled, because every kind overrides it. The base `isCollide` (always false) is modelled in `Chess.ChessModel.IsCollide`.
- `Chess.ChessModel.XorCollide` scans the four diagonal directions with one loop and a direction function, where the source has four loops. Each loop of the source runs only in its own quadrant.
- `SameTeam` has no contract of its own. It is stated through `Chess.ChessModel.IsValidMove`.
- Save and load do not persist `reachEnd`, `turnCount` or `gameOver`, as in the source. `SaveFormat.LoadSaved` states what a reload restores.
- MakeMove: requires the mover and any captured piece to be listed. `ChessController` builds each move itself, as `new MovePiece(board, board.selectedPiece, col, row)` (ChessController.java:55), and then calls `isValidMove` and `makeMove`. The mover is the piece `getPiece` found when the mouse was pressed (ChessController.java:35-37), and the capture is what `getPiece` finds in the `MovePiece` constructor, so both are listed. Not covered: a selection kept from an earlier press after that object left the list (a capture, a Tor/Xor swap, a reset or a reload) when the new press finds no piece. `getValidMoves` only feeds the highlighting.
- GetValidMoves: requires a selected piece. With none, the source throws a `NullPointerException` in the `MovePiece` constructor.
