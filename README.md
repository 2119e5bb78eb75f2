# OOP-Chess-Java: a verified model of the rule engine

This project models the rule engine of OOP-Chess-Java, a two-player chess game
written in Java with a JavaFX front end, and proves properties of the model.
It covers:

- the 8×8 `Board` of `Tile`s, with its current player, captured-piece list and
  capture listener;
- the `Piece` hierarchy (Pawn, Knight, Bishop, Rook, Queen, King), with
  `isValidMove`, `getPotentialMoves` and the path walks;
- the board's check scans (`isKingInCheck`, `isDoubleCheck`,
  `isPositionUnderAttack`) and the simulate–query–undo of `processMove`;
- the `Position` and `ChessTimer` holders;
- the selection, move and turn glue of `BoardController`;
- the CSV profile table of `Profile`.

The model follows the Java code, including the places where the code differs
from what a chess player would expect.

## Layout

| file | module | contents |
|---|---|---|
| `wrappers.dfy` | `Wrappers` | `Option` |
| `javatext.dfy` | `JavaText` | Java's `int` wrap-around, `Integer.toString`, `Integer.parseInt`, `String.trim`, `String.split` and the first column `split(",")[0]` |
| `rules.dfy` | `Rules` | The rules as values: a board is a `Grid = map<Pos, Man>`. Holds the per-piece rules, the two path walks, the King rule, check, double check, `processMove`'s outcome and the starting position. |
| `rule_facts.dfy` | `RuleFacts` | Lemmas about `Rules`: per-piece characterisations, the scans, fuel monotonicity and `processMove` |
| `opening.dfy` | `Opening` | The starting position, and the proof that `isKingInCheck` never returns on it |
| `moves.dfy` | `Moves` | `getPotentialMoves` of the six pieces as loops, and their agreement with `isValidMove` |
| `board.dfy` | `Chess` | Heap classes `Tile`, `Piece`, `Board` (an `array2<Tile?>`). Their methods are proved against `Rules`. |
| `position.dfy` | `Positions` | Class `Position` and its `toString` |
| `timer.dfy` | `Timers` | Class `ChessTimer` and `getFormattedTime` |
| `controller.dfy` | `Controller` | Class `BoardController`: selection gate, move gate, turn flip, clocks |
| `profile.dfy` | `Profiles` | The CSV file as a sequence of lines; `findRow`, `deleteProfile`, `createNewProfile`, `loadProfilesFromCSV`, the constructor's header rule |

### How the model is built

- **`Board` ghost contents.** `Board` keeps a ghost `contents: Grid`, the value of what stands on its tiles.
  - `Board.Wf()` ties `contents` to the tiles.
  - `Board.Valid()` adds that every piece's `position` is the square of its tile.
  - Every heap method is proved equal to a function of `Rules` on `contents`.
  - What is proved about those functions then holds for the methods.
- **The King's recursion.** `King.isValidMove` calls `isKingInCheck` when the King is not moving to an adjacent square. `isKingInCheck` asks every opposing piece, the other King included.
  - The two can recurse without end: on the starting board `isKingInCheck` never returns (`Opening.InitialCheckNeverAnswers`).
  - `ValidMove`, `KingMove`, `InCheck` and `CheckFrom` therefore take a `fuel` argument and return `Option<bool>`.
- **`None`.** `None` stands for any call that does not return normally:
  - the fuel has run out;
  - a `NullPointerException`, for example there is no King to find, or the end tile is null;
  - an `ArrayIndexOutOfBoundsException`.

  Fuel only cuts calls short and never changes an answer (`RuleFacts.ValidMoveFuel`).
  On `None`, the heap methods stop where the Java exception unwinds and skip the undo steps still to come.
- **Profile I/O.** A file is `Option<seq<string>>` of lines, where `None` means there is no file.
  Exceptions are part of the result: `None` for a `findRow` that throws, `false` for a `deleteProfile` that stops.

### Where the code differs from the intended rules

The model follows the code in each of these places, and a lemma shows the difference.

- **Rook path.** `Rook.isPathClear` has the guard `x != xEnd && y != yEnd`, which is false on entry for a rank or file move. A rook therefore passes over pieces (`RuleFacts.RookRuleIgnoresPath`, `RuleFacts.RookJumpsOverBlocker`).
  - A blocked White Rook on (7,0) may move to (4,0), although the intended rules forbid it.
- **King's second branch.** It is reachable by any move that is not to an adjacent square. A King in check may leap to a far square that gets it out of check (`Moves.KingLeavesCheckBeyondPotential`).
- **`processMove`.** The two check flags are computed on the same simulated board: source lines 255–256 make the same call twice. The outcome therefore depends only on the check after the move, taken for `currentPlayer` (`RuleFacts.ProcessOutcomeSpec`).
- **The controller bypasses `processMove`.** `BoardController` moves through `makeMove`.
  - So a pinned piece may expose its own King (`Controller.PinnedPieceMoves`).
  - Every move `processMove` makes, the controller allows as well (`Controller.ClickAcceptsProcessedMoves`).
- **Pawn double step.** It is gated by `hasMoved` only, never by the rank (`RuleFacts.PawnRuleCases`). White moves toward row 0 (direction −1).
- **`Position`.** It is mutable (`setRow`, `setColumn`) and has no `equals`. Tiles are coloured `WHITE`/`GRAY`.
- **Exceptions.** Several operations do not return normally, while the intended design has none.
  - `isKingInCheck` with no King of that colour throws once it meets an opposing piece.
  - `isDoubleCheck` with no King throws at once.
  - An off-board end in `processMove` throws when the start holds a piece, as does an off-board click in `handleMove` while a piece is selected.

## Model

| member | source | states |
|---|---|---|
| Rules.Opponent | src/main/java/Board.java:284-286 | the opposite colour is never the colour itself |
| RuleFacts.OpponentTwice | src/main/java/Board.java:143-145 | switching the player twice gives the player back, and once gives the other one |
| Rules.Compare | src/main/java/pieces/Bishop.java:105-120 | Integer.compare as the path walks use it: 0, 1 or -1 exactly when equal, greater or smaller |
| RuleFacts.PawnRuleCases | src/main/java/pieces/Pawn.java:40-71 | a pawn move is accepted iff the target is not its own colour and it is (a) one step forward onto an empty square, (b) two steps forward for an unmoved pawn with both squares empty, or (c) one forward diagonal onto an occupied square |
| RuleFacts.PawnCapturesOnlyOpponents | src/main/java/pieces/Pawn.java:66-67 | a forward diagonal is accepted iff the square holds an opposing piece |
| RuleFacts.PawnMovedNoDoubleStep | src/main/java/pieces/Pawn.java:59-61 | once hasMoved is set the two-square advance is never accepted |
| RuleFacts.KnightReadsOnlyDestination | src/main/java/pieces/Knight.java:39-57 | two boards that agree on the destination give the same knight answer: intervening pieces do not matter |
| RuleFacts.QueenStepInside | src/main/java/pieces/Queen.java:116-131 | every square the Queen's walk visits before the end is strictly between start and end |
| RuleFacts.InteriorIsQueenStep | src/main/java/pieces/Queen.java:116-131 | every square strictly between start and end is visited by the Queen's walk, at step StepIndex |
| RuleFacts.QueenWalkMatchesSegment | src/main/java/pieces/Queen.java:116-131 | Queen.isPathClear succeeds iff every square strictly between start and end is empty |
| RuleFacts.LockstepOnDiagonal | src/main/java/pieces/Bishop.java:105-120 | on a diagonal the lock-step walk succeeds iff the segment in between is empty |
| RuleFacts.LockstepOnStraight | src/main/java/pieces/Rook.java:94-108 | on a rank or a file the lock-step walk succeeds without reading any square |
| RuleFacts.InteriorInBounds | src/main/java/pieces/Bishop.java:106-118 | the squares a walk between two board squares reads are on the board and are neither end |
| RuleFacts.BishopRuleSpec | src/main/java/pieces/Bishop.java:37-57 | a bishop move is accepted iff the target is not its own colour, the move is diagonal and the squares between are empty |
| RuleFacts.RookRuleIgnoresPath | src/main/java/pieces/Rook.java:37-59 | a rook move is accepted iff the target is not its own colour and the move is along a rank or file; the path plays no part |
| RuleFacts.RookJumpsOverBlocker | src/main/java/pieces/Rook.java:94-108 | a rook on (0,0) may move to (0,2) over a piece on (0,1), although the segment is not clear |
| RuleFacts.QueenRuleSpec | src/main/java/pieces/Queen.java:36-57 | a queen move is accepted iff the target is not its own colour, the move is rank, file or diagonal, and the squares between are empty |
| RuleFacts.NeverOntoOwnColour | src/main/java/Piece.java:87-90 | every piece, on any fuel, rejects a square of its own colour, and so never stays where it is |
| RuleFacts.KingAdjacentAnswers | src/main/java/pieces/King.java:55-69 | the one-square King branch always answers, on any fuel; it accepts iff the target is not its own colour and, with the King moved there, no opposing non-King piece attacks it |
| RuleFacts.KingFarMove | src/main/java/pieces/King.java:72-87 | a longer King move is accepted only if the King is in check now and is not in check once moved |
| RuleFacts.FindKingFromSpec | src/main/java/Board.java:327-337 | the scan from (r, col) returns the first square at or after it holding the King, none when there is none |
| RuleFacts.FindKingSpec | src/main/java/Board.java:327-337 | findKingPosition returns the first King square of the colour in row-major order, and null iff there is no such King |
| Rules.FindKing | src/main/java/Board.java:327-337 | a square found is on the board and holds a King of the colour |
| RuleFacts.AttackInRowSpec | src/main/java/Board.java:348-357 | the row scan from col answers iff some later square of the row holds an attacker |
| RuleFacts.AttackFromSpec | src/main/java/Board.java:347-358 | the scan from row r answers iff some square at or below r holds an attacker |
| RuleFacts.UnderAttackScan | src/main/java/Board.java:346-360 | the row-major scan answers exactly the existential "some opposing non-King piece may move to p" |
| RuleFacts.CheckFromSpec | src/main/java/Board.java:172-184 | true: a later opposing piece may reach the King; false: every later opposing piece answers no; with no King the scan fails iff it meets an opposing piece |
| RuleFacts.CheckFromAnswers | src/main/java/Board.java:172-184 | the scan answers whenever every opposing piece it would meet answers |
| RuleFacts.InCheckSpec | src/main/java/Board.java:170-185 | isKingInCheck is true only if some opposing piece may move onto the King's square, false only if every opposing piece answers no; with no King it fails iff the other side has a piece |
| RuleFacts.InCheckExtendsUnderAttack | src/main/java/Board.java:170-185 | where check answers: an attacked King square means check, and check means the square is attacked or an opposing King may move there |
| RuleFacts.SquaresBeforeMembers | src/main/java/Board.java:217-232 | the list built up to (r, col) holds exactly the squares of the colour before (r, col) |
| RuleFacts.SquaresBeforeDistinct | src/main/java/Board.java:217-232 | that list has no square twice |
| RuleFacts.SquaresOfSpec | src/main/java/Board.java:217-232 | getAllPiecesOfColor lists exactly the squares of the colour, each once |
| Rules.SquaresOf | src/main/java/Board.java:217-232 | every listed square is on the board and holds a piece of the colour |
| RuleFacts.CountChecksSpec | src/main/java/Board.java:199-208 | the counting loop is true iff a second hit is found, false only if every piece answered and at most one hit |
| RuleFacts.DoubleCheckSpec | src/main/java/Board.java:193-209 | isDoubleCheck answers only with a King; true only if two different opposing pieces may reach it, false only if at most one can |
| RuleFacts.ValidMoveFuel | src/main/java/pieces/King.java:72 | an isValidMove answer found with some fuel is the answer with any larger fuel |
| RuleFacts.KingMoveFuel | src/main/java/pieces/King.java:43-88 | the same for the King's rule |
| RuleFacts.InCheckFuel | src/main/java/Board.java:170-185 | the same for isKingInCheck |
| RuleFacts.CheckFromFuel | src/main/java/Board.java:172-184 | the same for the scan of isKingInCheck |
| RuleFacts.ProcessOutcomeSpec | src/main/java/Board.java:241-276 | processMove returns true iff the start holds a piece whose isValidMove accepts and currentPlayer is not in check after the simulated move. It returns false iff the start is empty, isValidMove refuses, or that check holds. Whether the player was in check before plays no part. |
| Moves.PawnMoves | src/main/java/pieces/Pawn.java:79-102 | at most four squares, exactly the on-board forward step, the two-step for an unmoved pawn whose one-step square is on the board, and the forward diagonals |
| Moves.IsMoveWithinBoard | src/main/java/pieces/Pawn.java:112-114 | the pawn's bounds test accepts exactly the squares of the 8×8 board, the same squares as the board's own bounds test |
| Moves.OffsetMoves | src/main/java/pieces/Knight.java:75-82 | the offset loop keeps exactly the shifted squares that are on the board, no more than there are offsets |
| Moves.KnightJumpsCover | src/main/java/pieces/Knight.java:67-70 | the eight offsets are exactly the L-shaped displacements isValidMove tests |
| Moves.KingStepsCover | src/main/java/pieces/King.java:98-102 | the eight offsets are exactly the displacements at Chebyshev distance one |
| Moves.KnightMoves | src/main/java/pieces/Knight.java:65-84 | at most eight squares, exactly the on-board squares a knight's jump away |
| Moves.KingMoves | src/main/java/pieces/King.java:96-117 | at most eight squares, exactly the on-board squares at Chebyshev distance one |
| Moves.LineMoves | src/main/java/pieces/Rook.java:67-81 | exactly the squares sharing the row or column, not the square itself; fourteen from a board square |
| Moves.RayMoves | src/main/java/pieces/Bishop.java:75-88 | one diagonal walk keeps what was listed, adds only on-board squares of the ray, and from a board square adds all of them |
| Moves.DiagonalMoves | src/main/java/pieces/Bishop.java:70-90 | the four walks keep what was listed and add exactly the on-board diagonal squares other than p |
| Moves.BishopMoves | src/main/java/pieces/Bishop.java:65-92 | only on-board diagonal squares, never the bishop's own; from a board square all of them |
| Moves.RookMoves | src/main/java/pieces/Rook.java:67-81 | exactly the squares sharing the rook's row or column other than its own; fourteen from a board square |
| Moves.QueenMoves | src/main/java/pieces/Queen.java:66-103 | never the queen's own square, only line and diagonal squares; from a board square exactly the on-board rank, file and diagonal squares |
| Moves.OnLineStraight | src/main/java/pieces/Rook.java:49 | from a board square, the line squares are exactly the on-board straight moves isValidMove tests |
| Moves.AcceptedMovesArePotential | src/main/java/Piece.java:68-78 | for the five non-King pieces, every move isValidMove accepts is one getPotentialMoves offers |
| Moves.AcceptedKingStepsArePotential | src/main/java/pieces/King.java:55-69 | every one-square King move accepted is offered by getPotentialMoves |
| Moves.LeapBoardInCheck | src/main/java/Board.java:170-185 | a White King on (7,4) facing a lone Black Rook on (0,4) is in check |
| Moves.LeapBoardAfterNotInCheck | src/main/java/Board.java:170-185 | the King moved to (7,7) is no longer in check |
| Moves.KingLeavesCheckBeyondPotential | src/main/java/pieces/King.java:72-87 | so King.isValidMove accepts (7,4) to (7,7), a square getPotentialMoves never offers |
| Opening.InitialAt | src/main/java/Board.java:58-91 | the starting grid has a piece exactly where placePieces puts one, and that piece |
| Opening.BackRankKing | src/main/java/Board.java:88-89 | the back rank holds its King on column 4 and nowhere else |
| Opening.InitialKingAt | src/main/java/Board.java:88-89 | on the starting board the only White King is on (7,4), the only Black King on (0,4) |
| Opening.InitialComplete | src/main/java/Board.java:58-91 | a grid that agrees with the starting position and fills every square of it is the starting position |
| Opening.InitialKings | src/main/java/Board.java:327-337 | findKingPosition finds White's King on (7,4) and Black's on (0,4) |
| Opening.CheckFromSkip | src/main/java/Board.java:172-183 | the scan passes over squares whose opposing pieces all answer no |
| Opening.WhiteScanReachesBlackKing | src/main/java/Board.java:172-183 | on the starting board the scan for White reaches the Black King at (0,4) with nothing decided |
| Opening.BlackScanReachesWhiteKing | src/main/java/Board.java:172-183 | on the starting board the scan for Black reaches the White King at (7,4) with nothing decided |
| Opening.InitialStandoff | src/main/java/pieces/King.java:72 | the starting board is a standoff: each check scan first meets the other King, which is too far for the one-square branch |
| Opening.StandoffStep | src/main/java/Board.java:177 | in a standoff, if neither check answers with less fuel, neither answers with this fuel |
| Opening.StandoffNeverAnswers | src/main/java/pieces/King.java:72 | in a standoff neither isKingInCheck answers on any fuel |
| Opening.InitialCheckNeverAnswers | src/main/java/Board.java:170-185 | isKingInCheck never returns on the starting board, for either colour: the King–King recursion does not end |
| JavaText.Wrap32 | src/main/java/ChessTimer.java:68-70 | Java int addition: the exact sum reduced to 32 bits, the sum itself when it fits |
| JavaText.DigitsAll | src/main/resources/database/Profile.java:134-136 | a text has a decimal value iff all its characters are digits |
| JavaText.ParseIntAccepts | src/main/resources/database/Profile.java:134-136 | parseInt accepts only an optional sign followed by digits |
| JavaText.ParseIntToString | src/main/resources/database/Profile.java:134-136 | parseInt reads back every int Integer.toString writes |
| JavaText.IntToStringPlain | src/main/resources/database/Profile.java:173 | Integer.toString writes no comma and no character trim removes |
| JavaText.Trim | src/main/resources/database/Profile.java:133 | trim never lengthens, leaves no space-or-below at either end, and leaves a text without such ends alone |
| JavaText.Fields | src/main/resources/database/Profile.java:132 | the fields between separators number at least one and contain no separator |
| JavaText.DropTrailingEmpty | src/main/resources/database/Profile.java:132 | split drops only empty fields, and only from the end |
| JavaText.Split | src/main/resources/database/Profile.java:132 | no part of split(",") contains a comma |
| JavaText.SplitJoin4 | src/main/resources/database/Profile.java:132-136 | four comma-free texts, the last non-empty, joined by commas split back into the same four |
| JavaText.FieldsAllEmpty | src/main/resources/database/Profile.java:207 | every field is empty iff the text is separators only |
| JavaText.FirstColumn | src/main/resources/database/Profile.java:207-210 | columns[0], where it exists, has no comma |
| JavaText.FirstColumnBefore | src/main/resources/database/Profile.java:207-210 | a non-empty comma-free text followed by a comma is the line's first column |
| JavaText.FirstColumnSpec | src/main/resources/database/Profile.java:207-210 | columns[0] is missing iff the line is non-empty and all commas; otherwise it is the text before the first comma |
| Positions.PositionTextInjective | src/main/java/Position.java:63-68 | two positions print alike under toString iff their rows and their columns are equal |
| Positions.Position.constructor | src/main/java/Position.java:16-19 | the new position holds the given row and column |
| Positions.Position.GetRow | src/main/java/Position.java:26-28 | getRow returns the row |
| Positions.Position.GetColumn | src/main/java/Position.java:44-46 | getColumn returns the column |
| Positions.Position.SetRow | src/main/java/Position.java:35-37 | setRow changes the row and not the column |
| Positions.Position.SetColumn | src/main/java/Position.java:53-55 | setColumn changes the column and not the row |
| Timers.TruncDiv | src/main/java/ChessTimer.java:35-39 | the conversion to minutes truncates toward zero, as Java's long division does: quotient and remainder take the sign of the time, and the remainder is smaller than the divisor in size |
| Timers.Pad2ReadsBack | src/main/java/ChessTimer.java:37 | "%02d" of a non-negative int has at least two digits and parses back to the number |
| Timers.FormattedTimeReadsBack | src/main/java/ChessTimer.java:35-39 | for t >= 0 the text is minutes, ':', two digits of seconds; they read back as t div 60 and t mod 60, which give t |
| Timers.NegativeTimeFormat | src/main/java/ChessTimer.java:35-39 | a negative time prints with minus signs: -5 gives "00:-5", -65 gives "-1:-5" |
| Timers.ChessTimer.constructor | src/main/java/ChessTimer.java:24-28 | a new timer is inactive with the given start time and increment |
| Timers.ChessTimer.DecrementTime | src/main/java/ChessTimer.java:44-48 | one second off exactly when active with time left, otherwise nothing; a time of zero or more stays so |
| Timers.ChessTimer.Activate | src/main/java/ChessTimer.java:53-55 | the timer is active, nothing else changes |
| Timers.ChessTimer.Deactivate | src/main/java/ChessTimer.java:60-62 | the timer is inactive, nothing else changes |
| Timers.ChessTimer.AddIncrement | src/main/java/ChessTimer.java:68-70 | the increment is added whether active or not, in 32-bit int arithmetic, exactly when the sum fits |
| Timers.ChessTimer.SetIncrement | src/main/java/ChessTimer.java:77-79 | only the increment changes |
| Chess.Tile.constructor | src/main/java/Tile.java:21-25 | a new tile has the given coordinates and colour and no piece; x, y and colour are constants |
| Chess.Tile.IsOccupied | src/main/java/Tile.java:32-34 | occupied iff the piece is non-null |
| Chess.Tile.GetPiece | src/main/java/Tile.java:41-43 | returns the piece on the tile |
| Chess.Tile.OccupyTile | src/main/java/Tile.java:50-52 | the tile holds the given piece, whatever was there before |
| Chess.Tile.ReleaseTile | src/main/java/Tile.java:57-59 | the tile is empty, so releasing twice is releasing once |
| Chess.ImageNameInjective | src/main/java/Piece.java:98-103 | "{Colour}{Kind}.png" differs for each of the twelve colour and kind pairs |
| Chess.Piece.constructor | src/main/java/Piece.java:30-33 | a new piece has the given kind, colour and position and has not moved; the colour is a constant |
| Chess.Piece.GetColor | src/main/java/Piece.java:40-42 | returns the colour |
| Chess.Piece.GetPlayer | src/main/java/Piece.java:110-112 | getPlayer equals getColor |
| Chess.Piece.GetPosition | src/main/java/Piece.java:49-51 | returns the position |
| Chess.Piece.SetPosition | src/main/java/Piece.java:58-60 | the position is the one given, the hasMoved flag untouched |
| Chess.Piece.SetHasMoved | src/main/java/pieces/Pawn.java:122-124 | a Pawn's or King's flag becomes the value given (King.java:125-127 is the same), the position untouched |
| Chess.Piece.GetPotentialMoves | src/main/java/Piece.java:68 | every square offered is the piece's potential target, all of them are offered from a board square, with at most 4 for a Pawn, 8 for a Knight or King and exactly 14 for a Rook |
| Chess.Piece.IsOccupiedBySameColor | src/main/java/Piece.java:87-90 | true iff the tile holds a piece of this piece's colour |
| Chess.Piece.PawnIsValidMove | src/main/java/pieces/Pawn.java:40-71 | Pawn.isValidMove on the tiles equals the pawn rule on the board's value |
| Chess.Piece.KnightIsValidMove | src/main/java/pieces/Knight.java:39-57 | Knight.isValidMove equals the knight rule |
| Chess.Piece.LockstepPathClear | src/main/java/pieces/Bishop.java:105-120 | the lock-step while loop returns the lock-step clearance of the board's value |
| Chess.Piece.QueenPathClear | src/main/java/pieces/Queen.java:116-131 | the Queen's while loop returns the Queen-walk clearance of the board's value |
| Chess.Piece.BishopIsValidMove | src/main/java/pieces/Bishop.java:37-57 | Bishop.isValidMove equals the bishop rule |
| Chess.Piece.RookIsValidMove | src/main/java/pieces/Rook.java:37-59 | Rook.isValidMove equals the rook rule |
| Chess.Piece.QueenIsValidMove | src/main/java/pieces/Queen.java:36-57 | Queen.isValidMove equals the queen rule |
| Chess.Piece.MoveRule | src/main/java/Piece.java:78 | the dispatch over the five non-King pieces equals the piece rule of the kind |
| Chess.Piece.KingStepIsSafe | src/main/java/pieces/King.java:59-66 | the simulate, attack test and undo leave both tiles and the board value as they were, and answer whether the target is attacked with the King moved |
| Chess.Piece.KingEscapes | src/main/java/pieces/King.java:74-86 | the second branch's simulation answers "not in check after the move", restoring every tile when it returns |
| Chess.Piece.KingIsValidMove | src/main/java/pieces/King.java:43-88 | King.isValidMove equals the King rule on the board's value; when it returns every tile is as before |
| Chess.Piece.IsValidMove | src/main/java/Piece.java:78 | isValidMove of any piece equals ValidMove on the board's value, tiles unchanged when it returns |
| Chess.Board.constructor | src/main/java/Board.java:23-27 | a new board is valid, holds the starting position, White to move, nothing captured, no listener |
| Chess.Board.InitializeBoard | src/main/java/Board.java:32-39 | 64 new, empty tiles, tile (i, j) with coordinates (i, j) and light iff i + j is even |
| Chess.Board.Place | src/main/java/Board.java:61-62 | one occupyTile of placePieces adds exactly that square, with the starting position's piece |
| Chess.Board.PlacePieces | src/main/java/Board.java:58-91 | the pieces set out are exactly the starting position |
| Chess.Board.PlacePawns | src/main/java/Board.java:60-63 | the pawn loop fills exactly rows 1 and 6 |
| Chess.Board.PlaceBackRanks | src/main/java/Board.java:65-89 | the back ranks are filled as the starting position |
| Chess.Board.SwitchPlayer | src/main/java/Board.java:143-145 | the other side is to move |
| Chess.Board.SetOnPieceCapturedListener | src/main/java/Board.java:136-138 | the listener is set iff the one given is non-null |
| Chess.Board.GetTile | src/main/java/Board.java:47-53 | the tile at (x, y), with those coordinates, on the board; null off it |
| Chess.Board.Simulate | src/main/java/Board.java:250-252 | endTile.occupyTile then startTile.releaseTile: the board value is the piece relocated |
| Chess.Board.Undo | src/main/java/Board.java:259-260 | the two occupyTile calls of the undo restore the board value before the simulation, mover and captured piece in place |
| Chess.Board.FindKingPosition | src/main/java/Board.java:327-337 | the loop returns the first King square of the colour in row-major order |
| Chess.Board.AttackerAt | src/main/java/Board.java:349-355 | the test on one tile answers whether it holds an opposing non-King piece that may move to the target |
| Chess.Board.RowUnderAttack | src/main/java/Board.java:348-357 | the inner loop answers whether some square of the row holds an attacker |
| Chess.Board.IsPositionUnderAttack | src/main/java/Board.java:346-360 | the nested loops answer whether some opposing non-King piece may move to the position |
| Chess.Board.IsKingInCheck | src/main/java/Board.java:170-185 | the nested loops equal the check function, every tile restored when they return |
| Chess.Board.GetAllPiecesOfColor | src/main/java/Board.java:217-232 | the pieces listed are those standing on the squares of the colour, in row-major order |
| Chess.Board.MakeMove | src/main/java/Board.java:99-129 | the piece on start moves to end and learns end; a King or Pawn is marked moved; the end's old occupant is appended to the captured list, and told to the listener iff one is set; no other tile changes; true |
| Chess.Board.Transfer | src/main/java/Board.java:114-127 | the release, occupy, setPosition and setHasMoved steps give the board after the move, the piece knowing its square |
| Chess.Board.ShiftPiece | src/main/java/Board.java:114-116 | release, occupy and setPosition move the piece's value from start to end, flags as they were |
| Chess.Board.MarkMoved | src/main/java/Board.java:122-127 | a King or Pawn on the end square gets hasMoved set |
| Chess.Board.SimulateMove | src/main/java/Board.java:250-253 | the simulation of processMove: the piece is relocated, and the board is still valid |
| Chess.Board.UndoMove | src/main/java/Board.java:259-261 | the undo of processMove restores the board value, both tiles and the piece's position |
| Chess.Board.CheckAfterSimulation | src/main/java/Board.java:249-261 | the simulate, check and undo answer whether currentPlayer is in check after the move, leaving everything as before when they return |
| Chess.Board.ProcessMove | src/main/java/Board.java:241-276 | processMove equals ProcessOutcome; false leaves tiles, board value and captured list unchanged; true has the effect of makeMove |
| Chess.Board.StillInCheckAfterMove | src/main/java/Board.java:295-319 | the answer is whether the mover's own colour is in check after the simulated move, false for an empty start, with everything restored |
| Chess.Board.AskPiece | src/main/java/Board.java:200-201 | one loop round asks the listed piece, through its own position, whether it may move to the King |
| Chess.Board.CountPieceChecks | src/main/java/Board.java:199-207 | the counting loop equals the counting function over the listed squares |
| Chess.Board.IsDoubleCheck | src/main/java/Board.java:193-209 | isDoubleCheck equals the double-check function, tiles restored when it returns |
| Controller.ClickAcceptsProcessedMoves | src/main/controllers/java/BoardController.java:407-417 | every move processMove would make, the controller makes: it asks the same isValidMove and skips the check filter |
| Controller.PinnedKnightExposesKing | src/main/controllers/java/BoardController.java:160 | with the pinned Knight moved off the file, the White King is in check from the Queen |
| Controller.PinnedPieceMoves | src/main/controllers/java/BoardController.java:412-413 | the controller moves a pinned Knight that exposes its King, a move processMove refuses |
| Controller.BoardController.constructor | src/main/controllers/java/BoardController.java:31-40 | a new board in its starting position, nothing selected, White to move, no timers |
| Controller.BoardController.SetTimers | src/main/controllers/java/BoardController.java:338-341 | the two timers are those given |
| Controller.BoardController.SwitchPlayer | src/main/controllers/java/BoardController.java:346-356 | the board's side to move flips and the controller copies it; the mover-to-be's clock runs, the other stops, null timers skipped; times unchanged |
| Controller.BoardController.StartClock | src/main/controllers/java/BoardController.java:349-355 | the clock of the side to move is active and the other inactive, times and increments unchanged |
| Controller.BoardController.AddIncrementToTimer | src/main/controllers/java/BoardController.java:376-383 | the side not to move, the one that just moved, is credited its increment; the other clock's time and both flags unchanged |
| Controller.BoardController.PassTurn | src/main/controllers/java/BoardController.java:163-164 | the turn passes, the clocks follow it, and the player who just moved is credited its increment |
| Controller.BoardController.MovePiece | src/main/controllers/java/BoardController.java:155-170 | the move is made through makeMove (no check filter); the piece learns its square, the turn passes, the mover is credited and the selection is dropped |
| Controller.BoardController.MoveOnBoard | src/main/controllers/java/BoardController.java:157-162 | makeMove and setPosition: the board after the move, captured list extended, the piece on its new tile knowing it |
| Controller.BoardController.HandleMove | src/main/controllers/java/BoardController.java:407-417 | with nothing selected nothing happens. Otherwise a move is made iff the selected piece's isValidMove accepts, and only the side to move's pieces are moved. A refused move leaves the board, the captured list, the listener, the turn and both clocks unchanged. A move made gives makeMove's board, captured list and listener notice, passes the turn and credits the mover's clock, leaving the other clock's time alone |
| Controller.BoardController.PieceClicked | src/main/controllers/java/BoardController.java:255-299 | the click is first handled as a move, with handleMove's effect on the board, the captured list, the turn and the clocks. Then the clicked piece becomes selected iff it belongs to the side to move; otherwise the selection is what handleMove left |
| Profiles.RowFromFound | src/main/resources/database/Profile.java:204-218 | the scan returns the first line whose first column is the name, untrimmed, or the number of lines, every earlier line having another first column |
| Profiles.RowFromThrows | src/main/resources/database/Profile.java:207-210 | the scan throws iff it meets a line without first column before any line of the name |
| Profiles.FindRow | src/main/resources/database/Profile.java:187-227 | findRow's loop equals the row function: the header counts as line 0, a missing file gives 0 |
| Profiles.Without | src/main/resources/database/Profile.java:255-265 | the lines with the one at that index taken out, in order; all of them when the index is past the end |
| Profiles.DeleteMissingKeepsFile | src/main/resources/database/Profile.java:241-259 | a name no line is headed by gives the number of lines as row, and deleting it keeps every line |
| Profiles.DeleteProfile | src/main/resources/database/Profile.java:234-280 | the file loses exactly the line at findRow(name), in order; a throwing findRow or a missing file leaves it alone |
| Profiles.HeaderRuleSpec | src/main/resources/database/Profile.java:35-50 | the constructor leaves a missing or empty file, or one headed "Name", alone and otherwise replaces the file by the header or throws |
| Profiles.HeaderNamed | src/main/resources/database/Profile.java:43 | the header line's first column is "Name" |
| Profiles.HeaderRuleIdempotent | src/main/resources/database/Profile.java:35-50 | a second construction changes nothing |
| Profiles.RecordLineReadsBack | src/main/resources/database/Profile.java:132-136 | a line written by createNewProfile with a comma-free, trim-stable name parses back to the same name and counts |
| Profiles.LoadFromRead | src/main/resources/database/Profile.java:131-148 | the records read are those of the lines from i on, in order, stopping only at a bad number or the end |
| Profiles.LoadFromThrows | src/main/resources/database/Profile.java:131-149 | reading throws out of the method iff a line with a missing column comes before any bad number |
| Profiles.LoadAppended | src/main/resources/database/Profile.java:120-180 | a record appended after a header and good lines is read back last |
| Profiles.FirstRecordInNewFileIsSkipped | src/main/resources/database/Profile.java:128 | with no file, the constructor writes no header, so the first record created is read as the header and skipped |
| Profiles.Profile.Blank | src/main/resources/database/Profile.java:27-30 | the field initialisers: empty name and no games |
| Profiles.Profile.New | src/main/resources/database/Profile.java:35-50 | new Profile(): the initialisers, then the header rule on the file; null iff findRow throws |
| Profiles.Profile.GetName | src/main/resources/database/Profile.java:56-58 | returns the name |
| Profiles.Profile.SetName | src/main/resources/database/Profile.java:64-66 | the name is the one given |
| Profiles.Profile.GetWins | src/main/resources/database/Profile.java:72-74 | returns the wins |
| Profiles.Profile.SetWins | src/main/resources/database/Profile.java:80-82 | the wins are the ones given |
| Profiles.Profile.GetLosses | src/main/resources/database/Profile.java:88-90 | returns the losses |
| Profiles.Profile.SetLosses | src/main/resources/database/Profile.java:96-98 | the losses are the ones given |
| Profiles.Profile.GetDraws | src/main/resources/database/Profile.java:104-106 | returns the draws |
| Profiles.Profile.SetDraws | src/main/resources/database/Profile.java:112-114 | the draws are the ones given |
| Profiles.Profile.CreateNewProfile | src/main/resources/database/Profile.java:163-180 | the line "name,wins,losses,draws" of this profile's counts is appended, the file created if need be, earlier lines kept |
| Profiles.ReadProfile | src/main/resources/database/Profile.java:139-144 | a new Profile holding the record read, the header rule applied to the file |
| Profiles.LoadProfilesFromCSV | src/main/resources/database/Profile.java:120-155 | one fresh profile per line after the header with trimmed name and parsed counts, stopping at a bad number; none when a line lacks a column or a constructor throws; the file changed only by the header rule |

## Left out

- JavaFX is not modelled: `Image` loading in `getImage`, all `GridPane`/`ImageView` code, `movePieceView`, `highlightPotentialMoves`, `clearHighlights`, `findPieceImageView`, `findTileNode`, the captured-piece panes, and `ChessGameLauncher`. They hold no rule logic. `Chess.Piece.ImagePath` keeps only the file name `getImage` builds.
- The `Timeline` tick and the threads of the screen controllers are not modelled: they are timing and concurrency. One tick is `ChessTimer.decrementTime`.
- The screen-navigation controllers and `Main` are not modelled: they are scene switching with no rule logic.
- `System.out.println` and `Logger` output are not modelled: they are output only.
- Castling, en passant, promotion, checkmate and stalemate are absent from the code, and so from the model.
- The capture listener is a flag; `notified` records the pieces it would be told of. The listener's own code is not part of this model.
- Fuel: for `ValidMove`, `KingMove`, `InCheck` and `CheckFrom`, `None` covers both an exhausted fuel and a call that never returns. The model proves properties only where an answer is produced, and `RuleFacts.ValidMoveFuel` shows that more fuel never changes an answer.
- After a `None`, the board is only known to be well formed (`Wf()`): the source's exception leaves the simulation's tile writes in place, and the model does not say which.
- `Position` objects are not shared between pieces: a piece's position is a value `Pos`. Aliasing of a `Position` between a piece and its caller is not modelled. `Positions.Position` models the class itself.
- `Position.equals` does not exist in the source, and the model never compares `Position` objects.
- `Position.toString` is modelled only through `Positions.PositionText`. `Positions.PositionTextInjective` is the property about it.
- The plain getters `Board.getCurrentPlayer`, `Board.getCapturedPieces`, `Tile.getX`/`getY`/`getColor`, `ChessTimer.getFormattedTime` and `Position.toString` are functions without their own contract. `getFormattedTime`'s properties are stated on `Timers.FormattedTime`.
- Chess.Board.MakeMove: requires an occupied start square. With an empty start the source first appends the end tile's occupant to the captured list and tells the listener, then clears the end tile and throws; no caller passes one.
- Chess.Piece.IsValidMove: requires `startTile` to hold the piece asked. Every caller in the source passes the piece's own tile.
- Chess.Board.SwitchPlayer: requires a valid board, which every caller has; the flip itself needs nothing.
- Controller.BoardController.MovePiece: requires an on-board target, which its only caller, `handleMove`, guarantees.
- Controller.BoardController.PieceClicked: the early returns of `handlePieceClick` are not modelled. These are a source that is not an `ImageView`, and a null grid index. The model receives the row and column directly.
- `handleTileClick`'s mapping of a null grid index to 0 is not modelled; the model starts from `HandleMove` with the row and column.
- Profile I/O is modelled as a sequence of lines: a missing file is `None`, and the only I/O failure modelled is the missing file. Other `IOException`s are not.
- Line breaks: `System.lineSeparator` and `"\n"` are both treated as line breaks. Every line written is taken to end with one.
- The reader sees every line of the file as it was when it was opened.
- Profiles.LoadProfilesFromCSV: `Integer.parseInt` is modelled for ASCII digits only; the other Unicode digits Java accepts are not.
- Profiles.FindRow: the row is an unbounded `nat`; the 32-bit wrap of `findRow`'s `int` index after 2^31 lines is not modelled.
- `Board.oppositeColor` is `Rules.Opponent`.
