# Chess game: a verified model of the rules engine and the live-game server core

This project models, in Dafny, the core of a client/server chess game. It has three parts.

- **The rules engine** (package `chess`). Positions and moves with their
  algebraic decoders and hash codes. Pieces and their pseudo-legal move
  generators. The 8x8 board: `movePiece` with its promotion, castling and
  en-passant side effects, the attack queries and `isLegalMove`. The game:
  turn handling, `validMoves`, `makeMove`, check, checkmate and stalemate.
- **The bookkeeping around stored games.** The `GameData` record and its
  setters. The `GameService` seat-claim chain. The in-memory store
  `MemoryDataAccess`.
- **The decisions of the WebSocket handler.** The connection registry and
  its broadcast. `getPlayerColor`, `isTurn` and the outcome classification
  of `handleGameState`. The `join`, `move`, `resign` and `leave` commands.

## Module layout

Each module follows one part of the program:

- `Positions`, `Moves` and `Pieces`: the value types.
- `Grids`: the 64-cell board snapshot.
- `MoveGen`: the generators.
- `Squares`: `ChessSquare`.
- `BoardRules`: `ChessBoard`'s rules as functions of a snapshot.
- `Board`: the class `ChessBoard` over an array.
- `GameRules`: `ChessGame`'s rules as functions of a game value.
- `Game`: the class `ChessGame`.
- `GameRecords`: `GameData`.
- `GameService`.
- `MemoryStore`: the class `MemoryDataAccess`.
- `Connections`: the class `ConnectionManager`.
- `Coordinator`: the class `WebSocketHandler`.

State the source updates in place becomes a class:

- `ChessBoard`'s grid is an `array` and its history a `seq`.
- `ChessGame` holds a board object and the turn.
- `MemoryDataAccess` holds three maps and the ID counter.
- `ConnectionManager` holds the connection map.
- `WebSocketHandler` holds the store, the registry and an outbox of sent messages.

Each method is proved against a function of the old state. The properties
the source promises are then proved about those functions.

## Model

| member | source | states |
|---|---|---|
| Positions.Index | shared/src/main/java/chess/ChessBoard.java:30-43 | an on-board square has a cell index below 64 in the flattened grid |
| Positions.PosOf | shared/src/main/java/chess/ChessBoard.java:198-209 | every cell index below 64 names an on-board square |
| Positions.IndexPosOf | shared/src/main/java/chess/ChessBoard.java:198-209 | indexing the square of a cell index gives that index back |
| Positions.PosOfIndex | shared/src/main/java/chess/ChessBoard.java:30-43 | the square of a square's index is the square itself |
| Positions.IndexInjective | shared/src/main/java/chess/ChessBoard.java:30-43 | two on-board squares share a cell exactly when they are equal |
| Positions.RowColIndex | shared/src/main/java/chess/ChessBoard.java:198-209 | the nested (i, j) loops over the array visit the square (i+1, j+1) at cell i*8+j |
| Positions.LowerString | shared/src/main/java/chess/ChessPosition.java:23 | lower-casing keeps the length and lower-cases each character |
| Positions.FromNotation | shared/src/main/java/chess/ChessPosition.java:22-31 | the decoder fails with "Invalid notation" exactly when the text does not have two characters |
| Positions.Notation | shared/src/main/java/chess/ChessPosition.java:25-26 | an on-board square's name is a file letter a-h followed by a rank digit 1-8 |
| Positions.NotationRoundTrip | shared/src/main/java/chess/ChessPosition.java:22-31 | decoding a square's name gives back that square |
| Positions.NotationSquares | shared/src/main/java/chess/ChessPosition.java:25-26 | every name "a1".."h8" decodes to an on-board square whose name is that text, so decoding is injective onto the board |
| Positions.NotationCaseInsensitive | shared/src/main/java/chess/ChessPosition.java:23 | decoding a text and decoding its lower-cased form give the same result |
| Positions.HashOnBoard | shared/src/main/java/chess/ChessPosition.java:49-63 | on the board the hash code lies in [993, 1217] and is equal exactly for equal positions |
| Pieces.Other | shared/src/main/java/chess/ChessGame.java:90-93 | the turn flip always yields the other colour |
| Pieces.Ordinal | shared/src/main/java/chess/ChessPiece.java:26-33 | a piece type's enum ordinal is below 6 |
| Pieces.OrdinalInjective | shared/src/main/java/chess/ChessMove.java:87-91 | two piece types have the same ordinal exactly when they are equal |
| Moves.FromNotation | shared/src/main/java/chess/ChessMove.java:24-49 | fails with "Invalid notation" exactly below four characters; characters 0-1 and 2-3 decode as positions do; only at length 5 is the fifth letter read as a promotion |
| Moves.Notation | shared/src/main/java/chess/ChessMove.java:24-49 | a move's text has four characters, or five with a promotion |
| Moves.NotationRoundTrip | shared/src/main/java/chess/ChessMove.java:24-49 | decoding a move's text gives back the move |
| Moves.NotationCaseInsensitive | shared/src/main/java/chess/ChessMove.java:25 | "E2E4Q" and "e2e4q" decode to the same result |
| Moves.UnknownPromotionLetter | shared/src/main/java/chess/ChessMove.java:35-45 | a five-character text whose last letter is not q, b, n or r decodes to a move without promotion |
| Moves.HashSeparatesStarts | shared/src/main/java/chess/ChessMove.java:87-91 | on-board moves with different starts have different hash codes |
| Grids.Put | shared/src/main/java/chess/ChessBoard.java:30-43 | after addPiece, getPiece at that square returns the piece and every other square is unchanged |
| Grids.Extensionality | shared/src/main/java/chess/ChessBoard.java:314-319 | two grids that agree on every on-board square are equal |
| MoveGen.HopExact | shared/src/main/java/chess/ChessPiece.java:74-118 | a single-offset step yields exactly the target square when it is on the board and empty or enemy-held |
| MoveGen.KingMovesExact | shared/src/main/java/chess/ChessPiece.java:74-118 | the king's moves are exactly the on-board neighbours among the eight adjacent squares not held by its own side |
| MoveGen.KingNeverShiftsTwoColumns | shared/src/main/java/chess/ChessPiece.java:74-118 | no generated king move changes column by more than one |
| MoveGen.KnightMovesExact | shared/src/main/java/chess/ChessPiece.java:297-341 | the knight's moves are exactly the on-board L-offset squares not held by its own side |
| MoveGen.RaySound | shared/src/main/java/chess/ChessPiece.java:350-401 | every move the ray rule describes is generated by the walk |
| MoveGen.RayComplete | shared/src/main/java/chess/ChessPiece.java:350-401 | every move the walk generates satisfies the ray rule |
| MoveGen.RayExact | shared/src/main/java/chess/ChessPiece.java:127-227 | a ray yields every empty square up to the first occupied one, and that square too exactly when it holds an enemy |
| MoveGen.ArriveExact | shared/src/main/java/chess/ChessPiece.java:473-480 | a pawn arriving on the far rank yields the four promotions, and otherwise one move without promotion |
| MoveGen.DoublePushExact | shared/src/main/java/chess/ChessPiece.java:414-421 | a double push comes only from the home rank, with both squares ahead empty |
| MoveGen.CaptureExact | shared/src/main/java/chess/ChessPiece.java:423-469 | a pawn's diagonal move lands only on an enemy-held on-board square |
| MoveGen.PushExact | shared/src/main/java/chess/ChessPiece.java:471-493 | a single push lands only on the empty on-board square ahead |
| MoveGen.PawnMovesExact | shared/src/main/java/chess/ChessPiece.java:410-495 | the pawn's moves are exactly the double push, the diagonal captures and the push |
| MoveGen.RayLands | shared/src/main/java/chess/ChessPiece.java:236-288 | a ray move starts on the piece, has no promotion, and lands on the board on a square not held by its own side |
| MoveGen.PieceMovesLand | shared/src/main/java/chess/ChessPiece.java:56-65 | every generated move starts on the piece and lands on the board, never on a piece of its own colour |
| MoveGen.WalkRay | shared/src/main/java/chess/ChessPiece.java:350-401 | the for-with-break walk along one direction computes exactly the ray |
| MoveGen.PieceMovesOf | shared/src/main/java/chess/ChessPiece.java:56-65 | pieceMoves dispatches on the type and computes exactly that piece's pseudo-moves |
| MoveGen.RookWalk | shared/src/main/java/chess/ChessPiece.java:350-401 | the four orthogonal walks compute exactly the rook's moves |
| MoveGen.BishopWalk | shared/src/main/java/chess/ChessPiece.java:236-288 | the four diagonal walks compute exactly the bishop's moves |
| Squares.SquareMovesLand | shared/src/main/java/chess/ChessSquare.java:26-28 | a square's moves start on its position and land on the board, never on its own side |
| BoardRules.StartGrid | shared/src/main/java/chess/ChessBoard.java:49-75 | the starting grid: pawns on rows 2 and 7, R N B Q K B N R on rows 1 and 8, rows 3-6 empty |
| BoardRules.ApplyMoveEffect | shared/src/main/java/chess/ChessBoard.java:110-133 | movePiece puts the piece, promoted if asked, on the end square, clears the start and ends the history with the move |
| BoardRules.SimpleMoveFrame | shared/src/main/java/chess/ChessBoard.java:110-133 | a move that is neither a castle nor en passant changes only its start and end squares and logs only itself |
| BoardRules.CastleMovesRook | shared/src/main/java/chess/ChessBoard.java:151-158 | a castle from column 5 also moves the corner piece (row,8)->(row,6) or (row,1)->(row,4), logged before the king's move; the corner piece may be of any colour and any type except king or pawn, as castle() does not check it |
| BoardRules.EnPassantClears | shared/src/main/java/chess/ChessBoard.java:140-145 | en passant clears the square on row 5 or 4 in the start column, as written |
| BoardRules.SquaresUpToExact | shared/src/main/java/chess/ChessBoard.java:198-209 | the collection of the first k cells lists exactly their occupied squares, in ascending order |
| BoardRules.CollectionExact | shared/src/main/java/chess/ChessBoard.java:198-209 | chessSquareCollection lists exactly the occupied on-board squares with their pieces |
| BoardRules.FirstSquareExact | shared/src/main/java/chess/ChessBoard.java:176-183 | the search returns the first square holding the piece, or nothing when none does |
| BoardRules.FindSquareNone | shared/src/main/java/chess/ChessBoard.java:176-183 | getSquare returns null exactly when no square holds the piece |
| BoardRules.FindSquareFirst | shared/src/main/java/chess/ChessBoard.java:176-183 | a found square holds the piece and no earlier square in row-major order does |
| BoardRules.FindSquareExact | shared/src/main/java/chess/ChessBoard.java:176-183 | getSquare finds the first square in row-major order holding the piece, or null exactly when there is none |
| BoardRules.CollectionOnBoard | shared/src/main/java/chess/ChessBoard.java:198-209 | every listed square is on the board |
| BoardRules.AttackersInExact | shared/src/main/java/chess/ChessBoard.java:216-231 | the loop collects exactly the positions of the listed non-c squares with a move ending on the target |
| BoardRules.AttackersExact | shared/src/main/java/chess/ChessBoard.java:216-231 | getAttackingPieces returns exactly the positions of pieces not of colour c with a pseudo-move ending on the target |
| BoardRules.IsAttackedExact | shared/src/main/java/chess/ChessBoard.java:191-193 | isAttacked holds exactly when some opposing piece has a pseudo-move ending on the square |
| BoardRules.SquareIsAttackedExact | shared/src/main/java/chess/ChessSquare.java:30-32 | a square is attacked exactly when a piece of the other colour has a pseudo-move ending on it |
| BoardRules.PawnPushAttacks | shared/src/main/java/chess/ChessBoard.java:216-231 | a pawn's straight push onto an empty square counts as an attack on that square |
| BoardRules.FirstKingUnique | shared/src/main/java/chess/ChessBoard.java:176-183 | the first-found king of a colour is unique |
| BoardRules.KingSafeExact | shared/src/main/java/chess/ChessBoard.java:83-103 | the final check of isLegalMove holds exactly when there is no king of that colour or the first-found one is unattacked |
| BoardRules.PseudoMoveIsSimple | shared/src/main/java/chess/ChessBoard.java:110-133 | a generated pseudo-move never takes movePiece's castle or en-passant branch, so it only relocates (and maybe promotes) one piece |
| Board.ChessBoard.constructor | shared/src/main/java/chess/ChessBoard.java:16-17 | a new board is empty with an empty history |
| Board.ChessBoard.Copy | shared/src/main/java/chess/ChessBoard.java:18-22 | the copy has the same grid in a fresh array, so it equals the original and later changes stay apart; its history starts empty |
| Board.ChessBoard.AddPiece | shared/src/main/java/chess/ChessBoard.java:30-43 | after addPiece(p, x), getPiece(p) is x and every other square is unchanged |
| Board.ChessBoard.RemovePiece | shared/src/main/java/chess/ChessBoard.java:165-167 | removePiece empties one square and nothing else |
| Board.ChessBoard.ResetBoard | shared/src/main/java/chess/ChessBoard.java:49-75 | resetBoard installs a fresh array holding the starting grid; the history is kept |
| Board.ChessBoard.MovePiece | shared/src/main/java/chess/ChessBoard.java:110-133 | the grid and history become those of applying the move, castle and en passant included |
| Board.ChessBoard.EnPassant | shared/src/main/java/chess/ChessBoard.java:140-145 | enPassant empties the square on row 5 (start row 6) or 4, in the start column, and nothing else |
| Board.ChessBoard.Castle | shared/src/main/java/chess/ChessBoard.java:151-158 | castle moves the rook through movePiece, with its history entry |
| Board.ChessBoard.ChessSquareCollection | shared/src/main/java/chess/ChessBoard.java:198-209 | the nested loops build exactly the occupied squares in row-major order |
| Board.ChessBoard.GetSquare | shared/src/main/java/chess/ChessBoard.java:176-183 | the loop returns the first square holding the piece, or null |
| Board.ChessBoard.GetAttackingPieces | shared/src/main/java/chess/ChessBoard.java:216-231 | the loops return exactly the attackers' positions, in collection order |
| Board.ChessBoard.MoveEndsAt | shared/src/main/java/chess/ChessBoard.java:221-227 | the inner loop finds whether one of the square's moves ends on the target |
| Board.ChessBoard.IsAttacked | shared/src/main/java/chess/ChessBoard.java:191-193 | isAttacked is "the attacker list is non-empty" |
| Board.ChessBoard.IsValidCastling | shared/src/main/java/chess/ChessBoard.java:280-299 | a castle is valid for a king when (row,5) and the two squares toward the end (columns 3-4 or 6-7) are unattacked |
| Board.ChessBoard.IsLegalMove | shared/src/main/java/chess/ChessBoard.java:83-103 | false on an empty start or an invalid castle, otherwise the mover's king is safe after simulating the move on a copy; the board is unchanged |
| Board.ChessBoard.IsOriginalPosition | shared/src/main/java/chess/ChessBoard.java:252-259 | true exactly when no move in the history starts on the square |
| Board.ChessBoard.GetLastMove | shared/src/main/java/chess/ChessBoard.java:248-250 | the last entry of a non-empty history |
| Board.ChessBoard.IsSquareEmpty | shared/src/main/java/chess/ChessBoard.java:243-246 | true exactly when no piece is on the square |
| Board.ChessBoard.Equals | shared/src/main/java/chess/ChessBoard.java:314-319 | two boards are equal exactly when their grids are, whatever their histories |
| Board.PlaceBackRanks | shared/src/main/java/chess/ChessBoard.java:55-74 | the back-rank writes place R N B Q K B N R for both sides and leave rows 2-7 alone |
| Board.ScanEnds | shared/src/main/java/chess/ChessBoard.java:222-227 | the early-exit loop finds whether some move ends on the target |
| Board.StartGridLayout | shared/src/main/java/chess/ChessBoard.java:49-75 | the cells resetBoard writes are exactly the starting grid |
| GameRules.NewGame | shared/src/main/java/chess/ChessGame.java:20-24 | a new game has White to move on the starting layout |
| GameRules.PseudoMovesApplicable | shared/src/main/java/chess/ChessGame.java:63-70 | every pseudo-move can be applied by movePiece without a crash |
| GameRules.LegalAmongExact | shared/src/main/java/chess/ChessGame.java:66-70 | the filter keeps exactly the moves isLegalMove accepts |
| GameRules.PseudoMoveLegality | shared/src/main/java/chess/ChessBoard.java:83-103 | a pseudo-move passes isLegalMove exactly when the mover's king is safe after it (never an invalid castle) |
| GameRules.ValidMovesExact | shared/src/main/java/chess/ChessGame.java:57-74 | validMoves is empty on an empty square, and otherwise exactly the pseudo-moves after which the mover's king is safe |
| GameRules.CanMoveIsLegal | shared/src/main/java/chess/ChessGame.java:82-99 | makeMove's four checks: a piece at start, of the side to move, the move among its pseudo-moves, and isLegalMove |
| GameRules.AfterMove | shared/src/main/java/chess/ChessGame.java:90-93 | a successful move hands the turn to the other side |
| GameRules.CanMoveIffValid | shared/src/main/java/chess/ChessGame.java:82-99 | makeMove succeeds exactly on a valid move of a piece of the side to move |
| GameRules.PseudoMoveBoard | shared/src/main/java/chess/ChessBoard.java:110-133 | a pseudo-move relocates (and maybe promotes) the piece and leaves every other square unchanged |
| GameRules.AfterMoveBoard | shared/src/main/java/chess/ChessGame.java:82-99 | a successful makeMove moves exactly one piece, so castle and en passant never happen through it |
| GameRules.AfterMoveKingSafe | shared/src/main/java/chess/ChessGame.java:82-99 | a successful move never leaves the mover's king attacked |
| GameRules.TwoMovesRestoreTurn | shared/src/main/java/chess/ChessGame.java:90-93 | two successful moves give the turn back, and the two moved pieces have different colours |
| GameRules.NoEscapeExact | shared/src/main/java/chess/ChessGame.java:134-142 | the inner loop finds no move after which the king is safe |
| GameRules.TrappedExact | shared/src/main/java/chess/ChessGame.java:133-143 | a square is trapped exactly when none of its pseudo-moves leaves its king safe |
| GameRules.AllTrappedExact | shared/src/main/java/chess/ChessGame.java:132-145 | the outer loop succeeds exactly when every square of colour c is trapped |
| GameRules.AllStuckExact | shared/src/main/java/chess/ChessGame.java:165-173 | the stalemate loop succeeds exactly when no square of colour c has a valid move |
| GameRules.CollectionHolds | shared/src/main/java/chess/ChessBoard.java:198-209 | every collected square is on the board and holds its piece |
| GameRules.InCheckExact | shared/src/main/java/chess/ChessGame.java:107-114 | isInCheck is false without a king of colour c, and otherwise holds exactly when the first-found one is attacked |
| GameRules.NotBothMateAndStalemate | shared/src/main/java/chess/ChessGame.java:122-174 | no colour is ever both in checkmate and in stalemate |
| GameRules.StalemateIffNoValidMoves | shared/src/main/java/chess/ChessGame.java:155-174 | stalemate holds exactly when c has a king, is not in check, and no c piece has a valid move |
| GameRules.KingSurvivesOwnMove | shared/src/main/java/chess/ChessGame.java:135-139 | a side's own pseudo-move never removes its king, so the king lookup after the copy never finds null |
| GameRules.CheckmateIffNoValidMoves | shared/src/main/java/chess/ChessGame.java:122-146 | checkmate holds exactly when c is in check and no c piece has a valid move |
| Game.ChessGame.constructor | shared/src/main/java/chess/ChessGame.java:20-24 | a new game is the starting layout with White to move and an empty move history |
| Game.ChessGame.GetTeamTurn | shared/src/main/java/chess/ChessGame.java:29-31 | returns the side to move |
| Game.ChessGame.SetTeamTurn | shared/src/main/java/chess/ChessGame.java:38-40 | only the side to move changes |
| Game.ChessGame.GetBoard | shared/src/main/java/chess/ChessGame.java:190-192 | returns the game's own board object, not a copy |
| Game.ChessGame.SetBoard | shared/src/main/java/chess/ChessGame.java:181-183 | installs a fresh copy of the given grid with an empty history; the turn is kept |
| Game.ChessGame.ValidMoves | shared/src/main/java/chess/ChessGame.java:57-74 | the loop computes exactly the legal pseudo-moves of the piece, in generation order |
| Game.ChessGame.MakeMove | shared/src/main/java/chess/ChessGame.java:82-99 | succeeds exactly when the four checks pass, then applies the move, appends it to the history and flips the turn; on failure board, history and turn are unchanged |
| Game.ChessGame.IsInCheck | shared/src/main/java/chess/ChessGame.java:107-114 | computes exactly the check predicate |
| Game.ChessGame.IsInCheckmate | shared/src/main/java/chess/ChessGame.java:122-146 | computes exactly the checkmate predicate, without changing the game |
| Game.ChessGame.EverySquareTrapped | shared/src/main/java/chess/ChessGame.java:132-145 | the outer loop decides whether every square of colour c is trapped |
| Game.ChessGame.NextTrapped | shared/src/main/java/chess/ChessGame.java:133-143 | one step of the outer loop: the prefix stays trapped exactly when the next c square is trapped, and a failure settles the answer |
| Game.ChessGame.SquareTrapped | shared/src/main/java/chess/ChessGame.java:134-142 | the inner loop decides whether every move of the square leaves its king attacked |
| Game.ChessGame.KingAttackedAfter | shared/src/main/java/chess/ChessGame.java:135-139 | simulating a move on a copy tells whether the mover's king is attacked afterwards |
| Game.ChessGame.IsInStalemate | shared/src/main/java/chess/ChessGame.java:155-174 | computes exactly the stalemate predicate, without changing the game |
| Game.ChessGame.EverySquareStuck | shared/src/main/java/chess/ChessGame.java:165-173 | the loop decides whether no square of colour c has a valid move |
| Game.ChessGame.Equals | shared/src/main/java/chess/ChessGame.java:199-213 | two games are equal exactly when their grids and sides to move are |
| GameRecords.SetWhite | shared/src/main/java/model/GameData.java:18-20 | setWhite changes only the white seat |
| GameRecords.SetBlack | shared/src/main/java/model/GameData.java:22-24 | setBlack changes only the black seat |
| GameRecords.SetState | shared/src/main/java/model/GameData.java:31-33 | setState changes only the state |
| GameRecords.SetStateGameOver | shared/src/main/java/model/GameData.java:14-16 | after setState(s) the game is over exactly when s is not UNDECIDED |
| GameRecords.SetSeatIdempotent | shared/src/main/java/model/GameData.java:18-24 | setting a seat to its current holder changes nothing |
| GameRecords.SeatSettersCommute | shared/src/main/java/model/GameData.java:18-24 | the two seat setters commute |
| GameService.Guard | server/src/main/java/service/GameService.java:25-45 | a store failure becomes 500 "Server error"; a store reply passes through unchanged |
| GameService.ListGames | server/src/main/java/service/GameService.java:25-31 | the store's listing, or 500 "Server error" on a store failure |
| GameService.CreateGame | server/src/main/java/service/GameService.java:39-45 | the store's new game, or 500 "Server error" on a store failure |
| GameService.JoinGame | server/src/main/java/service/GameService.java:49-79 | a failing read or write becomes 500; otherwise the result is the decision chain's |
| GameService.JoinRules | server/src/main/java/service/GameService.java:60-73 | a join succeeds exactly for an existing, undecided game, a colour, and a seat that is empty or held by the user; the user then takes that seat and nothing else changes |
| GameService.JoinErrors | server/src/main/java/service/GameService.java:53-70 | the errors come in order: 400 "Unknown game", 400 "Missing color", 403 "Game is over", 403 "Color taken" |
| GameService.JoinIdempotent | server/src/main/java/service/GameService.java:60-73 | joining again with the same seat gives the same record |
| GameService.JoinGameOn | server/src/main/java/service/GameService.java:49-79 | on the store: a successful join writes exactly the joined record under its ID, and an error writes nothing |
| MemoryStore.FreshGame | server/src/main/java/dataaccess/MemoryDataAccess.java:52-59 | a new game has the given ID and name, no players, an undecided state, and White to move on the starting board |
| MemoryStore.MemoryDataAccess.constructor | server/src/main/java/dataaccess/MemoryDataAccess.java:13-18 | an empty store whose counter starts at 1000 |
| MemoryStore.MemoryDataAccess.Clear | server/src/main/java/dataaccess/MemoryDataAccess.java:20-24 | users, auths and games are emptied; the ID counter is not reset |
| MemoryStore.MemoryDataAccess.WriteUser | server/src/main/java/dataaccess/MemoryDataAccess.java:26-32 | a new username is stored and returned; an existing one gives "User already exists" and changes nothing |
| MemoryStore.MemoryDataAccess.ReadUser | server/src/main/java/dataaccess/MemoryDataAccess.java:34-36 | the stored user, or null when there is none |
| MemoryStore.MemoryDataAccess.WriteAuth | server/src/main/java/dataaccess/MemoryDataAccess.java:38-42 | a fresh token is stored with the username and returned |
| MemoryStore.MemoryDataAccess.ReadAuth | server/src/main/java/dataaccess/MemoryDataAccess.java:44-46 | the auth filed under the token, or null |
| MemoryStore.MemoryDataAccess.DeleteAuth | server/src/main/java/dataaccess/MemoryDataAccess.java:48-50 | only the token's entry goes and the token is then unknown; an unknown token changes nothing, so a second deleteAuth of the same token changes nothing |
| MemoryStore.MemoryDataAccess.NewGame | server/src/main/java/dataaccess/MemoryDataAccess.java:52-59 | stores a fresh game under the counter's value, an ID never used before, and advances the counter by one |
| MemoryStore.MemoryDataAccess.UpdateGame | server/src/main/java/dataaccess/MemoryDataAccess.java:61-63 | the record replaces what was filed under its ID; every other game is unchanged |
| MemoryStore.MemoryDataAccess.ReadGame | server/src/main/java/dataaccess/MemoryDataAccess.java:65-67 | the record filed under the ID, or null |
| MemoryStore.MemoryDataAccess.ListGames | server/src/main/java/dataaccess/MemoryDataAccess.java:69-71 | exactly the stored records |
| Connections.Added | server/src/main/java/server/WebSocketHandler.java:54-56 | add files the connection under the username and keeps the registry well formed |
| Connections.Attached | server/src/main/java/server/WebSocketHandler.java:150 | setting connection.game changes only that user's game ID |
| Connections.RestrictExact | server/src/main/java/server/WebSocketHandler.java:62-90 | the iteration order, restricted to the map's keys, lists exactly those keys once each |
| Connections.RestrictAll | server/src/main/java/server/WebSocketHandler.java:62-90 | restricting an order to a map holding all its keys changes nothing |
| Connections.RestrictTwice | server/src/main/java/server/WebSocketHandler.java:62-90 | restricting to a larger map and then to a smaller one is restricting to the smaller one |
| Connections.FirstWithSessionExact | server/src/main/java/server/WebSocketHandler.java:62-70 | the search finds a connection with the session exactly when one exists |
| Connections.RemovedExact | server/src/main/java/server/WebSocketHandler.java:62-74 | remove(session) deletes exactly one connection with that session, and is a no-op when none has it |
| Connections.FirstUnjoined | server/src/main/java/server/WebSocketHandler.java:78-82 | the first open connection with no game, where broadcast crashes |
| Connections.Swept | server/src/main/java/server/WebSocketHandler.java:86-88 | after broadcast, exactly the open connections remain, unchanged |
| Connections.SendsExact | server/src/main/java/server/WebSocketHandler.java:78-85 | the loop sends exactly to the open connections of the game other than the excluded user |
| Connections.ClosedExact | server/src/main/java/server/WebSocketHandler.java:84-85 | the remove list is exactly the closed connections |
| Connections.CastingExact | server/src/main/java/server/WebSocketHandler.java:76-90 | a broadcast without a crash sends exactly to the open connections of the game other than the excluded user; no broadcast ever sends to a closed connection |
| Connections.SweptIdempotent | server/src/main/java/server/WebSocketHandler.java:76-90 | a second sweep removes nothing more |
| Connections.SweptCompletes | server/src/main/java/server/WebSocketHandler.java:76-90 | a registry on which broadcast completes still lets it complete after the sweep, since only closed connections go and only open ones make it crash |
| Connections.ConnectionManager.constructor | server/src/main/java/server/WebSocketHandler.java:52 | the registry starts empty |
| Connections.ConnectionManager.Add | server/src/main/java/server/WebSocketHandler.java:54-56 | add files the connection under the username |
| Connections.ConnectionManager.Attach | server/src/main/java/server/WebSocketHandler.java:150 | only the user's connection gets the game ID |
| Connections.ConnectionManager.Get | server/src/main/java/server/WebSocketHandler.java:58-60 | the connection filed under the username, or null |
| Connections.ConnectionManager.Drop | server/src/main/java/server/WebSocketHandler.java:72 | the username's entry goes, and the order loses it |
| Connections.ConnectionManager.Remove | server/src/main/java/server/WebSocketHandler.java:62-74 | remove(session) leaves the registry as the removal function says |
| Connections.ConnectionManager.Scan | server/src/main/java/server/WebSocketHandler.java:78-86 | the first loop computes the sends and the remove list, and stops at a crash |
| Connections.ConnectionManager.RemoveAll | server/src/main/java/server/WebSocketHandler.java:86-88 | exactly the listed users are removed and every other entry is unchanged |
| Connections.ConnectionManager.Broadcast | server/src/main/java/server/WebSocketHandler.java:76-90 | sends as the casting function says; without a crash the closed connections are dropped, and after a crash the registry is unchanged |
| Coordinator.Lookup | server/src/main/java/dataaccess/MemoryDataAccess.java:65-67 | readGame on the stored map |
| Coordinator.PlayerColor | server/src/main/java/server/WebSocketHandler.java:276-283 | BLACK when the user holds the black seat, else WHITE when the user holds the white seat, else null |
| Coordinator.IsTurn | server/src/main/java/server/WebSocketHandler.java:292-297 | true exactly when the user holds the seat of the side to move and the start holds a piece of that side; it crashes on an empty seat or an off-board start |
| Coordinator.TurnOwner | server/src/main/java/server/WebSocketHandler.java:292-297 | whoever isTurn lets through is seated, plays the side to move unless holding both seats, and makeMove then accepts exactly the valid moves |
| Coordinator.JoinPlan | server/src/main/java/server/WebSocketHandler.java:145-163 | a join goes on only with the stored record |
| Coordinator.MovePlan | server/src/main/java/server/WebSocketHandler.java:189-214 | a move goes on only when makeMove accepts it, with the moved game as the record |
| Coordinator.ResignPlan | server/src/main/java/server/WebSocketHandler.java:227-245 | a resignation goes on only for a stored game, keeping its ID |
| Coordinator.LeavePlan | server/src/main/java/server/WebSocketHandler.java:253-268 | a leave goes on only for a stored game, keeping its ID |
| Coordinator.GameOutcome | server/src/main/java/server/WebSocketHandler.java:305-327 | handleGameState changes at most the state of the record |
| Coordinator.JoinRules | server/src/main/java/server/WebSocketHandler.java:145-163 | join succeeds exactly when the seat named by the colour (black for BLACK, white otherwise) holds the user; "game not found" for an unknown game; a spectator is refused |
| Coordinator.ClaimThenJoin | server/src/main/java/service/GameService.java:60-73 | after a successful seat claim through the service, the WebSocket join of the same seat succeeds |
| Coordinator.MoveRules | server/src/main/java/server/WebSocketHandler.java:189-214 | a move is accepted exactly for a stored undecided game whose side to move the user holds, with a valid move of that side; then the turn flips; an unknown game gets "unknown game", a finished one "game is over", a crash in isTurn (off-board start or empty seat) the generic failure, someone else's turn "invalid move", and a move makeMove refuses its rejection |
| Coordinator.ResignRules | server/src/main/java/server/WebSocketHandler.java:227-245 | a seated player of an undecided game resigns and the opponent's side wins; a spectator gets "only players can resign"; a missing or finished game gets "game not found" |
| Coordinator.LeaveRules | server/src/main/java/server/WebSocketHandler.java:253-268 | leave clears the black seat if the user holds it, else the white seat, and changes nothing else |
| Coordinator.OutcomeRules | server/src/main/java/server/WebSocketHandler.java:305-327 | stalemate of either side is a draw; else a mated White loses; else a mated Black loses; each with its announcement; otherwise the record is kept unchanged and a check (White's first) is only announced; no announcement exactly when there is neither check nor stalemate |
| Coordinator.MoverNeverLoses | server/src/main/java/server/WebSocketHandler.java:305-327 | after an accepted move the mover is never declared mated or announced in check |
| Coordinator.FinishedStaysFinished | server/src/main/java/server/WebSocketHandler.java:189-268 | a finished game refuses moves and resignations, and join and leave keep its state |
| Coordinator.Announce | server/src/main/java/server/WebSocketHandler.java:76-90 | one broadcast from a command; when it crashes the registry is kept and the requester gets an error |
| Coordinator.AnnounceOutcome | server/src/main/java/server/WebSocketHandler.java:323-325 | the outcome's broadcast keeps the registry well formed |
| Coordinator.MoveRunStores | server/src/main/java/server/WebSocketHandler.java:189-214 | an accepted move always leaves the moved game stored, and the decided outcome whenever the first broadcast completes (sweeping keeps it complete) |
| Coordinator.WebSocketHandler.constructor | server/src/main/java/server/WebSocketHandler.java:103-107 | the handler starts with the given store, an empty registry and no messages |
| Coordinator.WebSocketHandler.Send | server/src/main/java/server/WebSocketHandler.java:36-38 | one message is appended to the outbox |
| Coordinator.WebSocketHandler.Broadcast | server/src/main/java/server/WebSocketHandler.java:76-90 | the registry and the outbox change as one broadcast from a command says |
| Coordinator.WebSocketHandler.Join | server/src/main/java/server/WebSocketHandler.java:145-163 | a refused join sends one error and changes nothing else; an accepted one attaches the user, sends them the game and notifies the others |
| Coordinator.WebSocketHandler.Tell | server/src/main/java/server/WebSocketHandler.java:323-325 | handleGameState's broadcast of the outcome's notification, if any |
| Coordinator.WebSocketHandler.Move | server/src/main/java/server/WebSocketHandler.java:189-214 | a refused move sends exactly one error and writes nothing; an accepted one stores the moved game, notifies, stores the outcome and sends everyone the game |
| Coordinator.WebSocketHandler.Play | server/src/main/java/server/WebSocketHandler.java:193-206 | the steps after makeMove, as the run function says |
| Coordinator.WebSocketHandler.Conclude | server/src/main/java/server/WebSocketHandler.java:198-206 | from handleGameState on: announce, store the outcome, attach the mover, send everyone the game |
| Coordinator.WebSocketHandler.Resign | server/src/main/java/server/WebSocketHandler.java:227-245 | a refused resignation sends one error; an accepted one stores the decided state and notifies everyone |
| Coordinator.WebSocketHandler.Leave | server/src/main/java/server/WebSocketHandler.java:253-268 | a refused leave sends one error; otherwise the seat change is stored, the connection removed and everyone notified |

## Left out

- Positions.LowerString: lower-cases ASCII letters only. `toLowerCase` also folds non-ASCII letters, which no valid notation contains.
- Positions.FromNotation: counts Dafny characters (Unicode scalar values) and folds ASCII letters only. Java's `length()` counts UTF-16 units and `toLowerCase` folds all of Unicode, so the two can disagree on non-ASCII text. For example, a character outside the Basic Multilingual Plane (an emoji) is one character but two UTF-16 units, and "\u0130" followed by "1" folds to three units in Java. On ASCII text they agree.
- Moves.FromNotation: the same difference as Positions.FromNotation. On non-ASCII text, its length test and its lower-casing need not agree with Java's.
- Positions.HashOnBoard: the hash codes (`Objects.hash`, and ChessMove's `1000*start + end + code`) are unbounded integers. Java's 32-bit wrap-around never occurs for on-board values.
- `ChessPiece[8][8]` is modelled as one 64-cell array in row-major order. The nested row and column loops become one loop over the cell index.
- Modelled hash codes: ChessPosition's and ChessMove's, as `Positions.Hash` and `Moves.Hash`.
- Not modelled: the remaining `hashCode` methods (ChessPiece, ChessBoard, ChessGame) and every `toString`. They are rendering or hashing of other objects.
- `ChessBoard.getHistory` is the `history` field itself.
- `GameData.clearBoard` is commented out in the source.
- `ChessGame.createGame` and every JSON conversion (Gson) are a foreign library. Messages are a datatype (`Load`, `Notification`, `Error`) and notifications carry their data, not their formatted text.
- `MySqlDataAccess`, `DbManager`, `AuthService`, `UserService`, the HTTP server and the clients are not part of this model.
- MemoryStore.MemoryDataAccess.NewGame: the counter is an unbounded integer. Java's `int nextID++` would wrap after about 2^31 games, and the model does not capture that.
- GameService.JoinGame: the `System.out.println` of the read record (server/src/main/java/service/GameService.java:52) is console output and is not modelled.
- MemoryStore.MemoryDataAccess.WriteAuth: the UUID token is a parameter, required not to be in use, so its randomness is not modelled.
- Game.ChessGame.MakeMove: the engine's null-dereference and index-out-of-range paths are preconditions (on-board starts, a king present where the loops look one up). Lemmas such as PseudoMovesApplicable and KingSurvivesOwnMove show the engine's own callers never reach them.
- GameService.JoinGame: the store failures it maps to 500 come in as parameters. The in-memory store never fails.
- `ConcurrentHashMap`'s iteration order is modelled as insertion order with removed keys left out. Concurrent access is not modelled.
- Jetty sessions are integer IDs with an open flag, and a send is a delivery addressed to the connection's user.
- `onMessage`, `getConnection`, `observe`, `onClose` and `onError` are not modelled. A crash they would catch inside a command becomes an `Error(Failure)` delivery to the requester, and whatever the command did before the crash stays done.
- `StringUtil.isEqual` is modelled as null-safe string equality.
- The `GameData.State` names WHITE, BLACK, DRAW and UNDECIDED become `WhiteWon`, `BlackWon`, `Draw` and `Undecided`.
- Coordinator.GameOutcome: `handleGameState` is split in two. GameOutcome decides the outcome and `WebSocketHandler.Tell` sends it.
- Coordinator.AnnounceOutcome: its contract states only that the registry stays well formed. Its effect is stated through `Announce` in the contracts of Tell, Move and Conclude.
- The WebSocket commands act on the stored `GameData`'s game through the `GameRules` functions rather than through a `Game.ChessGame` object. The class is proved against the same functions.
- A service test of this repository expects "Color taken" when the current holder of a seat rejoins it (server/src/test/java/serviceTests/GameServiceTests.java:80-107). The code lets the holder rejoin (server/src/main/java/service/GameService.java:61). The model follows the code: see GameService.JoinIdempotent.
