# Xadrez-JAVA model package, in Dafny

This project models the `model` package of Xadrez-JAVA, a Java chess program, and proves what that package promises. The package holds:

- the board and its pieces;
- each piece's move generator (`getPossibleMoves`) and validator (`isValidMove`);
- the game controller `Game`: selection, the human move and its special cases, the fifty-move and repetition counters, the end-of-game test and the engine's reply;
- three engines:
  - `ChessAI`, a one-ply material picker with a random draw;
  - `IASuprema`, minimax with alpha-beta pruning;
  - `IANivel8`, negamax with alpha-beta pruning and a captures-only quiescence search.

The model keeps the source's own shape:

- **Values.** A `Position` is a datatype. What a board holds is the datatype `Snapshot`: eight rows of eight cells, plus the en-passant target.
- **Objects.** The source updates `Piece`, `Board`, `Move`, `ChessAI` and `Game` objects in place, so each is a class with `modifies` clauses.
- **Loops.** Every loop of the source is a method with a loop and its invariants. Each method is proved to compute a specification function of the board's value.
- **Properties.** The properties are proved about those functions. They include:
  - each piece's validator agrees with its move list;
  - the initial setup;
  - `movePiece` and `copy`;
  - the position key;
  - the order of the end-of-game tests;
  - the alpha-beta theorems of both searches, with Java's 32-bit negation;
  - the quiescence bounds;
  - the engines' choice of the first strictly best move.

The files, one module each, are under `src/`:

| file | models |
|---|---|
| `wrappers.dfy` | `Option`, for nullable references |
| `positions.dfy` | `Position.java` |
| `piece.dfy` | `pieces/Piece.java` and the symbols and names of its subclasses |
| `steps.dfy` | the offset loop of `Knight` and `King` |
| `sliding.dfy` | the ray walk and `isPathClear` of `Bishop`, `Rook` and `Queen` |
| `knight.dfy`, `bishop.dfy`, `rook.dfy`, `queen.dfy`, `king.dfy`, `pawn.dfy` | the six piece classes |
| `rules.dfy` | dispatch through the abstract `Piece` |
| `board.dfy` | `Board.java` |
| `move.dfy` | `Move.java` |
| `scans.dfy` | the whole-board move scans (`getAllPossibleMoves`, `getCaptureMoves`) |
| `legality.dfy` | `isKingInCheck`, `wouldPutKingInCheck`, the `hasLegalMoves` and `findAnyLegalMove` scans |
| `evaluation.dfy` | the three evaluation functions and both piece tables |
| `picks.dfy` | the choose-the-first-strictly-best loop shared by the engines |
| `chessai.dfy` | `ChessAI.java` |
| `search.dfy` | minimax, negamax and quiescence over an abstract game |
| `iasuprema.dfy`, `ianivel8.dfy` | `IASuprema.java`, `IANivel8.java` over the chess positions |
| `game.dfy` | `Game.java` |

Inputs that stand in for behaviour the source does not show, or cannot be stated as a function:

- `attacks: (Snapshot, Pos, bool) -> bool` stands for `Board.isSquareAttacked`, whose body is not part of the source.
- `roll: real` and `pick: nat` are the values `Random.nextDouble()` and `Random.nextInt` would return in `ChessAI.makeBestMove`.

## Model

| member | source | states |
|---|---|---|
| Positions.Pos.Equals | src/main/java/model/Position.java:31-37 | equals holds exactly when the row and the column are both equal |
| Positions.SquareOf | src/main/java/model/Position.java:39-42 | the square with a given hash code in [0, 64) is on the board and has that hash code |
| Positions.HashCodeRange | src/main/java/model/Position.java:39-42 | on the board, hashCode lies in [0, 63] and determines the square |
| Positions.HashCodeInjective | src/main/java/model/Position.java:31-42 | on the board, equal hash codes hold exactly for equal positions |
| Positions.NatToStringRoundTrip | src/main/java/model/Position.java:44-47 | the decimal text of a coordinate consists of digits and reads back as that number |
| Positions.ValidToString | src/main/java/model/Position.java:44-47 | a square on the board prints as the six characters "(r, c)" |
| Positions.ToStringInjective | src/main/java/model/Position.java:44-47 | distinct squares on the board print differently |
| Pieces.Piece.constructor | src/main/java/model/pieces/Piece.java:15-19 | the piece has the given kind, colour and square, and has not moved |
| Pieces.Piece.SetPosition | src/main/java/model/pieces/Piece.java:29-31 | only the square changes |
| Pieces.Piece.SetHasMoved | src/main/java/model/pieces/Piece.java:37-39 | only the hasMoved flag changes |
| Pieces.At | src/main/java/model/Board.java:52-57 | a square off the board holds nothing |
| Pieces.SymbolInjective | src/main/java/model/pieces/Knight.java:61-63 | every kind and colour has its own symbol, and none is '.' |
| Pieces.AllyEnemyExclusive | src/main/java/model/pieces/Piece.java:71-89 | ally and enemy exclude each other; one of them holds exactly when a piece stands there; neither holds exactly on an empty or off-board square |
| Pieces.EnemyIsOtherAlly | src/main/java/model/pieces/Piece.java:78-89 | an enemy of one colour is an ally of the other |
| Steps.OffsetTargetsSpec | src/main/java/model/pieces/Knight.java:27-35 | one target at most per offset; a target is an offset square that is on the board and holds no ally |
| Steps.CollectSteps | src/main/java/model/pieces/Knight.java:19-37 | the offset loop returns exactly the offset targets, in offset order |
| Knights.PossibleMoves | src/main/java/model/pieces/Knight.java:18-38 | getPossibleMoves returns the knight's target list |
| Knights.IsValidMove | src/main/java/model/pieces/Knight.java:41-58 | isValidMove computes the knight's validity test |
| Knights.JumpOffsets | src/main/java/model/pieces/Knight.java:22-50 | the eight offsets are exactly the (2,1) and (1,2) jumps |
| Knights.KnightMovesSpec | src/main/java/model/pieces/Knight.java:18-58 | at most 8 targets, each on the board, a knight jump away and free of allies; isValidMove holds exactly for listed squares |
| Knights.KnightRejects | src/main/java/model/pieces/Knight.java:42-52 | off-board squares and the knight's own square are rejected |
| Knights.KnightSymbol | src/main/java/model/pieces/Knight.java:61-63 | the symbol is "N" for white and "n" for black |
| Bishops.PossibleMoves | src/main/java/model/pieces/Bishop.java:18-46 | getPossibleMoves walks the four diagonal rays |
| Bishops.IsValidMove | src/main/java/model/pieces/Bishop.java:49-64 | isValidMove computes on-board, equal differences and isPathClear |
| Bishops.DiagonalStep | src/main/java/model/pieces/Bishop.java:54-60 | toward an aligned square, the step is diagonal exactly when the square is on a diagonal |
| Bishops.BishopMovesValid | src/main/java/model/pieces/Bishop.java:18-87 | a square is listed exactly when isValidMove accepts it, exactly when it is another diagonal square whose path is clear |
| Bishops.BishopRejects | src/main/java/model/pieces/Bishop.java:69-87 | the own square and off-board squares are rejected |
| Bishops.BishopBound | src/main/java/model/pieces/Bishop.java:22-43 | at most 13 targets |
| Bishops.BishopSymbol | src/main/java/model/pieces/Bishop.java:89-97 | symbol "B"/"b", name "Bispo" |
| Rooks.PossibleMoves | src/main/java/model/pieces/Rook.java:18-46 | getPossibleMoves walks the four orthogonal rays |
| Rooks.IsValidMove | src/main/java/model/pieces/Rook.java:49-64 | isValidMove computes on-board, same row or column, and isPathClear |
| Rooks.OrthogonalStep | src/main/java/model/pieces/Rook.java:54-60 | toward an aligned square, the step is orthogonal exactly when the square shares the row or column |
| Rooks.RookMovesValid | src/main/java/model/pieces/Rook.java:18-87 | a square is listed exactly when isValidMove accepts it, exactly when it shares the row or column, is not the own square, and its path is clear |
| Rooks.RookRejects | src/main/java/model/pieces/Rook.java:69-87 | the own square and off-board squares are rejected |
| Rooks.RookBound | src/main/java/model/pieces/Rook.java:22-43 | at most 14 targets |
| Rooks.RookSymbol | src/main/java/model/pieces/Rook.java:89-97 | symbol "R"/"r", name "Torre" |
| Queens.PossibleMoves | src/main/java/model/pieces/Queen.java:18-49 | getPossibleMoves walks the rook's rays, then the bishop's |
| Queens.IsValidMove | src/main/java/model/pieces/Queen.java:52-69 | isValidMove computes on-board, isStraightLine and isPathClear |
| Queens.QueenIsRookThenBishop | src/main/java/model/pieces/Queen.java:22-25 | the queen's list is the rook's list followed by the bishop's |
| Queens.QueenValidUnion | src/main/java/model/pieces/Queen.java:57-69 | the queen accepts a square exactly when the rook or the bishop does |
| Queens.QueenMovesValid | src/main/java/model/pieces/Queen.java:18-92 | a square is listed exactly when isValidMove accepts it, exactly when it is another square on a line through the queen whose path is clear |
| Queens.QueenRejects | src/main/java/model/pieces/Queen.java:74-92 | the own square and off-board squares are rejected |
| Queens.QueenBound | src/main/java/model/pieces/Queen.java:22-46 | at most 27 targets |
| Queens.QueenSymbol | src/main/java/model/pieces/Queen.java:94-102 | symbol "Q"/"q", name "Rainha" |
| Sliding.WalkRay | src/main/java/model/pieces/Bishop.java:24-42 | one direction's while loop returns that direction's ray |
| Sliding.WalkRays | src/main/java/model/pieces/Bishop.java:18-46 | the loop over directions returns the rays concatenated in direction order |
| Sliding.IsPathClear | src/main/java/model/pieces/Bishop.java:69-87 | isPathClear holds when every square strictly between is empty and the target is empty or enemy-held |
| Sliding.RayFromMember | src/main/java/model/pieces/Bishop.java:28-42 | from step j on, a ray holds exactly the squares in its direction whose earlier squares are empty and which are empty or enemy-held |
| Sliding.RayTarget | src/main/java/model/pieces/Bishop.java:28-42 | a ray holds exactly the other aligned squares in its direction that pass isPathClear |
| Sliding.SlideTargets | src/main/java/model/pieces/Bishop.java:18-46 | the walk over a direction list yields exactly the other aligned squares in those directions that pass isPathClear |
| Sliding.PathClearRejectsOwnSquare | src/main/java/model/pieces/Bishop.java:85-86 | the own square never passes isPathClear |
| Sliding.RayStops | src/main/java/model/pieces/Bishop.java:33-37 | nothing of a ray lies beyond an occupied square of it |
| Sliding.RayBound | src/main/java/model/pieces/Bishop.java:28-42 | a ray holds at most the squares between its start and the edge |
| Sliding.SlideConcat | src/main/java/model/pieces/Queen.java:22-46 | walking two direction lists one after the other is walking their concatenation |
| Kings.CornerTerminates | src/main/java/model/pieces/King.java:72-81 | canCastle's column walk ends for a king that does not stand on a castling rook |
| Kings.CanCastle | src/main/java/model/pieces/King.java:65-99 | canCastle needs an unmoved rook of the king's colour, an empty path and three squares the enemy does not attack |
| Kings.AddCastlingMoves | src/main/java/model/pieces/King.java:48-60 | appends the short castle, then the long castle, each when allowed |
| Kings.PossibleMoves | src/main/java/model/pieces/King.java:18-43 | the adjacent targets, plus the castling targets of an unmoved king |
| Kings.IsValidCastling | src/main/java/model/pieces/King.java:126-131 | isValidCastling is canCastle for the corner on the target's side |
| Kings.IsValidMove | src/main/java/model/pieces/King.java:102-121 | isValidMove computes the king's validity test |
| Kings.AdjacentOffsets | src/main/java/model/pieces/King.java:22-25 | the eight offsets are exactly the squares at Chebyshev distance 1 |
| Kings.KingStepsSpec | src/main/java/model/pieces/King.java:27-35 | the non-castling targets: at most 8, each adjacent, on the board and free of allies |
| Kings.KingCastlingTargets | src/main/java/model/pieces/King.java:37-60 | a non-adjacent target is (row, 6) or (row, 2) of an unmoved king, each when its corner allows castling |
| Kings.KingValidRejects | src/main/java/model/pieces/King.java:102-121 | the own square is rejected; a non-adjacent square is accepted only as a castle of an unmoved king that canCastle allows |
| Kings.KingMovesValid | src/main/java/model/pieces/King.java:18-131 | with the king on column 4, isValidMove holds exactly for listed squares |
| Kings.KingBound | src/main/java/model/pieces/King.java:18-43 | at most 10 targets |
| Kings.KingSymbol | src/main/java/model/pieces/King.java:133-141 | symbol "K"/"k", name "Rei" |
| Pawns.PossibleMoves | src/main/java/model/pieces/Pawn.java:18-57 | forward moves, left capture, right capture, en passant, in that order |
| Pawns.AddForward | src/main/java/model/pieces/Pawn.java:23-35 | the single step, then the double step from the start row |
| Pawns.AddCapture | src/main/java/model/pieces/Pawn.java:37-46 | the diagonal ahead on one side, when an enemy holds it |
| Pawns.IsValidMove | src/main/java/model/pieces/Pawn.java:60-92 | isValidMove computes the pawn's validity test, branch for branch |
| Pawns.ForwardMovesSpec | src/main/java/model/pieces/Pawn.java:24-35 | at most two forward squares, each empty on the pawn's column: one ahead, or two from the start row over an empty square |
| Pawns.CaptureMoveSpec | src/main/java/model/pieces/Pawn.java:38-46 | a capture square is the enemy-held diagonal one row ahead |
| Pawns.PawnMovesSpec | src/main/java/model/pieces/Pawn.java:18-57 | at most 5 targets; each is a forward square, an enemy-held diagonal or the en-passant target; the en-passant target is listed whenever it is on the row ahead and an adjacent column |
| Pawns.PawnMovesValid | src/main/java/model/pieces/Pawn.java:18-92 | off the en-passant square, isValidMove holds exactly for listed squares |
| Pawns.PawnRejectsEnPassant | src/main/java/model/pieces/Pawn.java:71-91 | isValidMove rejects the own square and every empty diagonal square, the en-passant target among them, although the list offers that target |
| Pawns.PawnSymbol | src/main/java/model/pieces/Pawn.java:94-102 | symbol "P"/"p", name "Peão" |
| Rules.PossibleMoves | src/main/java/model/pieces/Piece.java:44 | getPossibleMoves dispatches on the piece's kind |
| Rules.IsValidMove | src/main/java/model/pieces/Piece.java:49 | isValidMove dispatches on the piece's kind |
| Rules.StandingWalkable | src/main/java/model/pieces/King.java:75-81 | a piece standing on its own square satisfies the castling walk's requirement |
| Rules.TargetsValid | src/main/java/model/pieces/Piece.java:41-49 | for a standing piece, isValidMove agrees with getPossibleMoves, except for a king off column 4 and a pawn's en-passant square |
| Rules.ValidMoveLands | src/main/java/model/pieces/Piece.java:44-49 | for a standing piece other than a king on column 2 or 5, an accepted move goes to another square, on the board and free of allies |
| Rules.KingTakesOwnRook | src/main/java/model/pieces/King.java:102-131 | an unmoved king on column 5 accepts the square of its own unmoved rook on column 7 when the square between is empty and unattacked |
| Rules.TargetsBound | src/main/java/model/pieces/Queen.java:22-46 | no piece lists more than 27 squares |
| Boards.SetAt | src/main/java/model/Board.java:62-69 | only the given square changes, and nothing changes off the board |
| Boards.InitialSnapshot | src/main/java/model/Board.java:19-47 | the initial board is 8x8 and has no en-passant target |
| Boards.KingFromSpec | src/main/java/model/Board.java:145-155 | findKing's scan from a square returns the first king of that colour from there on, or nothing when there is none |
| Boards.KingSquareFirst | src/main/java/model/Board.java:145-155 | findKing returns the first king of that colour in row-major order, or nothing exactly when there is none |
| Boards.InitialSetup | src/main/java/model/Board.java:19-47 | back ranks R N B Q K B N R on rows 0 and 7, pawns on rows 1 and 6, rows 2-5 empty, nothing moved |
| Boards.InitialKings | src/main/java/model/Board.java:19-47 | exactly one king per colour, on (0, 4) and (7, 4), and findKing finds it |
| Boards.MoveOnEffect | src/main/java/model/Board.java:83-90 | movePiece from an empty square does nothing; otherwise the mover lands marked as moved, the source empties, and nothing else changes |
| Boards.SetAtCount | src/main/java/model/Board.java:62-69 | setting a square changes the piece count by what the square gains and loses |
| Boards.MoveOnCount | src/main/java/model/Board.java:83-90 | a capture by movePiece removes exactly one piece; a move to an empty square keeps the count |
| Boards.CopyOfEffect | src/main/java/model/Board.java:102-140 | the copy has the same kind and colour on every square, hasMoved false, no en-passant target and the same piece count |
| Boards.CopyOfIdempotent | src/main/java/model/Board.java:102-140 | copying twice is copying once |
| Boards.HasPieceAt | src/main/java/model/pieces/Piece.java:71-73 | hasPieceAt on the board is hasPieceAt on its value |
| Boards.HasEnemyPieceAt | src/main/java/model/pieces/Piece.java:78-81 | hasEnemyPieceAt on the board is the enemy test on its value |
| Boards.HasAllyPieceAt | src/main/java/model/pieces/Piece.java:86-89 | hasAllyPieceAt on the board is the ally test on its value |
| Boards.Board.constructor | src/main/java/model/Board.java:11-14 | a new board holds the initial setup |
| Boards.Board.Place | src/main/java/model/Board.java:21-46 | one statement of initializeBoard: a new unmoved piece on one square, the others untouched |
| Boards.Board.PlaceBackRank | src/main/java/model/Board.java:21-28 | a back rank R N B Q K B N R in one colour, the other rows untouched |
| Boards.Board.PlacePawns | src/main/java/model/Board.java:30-32 | a row of pawns in one colour, the other rows untouched |
| Boards.Board.InitializeBoard | src/main/java/model/Board.java:19-47 | every square holds its initial cell |
| Boards.Board.GetPieceAt | src/main/java/model/Board.java:52-57 | returns what the square holds, null off the board, and that piece knows its square |
| Boards.Board.SetPieceAt | src/main/java/model/Board.java:62-69 | does nothing off the board; otherwise only that square changes and the piece learns its square |
| Boards.Board.RemovePieceAt | src/main/java/model/Board.java:74-78 | clears that square only |
| Boards.Board.MovePiece | src/main/java/model/Board.java:83-90 | the board's new value is movePiece on its old value |
| Boards.Board.IsEmpty | src/main/java/model/Board.java:95-97 | isEmpty holds exactly when getPieceAt is null |
| Boards.Board.SetEnPassantTarget | src/main/java/model/Game.java:200-212 | only the en-passant target changes |
| Boards.Board.FindKing | src/main/java/model/Board.java:145-155 | the loop returns the first king of that colour in row-major order |
| Boards.Board.Copy | src/main/java/model/Board.java:102-120 | a new board, with new unmoved pieces, whose value is the copy of this board's value; this board is untouched |
| Boards.Board.ClearSquares | src/main/java/model/Board.java:104-108 | every square of the new board is emptied |
| Boards.Board.CopyPiecesFrom | src/main/java/model/Board.java:110-117 | every square gets an unmoved twin of the original's piece |
| Boards.Board.CreatePieceCopy | src/main/java/model/Board.java:125-140 | a new piece of the same kind and colour on the given square, not moved |
| Moves.Move.constructor | src/main/java/model/Move.java:17-24 | from, to and the moving piece as given; no capture, castling, en passant or promotion |
| Moves.Move.WithCapture | src/main/java/model/Move.java:26-29 | the same, with the captured piece recorded |
| Moves.Move.SetPieceCaptured | src/main/java/model/Move.java:47-49 | only the captured piece changes |
| Moves.Move.SetCastling | src/main/java/model/Move.java:55-57 | only the castling flag changes |
| Moves.Move.SetEnPassant | src/main/java/model/Move.java:63-65 | only the en-passant flag changes |
| Moves.Move.SetPromotionPiece | src/main/java/model/Move.java:71-73 | only the promotion piece changes |
| Scans.RowGatherMember | src/main/java/model/ChessAI.java:95-111 | an element of one row's scan comes from some square of that row |
| Scans.GatherMember | src/main/java/model/ChessAI.java:94-112 | an element of a whole-board scan comes from some square of the scanned rows |
| Scans.SumNegate | src/main/java/model/ChessAI.java:123-137 | summing the negated square score gives the negated sum |
| Scans.SumBoundRows | src/main/java/model/ChessAI.java:123-137 | a board sum of scores bounded by m is bounded by 64 m |
| Scans.ManAt | src/main/java/model/ChessAI.java:104-107 | the destination's occupant is recorded exactly when the square is occupied |
| Scans.PliesToIndex | src/main/java/model/ChessAI.java:102-109 | one Move per target, in target order, recording the destination's occupant as captured |
| Scans.PliesToMember | src/main/java/model/ChessAI.java:102-109 | the Moves of one piece are exactly its targets with that piece and the destination's occupant |
| Scans.SquarePliesMember | src/main/java/model/ChessAI.java:97-110 | the Moves listed for a square are those of its piece, when the piece has the colour asked for |
| Scans.AllPliesIsGather | src/main/java/model/ChessAI.java:91-115 | getAllPossibleMoves is the row-major scan of the per-square lists |
| Scans.AllCapturesIsGather | src/main/java/model/IANivel8.java:104-124 | getCaptureMoves is the row-major scan of the per-square capture lists |
| Scans.Simulate | src/main/java/model/ChessAI.java:59-60 | the simulated position (copy, then movePiece) is an 8x8 board |
| Scans.Successors | src/main/java/model/IASuprema.java:112-114 | one simulated position per move, in move order |
| Scans.AllPliesSpec | src/main/java/model/ChessAI.java:91-115 | a generated Move starts on a piece of that colour, goes to one of its getPossibleMoves and records as captured exactly what the destination holds; every such Move is generated |
| Scans.CapturesToSpec | src/main/java/model/IANivel8.java:112-118 | the capture Moves of one piece are its targets that hold an enemy |
| Scans.SquareCapturesMember | src/main/java/model/IANivel8.java:108-120 | the capture Moves of a square are those of its piece with an enemy on the target |
| Scans.AllCapturesSpec | src/main/java/model/IANivel8.java:104-124 | the capture Moves are exactly the generated Moves that capture a piece of the other colour |
| Scans.CaptureShrinks | src/main/java/model/IANivel8.java:66-69 | every capture removes exactly one piece from the simulated board |
| Scans.Records | src/main/java/model/ChessAI.java:91-115 | a list of Move objects has one record per Move |
| Scans.RecordsIndex | src/main/java/model/ChessAI.java:91-115 | Moves that record a list element by element record that list |
| Scans.RecordsAppend | src/main/java/model/ChessAI.java:108 | appending Moves appends their records |
| Scans.NewMove | src/main/java/model/ChessAI.java:103-107 | a new Move from pos to target, with the target's occupant as captured |
| Scans.TargetMoves | src/main/java/model/ChessAI.java:102-109 | the inner loop builds one new Move per target, in target order |
| Scans.SquareMoves | src/main/java/model/ChessAI.java:96-110 | the new Moves of one square |
| Scans.TargetCaptures | src/main/java/model/IANivel8.java:112-118 | the inner capture loop builds a new Move per enemy-held target |
| Scans.SquareCaptureMoves | src/main/java/model/IANivel8.java:108-120 | the capture Moves of one square |
| Scans.RowMoves | src/main/java/model/ChessAI.java:95-111 | the new Moves of one row |
| Scans.AllPossibleMoves | src/main/java/model/ChessAI.java:91-115 | getAllPossibleMoves records exactly the generated Moves, all new, and leaves the board untouched |
| Scans.RowCaptureMoves | src/main/java/model/IANivel8.java:107-121 | the capture Moves of one row |
| Scans.CaptureMoves | src/main/java/model/IANivel8.java:104-124 | getCaptureMoves records exactly the capture Moves and leaves the board untouched |
| Scans.SimulateOn | src/main/java/model/ChessAI.java:59-60 | copy then movePiece on the copy: a new board holding the simulated position, the original untouched |
| Scans.Child | src/main/java/model/IASuprema.java:113-114 | the i-th child is simulated on a new board |
| Legality.GatherFirst | src/main/java/model/Game.java:327-340 | a scan starts with the first element listed by the first square that lists anything |
| Legality.KingInCheckSpec | src/main/java/model/Game.java:272-291 | in check exactly when findKing finds a king and some enemy piece's isValidMove accepts its square |
| Legality.RowAttacked | src/main/java/model/Game.java:280-287 | the inner loop finds an attacker in that row |
| Legality.SquareAttacks | src/main/java/model/Game.java:281-285 | one square holds an enemy piece whose isValidMove accepts the king's square |
| Legality.Attacked | src/main/java/model/Game.java:279-290 | the loop nest finds an attacker somewhere on the board |
| Legality.KingInCheckOn | src/main/java/model/Game.java:272-291 | isKingInCheck on the board computes the check test on its value |
| Legality.WouldCheckOn | src/main/java/model/Game.java:260-267 | wouldPutKingInCheck tests the king on a simulated copy; the board is untouched |
| Legality.FilterMember | src/main/java/model/Game.java:399-409 | the filtered list holds exactly the elements that pass |
| Legality.FilterPrefix | src/main/java/model/Game.java:399-409 | filtering a prefix gives a prefix of the filtered list |
| Legality.FilterSnoc | src/main/java/model/Game.java:399-409 | filtering one more element appends it when it passes |
| Legality.KeptMember | src/main/java/model/Game.java:399-409 | the kept targets are exactly the targets that take no king, when kings are skipped, and leave the own king safe |
| Legality.Tries | src/main/java/model/Game.java:333 | one test Move per target, without a captured piece |
| Legality.SafePliesMember | src/main/java/model/Game.java:512-532 | a Move survives the filter exactly when it is a generated Move of that colour, without a recorded capture, that passes it |
| Legality.HasLegalMovesSpec | src/main/java/model/Game.java:326-342 | a legal move exists exactly when some generated Move leaves the king safe |
| Legality.AnyLegalMoveSpec | src/main/java/model/Game.java:512-532 | nothing exactly when every generated Move takes a king or exposes the own king; otherwise a Move that does neither |
| Legality.SquareSafeMove | src/main/java/model/Game.java:515-528 | the first Move of one square that passes the filter, or null |
| Legality.FirstKept | src/main/java/model/Game.java:518-527 | the first target that passes the filter, as a new Move, or null |
| Legality.TryTarget | src/main/java/model/Game.java:519-526 | a target is skipped when it holds a king and kings are skipped, and kept when the own king stays safe |
| Legality.RowSafeMove | src/main/java/model/Game.java:514-529 | the first Move of one row that passes the filter, or null |
| Legality.FirstSafeMove | src/main/java/model/Game.java:512-532 | the scan of hasLegalMoves and findAnyLegalMove: the first Move that passes the filter, or null exactly when none does |
| Evaluation.WorthTables | src/main/java/model/IASuprema.java:89-99 | the two piece tables are 100/300/300/500/900/10000 and 100/320/330/500/900/20000, and the name switch never falls through to 0 |
| Evaluation.KindIndex | src/main/java/model/IANivel8.java:163-170 | each kind has one of six table slots |
| Evaluation.MaterialAntisymmetric | src/main/java/model/ChessAI.java:120-140 | material for one side is minus material for the other |
| Evaluation.KingSafetyAntisymmetric | src/main/java/model/IASuprema.java:77-84 | the king-safety terms for one side are minus those for the other |
| Evaluation.InitialRowsMirror | src/main/java/model/Board.java:19-47 | row 7 - r of the initial setup scores minus row r |
| Evaluation.SumByRows | src/main/java/model/ChessAI.java:123-137 | a board sum is the sum of its rows |
| Evaluation.MaterialInitial | src/main/java/model/ChessAI.java:120-140 | the initial position has material 0 for either side and either table |
| Evaluation.MaterialBound | src/main/java/model/ChessAI.java:120-140 | material lies within ±1,280,000 |
| Evaluation.MobilityBound | src/main/java/model/IASuprema.java:66-74 | mobility lies within ±1,728 |
| Evaluation.EvaluationBound | src/main/java/model/IASuprema.java:53-86 | the evaluation lies within ±1,300,000, so its Java int additions never overflow |
| Evaluation.Evaluation32 | src/main/java/model/IASuprema.java:53-86 | the evaluation is a Java int within ±1,300,000 |
| Evaluation.RowMaterial | src/main/java/model/ChessAI.java:124-136 | one row of the material loop |
| Evaluation.MaterialScore | src/main/java/model/ChessAI.java:120-140 | the material loop computes own material minus the opponent's |
| Evaluation.RowMobility | src/main/java/model/IASuprema.java:68-73 | one row of the mobility loop |
| Evaluation.MobilityScore | src/main/java/model/IASuprema.java:66-74 | the mobility loop counts the moves of the side's pieces |
| Evaluation.KingSafetyOf | src/main/java/model/IASuprema.java:77-84 | the king-safety terms, once both kings are looked up |
| Evaluation.KingSafetyScore | src/main/java/model/IASuprema.java:77-84 | -50 for an attacked own king, +50 for an attacked enemy king |
| Evaluation.EvaluationOf | src/main/java/model/IASuprema.java:75 | the evaluation is material + 10 * mobility + king safety |
| Evaluation.Evaluate | src/main/java/model/IANivel8.java:127-160 | evaluate and avaliarTabuleiro compute the evaluation and leave the board untouched |
| Picks.PickSpec | src/main/java/model/ChessAI.java:54-69 | the loop keeps nothing when no score beats the sentinel; otherwise the first score that beats the sentinel and every earlier score, which no later score beats |
| Picks.PickNegate | src/main/java/model/IASuprema.java:16-25 | keeping a strict maximum is keeping a strict minimum of the negated scores |
| Picks.PickStep | src/main/java/model/ChessAI.java:65-68 | one step of the loop: a strictly better score replaces the kept one |
| Greedy.ClampDifficulty | src/main/java/model/ChessAI.java:28-30 | the clamped difficulty lies in [1, 3] and keeps a value already there |
| Greedy.GreedyScores | src/main/java/model/ChessAI.java:57-69 | one score per move, in move order |
| Greedy.GreedyChoiceSpec | src/main/java/model/ChessAI.java:54-69 | a move is kept exactly when there is one, and it is the first with the strictly greatest score |
| Greedy.ScoreMove | src/main/java/model/ChessAI.java:59-63 | the score of a move is evaluatePosition of its simulated position, for black |
| Greedy.GreedyScoreOf | src/main/java/model/ChessAI.java:59-63 | black's material of the simulated position is the move's score |
| Greedy.KeepBest | src/main/java/model/ChessAI.java:54-69 | the loop keeps the move the pick designates, or null |
| Greedy.ChessAI.constructor | src/main/java/model/ChessAI.java:15-18 | the default difficulty is 2 |
| Greedy.ChessAI.WithDifficulty | src/main/java/model/ChessAI.java:20-23 | the difficulty is clamped into [1, 3] |
| Greedy.ChessAI.SetDifficulty | src/main/java/model/ChessAI.java:28-30 | the difficulty is clamped into [1, 3] |
| Greedy.ChessAI.MakeBestMove | src/main/java/model/ChessAI.java:42-86 | null exactly on white's turn or without black moves; otherwise a generated move: the first strictly best, or the move at pick % size when the random draw deviates |
| Search.NegWraps | src/main/java/model/IANivel8.java:21 | Java negation maps MIN_VALUE to itself and MAX_VALUE to MIN_VALUE + 1 |
| Search.FitsNegate | src/main/java/model/IANivel8.java:42 | a result that fits the negated window fits the window once negated |
| Search.MaxStep | src/main/java/model/IASuprema.java:115-118 | one step of a maximizing loop keeps the fail-soft guarantee |
| Search.MaxValueAtLeast | src/main/java/model/IASuprema.java:111-116 | the running maximum never drops |
| Search.MinValueAtMost | src/main/java/model/IASuprema.java:122-127 | the running minimum never rises |
| Search.MaxValueBounds | src/main/java/model/IASuprema.java:111-120 | a maximizing node's value is at least every child's value |
| Search.MinimaxFits | src/main/java/model/IASuprema.java:102-133 | for alfa < beta the pruned search fits the unpruned value: exact inside the window, below alfa when the value is, above beta when the value is |
| Search.MaxLoopFits | src/main/java/model/IASuprema.java:110-120 | the invariant of the white loop under a window |
| Search.MinLoopFits | src/main/java/model/IASuprema.java:121-132 | the invariant of the black loop under a window |
| Search.MinimaxFullWindow | src/main/java/model/IASuprema.java:20 | under (MIN_VALUE, MAX_VALUE) minimax is the unpruned value |
| Search.ValueWithin | src/main/java/model/IASuprema.java:102-133 | when every evaluation lies in [lo, hi], so does the minimax value |
| Search.MaxValueWithin | src/main/java/model/IASuprema.java:111-120 | the white loop's value lies within the evaluation bounds |
| Search.MinValueWithin | src/main/java/model/IASuprema.java:122-131 | the black loop's value lies within the evaluation bounds |
| Search.QMaxAtLeast | src/main/java/model/IANivel8.java:66-76 | the running quiescence maximum never drops |
| Search.QuiescenceStandPat | src/main/java/model/IANivel8.java:58-61 | a stand-pat score at or above beta returns beta |
| Search.QLoopBounds | src/main/java/model/IANivel8.java:66-77 | the capture loop stays within [alfa, beta] |
| Search.QuiescenceBounds | src/main/java/model/IANivel8.java:57-78 | for alfa <= beta quiescence lies in [alfa, beta] and at least min(stand-pat, beta) |
| Search.QuiescenceClamp | src/main/java/model/IANivel8.java:57-78 | for a window that does not wrap, quiescence is its unpruned value clamped to [alfa, beta] |
| Search.QLoopClamp | src/main/java/model/IANivel8.java:66-77 | the invariant of the capture loop |
| Search.QUnfold | src/main/java/model/IANivel8.java:66-76 | one step of the capture loop |
| Search.QLoopNext | src/main/java/model/IANivel8.java:69-75 | the step of the capture loop's invariant |
| Search.QChild | src/main/java/model/IANivel8.java:69 | a capture's negated quiescence is its negated value, clamped |
| Search.QStep | src/main/java/model/IANivel8.java:70-75 | the cut and the raise of alfa match the running maximum |
| Search.NegaMaxAtLeast | src/main/java/model/IANivel8.java:38-45 | the running negamax maximum never drops |
| Search.NegamaxFits | src/main/java/model/IANivel8.java:30-54 | for -MAX_VALUE <= alfa < beta, negamax fits the unpruned value and never returns MIN_VALUE |
| Search.NegaLoopFits | src/main/java/model/IANivel8.java:38-53 | the invariant of negamax's move loop |
| Search.NegaLoopNext | src/main/java/model/IANivel8.java:42-51 | the step of the move loop's invariant |
| Search.NegaUnfold | src/main/java/model/IANivel8.java:39-52 | one step of the move loop |
| Search.NegaChild | src/main/java/model/IANivel8.java:42 | a child's negated result fits its negated value |
| Search.NegamaxFullWindow | src/main/java/model/IANivel8.java:30-54 | under (-MAX_VALUE, MAX_VALUE) negamax is the unpruned value |
| Search.NegamaxFirstOnly | src/main/java/model/IANivel8.java:42-51 | with beta = MIN_VALUE, which is what negating MIN_VALUE gives in Java, negamax returns the first move's negated score and examines no other move |
| Search.QLoopAtLeast | src/main/java/model/IANivel8.java:66-77 | the capture loop returns at least min(alfa, beta) |
| Search.QuiescenceAboveMin | src/main/java/model/IANivel8.java:57-78 | with an upper bound other than MIN_VALUE, quiescence never returns MIN_VALUE |
| Search.NegaLoopAtLeast | src/main/java/model/IANivel8.java:38-53 | the move loop never returns below the best score so far |
| Search.NegamaxAboveMin | src/main/java/model/IANivel8.java:30-54 | down a first line whose windows keep the quiescence bound off MIN_VALUE, negamax never returns MIN_VALUE |
| Suprema.MinimaxLeaf | src/main/java/model/IASuprema.java:103-109 | at depth 0 or without moves, minimax is the evaluation for the side to move |
| Suprema.MinimaxMax | src/main/java/model/IASuprema.java:110-120 | with white to move, minimax is the white loop over the simulated positions |
| Suprema.MinimaxMin | src/main/java/model/IASuprema.java:121-132 | with black to move, minimax is the black loop |
| Suprema.MaxLoopAt | src/main/java/model/IASuprema.java:112-119 | one step of the white loop: stop once beta <= alfa, else raise alfa and maxEval |
| Suprema.MinLoopAt | src/main/java/model/IASuprema.java:123-130 | one step of the black loop: stop once beta <= alfa, else lower beta and minEval |
| Suprema.Leaf | src/main/java/model/IASuprema.java:103-109 | the leaf evaluation on the board |
| Suprema.MinimaxOn | src/main/java/model/IASuprema.java:102-133 | minimax on the board equals the model's search, and the board is untouched |
| Suprema.Expand | src/main/java/model/IASuprema.java:106-132 | minimax once the moves are generated |
| Suprema.MaxNode | src/main/java/model/IASuprema.java:110-120 | the white branch equals minimax |
| Suprema.MinNode | src/main/java/model/IASuprema.java:121-132 | the black branch equals minimax |
| Suprema.ChildScore | src/main/java/model/IASuprema.java:113-115 | the search of the i-th child, on a simulated copy |
| Suprema.MaxSearch | src/main/java/model/IASuprema.java:111-120 | the white loop on the board equals the model's white loop |
| Suprema.MinSearch | src/main/java/model/IASuprema.java:122-131 | the black loop on the board equals the model's black loop |
| Suprema.RootScores | src/main/java/model/IASuprema.java:17-20 | one root score per move, in move order |
| Suprema.RootScoreValue | src/main/java/model/IASuprema.java:20 | a root score is the unpruned value of the move's position, within ±1,300,000 |
| Suprema.RootChoiceSpec | src/main/java/model/IASuprema.java:13-26 | a move is kept exactly when there is one: the first with the strictly best value for the side, which no later move beats |
| Suprema.KeepBest | src/main/java/model/IASuprema.java:15-26 | the loop keeps the move the choice designates, or null |
| Suprema.ChooseBestMove | src/main/java/model/IASuprema.java:12-27 | null exactly without moves; otherwise a new Move recording the chosen move; the board is untouched |
| Nivel8.TreeShrinks | src/main/java/model/IANivel8.java:65-69 | every capture lowers the piece count, so quiescence terminates |
| Nivel8.QuiesceUnfold | src/main/java/model/IANivel8.java:57-65 | quiescence returns beta when the stand-pat score reaches it, else runs the capture loop from alfa raised to it |
| Nivel8.CaptureLoopEnd | src/main/java/model/IANivel8.java:77 | after the last capture the loop returns alfa |
| Nivel8.CaptureLoopAt | src/main/java/model/IANivel8.java:66-76 | one capture: beta when the negated score reaches it, else alfa raised to it |
| Nivel8.NegaLeaf | src/main/java/model/IANivel8.java:31-33 | negamax at depth 0 is quiescence |
| Nivel8.NegaEmpty | src/main/java/model/IANivel8.java:34-37 | negamax without moves is the stand-pat score |
| Nivel8.NegaInner | src/main/java/model/IANivel8.java:38-53 | negamax with moves is the move loop from MIN_VALUE |
| Nivel8.MoveLoopAt | src/main/java/model/IANivel8.java:39-52 | one step of the move loop: valorMax keeps the greatest negated score, alfa is raised to it, and the loop stops once alfa >= beta |
| Nivel8.StandOn | src/main/java/model/IANivel8.java:58 | the stand-pat score on the board |
| Nivel8.QuiescenceOn | src/main/java/model/IANivel8.java:57-78 | quiescence on the board equals the model's search, and the board is untouched |
| Nivel8.CaptureSearch | src/main/java/model/IANivel8.java:65-77 | the capture loop on the board equals the model's capture loop |
| Nivel8.CaptureStep | src/main/java/model/IANivel8.java:67-75 | one capture of the loop |
| Nivel8.CaptureScore | src/main/java/model/IANivel8.java:67-69 | the quiescence of the i-th capture, on a simulated copy, with the window negated |
| Nivel8.NegamaxOn | src/main/java/model/IANivel8.java:30-54 | negamax on the board equals the model's search, and the board is untouched |
| Nivel8.NegaExpand | src/main/java/model/IANivel8.java:34-53 | negamax once the moves are generated |
| Nivel8.NegaNode | src/main/java/model/IANivel8.java:38-53 | negamax at a position with moves |
| Nivel8.NegaSearch | src/main/java/model/IANivel8.java:38-53 | the move loop on the board equals the model's move loop |
| Nivel8.NegaChild | src/main/java/model/IANivel8.java:40-42 | the negamax of the i-th child, on a simulated copy |
| Nivel8.RootScores | src/main/java/model/IANivel8.java:18-21 | one root score per move, in move order |
| Nivel8.RootFirstReplyOnly | src/main/java/model/IANivel8.java:21-49 | the root window (MIN_VALUE, MAX_VALUE) gives the first reply the window (MIN_VALUE + 1, MIN_VALUE), so that reply's negamax is the negated quiescence of its first answer alone |
| Nivel8.RootScoreAboveMin | src/main/java/model/IANivel8.java:21 | every root score lies within ±MAX_VALUE, so none is MIN_VALUE, although negating the windows wraps |
| Nivel8.RootChoiceSpec | src/main/java/model/IANivel8.java:16-27 | a move is kept exactly when there is one: the first whose score beats every earlier score, which no later score beats |
| Nivel8.KeepBest | src/main/java/model/IANivel8.java:16-27 | the loop keeps the move the choice designates, or null |
| Nivel8.ChooseBestMove | src/main/java/model/IANivel8.java:12-28 | null exactly without moves; otherwise a new Move recording the chosen move; the board is untouched |
| Games.RowKeyAt | src/main/java/model/Game.java:551-558 | character c of a row's key is square (r, c) |
| Games.BoardKeyAt | src/main/java/model/Game.java:550-559 | character 8 r + c of the key is square (r, c) |
| Games.SquareCharSpec | src/main/java/model/Game.java:553-557 | two squares get the same character exactly when they hold the same kind and colour |
| Games.BoardKeyEqual | src/main/java/model/Game.java:550-559 | boards with the same kinds and colours have the same 64 key characters |
| Games.EnPassantKeyInjective | src/main/java/model/Game.java:561-562 | on the board, the en-passant part of the key determines the target |
| Games.PositionKeyInjective | src/main/java/model/Game.java:547-565 | two positions share a key exactly when every square holds the same kind and colour, the en-passant targets agree and the turn marks agree |
| Games.EndOf | src/main/java/model/Game.java:347-361 | checkmate or stalemate exactly without a legal move; checkmate only in check, stalemate only out of check; fifty moves only with a legal move; no ending exactly when there is a legal move, fewer than 50 half-moves and no threefold repetition |
| Games.Ended | src/main/java/model/Game.java:347-361 | when an ending holds, the game is over with that result; otherwise nothing changes |
| Games.MateOrStalemate | src/main/java/model/Game.java:303-321 | checkmate and stalemate exclude each other, and one holds exactly when every generated move exposes the king |
| Games.EnPassantMarked | src/main/java/model/Game.java:200-212 | the target is set exactly after a pawn's two-row step, to the square it passed; otherwise it is cleared |
| Games.Special | src/main/java/model/Game.java:182-197 | the special moves keep the board 8x8 and the en-passant target |
| Games.Executed | src/main/java/model/Game.java:172-177 | executeMove keeps the board 8x8 and the en-passant target |
| Games.EnPassantTaken | src/main/java/model/Game.java:214-234 | the en-passant hook keeps the board 8x8 and the target |
| Games.Played | src/main/java/model/Game.java:144-146 | the human move's board keeps the target handleEnPassantPreMove set |
| Games.CastlingEffect | src/main/java/model/Game.java:239-246 | castling moves the king two columns and the rook to the square the king passed, both marked moved, and empties both corners |
| Games.PromotionEffect | src/main/java/model/Game.java:251-255 | a promotion leaves a new queen of the mover's colour, and the other squares outside the move keep their pieces |
| Games.EnPassantEffect | src/main/java/model/Game.java:222-230 | an en-passant capture empties the square behind the destination, removes exactly one piece, and changes nothing else |
| Games.Counted | src/main/java/model/Game.java:534-545 | the clock resets on a pawn move or capture and otherwise rises by one; the count of the key, with the mover's turn mark, rises by one and no other count changes |
| Games.Proposed | src/main/java/model/Game.java:126-130 | the Move makeMove builds: the selected piece, and the destination's occupant as captured |
| Games.HumanCommit | src/main/java/model/Game.java:144-159 | after the move the board is the played board, the turn has passed and the selection is cleared |
| Games.Advanced | src/main/java/model/Game.java:149-159 | the counters, the turn and the selection change, not the board |
| Games.TurnPassed | src/main/java/model/Game.java:155-159 | the turn flips and checkGameEnd runs, changing neither board, selection nor counters |
| Games.EngineChoice | src/main/java/model/Game.java:464-474 | whichever engine is chosen, its move is a generated black move, and none exists without one |
| Games.AICommit | src/main/java/model/Game.java:492-501 | the AI's move executes, the turn passes, and the counters do not change |
| Games.ShownIffAccepted | src/main/java/model/Game.java:385-412 | for a standing piece, except a king off column 4 and a pawn aimed at the en-passant square, the highlighted squares are exactly the moves makeMove accepts |
| Games.AcceptedIsGenerated | src/main/java/model/Game.java:110-140 | except for a king off column 4 and a pawn aimed at the en-passant square, makeMove accepts exactly the generated moves that take no king and keep the own king safe |
| Games.AIPlaySafe | src/main/java/model/Game.java:475-489 | the guarded answer is a generated black move that takes no king and keeps the black king safe; nothing only when no such move exists |
| Games.AIReplySafe | src/main/java/model/Game.java:464-509 | the AI never plays a king capture or a self-check |
| Games.OwnEntryNotCounted | src/main/java/model/Game.java:534-545 | a move never raises the count that its own repetition test reads, since the two keys differ in the turn mark |
| Games.PrefixSnoc | src/main/java/model/Game.java:152 | a history that begins with the old history plus the move begins with the old history, then the move |
| Games.RowKeyOn | src/main/java/model/Game.java:551-558 | one row of the key loop |
| Games.Game.constructor | src/main/java/model/Game.java:40-55 | a new board, white to move, no history, no selection, game not over, counters 0, AI off, difficulty 2 |
| Games.Game.SetAdvancedAILevel | src/main/java/model/Game.java:25-27 | only the engine level changes |
| Games.Game.SetAIEnabled | src/main/java/model/Game.java:417-419 | only the AI flag changes |
| Games.Game.SetAISupremeMode | src/main/java/model/Game.java:431-438 | the flag is set; switching on sets the difficulty to 10, clamped to 3 |
| Games.Game.SetAIDifficulty | src/main/java/model/Game.java:450-452 | the difficulty is clamped into [1, 3] |
| Games.Game.SelectPiece | src/main/java/model/Game.java:88-105 | succeeds exactly on a piece of the side to move, which becomes the selection; otherwise the selection is cleared |
| Games.Game.IsKingInCheck | src/main/java/model/Game.java:296-298 | the check test on the game's board |
| Games.Game.HasLegalMoves | src/main/java/model/Game.java:326-342 | some move keeps the king safe |
| Games.Game.IsCheckmate | src/main/java/model/Game.java:303-310 | in check and without a legal move |
| Games.Game.IsStalemate | src/main/java/model/Game.java:315-321 | not in check and without a legal move |
| Games.Game.FindAnyLegalMove | src/main/java/model/Game.java:512-532 | the first generated move that takes no king and keeps the own king safe, or null |
| Games.Game.GeneratePositionKey | src/main/java/model/Game.java:547-565 | 64 square characters, the en-passant target or "null", then "W" or "B" |
| Games.Game.IsThreefoldRepetition | src/main/java/model/Game.java:363-366 | the current key has been counted three times or more |
| Games.Game.GameEnd | src/main/java/model/Game.java:348-360 | the tests of checkGameEnd, in their order |
| Games.Game.CheckGameEnd | src/main/java/model/Game.java:347-361 | the game's new state is the ended state |
| Games.Game.UpdateGameStateCounters | src/main/java/model/Game.java:534-545 | the game's new state is the counted state |
| Games.Game.CountersAfter | src/main/java/model/Game.java:536-544 | the clock and the counts the update stores |
| Games.Game.HandleEnPassantPreMove | src/main/java/model/Game.java:200-212 | the board's new value is the marked value |
| Games.Game.HandleEnPassantPostMove | src/main/java/model/Game.java:214-234 | the pawn behind a diagonal step without a capture is removed, and the move is marked en passant exactly then |
| Games.Game.HandleCastling | src/main/java/model/Game.java:239-246 | the rook of that side moves next to the king's square of departure, and the move is marked as castling |
| Games.Game.HandlePawnPromotion | src/main/java/model/Game.java:251-255 | a new queen of the mover's colour on the destination, recorded as the promotion piece |
| Games.Game.HandleSpecialMoves | src/main/java/model/Game.java:182-197 | castling for a two-column king move, then promotion for a pawn on the last row |
| Games.Game.ExecuteMove | src/main/java/model/Game.java:172-177 | movePiece, then the special moves |
| Games.Game.PlayOnBoard | src/main/java/model/Game.java:144-146 | the en-passant hooks around executeMove |
| Games.Game.ValidatedMove | src/main/java/model/Game.java:111-140 | a new Move exactly when makeMove's checks all pass |
| Games.Game.Commit | src/main/java/model/Game.java:144-159 | the human move is played, counted and recorded, the turn passes and the end of the game is tested |
| Games.Game.Advance | src/main/java/model/Game.java:149-159 | the counters, the history, the turn, the selection and checkGameEnd |
| Games.Game.PassTurn | src/main/java/model/Game.java:152-159 | the history gains the move, the turn passes and checkGameEnd runs |
| Games.Game.EngineMove | src/main/java/model/Game.java:465-474 | the engine chosen by the level gives its move, or null |
| Games.Game.ChooseAIMove | src/main/java/model/Game.java:475-489 | the engine's move, replaced by findAnyLegalMove(false) when it takes a king or exposes the black king |
| Games.Game.CommitAIMove | src/main/java/model/Game.java:492-501 | the AI's move executes and is recorded, the turn passes and the end of the game is tested |
| Games.Game.MakeAIMove | src/main/java/model/Game.java:464-509 | without an answer nothing changes; otherwise the answer is committed and recorded |
| Games.Game.MakeMove | src/main/java/model/Game.java:110-167 | true exactly when the move is accepted; on false nothing changes; on true the move is played and recorded, then the AI's answer |
| Games.Game.Play | src/main/java/model/Game.java:142-166 | the accepted move is committed, then the AI answers when it is on |
| Games.Game.Answer | src/main/java/model/Game.java:161-164 | makeAIMove when the AI is on and shouldMakeMove holds |
| Games.Game.GetPossibleMovesForSelected | src/main/java/model/Game.java:385-412 | the possible moves of the selected piece that take no king and keep its own king safe |
| Games.Game.ResetGame | src/main/java/model/Game.java:371-380 | the initial state, an empty history, and the AI settings kept |

## Left out

- The user interface (`view/`), printing, image loading and the `toString` and display strings. `gameResult` is kept as the ending it names (`Outcome`), not as the Portuguese text.
- `Board.isSquareAttacked`, `Board.getEnPassantTarget` and `Board.setEnPassantTarget` are called but not defined in `Board.java`:
  - the attack test is the `attacks` parameter;
  - the en-passant target is a plain field of `Board`.
- `ChessAI.setSupremeMode`, called by `setAISupremeMode`, is not defined in `ChessAI.java`, so the model leaves that call out.
- `java.util.Random` in `makeBestMove` is replaced by its two draws, `roll` and `pick`. The model does not describe their distribution.
- Getters such as `getBoard` and `isWhiteTurn`, and the setter `setSelectedPosition`, have no logic: they are fields read and written directly. `makeMove` does not check the colour of the selected piece, so a selection set this way can move a piece of either side, in the model as in the source.
- `Position.setRow` and `setCol` are datatype updates `p.(row := r)`: no Position is shared and then changed.
- Kings.CanCastle, Kings.PossibleMoves, Kings.IsValidMove and Rules.PossibleMoves require the king's own square not to hold an unmoved rook of its colour. There the source's column walk would walk off the board, where every square counts as empty, and stop only after the int column wraps around. A piece standing on its own square always meets this (Rules.StandingWalkable).
- Kings.KingMovesValid, Rules.TargetsValid, Games.ShownIffAccepted and Games.AcceptedIsGenerated hold only for a king on column 4. Elsewhere the castling targets of `getPossibleMoves` and the corner test of `isValidCastling` already disagree in the source.
- Pawns.PawnMovesValid, Rules.TargetsValid, Games.ShownIffAccepted and Games.AcceptedIsGenerated exclude a pawn's en-passant square. `isValidMove` returns early for empty diagonal squares, so its en-passant branch is never reached (Pawns.PawnRejectsEnPassant). `makeMove` therefore never accepts en passant, while `getPossibleMoves` lists it.
- `Board.copy` gives every piece `hasMoved = false` and drops the en-passant target (Boards.CopyOfEffect). So every simulated position loses castling and en-passant history, as in the source.
- `wouldPutKingInCheck` simulates a bare `movePiece`, without the rook of a castle or the pawn taken en passant, as in the source.
- The AI's move is committed through `executeMove` only. It runs no en-passant hook and no counter update (Games.AICommit), as in the source.
- The recursive call at the end of `makeAIMove` is not modelled as a call. After the AI moves it is white's turn, so `shouldMakeMove` fails and the call is never made (Games.Game.MakeAIMove).
- The position key carries the turn mark of the side that moved, while `isThreefoldRepetition` looks it up with the side to move. The model keeps this (Games.OwnEntryNotCounted).
- `hasLegalMoves` and `findAnyLegalMove` are one loop nest in the model (Legality.FirstSafeMove), with a flag that skips king captures. The scans are otherwise identical.
- The fifty-move rule (100 half-moves) is not modelled; the model keeps the source's threshold of 50 half-moves (Games.EndOf).
- The halfmove clock and the position counts are unbounded integers. A 32-bit overflow of them would need more than two billion moves.
- Search scores are Java ints, and negation is the 32-bit negation `Search.Neg32`. The evaluations are proved far from the int limits (Evaluation.EvaluationBound), so no other addition can wrap.
- The unused constant `PROFUNDIDADE_MAXIMA = 5` of `IASuprema` is not modelled.
- Concrete search outcomes on particular positions are not computed. IASuprema's root scores are the unpruned minimax values (Suprema.RootScoreValue), and both pruned searches are related to their unpruned values under a window that does not wrap (Search.MinimaxFits, Search.NegamaxFits).
- Nivel8.RootChoiceSpec: IANivel8's root scores are not the unpruned negamax values. The root call's window (MIN_VALUE, MAX_VALUE) negates to (MIN_VALUE + 1, MIN_VALUE), so the first reply of each simulated position examines only its own first answer (Nivel8.RootFirstReplyOnly); the model proves only that no root score is MIN_VALUE (Nivel8.RootScoreAboveMin).
- Rules.ValidMoveLands excludes a king on column 2 or 5: an unmoved king there accepts the square of its own corner rook (Rules.KingTakesOwnRook). On the live board a king off column 4 has moved, so makeMove never meets this; only a copy, which clears hasMoved, does.
