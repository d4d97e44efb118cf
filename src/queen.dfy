/** Queen.java: the rook's four rays, then the bishop's four. */
module Queens {
  import opened Wrappers
  import opened Positions
  import opened Pieces
  import opened Boards
  import opened Sliding
  import Rooks
  import Bishops

  const QueenDirs: seq<Dir> := [(0, 1), (0, -1), (1, 0), (-1, 0), (1, 1), (1, -1), (-1, 1), (-1, -1)]

  /** getPossibleMoves, as a value. */
  function QueenMoves(s: Snapshot, white: bool, from: Pos): seq<Pos> {
    SlideMoves(s, white, from, QueenDirs)
  }

  /** isStraightLine: rowDiff == 0, colDiff == 0 or rowDiff == colDiff. */
  predicate IsStraightLine(from: Pos, to: Pos) {
    var rowDiff := Abs(to.row - from.row);
    var colDiff := Abs(to.col - from.col);
    (rowDiff == 0 || colDiff == 0) || rowDiff == colDiff
  }

  /** isValidMove: on the board, isStraightLine, and isPathClear. */
  predicate QueenValid(s: Snapshot, white: bool, from: Pos, to: Pos) {
    if !IsValidPosition(Some(to)) then false
    else if !IsStraightLine(from, to) then false
    else PathClear(s, white, from, to)
  }

  /** getPossibleMoves. */
  method PossibleMoves(piece: Piece, board: Board) returns (moves: seq<Pos>)
    requires board.Valid()
    ensures moves == QueenMoves(board.Snap(), piece.isWhite, piece.position)
  {
    moves := WalkRays(piece, board, QueenDirs);
  }

  /** isValidMove. */
  method IsValidMove(piece: Piece, board: Board, to: Pos) returns (valid: bool)
    requires board.Valid()
    ensures valid == QueenValid(board.Snap(), piece.isWhite, piece.position, to)
  {
    if !IsValidPosition(Some(to)) {
      return false;
    }
    var rowDiff := Abs(to.row - piece.position.row);
    var colDiff := Abs(to.col - piece.position.col);
    var isStraightLine := (rowDiff == 0 || colDiff == 0) || rowDiff == colDiff;
    if !isStraightLine {
      return false;
    }
    valid := IsPathClear(piece, board, piece.position, to);
  }

  /** The queen's list is the rook's list followed by the bishop's. */
  lemma QueenIsRookThenBishop(s: Snapshot, white: bool, from: Pos)
    ensures QueenMoves(s, white, from) == Rooks.RookMoves(s, white, from) + Bishops.BishopMoves(s, white, from)
  {
    assert QueenDirs == Rooks.RookDirs + Bishops.BishopDirs;
    SlideConcat(s, white, from, Rooks.RookDirs, Bishops.BishopDirs);
  }

  /** isValidMove of the queen is that of the rook or that of the bishop. */
  lemma QueenValidUnion(s: Snapshot, white: bool, from: Pos, to: Pos)
    ensures QueenValid(s, white, from, to) <==>
              Rooks.RookValid(s, white, from, to) || Bishops.BishopValid(s, white, from, to)
  {
  }

  /**
   * With the queen on its own square, isValidMove holds exactly for the
   * squares getPossibleMoves lists: squares on its row, column or a
   * diagonal, other than its own, that pass isPathClear.
   */
  lemma QueenMovesValid(s: Snapshot, white: bool, from: Pos, t: Pos)
    requires from.IsValid() && HasAllyAt(s, white, from)
    ensures t in QueenMoves(s, white, from) <==> QueenValid(s, white, from, t)
    ensures t in QueenMoves(s, white, from) <==>
              t.IsValid() && t != from && IsStraightLine(from, t) && PathClear(s, white, from, t)
  {
    QueenIsRookThenBishop(s, white, from);
    Rooks.RookMovesValid(s, white, from, t);
    Bishops.BishopMovesValid(s, white, from, t);
    QueenValidUnion(s, white, from, t);
  }

  /** isValidMove rejects the queen's own square and every square off the board. */
  lemma QueenRejects(s: Snapshot, white: bool, from: Pos, to: Pos)
    requires HasAllyAt(s, white, from) && (!to.IsValid() || to == from)
    ensures !QueenValid(s, white, from, to)
  {
    if to == from {
      PathClearRejectsOwnSquare(s, white, from);
    }
  }

  /** At most twenty-seven targets. */
  lemma QueenBound(s: Snapshot, white: bool, from: Pos)
    requires from.IsValid()
    ensures |QueenMoves(s, white, from)| <= 27
  {
    QueenIsRookThenBishop(s, white, from);
    Rooks.RookBound(s, white, from);
    Bishops.BishopBound(s, white, from);
  }

  /** getSymbol and getName. */
  lemma QueenSymbol()
    ensures Symbol(Queen, true) == "Q" && Symbol(Queen, false) == "q" && Name(Queen) == "Rainha"
  {
  }
}
