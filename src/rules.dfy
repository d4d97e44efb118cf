/**
 * The calls Game and the engines make through the abstract Piece type:
 * getPossibleMoves and isValidMove, dispatched on the piece's kind.
 */
module Rules {
  import opened Wrappers
  import opened Positions
  import opened Pieces
  import opened Boards
  import Sliding
  import Knights
  import Bishops
  import Rooks
  import Queens
  import Kings
  import Pawns

  /** getPossibleMoves of the piece described by `c` standing on `from`. */
  function Targets(s: Snapshot, c: Cell, from: Pos, attacks: AttackOracle): seq<Pos> {
    match c.kind
    case Pawn => Pawns.PawnMoves(s, c.white, from)
    case Knight => Knights.KnightMoves(s, c.white, from)
    case Bishop => Bishops.BishopMoves(s, c.white, from)
    case Rook => Rooks.RookMoves(s, c.white, from)
    case Queen => Queens.QueenMoves(s, c.white, from)
    case King => Kings.KingMoves(s, c.white, from, c.moved, attacks)
  }

  /** isValidMove of the piece described by `c` standing on `from`. */
  predicate ValidMove(s: Snapshot, c: Cell, from: Pos, to: Pos, attacks: AttackOracle) {
    match c.kind
    case Pawn => Pawns.PawnValid(s, c.white, from, to)
    case Knight => Knights.KnightValid(s, c.white, from, to)
    case Bishop => Bishops.BishopValid(s, c.white, from, to)
    case Rook => Rooks.RookValid(s, c.white, from, to)
    case Queen => Queens.QueenValid(s, c.white, from, to)
    case King => Kings.KingValid(s, c.white, from, c.moved, to, attacks)
  }

  /** The piece stands on its own square, as every piece on a board does. */
  predicate Standing(s: Snapshot, c: Cell, from: Pos) {
    from.IsValid() && At(s, from) == Some(c)
  }

  /** What the king's castling walk needs: its own square is not an unmoved rook of its colour. */
  predicate Walkable(s: Snapshot, piece: Piece)
    reads piece
  {
    piece.kind == King ==> !Kings.IsCastleRook(At(s, piece.position), piece.isWhite)
  }

  /** piece.getPossibleMoves(board). */
  method PossibleMoves(piece: Piece, board: Board, attacks: AttackOracle) returns (moves: seq<Pos>)
    requires board.Valid() && Walkable(board.Snap(), piece)
    ensures moves == Targets(board.Snap(), piece.AsCell(), piece.position, attacks)
  {
    match piece.kind
    case Pawn => moves := Pawns.PossibleMoves(piece, board);
    case Knight => moves := Knights.PossibleMoves(piece, board);
    case Bishop => moves := Bishops.PossibleMoves(piece, board);
    case Rook => moves := Rooks.PossibleMoves(piece, board);
    case Queen => moves := Queens.PossibleMoves(piece, board);
    case King => moves := Kings.PossibleMoves(piece, board, attacks);
  }

  /** piece.isValidMove(to, board). */
  method IsValidMove(piece: Piece, board: Board, to: Pos, attacks: AttackOracle) returns (valid: bool)
    requires board.Valid() && Walkable(board.Snap(), piece)
    ensures valid == ValidMove(board.Snap(), piece.AsCell(), piece.position, to, attacks)
  {
    match piece.kind
    case Pawn => valid := Pawns.IsValidMove(piece, board, to);
    case Knight => valid := Knights.IsValidMove(piece, board, to);
    case Bishop => valid := Bishops.IsValidMove(piece, board, to);
    case Rook => valid := Rooks.IsValidMove(piece, board, to);
    case Queen => valid := Queens.IsValidMove(piece, board, to);
    case King => valid := Kings.IsValidMove(piece, board, to, attacks);
  }

  /** A piece that stands on its square can walk: the square holds the piece itself. */
  lemma StandingWalkable(s: Snapshot, piece: Piece)
    requires Standing(s, piece.AsCell(), piece.position)
    ensures Walkable(s, piece)
  {
  }

  /**
   * For a piece on its own square, isValidMove holds exactly for the
   * squares getPossibleMoves lists, except for a king off its starting
   * column and a pawn's en-passant square.
   */
  lemma TargetsValid(s: Snapshot, c: Cell, from: Pos, t: Pos, attacks: AttackOracle)
    requires Standing(s, c, from)
    requires c.kind == King ==> from.col == 4
    requires c.kind == Pawn ==> s.enPassant != Some(t)
    ensures t in Targets(s, c, from, attacks) <==> ValidMove(s, c, from, t, attacks)
  {
    match c.kind
    case Pawn => Pawns.PawnMovesValid(s, c.white, from, t);
    case Knight => Knights.KnightMovesSpec(s, c.white, from);
    case Bishop => Bishops.BishopMovesValid(s, c.white, from, t);
    case Rook => Rooks.RookMovesValid(s, c.white, from, t);
    case Queen => Queens.QueenMovesValid(s, c.white, from, t);
    case King => Kings.KingMovesValid(s, c.white, from, c.moved, attacks, t);
  }

  /**
   * No piece standing on its square accepts a move onto its own piece or off
   * the board, except a king on column 2 or 5 (KingTakesOwnRook).
   */
  lemma ValidMoveLands(s: Snapshot, c: Cell, from: Pos, t: Pos, attacks: AttackOracle)
    requires Standing(s, c, from)
    requires c.kind == King ==> from.col != 2 && from.col != 5
    requires ValidMove(s, c, from, t, attacks)
    ensures t.IsValid() && t != from && !HasAllyAt(s, c.white, t)
  {
    match c.kind
    case Pawn =>
    case Knight =>
    case Bishop =>
      if t == from { Bishops.BishopRejects(s, c.white, from, t); }
    case Rook =>
      if t == from { Rooks.RookRejects(s, c.white, from, t); }
    case Queen =>
      if t == from { Queens.QueenRejects(s, c.white, from, t); }
    case King =>
      Kings.KingValidRejects(s, c.white, from, c.moved, t, attacks);
      if Sliding.Dist(from, t) > 1 {
        assert Sliding.Min(from.col, Kings.CastleCorner(from, t).col) < t.col < Sliding.Max(from.col, Kings.CastleCorner(from, t).col);
        assert IsEmpty(s, Pos(from.row, t.col));
      }
  }

  /**
   * An unmoved king on column 5 "castles" onto its own rook: the corner
   * isValidCastling picks for column 7 is column 7 itself, and canCastle only
   * asks for the square between them to be empty.
   */
  lemma KingTakesOwnRook(s: Snapshot, white: bool, row: int, attacks: AttackOracle)
    requires Standing(s, Cell(King, white, false), Pos(row, 5))
    requires Kings.IsCastleRook(At(s, Pos(row, 7)), white) && IsEmpty(s, Pos(row, 6))
    requires !attacks(s, Pos(row, 5), !white) && !attacks(s, Pos(row, 6), !white) && !attacks(s, Pos(row, 7), !white)
    ensures ValidMove(s, Cell(King, white, false), Pos(row, 5), Pos(row, 7), attacks)
    ensures HasAllyAt(s, white, Pos(row, 7))
  {
    assert forall c | Sliding.Min(5, 7) < c < Sliding.Max(5, 7) :: IsEmpty(s, Pos(row, c)) by {
      forall c | Sliding.Min(5, 7) < c < Sliding.Max(5, 7) ensures IsEmpty(s, Pos(row, c)) {
        assert c == 6;
      }
    }
  }

  /** No piece on the board lists more than twenty-seven squares. */
  lemma TargetsBound(s: Snapshot, c: Cell, from: Pos, attacks: AttackOracle)
    requires from.IsValid()
    ensures |Targets(s, c, from, attacks)| <= 27
  {
    match c.kind
    case Pawn => Pawns.PawnMovesSpec(s, c.white, from, from);
    case Knight => Knights.KnightMovesSpec(s, c.white, from);
    case Bishop => Bishops.BishopBound(s, c.white, from);
    case Rook => Rooks.RookBound(s, c.white, from);
    case Queen => Queens.QueenBound(s, c.white, from);
    case King => Kings.KingBound(s, c.white, from, c.moved, attacks);
  }
}
