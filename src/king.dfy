/**
 * King.java: the eight adjacent squares, plus the two castling targets of
 * an unmoved king.  Whether a square is attacked is the `attacks` oracle.
 */
module Kings {
  import opened Wrappers
  import opened Positions
  import opened Pieces
  import opened Boards
  import opened Steps
  import opened Sliding

  const KingOffsets: seq<Offset> := [(0, 1), (0, -1), (1, 0), (-1, 0), (1, 1), (1, -1), (-1, 1), (-1, -1)]

  /** The first test of canCastle: an unmoved rook of the king's colour. */
  predicate IsCastleRook(c: Option<Cell>, white: bool) {
    c.Some? && c.value.kind == Rook && !c.value.moved && c.value.white == white
  }

  /** The direction canCastle walks: towards the rook's column. */
  function CastleDir(from: Pos, rookCol: int): int {
    if rookCol > from.col then 1 else -1
  }

  /**
   * canCastle: the rook square holds an unmoved rook of the king's colour,
   * every square strictly between the two on the king's row is empty, and
   * the king's square, the square it crosses and the square it lands on
   * are none of them attacked by the other colour.
   */
  predicate CastleAllowed(s: Snapshot, white: bool, from: Pos, rookPos: Pos, attacks: AttackOracle) {
    var dir := CastleDir(from, rookPos.col);
    IsCastleRook(At(s, rookPos), white) &&
    (forall c | Min(from.col, rookPos.col) < c < Max(from.col, rookPos.col) :: IsEmpty(s, Pos(from.row, c))) &&
    !attacks(s, from, !white) &&
    !attacks(s, Pos(from.row, from.col + dir), !white) &&
    !attacks(s, Pos(from.row, from.col + 2 * dir), !white)
  }

  /**
   * canCastle's walk comes back only when the rook square is not the king's
   * own column or holds no castling rook: on the king's own square the
   * column walk would never meet the rook.
   */
  predicate CastleTerminates(s: Snapshot, white: bool, from: Pos, rookPos: Pos) {
    rookPos.col == from.col ==> !IsCastleRook(At(s, rookPos), white)
  }

  /** A king that does not stand on a castling rook can look at either corner of its row. */
  lemma CornerTerminates(s: Snapshot, white: bool, from: Pos, col: int)
    requires !IsCastleRook(At(s, from), white)
    ensures CastleTerminates(s, white, from, Pos(from.row, col))
  {
    assert col == from.col ==> Pos(from.row, col) == from;
  }

  /** addCastlingMoves: the short castle to column 6, then the long castle to column 2. */
  function CastlingMoves(s: Snapshot, white: bool, from: Pos, attacks: AttackOracle): seq<Pos> {
    (if CastleAllowed(s, white, from, Pos(from.row, 7), attacks) then [Pos(from.row, 6)] else []) +
    (if CastleAllowed(s, white, from, Pos(from.row, 0), attacks) then [Pos(from.row, 2)] else [])
  }

  /** getPossibleMoves, as a value. */
  function KingMoves(s: Snapshot, white: bool, from: Pos, moved: bool, attacks: AttackOracle): seq<Pos> {
    OffsetTargets(s, white, from, KingOffsets) + (if !moved then CastlingMoves(s, white, from, attacks) else [])
  }

  /** The corner isValidCastling picks: column 7 for a target to the right, column 0 otherwise. */
  function CastleCorner(from: Pos, to: Pos): Pos {
    Pos(from.row, if to.col > from.col then 7 else 0)
  }

  /** isValidMove. */
  predicate KingValid(s: Snapshot, white: bool, from: Pos, moved: bool, to: Pos, attacks: AttackOracle) {
    if !IsValidPosition(Some(to)) then false
    else
      var rowDiff := Abs(to.row - from.row);
      var colDiff := Abs(to.col - from.col);
      if rowDiff <= 1 && colDiff <= 1 then !HasAllyAt(s, white, to)
      else if rowDiff == 0 && colDiff == 2 && !moved then CastleAllowed(s, white, from, CastleCorner(from, to), attacks)
      else false
  }

  /** canCastle. */
  method CanCastle(piece: Piece, board: Board, rookPosition: Pos, attacks: AttackOracle) returns (ok: bool)
    requires board.Valid()
    requires CastleTerminates(board.Snap(), piece.isWhite, piece.position, rookPosition)
    ensures ok == CastleAllowed(board.Snap(), piece.isWhite, piece.position, rookPosition, attacks)
  {
    ghost var s := board.Snap();
    var position := piece.position;
    var rook := board.GetPieceAt(rookPosition);
    if rook == null || rook.kind != Rook || rook.hasMoved || rook.isWhite != piece.isWhite {
      return false;
    }
    var direction := if rookPosition.col > position.col then 1 else -1;
    var currentCol := position.col + direction;
    while currentCol != rookPosition.col
      invariant direction == 1 ==> position.col < currentCol <= rookPosition.col
      invariant direction == -1 ==> rookPosition.col <= currentCol < position.col
      invariant forall c | Min(position.col, currentCol) < c < Max(position.col, currentCol) :: IsEmpty(s, Pos(position.row, c))
      decreases if direction == 1 then rookPosition.col - currentCol else currentCol - rookPosition.col
    {
      var current := Pos(position.row, currentCol);
      var empty := board.IsEmpty(current);
      if !empty {
        return false;
      }
      currentCol := currentCol + direction;
    }
    var enemyIsWhite := !piece.isWhite;
    var through := Pos(position.row, position.col + direction);
    var to := Pos(position.row, position.col + 2 * direction);
    if attacks(board.Snap(), position, enemyIsWhite) {
      return false;
    }
    if attacks(board.Snap(), through, enemyIsWhite) {
      return false;
    }
    if attacks(board.Snap(), to, enemyIsWhite) {
      return false;
    }
    return true;
  }

  /** addCastlingMoves: appends to the list it is given. */
  method AddCastlingMoves(piece: Piece, board: Board, moves: seq<Pos>, attacks: AttackOracle) returns (result: seq<Pos>)
    requires board.Valid() && !IsCastleRook(At(board.Snap(), piece.position), piece.isWhite)
    ensures result == moves + CastlingMoves(board.Snap(), piece.isWhite, piece.position, attacks)
  {
    ghost var s := board.Snap();
    ghost var from := piece.position;
    var kingSideRook := Pos(piece.position.row, 7);
    CornerTerminates(s, piece.isWhite, from, 7);
    var kingSide := CanCastle(piece, board, kingSideRook, attacks);
    var short: seq<Pos> := if kingSide then [Pos(piece.position.row, 6)] else [];
    var queenSideRook := Pos(piece.position.row, 0);
    CornerTerminates(s, piece.isWhite, from, 0);
    var queenSide := CanCastle(piece, board, queenSideRook, attacks);
    var long: seq<Pos> := if queenSide then [Pos(piece.position.row, 2)] else [];
    assert short + long == CastlingMoves(s, piece.isWhite, from, attacks);
    result := moves + short + long;
    SeqAssoc(moves, short, long);
  }

  /**
   * getPossibleMoves.  The source's canCastle would loop forever if the
   * king's own square held a castling rook of its colour, which a king
   * standing on its square rules out.
   */
  method PossibleMoves(piece: Piece, board: Board, attacks: AttackOracle) returns (moves: seq<Pos>)
    requires board.Valid() && !IsCastleRook(At(board.Snap(), piece.position), piece.isWhite)
    ensures moves == KingMoves(board.Snap(), piece.isWhite, piece.position, piece.hasMoved, attacks)
  {
    moves := CollectSteps(piece, board, KingOffsets);
    if !piece.hasMoved {
      moves := AddCastlingMoves(piece, board, moves, attacks);
    }
  }

  /** isValidCastling. */
  method IsValidCastling(piece: Piece, board: Board, to: Pos, attacks: AttackOracle) returns (ok: bool)
    requires board.Valid() && !IsCastleRook(At(board.Snap(), piece.position), piece.isWhite)
    ensures ok == CastleAllowed(board.Snap(), piece.isWhite, piece.position, CastleCorner(piece.position, to), attacks)
  {
    var direction := if to.col > piece.position.col then 1 else -1;
    var rookPosition := Pos(piece.position.row, if direction > 0 then 7 else 0);
    ok := CanCastle(piece, board, rookPosition, attacks);
  }

  /** isValidMove. */
  method IsValidMove(piece: Piece, board: Board, to: Pos, attacks: AttackOracle) returns (valid: bool)
    requires board.Valid() && !IsCastleRook(At(board.Snap(), piece.position), piece.isWhite)
    ensures valid == KingValid(board.Snap(), piece.isWhite, piece.position, piece.hasMoved, to, attacks)
  {
    if !IsValidPosition(Some(to)) {
      return false;
    }
    var rowDiff := Abs(to.row - piece.position.row);
    var colDiff := Abs(to.col - piece.position.col);
    if rowDiff <= 1 && colDiff <= 1 {
      var ally := HasAllyPieceAt(piece, board, to);
      return !ally;
    }
    if rowDiff == 0 && colDiff == 2 && !piece.hasMoved {
      valid := IsValidCastling(piece, board, to, attacks);
      return;
    }
    return false;
  }

  /** The offsets are exactly the squares at Chebyshev distance one. */
  lemma AdjacentOffsets(from: Pos, t: Pos)
    ensures Dist(from, t) == 1 <==> exists i | 0 <= i < |KingOffsets| :: t == Shift(from, KingOffsets[i])
  {
    if Dist(from, t) == 1 {
      var dr, dc := t.row - from.row, t.col - from.col;
      var i := if dr == 0 then (if dc == 1 then 0 else 1)
               else if dc == 0 then (if dr == 1 then 2 else 3)
               else if dr == 1 then (if dc == 1 then 4 else 5)
               else (if dc == 1 then 6 else 7);
      assert t == Shift(from, KingOffsets[i]);
    }
  }

  /** The non-castling targets: at most eight, each adjacent, on the board and not ally-held. */
  lemma KingStepsSpec(s: Snapshot, white: bool, from: Pos)
    ensures |OffsetTargets(s, white, from, KingOffsets)| <= 8
    ensures forall t :: t in OffsetTargets(s, white, from, KingOffsets) <==>
              t.IsValid() && Dist(from, t) == 1 && !HasAllyAt(s, white, t)
  {
    OffsetTargetsSpec(s, white, from, KingOffsets);
    forall t {
      AdjacentOffsets(from, t);
    }
  }

  /**
   * The castling targets are added only for an unmoved king, and they are
   * (row, 6) when the column-7 rook allows it and (row, 2) when the
   * column-0 rook does.
   */
  lemma KingCastlingTargets(s: Snapshot, white: bool, from: Pos, moved: bool, attacks: AttackOracle, t: Pos)
    requires Dist(from, t) != 1
    ensures t in KingMoves(s, white, from, moved, attacks) <==>
              !moved && ((t == Pos(from.row, 6) && CastleAllowed(s, white, from, Pos(from.row, 7), attacks)) ||
                         (t == Pos(from.row, 2) && CastleAllowed(s, white, from, Pos(from.row, 0), attacks)))
  {
    KingStepsSpec(s, white, from);
  }

  /**
   * isValidMove accepts a square that is not adjacent only for an unmoved
   * king moving two columns along its row, and only when canCastle holds
   * for the corner on that side; it rejects the king's own square.
   */
  lemma KingValidRejects(s: Snapshot, white: bool, from: Pos, moved: bool, to: Pos, attacks: AttackOracle)
    requires HasAllyAt(s, white, from)
    ensures !KingValid(s, white, from, moved, from, attacks)
    ensures KingValid(s, white, from, moved, to, attacks) && Dist(from, to) > 1 ==>
              to.row == from.row && Abs(to.col - from.col) == 2 && !moved &&
              CastleAllowed(s, white, from, CastleCorner(from, to), attacks)
  {
  }

  /** With the king on column 4, isValidMove holds exactly for the squares getPossibleMoves lists. */
  lemma KingMovesValid(s: Snapshot, white: bool, from: Pos, moved: bool, attacks: AttackOracle, t: Pos)
    requires HasAllyAt(s, white, from) && from.col == 4
    ensures t in KingMoves(s, white, from, moved, attacks) <==> KingValid(s, white, from, moved, t, attacks)
  {
    KingStepsSpec(s, white, from);
    if Dist(from, t) != 1 {
      KingCastlingTargets(s, white, from, moved, attacks, t);
    }
  }

  /** At most ten targets. */
  lemma KingBound(s: Snapshot, white: bool, from: Pos, moved: bool, attacks: AttackOracle)
    ensures |KingMoves(s, white, from, moved, attacks)| <= 10
  {
    KingStepsSpec(s, white, from);
  }

  /** getSymbol and getName. */
  lemma KingSymbol()
    ensures Symbol(King, true) == "K" && Symbol(King, false) == "k" && Name(King) == "Rei"
  {
  }
}
