/**
 * The board (Board.java): an 8x8 array of pieces updated in place, plus the
 * en-passant target the source reads and writes through accessors whose
 * bodies are not part of this model (a plain field here).
 *
 * The first half states each operation on the board's value (`Snapshot`);
 * the class's methods are proved to perform exactly these.
 */
module Boards {
  import opened Wrappers
  import opened Positions
  import opened Pieces

  /** Eight rows of eight cells. */
  predicate WellFormed(s: Snapshot) {
    |s.rows| == 8 && forall r | 0 <= r < 8 :: |s.rows[r]| == 8
  }

  // ---- operations on the board's value ----

  /** The snapshot with square p set to v (no change off the board). */
  function SetAt(s: Snapshot, p: Pos, v: Option<Cell>): (r: Snapshot)
    requires WellFormed(s)
    ensures WellFormed(r) && r.enPassant == s.enPassant
    ensures forall q: Pos :: At(r, q) == if p.IsValid() && q == p then v else At(s, q)
  {
    if p.IsValid() then s.(rows := s.rows[p.row := s.rows[p.row][p.col := v]])
    else s
  }

  /** movePiece: the occupant of `from` moves to `to` with hasMoved set; nothing happens from an empty square. */
  function MoveOn(s: Snapshot, from: Pos, to: Pos): Snapshot
    requires WellFormed(s)
  {
    match At(s, from)
    case None => s
    case Some(c) => SetAt(SetAt(s, from, None), to, Some(c.(moved := true)))
  }

  /** createPieceCopy on a cell: same kind and colour, hasMoved false. */
  function CopyCell(c: Option<Cell>): Option<Cell> {
    match c
    case None => None
    case Some(cell) => Some(cell.(moved := false))
  }

  function CopyRow(cells: seq<Option<Cell>>): seq<Option<Cell>> {
    seq(|cells|, c requires 0 <= c < |cells| => CopyCell(cells[c]))
  }

  function CopyRows(rows: seq<seq<Option<Cell>>>): seq<seq<Option<Cell>>> {
    seq(|rows|, r requires 0 <= r < |rows| => CopyRow(rows[r]))
  }

  /** copy: same kind and colour on every square, hasMoved false, no en-passant target. */
  function CopyOf(s: Snapshot): Snapshot {
    Snapshot(CopyRows(s.rows), None)
  }

  function BackRank(col: int): Kind
    requires 0 <= col < 8
  {
    [Rook, Knight, Bishop, Queen, King, Bishop, Knight, Rook][col]
  }

  /** initializeBoard: black on rows 0-1, white on rows 6-7, nothing moved. */
  function InitialCell(row: int, col: int): Option<Cell>
    requires 0 <= row < 8 && 0 <= col < 8
  {
    if row == 0 then Some(Cell(BackRank(col), false, false))
    else if row == 1 then Some(Cell(Pawn, false, false))
    else if row == 6 then Some(Cell(Pawn, true, false))
    else if row == 7 then Some(Cell(BackRank(col), true, false))
    else None
  }

  function InitialRow(row: int): seq<Option<Cell>>
    requires 0 <= row < 8
  {
    seq(8, c requires 0 <= c < 8 => InitialCell(row, c))
  }

  function InitialSnapshot(): (s: Snapshot)
    ensures WellFormed(s) && s.enPassant == None
  {
    Snapshot(seq(8, r requires 0 <= r < 8 => InitialRow(r)), None)
  }

  predicate IsKingOf(c: Option<Cell>, white: bool) {
    c.Some? && c.value.kind == King && c.value.white == white
  }

  /** Square q comes before (row, col) in row-major order. */
  predicate Before(q: Pos, row: int, col: int) {
    q.row < row || (q.row == row && q.col < col)
  }

  /** findKing's scan from (row, col) on: the first square in row-major order holding the king of that colour. */
  function KingFrom(s: Snapshot, white: bool, row: nat, col: nat): Option<Pos>
    requires row <= 8 && col <= 8
    decreases 8 - row, 8 - col
  {
    if row == 8 then None
    else if col == 8 then KingFrom(s, white, row + 1, 0)
    else if IsKingOf(At(s, Pos(row, col)), white) then Some(Pos(row, col))
    else KingFrom(s, white, row, col + 1)
  }

  /** findKing. */
  function KingSquare(s: Snapshot, white: bool): Option<Pos> {
    KingFrom(s, white, 0, 0)
  }

  /** Number of occupied cells in a row. */
  function CountPieces(cells: seq<Option<Cell>>): nat {
    if cells == [] then 0
    else CountPieces(cells[..|cells| - 1]) + (if cells[|cells| - 1].Some? then 1 else 0)
  }

  function CountRows(rows: seq<seq<Option<Cell>>>): nat {
    if rows == [] then 0
    else CountRows(rows[..|rows| - 1]) + CountPieces(rows[|rows| - 1])
  }

  function PieceCount(s: Snapshot): nat {
    CountRows(s.rows)
  }

  // ---- properties of the value-level operations ----

  lemma {:induction false} KingFromSpec(s: Snapshot, white: bool, row: nat, col: nat)
    requires row <= 8 && col <= 8
    ensures KingFrom(s, white, row, col).Some? ==>
              var p := KingFrom(s, white, row, col).value;
              p.IsValid() && !Before(p, row, col) && IsKingOf(At(s, p), white) &&
              forall q: Pos :: q.IsValid() && !Before(q, row, col) && Before(q, p.row, p.col) ==> !IsKingOf(At(s, q), white)
    ensures KingFrom(s, white, row, col).None? <==>
              forall q: Pos :: q.IsValid() && !Before(q, row, col) ==> !IsKingOf(At(s, q), white)
    decreases 8 - row, 8 - col
  {
    if row == 8 {
      assert forall q: Pos :: q.IsValid() ==> Before(q, row, col);
    } else if col == 8 {
      assert forall q: Pos :: q.IsValid() ==> (Before(q, row, col) <==> Before(q, row + 1, 0));
      KingFromSpec(s, white, row + 1, 0);
    } else if !IsKingOf(At(s, Pos(row, col)), white) {
      assert forall q: Pos :: Before(q, row, col + 1) <==> Before(q, row, col) || q == Pos(row, col);
      KingFromSpec(s, white, row, col + 1);
    }
  }

  /** findKing returns the first king of that colour in row-major order, or nothing when there is none. */
  lemma KingSquareFirst(s: Snapshot, white: bool)
    ensures KingSquare(s, white).Some? ==>
              var p := KingSquare(s, white).value;
              p.IsValid() && IsKingOf(At(s, p), white) &&
              forall q: Pos :: q.IsValid() && Before(q, p.row, p.col) ==> !IsKingOf(At(s, q), white)
    ensures KingSquare(s, white).None? <==> forall q: Pos :: q.IsValid() ==> !IsKingOf(At(s, q), white)
  {
    KingFromSpec(s, white, 0, 0);
  }

  lemma InitialAt(q: Pos)
    ensures At(InitialSnapshot(), q) == if q.IsValid() then InitialCell(q.row, q.col) else None
  {
  }

  /** The initial setup: back ranks on rows 0 and 7, pawns on rows 1 and 6, rows 2-5 empty. */
  lemma InitialSetup()
    ensures forall c | 0 <= c < 8 ::
              At(InitialSnapshot(), Pos(0, c)) == Some(Cell(BackRank(c), false, false)) &&
              At(InitialSnapshot(), Pos(1, c)) == Some(Cell(Pawn, false, false)) &&
              At(InitialSnapshot(), Pos(6, c)) == Some(Cell(Pawn, true, false)) &&
              At(InitialSnapshot(), Pos(7, c)) == Some(Cell(BackRank(c), true, false))
    ensures forall r, c | 2 <= r < 6 && 0 <= c < 8 :: IsEmpty(InitialSnapshot(), Pos(r, c))
  {
  }

  /** The initial setup has exactly one king per colour, on column 4, and findKing finds it. */
  lemma InitialKings()
    ensures forall q: Pos :: IsKingOf(At(InitialSnapshot(), q), false) <==> q == Pos(0, 4)
    ensures forall q: Pos :: IsKingOf(At(InitialSnapshot(), q), true) <==> q == Pos(7, 4)
    ensures KingSquare(InitialSnapshot(), false) == Some(Pos(0, 4))
    ensures KingSquare(InitialSnapshot(), true) == Some(Pos(7, 4))
  {
    forall q: Pos
      ensures IsKingOf(At(InitialSnapshot(), q), false) <==> q == Pos(0, 4)
      ensures IsKingOf(At(InitialSnapshot(), q), true) <==> q == Pos(7, 4)
    {
      InitialAt(q);
    }
    KingSquareFirst(InitialSnapshot(), false);
    KingSquareFirst(InitialSnapshot(), true);
    assert IsKingOf(At(InitialSnapshot(), Pos(0, 4)), false);
    assert IsKingOf(At(InitialSnapshot(), Pos(7, 4)), true);
  }

  /** movePiece from an occupied square: the mover lands on `to` marked moved, `from` is empty, nothing else changes. */
  lemma MoveOnEffect(s: Snapshot, from: Pos, to: Pos)
    requires WellFormed(s)
    ensures WellFormed(MoveOn(s, from, to)) && MoveOn(s, from, to).enPassant == s.enPassant
    ensures At(s, from).None? ==> MoveOn(s, from, to) == s
    ensures At(s, from).Some? && to.IsValid() ==>
              At(MoveOn(s, from, to), to) == Some(At(s, from).value.(moved := true))
    ensures At(s, from).Some? && from != to ==> IsEmpty(MoveOn(s, from, to), from)
    ensures forall q: Pos :: q != from && q != to ==> At(MoveOn(s, from, to), q) == At(s, q)
  {
  }

  lemma {:induction false} CountPiecesUpdate(cells: seq<Option<Cell>>, k: nat, v: Option<Cell>)
    requires k < |cells|
    ensures CountPieces(cells[k := v]) + (if cells[k].Some? then 1 else 0)
            == CountPieces(cells) + (if v.Some? then 1 else 0)
    decreases |cells|
  {
    var n := |cells|;
    if k < n - 1 {
      assert cells[k := v][..n - 1] == cells[..n - 1][k := v];
      CountPiecesUpdate(cells[..n - 1], k, v);
    } else {
      assert cells[k := v][..n - 1] == cells[..n - 1];
    }
  }

  lemma {:induction false} CountRowsUpdate(rows: seq<seq<Option<Cell>>>, k: nat, row: seq<Option<Cell>>)
    requires k < |rows|
    ensures CountRows(rows[k := row]) + CountPieces(rows[k]) == CountRows(rows) + CountPieces(row)
    decreases |rows|
  {
    var n := |rows|;
    if k < n - 1 {
      assert rows[k := row][..n - 1] == rows[..n - 1][k := row];
      CountRowsUpdate(rows[..n - 1], k, row);
    } else {
      assert rows[k := row][..n - 1] == rows[..n - 1];
    }
  }

  lemma SetAtCount(s: Snapshot, p: Pos, v: Option<Cell>)
    requires WellFormed(s) && p.IsValid()
    ensures PieceCount(SetAt(s, p, v)) + (if At(s, p).Some? then 1 else 0)
            == PieceCount(s) + (if v.Some? then 1 else 0)
  {
    var row := s.rows[p.row];
    CountPiecesUpdate(row, p.col, v);
    CountRowsUpdate(s.rows, p.row, row[p.col := v]);
  }

  /** A capture by movePiece removes exactly one piece; a move to an empty square keeps the count. */
  lemma MoveOnCount(s: Snapshot, from: Pos, to: Pos)
    requires WellFormed(s) && At(s, from).Some? && to.IsValid() && from != to
    ensures PieceCount(MoveOn(s, from, to)) == PieceCount(s) - (if At(s, to).Some? then 1 else 0)
  {
    var c := At(s, from).value;
    SetAtCount(s, from, None);
    SetAtCount(SetAt(s, from, None), to, Some(c.(moved := true)));
  }

  lemma {:induction false} CopyRowCount(cells: seq<Option<Cell>>)
    ensures CountPieces(CopyRow(cells)) == CountPieces(cells)
    decreases |cells|
  {
    if cells != [] {
      assert CopyRow(cells)[..|cells| - 1] == CopyRow(cells[..|cells| - 1]);
      CopyRowCount(cells[..|cells| - 1]);
    }
  }

  lemma {:induction false} CopyRowsCount(rows: seq<seq<Option<Cell>>>)
    ensures CountRows(CopyRows(rows)) == CountRows(rows)
    decreases |rows|
  {
    if rows != [] {
      var n := |rows|;
      assert CopyRows(rows)[..n - 1] == CopyRows(rows[..n - 1]);
      CopyRowsCount(rows[..n - 1]);
      CopyRowCount(rows[n - 1]);
    }
  }

  /** copy preserves every square's kind and colour and clears hasMoved and the en-passant target. */
  lemma CopyOfEffect(s: Snapshot)
    requires WellFormed(s)
    ensures WellFormed(CopyOf(s)) && CopyOf(s).enPassant == None
    ensures forall q: Pos :: (At(CopyOf(s), q).Some? <==> At(s, q).Some?)
    ensures forall q: Pos :: At(s, q).Some? ==>
              At(CopyOf(s), q) == Some(At(s, q).value.(moved := false))
    ensures PieceCount(CopyOf(s)) == PieceCount(s)
  {
    CopyRowsCount(s.rows);
  }

  /** Copying twice is copying once. */
  lemma CopyOfIdempotent(s: Snapshot)
    ensures CopyOf(CopyOf(s)) == CopyOf(s)
  {
    forall r | 0 <= r < |s.rows| ensures CopyRow(CopyRow(s.rows[r])) == CopyRow(s.rows[r]) {
    }
  }

  /** Two well-formed snapshots that agree on every square and on the en-passant target are equal. */
  lemma SnapshotExt(a: Snapshot, b: Snapshot)
    requires WellFormed(a) && WellFormed(b) && a.enPassant == b.enPassant
    requires forall p: Pos | p.IsValid() :: At(a, p) == At(b, p)
    ensures a == b
  {
    forall r | 0 <= r < 8 ensures a.rows[r] == b.rows[r] {
      forall c | 0 <= c < 8 ensures a.rows[r][c] == b.rows[r][c] {
        assert At(a, Pos(r, c)) == At(b, Pos(r, c));
      }
    }
  }

  // ---- the board object ----

  class Board {
    var squares: array2<Piece?>
    var enPassantTarget: Option<Pos>
    /** Every piece that has stood on this board; the pieces the board may mutate. */
    ghost var Footprint: set<Piece>

    /** An 8x8 array whose every piece knows the square it stands on (so no piece stands on two squares). */
    ghost predicate Valid()
      reads this, squares, Footprint
    {
      squares.Length0 == 8 && squares.Length1 == 8 &&
      forall r, c | 0 <= r < 8 && 0 <= c < 8 && squares[r, c] != null ::
        squares[r, c] in Footprint && squares[r, c].position == Pos(r, c)
    }

    /** The cells of one row of the array. */
    function RowSnap(r: int): (cells: seq<Option<Cell>>)
      reads this, squares, Footprint
      requires Valid() && 0 <= r < 8
      ensures |cells| == 8
    {
      seq(8, c requires 0 <= c < 8 && Valid() reads this, squares, Footprint => CellOf(squares[r, c]))
    }

    /** The value this board denotes. */
    function Snap(): (s: Snapshot)
      reads this, squares, Footprint
      requires Valid()
      ensures WellFormed(s) && s.enPassant == enPassantTarget
    {
      Snapshot(seq(8, r requires 0 <= r < 8 && Valid() reads this, squares, Footprint => RowSnap(r)),
               enPassantTarget)
    }

    /** What the snapshot says about one square. */
    lemma SnapAt(p: Pos)
      requires Valid() && p.IsValid()
      ensures At(Snap(), p) == CellOf(squares[p.row, p.col])
    {
    }

    /** Every square's cell, as the snapshot records it. */
    lemma SnapAll()
      requires Valid()
      ensures forall p: Pos | p.IsValid() :: At(Snap(), p) == CellOf(squares[p.row, p.col])
    {
      forall p: Pos | p.IsValid() ensures At(Snap(), p) == CellOf(squares[p.row, p.col]) {
        SnapAt(p);
      }
    }

    /** Board(): a fresh array holding the initial setup. */
    constructor ()
      ensures Valid() && fresh(squares) && fresh(Footprint)
      ensures Snap() == InitialSnapshot()
    {
      squares := new Piece?[8, 8]((r, c) => null);
      enPassantTarget := None;
      Footprint := {};
      new;
      InitializeBoard();
      forall p: Pos | p.IsValid() ensures At(Snap(), p) == At(InitialSnapshot(), p) {
        InitialAt(p);
      }
      SnapshotExt(Snap(), InitialSnapshot());
    }

    /** Puts a fresh unmoved piece on an empty square (one `squares[r][c] = new ...` of initializeBoard). */
    method Place(row: int, col: int, kind: Kind, white: bool)
      requires Valid() && 0 <= row < 8 && 0 <= col < 8
      modifies this, squares
      ensures Valid() && squares == old(squares) && enPassantTarget == old(enPassantTarget)
      ensures fresh(Footprint - old(Footprint))
      ensures CellOf(squares[row, col]) == Some(Cell(kind, white, false))
      ensures forall r, c | 0 <= r < 8 && 0 <= c < 8 && (r != row || c != col) :: squares[r, c] == old(squares[r, c])
    {
      var p := new Piece(kind, white, Pos(row, col));
      squares[row, col] := p;
      Footprint := Footprint + {p};
    }

    /** The eight statements of initializeBoard that fill one back rank. */
    method PlaceBackRank(row: int, white: bool)
      requires Valid() && 0 <= row < 8
      modifies this, squares
      ensures Valid() && squares == old(squares) && enPassantTarget == old(enPassantTarget)
      ensures fresh(Footprint - old(Footprint))
      ensures forall c | 0 <= c < 8 :: CellOf(squares[row, c]) == Some(Cell(BackRank(c), white, false))
      ensures forall r, c | 0 <= r < 8 && 0 <= c < 8 && r != row :: squares[r, c] == old(squares[r, c])
    {
      PlaceRankPart(row, white, 0);
      PlaceRankPart(row, white, 4);
    }

    /** Four consecutive statements of a back rank, from column `first` on. */
    method PlaceRankPart(row: int, white: bool, first: int)
      requires Valid() && 0 <= row < 8 && (first == 0 || first == 4)
      modifies this, squares
      ensures Valid() && squares == old(squares) && enPassantTarget == old(enPassantTarget)
      ensures fresh(Footprint - old(Footprint))
      ensures forall c | first <= c < first + 4 :: CellOf(squares[row, c]) == Some(Cell(BackRank(c), white, false))
      ensures forall r, c | 0 <= r < 8 && 0 <= c < 8 && (r != row || c < first || first + 4 <= c) ::
                squares[r, c] == old(squares[r, c])
    {
      Place(row, first, BackRank(first), white);
      Place(row, first + 1, BackRank(first + 1), white);
      Place(row, first + 2, BackRank(first + 2), white);
      Place(row, first + 3, BackRank(first + 3), white);
    }

    /** One of initializeBoard's pawn loops. */
    method PlacePawns(row: int, white: bool)
      requires Valid() && 0 <= row < 8
      modifies this, squares
      ensures Valid() && squares == old(squares) && enPassantTarget == old(enPassantTarget)
      ensures fresh(Footprint - old(Footprint))
      ensures forall c | 0 <= c < 8 :: CellOf(squares[row, c]) == Some(Cell(Pawn, white, false))
      ensures forall r, c | 0 <= r < 8 && 0 <= c < 8 && r != row :: squares[r, c] == old(squares[r, c])
    {
      for col := 0 to 8
        invariant Valid() && squares == old(squares) && enPassantTarget == old(enPassantTarget)
        invariant fresh(Footprint - old(Footprint))
        invariant forall c | 0 <= c < col :: CellOf(squares[row, c]) == Some(Cell(Pawn, white, false))
        invariant forall r, c | 0 <= r < 8 && 0 <= c < 8 && r != row :: squares[r, c] == old(squares[r, c])
      {
        Place(row, col, Pawn, white);
      }
    }

    /** initializeBoard, on an empty array. */
    method InitializeBoard()
      requires squares.Length0 == 8 && squares.Length1 == 8
      requires forall r, c | 0 <= r < 8 && 0 <= c < 8 :: squares[r, c] == null
      modifies this, squares
      ensures Valid() && squares == old(squares) && enPassantTarget == old(enPassantTarget)
      ensures fresh(Footprint - old(Footprint))
      ensures forall r, c | 0 <= r < 8 && 0 <= c < 8 :: CellOf(squares[r, c]) == InitialCell(r, c)
    {
      PlaceBackRank(0, false);
      PlacePawns(1, false);
      PlacePawns(6, true);
      PlaceBackRank(7, true);
    }

    /** getPieceAt: null off the board. */
    function GetPieceAt(position: Pos): (piece: Piece?)
      reads this, squares, Footprint
      requires Valid()
      ensures CellOf(piece) == At(Snap(), position)
      ensures piece != null ==> piece in Footprint && piece.position == position
    {
      if !position.IsValid() then null
      else
        SnapAt(position);
        squares[position.row, position.col]
    }

    /** setPieceAt: no-op off the board; otherwise that square alone changes and the piece learns its square. */
    method SetPieceAt(position: Pos, piece: Piece?)
      requires Valid()
      requires piece != null && position.IsValid() ==>
                 forall r, c | 0 <= r < 8 && 0 <= c < 8 && squares[r, c] == piece :: r == position.row && c == position.col
      modifies this, squares, piece
      ensures Valid() && squares == old(squares) && enPassantTarget == old(enPassantTarget)
      ensures Footprint == if piece != null && position.IsValid() then old(Footprint) + {piece} else old(Footprint)
      ensures Snap() == if position.IsValid() then SetAt(old(Snap()), position, CellOf(piece)) else old(Snap())
      ensures piece != null ==> piece.hasMoved == old(piece.hasMoved)
      ensures piece != null ==> piece.position == if position.IsValid() then position else old(piece.position)
      ensures position.IsValid() ==> squares[position.row, position.col] == piece
      ensures forall r, c | 0 <= r < 8 && 0 <= c < 8 && (r != position.row || c != position.col) ::
                squares[r, c] == old(squares[r, c])
    {
      if position.IsValid() {
        squares[position.row, position.col] := piece;
        if piece != null {
          piece.SetPosition(position);
          Footprint := Footprint + {piece};
        }
        SnapshotExt(Snap(), SetAt(old(Snap()), position, CellOf(piece)));
      }
    }

    /** removePieceAt: clears that square only. */
    method RemovePieceAt(position: Pos)
      requires Valid()
      modifies squares
      ensures Valid()
      ensures Snap() == if position.IsValid() then SetAt(old(Snap()), position, None) else old(Snap())
    {
      if position.IsValid() {
        ghost var before := Snap();
        SnapAll();
        squares[position.row, position.col] := null;
        forall p: Pos | p.IsValid() ensures At(Snap(), p) == At(SetAt(before, position, None), p) {
          SnapAt(p);
        }
        SnapshotExt(Snap(), SetAt(before, position, None));
      }
    }

    /** movePiece: relocates the occupant of `from` (if any) to `to` and marks it moved. */
    method MovePiece(from: Pos, to: Pos)
      requires Valid()
      modifies this, squares, Footprint
      ensures Valid() && squares == old(squares) && Footprint == old(Footprint)
      ensures Snap() == MoveOn(old(Snap()), from, to)
    {
      var piece := GetPieceAt(from);
      if piece != null {
        ghost var before := Snap();
        RemovePieceAt(from);
        SetPieceAt(to, piece);
        ghost var target := MoveOn(before, from, to);
        MoveOnEffect(before, from, to);
        piece.SetHasMoved(true);
        forall p: Pos | p.IsValid() ensures At(Snap(), p) == At(target, p) {
          SnapAt(p);
          if p == to {
          } else if p == from {
          } else {
            assert squares[p.row, p.col] != piece;
          }
        }
        SnapshotExt(Snap(), target);
      }
    }

    /** isEmpty. */
    predicate IsEmpty(position: Pos)
      reads this, squares, Footprint
      requires Valid()
      ensures IsEmpty(position) <==> Pieces.IsEmpty(Snap(), position)
    {
      GetPieceAt(position) == null
    }

    /** setEnPassantTarget: the squares stay as they are. */
    method SetEnPassantTarget(target: Option<Pos>)
      requires Valid()
      modifies this
      ensures Valid() && squares == old(squares) && Footprint == old(Footprint)
      ensures Snap() == old(Snap()).(enPassant := target)
    {
      ghost var before := Snap();
      SnapAll();
      enPassantTarget := target;
      SnapAll();
      SnapshotExt(Snap(), before.(enPassant := target));
    }

    /** findKing: the first king of that colour in row-major order. */
    method FindKing(isWhite: bool) returns (king: Option<Pos>)
      requires Valid()
      ensures king == KingSquare(Snap(), isWhite)
    {
      ghost var s := Snap();
      for row := 0 to 8
        invariant KingSquare(s, isWhite) == KingFrom(s, isWhite, row, 0)
      {
        for col := 0 to 8
          invariant KingSquare(s, isWhite) == KingFrom(s, isWhite, row, col)
        {
          var piece := squares[row, col];
          SnapAt(Pos(row, col));
          if piece != null && piece.kind == King && piece.isWhite == isWhite {
            return Some(Pos(row, col));
          }
        }
      }
      return None;
    }

    /** copy: a fresh board with fresh unmoved pieces of the same kinds and colours; this board is untouched. */
    method Copy() returns (copy: Board)
      requires Valid()
      ensures fresh(copy) && fresh(copy.squares) && fresh(copy.Footprint)
      ensures copy.Valid() && copy.Snap() == CopyOf(Snap())
    {
      copy := new Board();
      copy.ClearSquares();
      copy.CopyPiecesFrom(this);
      forall p: Pos | p.IsValid() ensures At(copy.Snap(), p) == At(CopyOf(Snap()), p) {
        SnapAt(p);
        copy.SnapAt(p);
      }
      SnapshotExt(copy.Snap(), CopyOf(Snap()));
    }

    /** The first loop nest of copy, run on the new board: every square emptied. */
    method ClearSquares()
      requires Valid()
      modifies squares
      ensures Valid() && forall r, c | 0 <= r < 8 && 0 <= c < 8 :: squares[r, c] == null
    {
      for row := 0 to 8
        invariant Valid()
        invariant forall r, c | 0 <= r < row && 0 <= c < 8 :: squares[r, c] == null
      {
        for col := 0 to 8
          invariant Valid()
          invariant forall r, c | 0 <= r < row && 0 <= c < 8 :: squares[r, c] == null
          invariant forall c | 0 <= c < col :: squares[row, c] == null
        {
          squares[row, col] := null;
        }
      }
    }

    /** The second loop nest of copy, run on the emptied new board: a fresh unmoved twin of every piece of `original`. */
    method CopyPiecesFrom(original: Board)
      requires Valid() && original.Valid() && original.squares != squares
      requires forall r, c | 0 <= r < 8 && 0 <= c < 8 :: squares[r, c] == null
      modifies this, squares
      ensures Valid() && squares == old(squares) && enPassantTarget == old(enPassantTarget)
      ensures fresh(Footprint - old(Footprint))
      ensures forall r, c | 0 <= r < 8 && 0 <= c < 8 ::
                CellOf(squares[r, c]) == CopyCell(CellOf(original.squares[r, c]))
    {
      for row := 0 to 8
        invariant Valid() && squares == old(squares) && enPassantTarget == old(enPassantTarget)
        invariant fresh(Footprint - old(Footprint))
        invariant forall r, c | 0 <= r < 8 && 0 <= c < 8 ::
                    CellOf(squares[r, c]) == if r < row then CopyCell(CellOf(original.squares[r, c])) else None
      {
        for col := 0 to 8
          invariant Valid() && squares == old(squares) && enPassantTarget == old(enPassantTarget)
          invariant fresh(Footprint - old(Footprint))
          invariant forall r, c | 0 <= r < 8 && 0 <= c < 8 ::
                      CellOf(squares[r, c]) ==
                        if r < row || (r == row && c < col) then CopyCell(CellOf(original.squares[r, c])) else None
        {
          var piece := original.squares[row, col];
          if piece != null {
            var twin := CreatePieceCopy(piece, Pos(row, col));
            squares[row, col] := twin;
            Footprint := Footprint + {twin};
          }
        }
      }
    }

    /** createPieceCopy: a new piece of the same kind and colour on the given square, not moved. */
    static method CreatePieceCopy(original: Piece, newPosition: Pos) returns (piece: Piece)
      ensures fresh(piece) && piece.kind == original.kind && piece.isWhite == original.isWhite
      ensures piece.position == newPosition && !piece.hasMoved
    {
      match original.kind
      case Pawn => piece := new Piece(Pawn, original.isWhite, newPosition);
      case Rook => piece := new Piece(Rook, original.isWhite, newPosition);
      case Knight => piece := new Piece(Knight, original.isWhite, newPosition);
      case Bishop => piece := new Piece(Bishop, original.isWhite, newPosition);
      case Queen => piece := new Piece(Queen, original.isWhite, newPosition);
      case King => piece := new Piece(King, original.isWhite, newPosition);
    }
  }

  // ---- the board queries of Piece.java, on the board object ----

  /** hasPieceAt. */
  predicate HasPieceAt(board: Board, position: Pos)
    reads board, board.squares, board.Footprint
    requires board.Valid()
    ensures HasPieceAt(board, position) <==> Pieces.HasPieceAt(board.Snap(), position)
  {
    board.GetPieceAt(position) != null
  }

  /** hasEnemyPieceAt, for `self`. */
  predicate HasEnemyPieceAt(self: Piece, board: Board, position: Pos)
    reads board, board.squares, board.Footprint
    requires board.Valid()
    ensures HasEnemyPieceAt(self, board, position) <==> HasEnemyAt(board.Snap(), self.isWhite, position)
  {
    var piece := board.GetPieceAt(position);
    piece != null && piece.isWhite != self.isWhite
  }

  /** hasAllyPieceAt, for `self`. */
  predicate HasAllyPieceAt(self: Piece, board: Board, position: Pos)
    reads board, board.squares, board.Footprint
    requires board.Valid()
    ensures HasAllyPieceAt(self, board, position) <==> HasAllyAt(board.Snap(), self.isWhite, position)
  {
    var piece := board.GetPieceAt(position);
    piece != null && piece.isWhite == self.isWhite
  }
}
