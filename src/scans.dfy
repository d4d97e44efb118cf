/**
 * The whole-board scans that Game, ChessAI, IASuprema and IANivel8 each
 * write as `for row 0..7, for col 0..7`: the move lists of
 * getAllPossibleMoves and getCaptureMoves, and the sums of the
 * evaluation functions.  A scan visits the squares in row-major order.
 */
module Scans {
  import opened Wrappers
  import opened Positions
  import opened Pieces
  import opened Boards
  import opened Rules
  import Moves
  import Sliding

  // ---- row-major folds ----
  // Each fold names the position `s` whose squares it visits, although only `f` is
  // evaluated: a fold over the eight rows of a position is then expanded when a proof
  // asks for it, not unrolled square by square wherever the number of rows is known.

  /** What f yields on the first `col` squares of row r of s, in column order. */
  function RowGather<T>(s: Snapshot, f: Pos -> seq<T>, r: int, col: nat): seq<T>
    requires col <= 8
  {
    if col == 0 then [] else RowGather(s, f, r, col - 1) + f(Pos(r, col - 1))
  }

  /** What f yields on the first `rows` rows of s, in row-major order. */
  function Gather<T>(s: Snapshot, f: Pos -> seq<T>, rows: nat): seq<T>
    requires rows <= 8
  {
    if rows == 0 then [] else Gather(s, f, rows - 1) + RowGather(s, f, rows - 1, 8)
  }

  lemma {:induction false} RowGatherMember<T>(s: Snapshot, f: Pos -> seq<T>, r: int, col: nat, x: T)
    requires col <= 8
    ensures x in RowGather(s, f, r, col) <==> exists c | 0 <= c < col :: x in f(Pos(r, c))
  {
    if col > 0 {
      RowGatherMember(s, f, r, col - 1, x);
      if x in f(Pos(r, col - 1)) {
        assert x in RowGather(s, f, r, col);
      }
    }
  }

  /** An element of a scan comes from some square of the scanned rows. */
  lemma {:induction false} GatherMember<T>(s: Snapshot, f: Pos -> seq<T>, rows: nat, x: T)
    requires rows <= 8
    ensures x in Gather(s, f, rows) <==> exists p: Pos | p.IsValid() && p.row < rows :: x in f(p)
  {
    if rows > 0 {
      GatherMember(s, f, rows - 1, x);
      RowGatherMember(s, f, rows - 1, 8, x);
      if exists p: Pos | p.IsValid() && p.row < rows :: x in f(p) {
        var p: Pos :| p.IsValid() && p.row < rows && x in f(p);
        if p.row == rows - 1 {
          assert x in f(Pos(rows - 1, p.col));
        }
      }
      var r := rows - 1;
      if exists c | 0 <= c < 8 :: x in f(Pos(r, c)) {
        var c :| 0 <= c < 8 && x in f(Pos(r, c));
        assert Pos(r, c).IsValid();
      }
    }
  }

  /** The sum of f over the first `col` squares of row r of s. */
  function RowSum(s: Snapshot, f: Pos -> int, r: int, col: nat): int
    requires col <= 8
  {
    if col == 0 then 0 else RowSum(s, f, r, col - 1) + f(Pos(r, col - 1))
  }

  /** The sum of f over the first `rows` rows of s. */
  function Sum(s: Snapshot, f: Pos -> int, rows: nat): int
    requires rows <= 8
  {
    if rows == 0 then 0 else Sum(s, f, rows - 1) + RowSum(s, f, rows - 1, 8)
  }

  lemma {:induction false} RowSumNegate(s: Snapshot, f: Pos -> int, g: Pos -> int, r: int, col: nat)
    requires col <= 8 && forall c | 0 <= c < 8 :: g(Pos(r, c)) == -f(Pos(r, c))
    ensures RowSum(s, g, r, col) == -RowSum(s, f, r, col)
  {
    if col > 0 {
      RowSumNegate(s, f, g, r, col - 1);
    }
  }

  /** Summing a negated function gives the negated sum. */
  lemma {:induction false} SumNegate(s: Snapshot, f: Pos -> int, g: Pos -> int, rows: nat)
    requires rows <= 8 && forall p: Pos | p.IsValid() :: g(p) == -f(p)
    ensures Sum(s, g, rows) == -Sum(s, f, rows)
  {
    if rows > 0 {
      var r := rows - 1;
      SumNegate(s, f, g, r);
      forall c | 0 <= c < 8 ensures g(Pos(r, c)) == -f(Pos(r, c)) {
        assert Pos(r, c).IsValid();
      }
      RowSumNegate(s, f, g, r, 8);
    }
  }

  lemma {:induction false} RowSumBound(s: Snapshot, f: Pos -> int, r: int, col: nat, m: int)
    requires col <= 8 && forall c | 0 <= c < 8 :: -m <= f(Pos(r, c)) <= m
    ensures -(col * m) <= RowSum(s, f, r, col) <= col * m
  {
    if col > 0 {
      RowSumBound(s, f, r, col - 1, m);
    }
  }

  lemma {:induction false} SumBoundRows(s: Snapshot, f: Pos -> int, rows: nat, m: int)
    requires rows <= 8 && forall p: Pos | p.IsValid() :: -m <= f(p) <= m
    ensures -(rows * (8 * m)) <= Sum(s, f, rows) <= rows * (8 * m)
  {
    if rows > 0 {
      var r := rows - 1;
      SumBoundRows(s, f, r, m);
      forall c | 0 <= c < 8 ensures -m <= f(Pos(r, c)) <= m {
        assert Pos(r, c).IsValid();
      }
      RowSumBound(s, f, r, 8, m);
      Distribute(8 * m, r);
    }
  }

  lemma Distribute(a: int, r: nat)
    ensures (r + 1) * a == r * a + a
  {
  }

  // ---- getAllPossibleMoves and getCaptureMoves ----

  /** A chessman's identity: kind and colour (what a Move's piece references never change). */
  datatype Man = Man(kind: Kind, white: bool)

  function Identity(c: Cell): Man {
    Man(c.kind, c.white)
  }

  /** The identity of what a square holds. */
  function ManAt(s: Snapshot, p: Pos): (r: Option<Man>)
    ensures r.Some? <==> At(s, p).Some?
  {
    if At(s, p).Some? then Some(Identity(At(s, p).value)) else None
  }

  /** A generated Move, as a value: from, to, the moving piece and the captured one. */
  datatype Ply = Ply(from: Pos, to: Pos, piece: Man, captured: Option<Man>)

  /** One Move per target, recording the destination's occupant as captured. */
  function PliesTo(s: Snapshot, from: Pos, c: Cell, targets: seq<Pos>): seq<Ply> {
    if targets == [] then []
    else PliesTo(s, from, c, targets[..|targets| - 1]) + [Ply(from, targets[|targets| - 1], Identity(c), ManAt(s, targets[|targets| - 1]))]
  }

  lemma {:induction false} PliesToIndex(s: Snapshot, from: Pos, c: Cell, targets: seq<Pos>)
    ensures |PliesTo(s, from, c, targets)| == |targets|
    ensures forall i | 0 <= i < |targets| :: PliesTo(s, from, c, targets)[i] == Ply(from, targets[i], Identity(c), ManAt(s, targets[i]))
  {
    if targets != [] {
      PliesToIndex(s, from, c, targets[..|targets| - 1]);
    }
  }

  lemma PliesToMember(s: Snapshot, from: Pos, c: Cell, targets: seq<Pos>, m: Ply)
    ensures m in PliesTo(s, from, c, targets) <==>
              m.from == from && m.piece == Identity(c) && m.to in targets && m.captured == ManAt(s, m.to)
  {
    var r := PliesTo(s, from, c, targets);
    PliesToIndex(s, from, c, targets);
    if m.from == from && m.piece == Identity(c) && m.to in targets && m.captured == ManAt(s, m.to) {
      var i :| 0 <= i < |targets| && targets[i] == m.to;
      assert r[i] == m;
    }
  }

  /** The moves listed for square p: those of its piece when it has the colour asked for. */
  function SquarePlies(s: Snapshot, white: bool, attacks: AttackOracle, p: Pos): seq<Ply> {
    match At(s, p)
    case None => []
    case Some(c) => if c.white == white then PliesTo(s, p, c, Targets(s, c, p, attacks)) else []
  }

  function PlyLister(s: Snapshot, white: bool, attacks: AttackOracle): Pos -> seq<Ply> {
    p => SquarePlies(s, white, attacks, p)
  }

  lemma SquarePliesMember(s: Snapshot, white: bool, attacks: AttackOracle, p: Pos, m: Ply)
    ensures m in SquarePlies(s, white, attacks, p) <==>
              m.from == p && At(s, p).Some? && Identity(At(s, p).value) == m.piece && m.piece.white == white &&
              m.to in Targets(s, At(s, p).value, p, attacks) && m.captured == ManAt(s, m.to)
  {
    if At(s, p).Some? && At(s, p).value.white == white {
      var c := At(s, p).value;
      PliesToMember(s, p, c, Targets(s, c, p, attacks), m);
    }
  }

  /** getAllPossibleMoves, as a value. */
  function AllPlies(s: Snapshot, white: bool, attacks: AttackOracle): seq<Ply> {
    Gather(s, PlyLister(s, white, attacks), 8)
  }

  lemma AllPliesIsGather(s: Snapshot, white: bool, attacks: AttackOracle, f: Pos -> seq<Ply>)
    requires f == PlyLister(s, white, attacks)
    ensures AllPlies(s, white, attacks) == Gather(s, f, 8)
  {
  }

  /** The targets of one piece that hold a piece of the other colour. */
  function CapturesTo(s: Snapshot, from: Pos, c: Cell, targets: seq<Pos>): seq<Ply> {
    if targets == [] then []
    else
      var t := targets[|targets| - 1];
      CapturesTo(s, from, c, targets[..|targets| - 1]) +
      (if At(s, t).Some? && At(s, t).value.white != c.white then [Ply(from, t, Identity(c), ManAt(s, t))] else [])
  }

  function SquareCaptures(s: Snapshot, white: bool, attacks: AttackOracle, p: Pos): seq<Ply> {
    match At(s, p)
    case None => []
    case Some(c) => if c.white == white then CapturesTo(s, p, c, Targets(s, c, p, attacks)) else []
  }

  function CaptureLister(s: Snapshot, white: bool, attacks: AttackOracle): Pos -> seq<Ply> {
    p => SquareCaptures(s, white, attacks, p)
  }

  /** getCaptureMoves, as a value. */
  function AllCaptures(s: Snapshot, white: bool, attacks: AttackOracle): seq<Ply> {
    Gather(s, CaptureLister(s, white, attacks), 8)
  }

  lemma AllCapturesIsGather(s: Snapshot, white: bool, attacks: AttackOracle, f: Pos -> seq<Ply>)
    requires f == CaptureLister(s, white, attacks)
    ensures AllCaptures(s, white, attacks) == Gather(s, f, 8)
  {
  }

  /** The simulated position the engines score: board.copy() then movePiece(from, to). */
  function Simulate(s: Snapshot, m: Ply): (r: Snapshot)
    requires WellFormed(s)
    ensures WellFormed(r)
  {
    CopyOfEffect(s);
    MoveOnEffect(CopyOf(s), m.from, m.to);
    MoveOn(CopyOf(s), m.from, m.to)
  }

  /** The positions the listed moves lead to, in the order of the list. */
  function Successors(s: Snapshot, plies: seq<Ply>): (cs: seq<Snapshot>)
    requires WellFormed(s)
    ensures |cs| == |plies|
  {
    seq(|plies|, k requires 0 <= k < |plies| => Simulate(s, plies[k]))
  }

  /**
   * Every generated move starts on a square holding a piece of that colour,
   * goes to one of that piece's getPossibleMoves, and records as captured
   * exactly what the destination holds; and every such pair is generated.
   */
  lemma AllPliesSpec(s: Snapshot, white: bool, attacks: AttackOracle, m: Ply)
    ensures m in AllPlies(s, white, attacks) <==>
              m.from.IsValid() && At(s, m.from).Some? && Identity(At(s, m.from).value) == m.piece && m.piece.white == white &&
              m.to in Targets(s, At(s, m.from).value, m.from, attacks) && m.captured == ManAt(s, m.to)
  {
    var f := PlyLister(s, white, attacks);
    GatherMember(s, f, 8, m);
    SquarePliesMember(s, white, attacks, m.from, m);
    if m in AllPlies(s, white, attacks) {
      var p: Pos :| p.IsValid() && p.row < 8 && m in f(p);
      SquarePliesMember(s, white, attacks, p, m);
    }
  }

  lemma {:induction false} CapturesToSpec(s: Snapshot, from: Pos, c: Cell, targets: seq<Pos>, m: Ply)
    ensures m in CapturesTo(s, from, c, targets) <==>
              m.from == from && m.piece == Identity(c) && m.to in targets && m.captured == ManAt(s, m.to) &&
              At(s, m.to).Some? && At(s, m.to).value.white != c.white
  {
    if targets != [] {
      var init := targets[..|targets| - 1];
      CapturesToSpec(s, from, c, init, m);
      assert targets == init + [targets[|targets| - 1]];
    }
  }

  lemma SquareCapturesMember(s: Snapshot, white: bool, attacks: AttackOracle, p: Pos, m: Ply)
    ensures m in SquareCaptures(s, white, attacks, p) <==>
              m.from == p && At(s, p).Some? && Identity(At(s, p).value) == m.piece && m.piece.white == white &&
              m.to in Targets(s, At(s, p).value, p, attacks) && m.captured == ManAt(s, m.to) &&
              At(s, m.to).Some? && At(s, m.to).value.white != white
  {
    if At(s, p).Some? && At(s, p).value.white == white {
      var c := At(s, p).value;
      CapturesToSpec(s, p, c, Targets(s, c, p, attacks), m);
    }
  }

  /**
   * The capture moves are exactly the generated moves whose destination
   * holds a piece of the other colour.
   */
  lemma AllCapturesSpec(s: Snapshot, white: bool, attacks: AttackOracle, m: Ply)
    ensures m in AllCaptures(s, white, attacks) <==>
              m in AllPlies(s, white, attacks) && m.captured.Some? && m.captured.value.white != white
  {
    var f := CaptureLister(s, white, attacks);
    GatherMember(s, f, 8, m);
    AllPliesSpec(s, white, attacks, m);
    SquareCapturesMember(s, white, attacks, m.from, m);
    if m in AllCaptures(s, white, attacks) {
      var p: Pos :| p.IsValid() && p.row < 8 && m in f(p);
      SquareCapturesMember(s, white, attacks, p, m);
    }
  }

  /** Every capture removes exactly one piece from the simulated board. */
  lemma CaptureShrinks(s: Snapshot, white: bool, attacks: AttackOracle, m: Ply)
    requires WellFormed(s) && m in AllCaptures(s, white, attacks)
    ensures PieceCount(Simulate(s, m)) == PieceCount(s) - 1
  {
    AllCapturesSpec(s, white, attacks, m);
    AllPliesSpec(s, white, attacks, m);
    CopyOfEffect(s);
    assert m.from != m.to;
    MoveOnCount(CopyOf(s), m.from, m.to);
  }

  // ---- the heap generators ----

  /** What a piece slot of a Move records: kind and colour, or nothing. */
  function ManOf(p: Piece?): Option<Man> {
    if p == null then None else Some(Man(p.kind, p.isWhite))
  }

  /** The value a Move object records. */
  function Record(m: Moves.Move): Ply
    reads m
  {
    Ply(m.from, m.to, Man(m.pieceMoved.kind, m.pieceMoved.isWhite), ManOf(m.pieceCaptured))
  }

  function Records(ms: seq<Moves.Move>): (r: seq<Ply>)
    reads ms
    ensures |r| == |ms|
  {
    if ms == [] then [] else Records(ms[..|ms| - 1]) + [Record(ms[|ms| - 1])]
  }

  /** A sequence of moves whose every element records the corresponding ply records that sequence. */
  lemma {:induction false} RecordsIndex(ms: seq<Moves.Move>, plies: seq<Ply>)
    requires |ms| == |plies| && forall k | 0 <= k < |ms| :: Record(ms[k]) == plies[k]
    ensures Records(ms) == plies
  {
    if ms != [] {
      RecordsIndex(ms[..|ms| - 1], plies[..|plies| - 1]);
    }
  }

  lemma {:induction false} RecordsAt(ms: seq<Moves.Move>, k: nat)
    requires k < |ms|
    ensures Records(ms)[k] == Record(ms[k])
  {
    if k < |ms| - 1 {
      RecordsAt(ms[..|ms| - 1], k);
    }
  }

  lemma {:induction false} RecordsAppend(a: seq<Moves.Move>, b: seq<Moves.Move>)
    ensures Records(a + b) == Records(a) + Records(b)
    decreases |b|
  {
    if b != [] {
      var init := b[..|b| - 1];
      assert (a + b)[..|a + b| - 1] == a + init;
      assert (a + b)[|a + b| - 1] == b[|b| - 1];
      RecordsAppend(a, init);
      Sliding.SeqAssoc(Records(a), Records(init), [Record(b[|b| - 1])]);
    } else {
      assert a + b == a;
    }
  }

  lemma RecordsConcat(a: seq<Moves.Move>, b: seq<Moves.Move>, pa: seq<Ply>, pb: seq<Ply>)
    requires |a| == |pa| && forall k | 0 <= k < |a| :: Record(a[k]) == pa[k]
    requires |b| == |pb| && forall k | 0 <= k < |b| :: Record(b[k]) == pb[k]
    ensures |a + b| == |pa + pb| && forall k | 0 <= k < |a + b| :: Record((a + b)[k]) == (pa + pb)[k]
  {
    forall k | 0 <= k < |a + b| ensures Record((a + b)[k]) == (pa + pb)[k] {
      if k >= |a| {
        assert (a + b)[k] == b[k - |a|];
      }
    }
  }

  lemma PliesToSnoc(s: Snapshot, from: Pos, c: Cell, targets: seq<Pos>, i: nat)
    requires i < |targets|
    ensures PliesTo(s, from, c, targets[..i + 1]) == PliesTo(s, from, c, targets[..i]) + [Ply(from, targets[i], Identity(c), ManAt(s, targets[i]))]
  {
    assert targets[..i + 1][..i] == targets[..i];
  }

  lemma CapturesToSnoc(s: Snapshot, from: Pos, c: Cell, targets: seq<Pos>, i: nat)
    requires i < |targets|
    ensures CapturesTo(s, from, c, targets[..i + 1]) == CapturesTo(s, from, c, targets[..i]) +
              (if At(s, targets[i]).Some? && At(s, targets[i]).value.white != c.white then [Ply(from, targets[i], Identity(c), ManAt(s, targets[i]))] else [])
  {
    assert targets[..i + 1][..i] == targets[..i];
  }

  /** The body of the inner loop: a Move from `pos` to `target` with the target's occupant as captured. */
  method NewMove(board: Board, pos: Pos, target: Pos, piece: Piece) returns (move: Moves.Move)
    requires board.Valid()
    ensures fresh(move)
    ensures Record(move) == Ply(pos, target, Identity(piece.AsCell()), ManAt(board.Snap(), target))
  {
    var captured := board.GetPieceAt(target);
    move := new Moves.Move(pos, target, piece);
    if captured != null {
      move.SetPieceCaptured(captured);
    }
  }

  /** The inner loop of getAllPossibleMoves: one new Move per target, in the targets' order. */
  method TargetMoves(board: Board, pos: Pos, piece: Piece, targets: seq<Pos>) returns (moves: seq<Moves.Move>)
    requires board.Valid()
    ensures Records(moves) == PliesTo(board.Snap(), pos, piece.AsCell(), targets)
    ensures forall m | m in moves :: fresh(m)
  {
    ghost var s := board.Snap();
    ghost var c := piece.AsCell();
    ghost var done: seq<Ply> := [];
    moves := [];
    for i := 0 to |targets|
      invariant board.Snap() == s && piece.AsCell() == c
      invariant done == PliesTo(s, pos, c, targets[..i])
      invariant |moves| == |done| && forall k | 0 <= k < |moves| :: Record(moves[k]) == done[k]
      invariant forall m | m in moves :: fresh(m)
    {
      var move := NewMove(board, pos, targets[i], piece);
      PliesToSnoc(s, pos, c, targets, i);
      RecordsConcat(moves, [move], done, [Ply(pos, targets[i], Identity(c), ManAt(s, targets[i]))]);
      moves := moves + [move];
      done := done + [Ply(pos, targets[i], Identity(c), ManAt(s, targets[i]))];
    }
    assert targets[..|targets|] == targets;
    RecordsIndex(moves, done);
  }

  /** The moves of the piece on `pos`, when it has the colour asked for. */
  method SquareMoves(board: Board, ghost s: Snapshot, pos: Pos, isWhite: bool, attacks: AttackOracle) returns (moves: seq<Moves.Move>)
    requires board.Valid() && board.Snap() == s && pos.IsValid()
    ensures board.Valid() && board.Snap() == s
    ensures Records(moves) == SquarePlies(s, isWhite, attacks, pos)
    ensures forall m | m in moves :: fresh(m)
  {
    moves := [];
    var piece := board.GetPieceAt(pos);
    if piece != null && piece.isWhite == isWhite {
      Rules.StandingWalkable(s, piece);
      var targets := Rules.PossibleMoves(piece, board, attacks);
      assert SquarePlies(s, isWhite, attacks, pos) == PliesTo(s, pos, piece.AsCell(), targets);
      moves := TargetMoves(board, pos, piece, targets);
    }
  }

  /** The inner loop of getCaptureMoves: a new Move per target holding a piece of the other colour. */
  method TargetCaptures(board: Board, pos: Pos, piece: Piece, targets: seq<Pos>) returns (moves: seq<Moves.Move>)
    requires board.Valid()
    ensures Records(moves) == CapturesTo(board.Snap(), pos, piece.AsCell(), targets)
  {
    ghost var s := board.Snap();
    ghost var c := piece.AsCell();
    ghost var done: seq<Ply> := [];
    moves := [];
    for i := 0 to |targets|
      invariant board.Snap() == s && piece.AsCell() == c
      invariant done == CapturesTo(s, pos, c, targets[..i])
      invariant |moves| == |done| && forall k | 0 <= k < |moves| :: Record(moves[k]) == done[k]
    {
      var captured := board.GetPieceAt(targets[i]);
      CapturesToSnoc(s, pos, c, targets, i);
      if captured != null && captured.isWhite != piece.isWhite {
        var move := NewMove(board, pos, targets[i], piece);
        RecordsConcat(moves, [move], done, [Ply(pos, targets[i], Identity(c), ManAt(s, targets[i]))]);
        moves := moves + [move];
        done := done + [Ply(pos, targets[i], Identity(c), ManAt(s, targets[i]))];
      }
    }
    assert targets[..|targets|] == targets;
    RecordsIndex(moves, done);
  }

  /** The capture moves of the piece on `pos`, when it has the colour asked for. */
  method SquareCaptureMoves(board: Board, ghost s: Snapshot, pos: Pos, isWhite: bool, attacks: AttackOracle) returns (moves: seq<Moves.Move>)
    requires board.Valid() && board.Snap() == s && pos.IsValid()
    ensures board.Valid() && board.Snap() == s
    ensures Records(moves) == SquareCaptures(s, isWhite, attacks, pos)
  {
    moves := [];
    var piece := board.GetPieceAt(pos);
    if piece != null && piece.isWhite == isWhite {
      Rules.StandingWalkable(s, piece);
      var targets := Rules.PossibleMoves(piece, board, attacks);
      assert SquareCaptures(s, isWhite, attacks, pos) == CapturesTo(s, pos, piece.AsCell(), targets);
      moves := TargetCaptures(board, pos, piece, targets);
    }
  }

  /** One row of the scan of getAllPossibleMoves. */
  method RowMoves(board: Board, ghost s: Snapshot, row: int, isWhite: bool, attacks: AttackOracle) returns (moves: seq<Moves.Move>)
    requires board.Valid() && board.Snap() == s && 0 <= row < 8
    ensures board.Valid() && board.Snap() == s
    ensures Records(moves) == RowGather(s, PlyLister(s, isWhite, attacks), row, 8)
    ensures forall m | m in moves :: fresh(m)
  {
    ghost var f := PlyLister(s, isWhite, attacks);
    moves := [];
    for col := 0 to 8
      invariant board.Valid() && board.Snap() == s
      invariant Records(moves) == RowGather(s, f, row, col)
      invariant forall m | m in moves :: fresh(m)
    {
      ghost var pre := Records(moves);
      var sq := SquareMoves(board, s, Pos(row, col), isWhite, attacks);
      assert Records(moves) == pre;
      RecordsAppend(moves, sq);
      moves := moves + sq;
    }
  }

  /** getAllPossibleMoves of ChessAI, IASuprema and IANivel8: the same row-major scan in all three. */
  method AllPossibleMoves(board: Board, ghost s: Snapshot, isWhite: bool, attacks: AttackOracle) returns (moves: seq<Moves.Move>)
    requires board.Valid() && board.Snap() == s
    ensures board.Valid() && board.Snap() == s
    ensures Records(moves) == AllPlies(s, isWhite, attacks)
    ensures forall m | m in moves :: fresh(m)
  {
    ghost var f := PlyLister(s, isWhite, attacks);
    moves := [];
    for row := 0 to 8
      invariant board.Valid() && board.Snap() == s
      invariant Records(moves) == Gather(s, f, row)
      invariant forall m | m in moves :: fresh(m)
    {
      ghost var pre := Records(moves);
      var more := RowMoves(board, s, row, isWhite, attacks);
      assert Records(moves) == pre;
      RecordsAppend(moves, more);
      moves := moves + more;
    }
    AllPliesIsGather(s, isWhite, attacks, f);
  }

  /** One row of the scan of getCaptureMoves. */
  method RowCaptureMoves(board: Board, ghost s: Snapshot, row: int, isWhite: bool, attacks: AttackOracle) returns (moves: seq<Moves.Move>)
    requires board.Valid() && board.Snap() == s && 0 <= row < 8
    ensures board.Valid() && board.Snap() == s
    ensures Records(moves) == RowGather(s, CaptureLister(s, isWhite, attacks), row, 8)
  {
    ghost var f := CaptureLister(s, isWhite, attacks);
    moves := [];
    for col := 0 to 8
      invariant board.Valid() && board.Snap() == s
      invariant Records(moves) == RowGather(s, f, row, col)
    {
      ghost var pre := Records(moves);
      var sq := SquareCaptureMoves(board, s, Pos(row, col), isWhite, attacks);
      assert Records(moves) == pre;
      RecordsAppend(moves, sq);
      moves := moves + sq;
    }
  }

  /** getCaptureMoves of IANivel8. */
  method CaptureMoves(board: Board, ghost s: Snapshot, isWhite: bool, attacks: AttackOracle) returns (moves: seq<Moves.Move>)
    requires board.Valid() && board.Snap() == s
    ensures board.Valid() && board.Snap() == s
    ensures Records(moves) == AllCaptures(s, isWhite, attacks)
  {
    ghost var f := CaptureLister(s, isWhite, attacks);
    moves := [];
    for row := 0 to 8
      invariant board.Valid() && board.Snap() == s
      invariant Records(moves) == Gather(s, f, row)
    {
      ghost var pre := Records(moves);
      var more := RowCaptureMoves(board, s, row, isWhite, attacks);
      assert Records(moves) == pre;
      RecordsAppend(moves, more);
      moves := moves + more;
    }
    AllCapturesIsGather(s, isWhite, attacks, f);
  }

  /**
   * The simulation step of every engine: board.copy() and movePiece(move.from, move.to)
   * on the copy.  The copy is new, so the board and the moves already built are untouched.
   */
  method SimulateOn(board: Board, ghost s: Snapshot, move: Moves.Move) returns (temp: Board)
    requires board.Valid() && board.Snap() == s
    ensures board.Valid() && board.Snap() == s
    ensures fresh(temp) && fresh(temp.squares) && fresh(temp.Footprint)
    ensures temp.Valid() && temp.Snap() == Simulate(s, Record(move))
  {
    temp := board.Copy();
    temp.MovePiece(move.from, move.to);
  }

  /** The child position of a move, as the loop simulates it. */
  method Child(board: Board, ghost s: Snapshot, moves: seq<Moves.Move>, ghost plies: seq<Ply>, i: nat) returns (temp: Board)
    requires board.Valid() && board.Snap() == s && Records(moves) == plies && i < |moves|
    ensures board.Valid() && board.Snap() == s && Records(moves) == plies
    ensures fresh(temp) && temp.Valid() && temp.Snap() == Successors(s, plies)[i]
  {
    ghost var pre := Records(moves);
    temp := SimulateOn(board, s, moves[i]);
    assert Records(moves) == pre;
    RecordsAt(moves, i);
  }
}
