/**
 * The legality scans of Game.java: isKingInCheck, wouldPutKingInCheck, and
 * the scan that hasLegalMoves and findAnyLegalMove both make, over every
 * piece of one colour and every square its getPossibleMoves lists, in
 * row-major order.  Each is stated on the board's value as a row-major
 * fold (Scans.Gather) and performed on the board by a loop nest.
 */
module Legality {
  import opened Wrappers
  import opened Positions
  import opened Pieces
  import opened Boards
  import opened Rules
  import opened Scans
  import Moves

  // ---- prefixes of the row-major folds ----

  lemma {:induction false} RowGatherPrefix<T>(s: Snapshot, f: Pos -> seq<T>, r: int, a: nat, b: nat)
    requires a <= b <= 8
    ensures RowGather(s, f, r, a) <= RowGather(s, f, r, b)
    decreases b
  {
    if a < b {
      RowGatherPrefix(s, f, r, a, b - 1);
    }
  }

  lemma {:induction false} GatherPrefix<T>(s: Snapshot, f: Pos -> seq<T>, a: nat, b: nat)
    requires a <= b <= 8
    ensures Gather(s, f, a) <= Gather(s, f, b)
    decreases b
  {
    if a < b {
      GatherPrefix(s, f, a, b - 1);
    }
  }

  /** A scan starts with what the first square that lists anything lists first. */
  lemma GatherFirst<T>(s: Snapshot, f: Pos -> seq<T>, row: nat, col: nat)
    requires row < 8 && col < 8
    requires Gather(s, f, row) == [] && RowGather(s, f, row, col) == [] && f(Pos(row, col)) != []
    ensures Gather(s, f, 8) != [] && Gather(s, f, 8)[0] == f(Pos(row, col))[0]
  {
    RowGatherPrefix(s, f, row, col + 1, 8);
    GatherPrefix(s, f, row + 1, 8);
  }

  // ---- isKingInCheck ----

  /** The piece on p is of the other colour and its isValidMove accepts the king's square k. */
  predicate Attacker(s: Snapshot, white: bool, attacks: AttackOracle, k: Pos, p: Pos) {
    At(s, p).Some? && At(s, p).value.white != white && ValidMove(s, At(s, p).value, p, k, attacks)
  }

  function Attackers(s: Snapshot, white: bool, attacks: AttackOracle, k: Pos): Pos -> seq<Pos> {
    p => if Attacker(s, white, attacks, k, p) then [p] else []
  }

  /** isKingInCheck(board, isWhite): a king of that colour was found and some enemy piece can move onto it. */
  predicate KingInCheck(s: Snapshot, white: bool, attacks: AttackOracle) {
    KingSquare(s, white).Some? && Gather(s, Attackers(s, white, attacks, KingSquare(s, white).value), 8) != []
  }

  /** The check test, as a statement about squares: the first king findKing meets is attacked by some piece. */
  lemma KingInCheckSpec(s: Snapshot, white: bool, attacks: AttackOracle)
    ensures KingInCheck(s, white, attacks) <==>
              KingSquare(s, white).Some? &&
              exists p: Pos | p.IsValid() :: Attacker(s, white, attacks, KingSquare(s, white).value, p)
  {
    if KingSquare(s, white).Some? {
      var k := KingSquare(s, white).value;
      var f := Attackers(s, white, attacks, k);
      if Gather(s, f, 8) != [] {
        GatherMember(s, f, 8, Gather(s, f, 8)[0]);
      } else if exists p: Pos | p.IsValid() :: Attacker(s, white, attacks, k, p) {
        var p: Pos :| p.IsValid() && Attacker(s, white, attacks, k, p);
        assert p in f(p);
        GatherMember(s, f, 8, p);
      }
    }
  }

  /** wouldPutKingInCheck: the king of that colour is in check after copy() and movePiece(from, to). */
  predicate WouldCheck(s: Snapshot, from: Pos, to: Pos, white: bool, attacks: AttackOracle) {
    WellFormed(s) && (CopyOfEffect(s); KingInCheck(MoveOn(CopyOf(s), from, to), white, attacks))
  }

  /** The inner loop of isKingInCheck over row `row`. */
  method RowAttacked(board: Board, ghost s: Snapshot, row: int, k: Pos, isWhite: bool, attacks: AttackOracle) returns (r: bool)
    requires board.Valid() && board.Snap() == s && 0 <= row < 8
    ensures r == (RowGather(s, Attackers(s, isWhite, attacks, k), row, 8) != [])
  {
    ghost var f := Attackers(s, isWhite, attacks, k);
    r := false;
    for col := 0 to 8
      invariant !r && RowGather(s, f, row, col) == []
    {
      r := SquareAttacks(board, s, Pos(row, col), k, isWhite, attacks);
      if r {
        RowGatherPrefix(s, f, row, col + 1, 8);
        break;
      }
    }
  }

  /** One square of the scan: it holds an enemy piece whose isValidMove accepts k. */
  method SquareAttacks(board: Board, ghost s: Snapshot, p: Pos, k: Pos, isWhite: bool, attacks: AttackOracle) returns (r: bool)
    requires board.Valid() && board.Snap() == s
    ensures r == Attacker(s, isWhite, attacks, k, p)
  {
    var piece := board.GetPieceAt(p);
    if piece != null && piece.isWhite != isWhite {
      StandingWalkable(s, piece);
      r := IsValidMove(piece, board, k, attacks);
    } else {
      r := false;
    }
  }

  /** The outer loop of isKingInCheck: some piece attacks square k. */
  method Attacked(board: Board, ghost s: Snapshot, k: Pos, isWhite: bool, attacks: AttackOracle) returns (r: bool)
    requires board.Valid() && board.Snap() == s
    ensures r == (Gather(s, Attackers(s, isWhite, attacks, k), 8) != [])
  {
    ghost var f := Attackers(s, isWhite, attacks, k);
    r := false;
    for row := 0 to 8
      invariant !r && Gather(s, f, row) == []
    {
      r := RowAttacked(board, s, row, k, isWhite, attacks);
      if r {
        GatherPrefix(s, f, row + 1, 8);
        break;
      }
    }
  }

  /** isKingInCheck(board, isWhite) on the board. */
  method KingInCheckOn(board: Board, ghost s: Snapshot, isWhite: bool, attacks: AttackOracle) returns (r: bool)
    requires board.Valid() && board.Snap() == s
    ensures r == KingInCheck(s, isWhite, attacks)
  {
    var kingPosition := board.FindKing(isWhite);
    if kingPosition.None? {
      r := false;
    } else {
      r := Attacked(board, s, kingPosition.value, isWhite, attacks);
    }
  }

  /** wouldPutKingInCheck(move) on the board: the test runs on a copy, so the board is untouched. */
  method WouldCheckOn(board: Board, ghost s: Snapshot, from: Pos, to: Pos, isWhite: bool, attacks: AttackOracle) returns (r: bool)
    requires board.Valid() && board.Snap() == s
    ensures board.Valid() && board.Snap() == s
    ensures r == WouldCheck(s, from, to, isWhite, attacks)
  {
    var tempBoard := board.Copy();
    tempBoard.MovePiece(from, to);
    CopyOfEffect(s);
    r := KingInCheckOn(tempBoard, tempBoard.Snap(), isWhite, attacks);
  }

  // ---- the targets that survive the king-safety filter ----

  /** A king stands on t (of either colour): `target instanceof King`. */
  predicate KingAt(s: Snapshot, t: Pos) {
    At(s, t).Some? && At(s, t).value.kind == King
  }

  /** The elements of xs that pass `keep`, in their order. */
  function Filter<T>(xs: seq<T>, keep: T -> bool): seq<T> {
    if xs == [] then [] else Filter(xs[..|xs| - 1], keep) + (if keep(xs[|xs| - 1]) then [xs[|xs| - 1]] else [])
  }

  lemma {:induction false} FilterMember<T>(xs: seq<T>, keep: T -> bool, x: T)
    ensures x in Filter(xs, keep) <==> x in xs && keep(x)
  {
    if xs != [] {
      var init := xs[..|xs| - 1];
      FilterMember(init, keep, x);
      assert xs == init + [xs[|xs| - 1]];
    }
  }

  lemma {:induction false} FilterPrefix<T>(xs: seq<T>, keep: T -> bool, i: nat)
    requires i <= |xs|
    ensures Filter(xs[..i], keep) <= Filter(xs, keep)
    decreases |xs| - i
  {
    if i < |xs| {
      FilterPrefix(xs, keep, i + 1);
      assert xs[..i + 1][..i] == xs[..i];
    } else {
      assert xs[..i] == xs;
    }
  }

  lemma FilterSnoc<T>(xs: seq<T>, keep: T -> bool, i: nat)
    requires i < |xs|
    ensures Filter(xs[..i + 1], keep) == Filter(xs[..i], keep) + (if keep(xs[i]) then [xs[i]] else [])
  {
    assert xs[..i + 1][..i] == xs[..i];
  }

  /** A target is kept: not a king's square when kings are skipped, and the moving side's king is safe after it. */
  predicate Keeps(s: Snapshot, from: Pos, white: bool, skipKings: bool, attacks: AttackOracle, t: Pos) {
    !(skipKings && KingAt(s, t)) && !WouldCheck(s, from, t, white, attacks)
  }

  function KeepTest(s: Snapshot, from: Pos, white: bool, skipKings: bool, attacks: AttackOracle): Pos -> bool {
    t => Keeps(s, from, white, skipKings, attacks, t)
  }

  /** The targets that pass the filter, in their order. */
  function Kept(s: Snapshot, from: Pos, white: bool, skipKings: bool, attacks: AttackOracle, targets: seq<Pos>): seq<Pos> {
    Filter(targets, KeepTest(s, from, white, skipKings, attacks))
  }

  /** The kept targets are exactly the targets that pass the filter. */
  lemma KeptMember(s: Snapshot, from: Pos, white: bool, skipKings: bool, attacks: AttackOracle, targets: seq<Pos>, t: Pos)
    ensures t in Kept(s, from, white, skipKings, attacks, targets) <==> t in targets && Keeps(s, from, white, skipKings, attacks, t)
  {
    FilterMember(targets, KeepTest(s, from, white, skipKings, attacks), t);
  }

  // ---- hasLegalMoves and findAnyLegalMove ----

  /** new Move(from, to, piece) for each target: no captured piece recorded. */
  function Tries(from: Pos, man: Man, targets: seq<Pos>): (plies: seq<Ply>)
    ensures |plies| == |targets|
  {
    seq(|targets|, k requires 0 <= k < |targets| => Ply(from, targets[k], man, None))
  }

  /** The moves of the piece on p that survive the filter, when it has the colour asked for. */
  function SquareSafe(s: Snapshot, white: bool, skipKings: bool, attacks: AttackOracle, p: Pos): seq<Ply> {
    match At(s, p)
    case None => []
    case Some(c) =>
      if c.white == white then Tries(p, Identity(c), Kept(s, p, white, skipKings, attacks, Targets(s, c, p, attacks))) else []
  }

  function SafeLister(s: Snapshot, white: bool, skipKings: bool, attacks: AttackOracle): Pos -> seq<Ply> {
    p => SquareSafe(s, white, skipKings, attacks, p)
  }

  /** Every move of that colour that survives the filter, in the order of the scan. */
  function SafePlies(s: Snapshot, white: bool, skipKings: bool, attacks: AttackOracle): seq<Ply> {
    Gather(s, SafeLister(s, white, skipKings, attacks), 8)
  }

  /** hasLegalMoves(isWhite): some move of that colour leaves its king out of check. */
  predicate HasLegalMoves(s: Snapshot, white: bool, attacks: AttackOracle) {
    SafePlies(s, white, false, attacks) != []
  }

  /** findAnyLegalMove(isWhite): the first move of the scan that captures no king and leaves the own king out of check. */
  function AnyLegalMove(s: Snapshot, white: bool, attacks: AttackOracle): Option<Ply> {
    var plies := SafePlies(s, white, true, attacks);
    if plies == [] then None else Some(plies[0])
  }

  /** A move survives the filter exactly when it is a generated move of that colour that passes it. */
  lemma SafePliesMember(s: Snapshot, white: bool, skipKings: bool, attacks: AttackOracle, m: Ply)
    ensures m in SafePlies(s, white, skipKings, attacks) <==>
              m.from.IsValid() && At(s, m.from).Some? && m.piece == Identity(At(s, m.from).value) && m.piece.white == white &&
              m.to in Targets(s, At(s, m.from).value, m.from, attacks) && m.captured.None? &&
              Keeps(s, m.from, white, skipKings, attacks, m.to)
  {
    var f := SafeLister(s, white, skipKings, attacks);
    GatherMember(s, f, 8, m);
    if m.from.IsValid() && At(s, m.from).Some? && At(s, m.from).value.white == white {
      var c := At(s, m.from).value;
      var kept := Kept(s, m.from, white, skipKings, attacks, Targets(s, c, m.from, attacks));
      KeptMember(s, m.from, white, skipKings, attacks, Targets(s, c, m.from, attacks), m.to);
      if m.piece == Identity(c) && m.to in kept && m.captured.None? {
        var k :| 0 <= k < |kept| && kept[k] == m.to;
        assert Tries(m.from, Identity(c), kept)[k] == m;
      }
      if m in f(m.from) {
        var k :| 0 <= k < |kept| && Tries(m.from, Identity(c), kept)[k] == m;
      }
    }
    if exists p: Pos | p.IsValid() :: m in f(p) {
      var p: Pos :| p.IsValid() && m in f(p);
      var k :| 0 <= k < |f(p)| && f(p)[k] == m;
    }
  }

  /**
   * hasLegalMoves agrees with the engines' move list: there is a legal move
   * exactly when some move getAllPossibleMoves lists leaves the king safe.
   */
  lemma HasLegalMovesSpec(s: Snapshot, white: bool, attacks: AttackOracle)
    ensures HasLegalMoves(s, white, attacks) <==>
              exists m | m in AllPlies(s, white, attacks) :: !WouldCheck(s, m.from, m.to, white, attacks)
  {
    var safe := SafePlies(s, white, false, attacks);
    if safe != [] {
      var m := safe[0];
      SafePliesMember(s, white, false, attacks, m);
      var g := m.(captured := ManAt(s, m.to));
      AllPliesSpec(s, white, attacks, g);
      assert g in AllPlies(s, white, attacks);
    }
    if exists m | m in AllPlies(s, white, attacks) :: !WouldCheck(s, m.from, m.to, white, attacks) {
      var m :| m in AllPlies(s, white, attacks) && !WouldCheck(s, m.from, m.to, white, attacks);
      AllPliesSpec(s, white, attacks, m);
      SafePliesMember(s, white, false, attacks, m.(captured := None));
    }
  }

  /**
   * findAnyLegalMove: nothing exactly when no generated move is both free of
   * a king capture and safe for the own king; otherwise such a move, as a
   * Move without a captured piece.
   */
  lemma AnyLegalMoveSpec(s: Snapshot, white: bool, attacks: AttackOracle)
    ensures AnyLegalMove(s, white, attacks).None? <==>
              forall m | m in AllPlies(s, white, attacks) :: KingAt(s, m.to) || WouldCheck(s, m.from, m.to, white, attacks)
    ensures AnyLegalMove(s, white, attacks).Some? ==>
              var m := AnyLegalMove(s, white, attacks).value;
              m.(captured := ManAt(s, m.to)) in AllPlies(s, white, attacks) && m.captured.None? &&
              !KingAt(s, m.to) && !WouldCheck(s, m.from, m.to, white, attacks)
  {
    var safe := SafePlies(s, white, true, attacks);
    if safe != [] {
      var m := safe[0];
      SafePliesMember(s, white, true, attacks, m);
      AllPliesSpec(s, white, attacks, m.(captured := ManAt(s, m.to)));
    }
    forall m | m in AllPlies(s, white, attacks) && !KingAt(s, m.to) && !WouldCheck(s, m.from, m.to, white, attacks)
      ensures safe != []
    {
      AllPliesSpec(s, white, attacks, m);
      SafePliesMember(s, white, true, attacks, m.(captured := None));
    }
  }

  /** The moves of the piece on `pos`, when it has the colour asked for: the first one that passes the filter. */
  method SquareSafeMove(board: Board, ghost s: Snapshot, pos: Pos, isWhite: bool, skipKings: bool, attacks: AttackOracle)
    returns (move: Moves.Move?)
    requires board.Valid() && board.Snap() == s && pos.IsValid()
    ensures board.Valid() && board.Snap() == s
    ensures move == null <==> SquareSafe(s, isWhite, skipKings, attacks, pos) == []
    ensures move != null ==> fresh(move) && Record(move) == SquareSafe(s, isWhite, skipKings, attacks, pos)[0]
  {
    var piece := board.GetPieceAt(pos);
    if piece == null || piece.isWhite != isWhite {
      move := null;
    } else {
      StandingWalkable(s, piece);
      var possible := PossibleMoves(piece, board, attacks);
      move := FirstKept(board, s, piece, possible, skipKings, attacks);
    }
  }

  /**
   * The loop over the targets of a piece of the board: the first target that
   * passes the filter, as a new Move, or nothing.
   */
  method FirstKept(board: Board, ghost s: Snapshot, piece: Piece, possible: seq<Pos>, skipKings: bool, attacks: AttackOracle)
    returns (move: Moves.Move?)
    requires board.Valid() && board.Snap() == s
    ensures board.Valid() && board.Snap() == s
    ensures var kept := Kept(s, piece.position, piece.isWhite, skipKings, attacks, possible);
      && (move == null <==> kept == [])
      && (move != null ==> fresh(move) && Record(move) == Ply(piece.position, kept[0], Man(piece.kind, piece.isWhite), None))
  {
    ghost var keep := KeepTest(s, piece.position, piece.isWhite, skipKings, attacks);
    move := null;
    for i := 0 to |possible|
      invariant board.Valid() && board.Snap() == s
      invariant move == null && Filter(possible[..i], keep) == []
    {
      FilterSnoc(possible, keep, i);
      move := TryTarget(board, s, piece, possible[i], skipKings, attacks);
      if move != null {
        FilterPrefix(possible, keep, i + 1);
        break;
      }
    }
    if move == null {
      assert possible[..|possible|] == possible;
    }
  }

  /** One target of the loop: skipped when it holds a king and kings are skipped, kept when the own king stays safe. */
  method TryTarget(board: Board, ghost s: Snapshot, piece: Piece, to: Pos, skipKings: bool, attacks: AttackOracle)
    returns (move: Moves.Move?)
    requires board.Valid() && board.Snap() == s
    ensures board.Valid() && board.Snap() == s
    ensures move == null <==> !Keeps(s, piece.position, piece.isWhite, skipKings, attacks, to)
    ensures move != null ==> fresh(move) && Record(move) == Ply(piece.position, to, Man(piece.kind, piece.isWhite), None)
  {
    var target := board.GetPieceAt(to);
    if skipKings && target != null && target.kind == King {
      return null;
    }
    var checked := WouldCheckOn(board, s, piece.position, to, piece.isWhite, attacks);
    if checked {
      move := null;
    } else {
      move := new Moves.Move(piece.position, to, piece);
    }
  }

  /** The loop over the squares of row `row`. */
  method RowSafeMove(board: Board, ghost s: Snapshot, row: int, isWhite: bool, skipKings: bool, attacks: AttackOracle)
    returns (move: Moves.Move?)
    requires board.Valid() && board.Snap() == s && 0 <= row < 8
    ensures board.Valid() && board.Snap() == s
    ensures var f := SafeLister(s, isWhite, skipKings, attacks);
      && (move == null <==> RowGather(s, f, row, 8) == [])
      && (move != null ==> fresh(move) && Record(move) == RowGather(s, f, row, 8)[0])
  {
    ghost var f := SafeLister(s, isWhite, skipKings, attacks);
    move := null;
    for col := 0 to 8
      invariant board.Valid() && board.Snap() == s
      invariant move == null && RowGather(s, f, row, col) == []
    {
      move := SquareSafeMove(board, s, Pos(row, col), isWhite, skipKings, attacks);
      if move != null {
        RowGatherPrefix(s, f, row, col + 1, 8);
        break;
      }
    }
  }

  /**
   * The scan of hasLegalMoves and findAnyLegalMove: the first move of the
   * colour that passes the filter, as a new Move, or nothing.
   */
  method FirstSafeMove(board: Board, ghost s: Snapshot, isWhite: bool, skipKings: bool, attacks: AttackOracle)
    returns (move: Moves.Move?)
    requires board.Valid() && board.Snap() == s
    ensures board.Valid() && board.Snap() == s
    ensures var plies := SafePlies(s, isWhite, skipKings, attacks);
      && (move == null <==> plies == [])
      && (move != null ==> fresh(move) && Record(move) == plies[0])
  {
    ghost var f := SafeLister(s, isWhite, skipKings, attacks);
    for row := 0 to 8
      invariant board.Valid() && board.Snap() == s
      invariant Gather(s, f, row) == []
    {
      move := RowSafeMove(board, s, row, isWhite, skipKings, attacks);
      if move != null {
        GatherPrefix(s, f, row + 1, 8);
        return;
      }
    }
    return null;
  }
}
