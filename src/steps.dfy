/**
 * The one-square-per-offset move loop shared by Knight.getPossibleMoves and
 * the non-castling part of King.getPossibleMoves: each offset from the own
 * square gives a target when it is on the board and not held by an ally.
 */
module Steps {
  import opened Wrappers
  import opened Positions
  import opened Pieces
  import opened Boards

  type Offset = (int, int)

  function Shift(from: Pos, o: Offset): Pos {
    Pos(from.row + o.0, from.col + o.1)
  }

  /** What one offset contributes. */
  function StepAt(s: Snapshot, white: bool, from: Pos, o: Offset): seq<Pos> {
    var target := Shift(from, o);
    if IsValidPosition(Some(target)) && !HasAllyAt(s, white, target) then [target] else []
  }

  /** The targets of a list of offsets, in list order. */
  function OffsetTargets(s: Snapshot, white: bool, from: Pos, offsets: seq<Offset>): seq<Pos> {
    if offsets == [] then []
    else OffsetTargets(s, white, from, offsets[..|offsets| - 1]) + StepAt(s, white, from, offsets[|offsets| - 1])
  }

  /** A target is an offset of the own square that is on the board and not ally-held; there is at most one per offset. */
  lemma {:induction false} OffsetTargetsSpec(s: Snapshot, white: bool, from: Pos, offsets: seq<Offset>)
    ensures |OffsetTargets(s, white, from, offsets)| <= |offsets|
    ensures forall t :: t in OffsetTargets(s, white, from, offsets) <==>
              t.IsValid() && !HasAllyAt(s, white, t) && exists i | 0 <= i < |offsets| :: t == Shift(from, offsets[i])
    decreases |offsets|
  {
    if offsets != [] {
      var n := |offsets|;
      var init := offsets[..n - 1];
      OffsetTargetsSpec(s, white, from, init);
      assert OffsetTargets(s, white, from, offsets) == OffsetTargets(s, white, from, init) + StepAt(s, white, from, offsets[n - 1]);
      forall t ensures t in OffsetTargets(s, white, from, offsets) <==>
                 t.IsValid() && !HasAllyAt(s, white, t) && exists i | 0 <= i < n :: t == Shift(from, offsets[i])
      {
        if exists i | 0 <= i < n :: t == Shift(from, offsets[i]) {
          var i :| 0 <= i < n && t == Shift(from, offsets[i]);
          if i < n - 1 {
            assert init[i] == offsets[i];
          }
        }
        if t in OffsetTargets(s, white, from, init) {
          var i :| 0 <= i < n - 1 && t == Shift(from, init[i]);
          assert offsets[i] == init[i];
        }
      }
    }
  }

  /** The shared loop: `for (int[] d : offsets) { target = position + d; if valid && !ally, add }`. */
  method CollectSteps(piece: Piece, board: Board, offsets: seq<Offset>) returns (moves: seq<Pos>)
    requires board.Valid()
    ensures moves == OffsetTargets(board.Snap(), piece.isWhite, piece.position, offsets)
  {
    moves := [];
    ghost var s := board.Snap();
    for i := 0 to |offsets|
      invariant moves == OffsetTargets(s, piece.isWhite, piece.position, offsets[..i])
    {
      var target := Pos(piece.position.row + offsets[i].0, piece.position.col + offsets[i].1);
      var ok := IsValidPosition(Some(target));
      if ok {
        var ally := HasAllyPieceAt(piece, board, target);
        ok := !ally;
      }
      if ok {
        moves := moves + [target];
      }
      assert offsets[..i + 1][..i] == offsets[..i];
      assert moves == OffsetTargets(s, piece.isWhite, piece.position, offsets[..i+1]);
    }
    assert offsets[..|offsets|] == offsets;
  }
}
