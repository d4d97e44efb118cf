/**
 * The ray walk and the path test that Bishop.java, Rook.java and Queen.java
 * each spell out with their own direction list: getPossibleMoves walks
 * every direction while on the board, adding empty squares, adding and
 * stopping at an enemy, stopping before an ally; isPathClear steps from
 * `from` towards `to` by Integer.compare of the coordinates and demands
 * every square strictly between to be empty and `to` empty or enemy-held.
 *
 * Both are stated by step count: `Along(from, d, k)` is the square k steps
 * from `from` in direction d.
 */
module Sliding {
  import opened Wrappers
  import opened Positions
  import opened Pieces
  import opened Boards

  type Dir = (int, int)

  /** One of the eight king-step directions. */
  predicate IsStep(d: Dir) {
    -1 <= d.0 <= 1 && -1 <= d.1 <= 1 && d != (0, 0)
  }

  predicate AllSteps(dirs: seq<Dir>) {
    forall i | 0 <= i < |dirs| :: IsStep(dirs[i])
  }

  function Abs(x: int): nat {
    if x < 0 then -x else x
  }

  function Max(a: int, b: int): int {
    if a < b then b else a
  }

  function Min(a: int, b: int): int {
    if a < b then a else b
  }

  /** Integer.compare. */
  function Compare(x: int, y: int): int {
    if x < y then -1 else if x == y then 0 else 1
  }

  predicate OnBoard(row: int, col: int) {
    0 <= row < 8 && 0 <= col < 8
  }

  /** x moved k units in the sign of dx. */
  function Advance(x: int, dx: int, k: int): int {
    if dx > 0 then x + k else if dx < 0 then x - k else x
  }

  /** The square k steps from `from` in direction d. */
  function Along(from: Pos, d: Dir, k: int): Pos {
    Pos(Advance(from.row, d.0, k), Advance(from.col, d.1, k))
  }

  /** A measure that every step of a walk in direction d strictly lowers while on the board. */
  function Room(p: Pos, d: Dir): int {
    (if d.0 == 1 then 8 - p.row else if d.0 == -1 then p.row + 1 else 0) +
    (if d.1 == 1 then 8 - p.col else if d.1 == -1 then p.col + 1 else 0)
  }

  lemma AlongNext(from: Pos, d: Dir, k: int)
    requires IsStep(d)
    ensures Along(from, d, k + 1) == Pos(Along(from, d, k).row + d.0, Along(from, d, k).col + d.1)
    ensures Along(from, d, k).IsValid() ==> 0 <= Room(Along(from, d, k + 1), d) < Room(Along(from, d, k), d)
  {
  }

  // ---- getPossibleMoves ----

  /** The squares one while-loop adds from its k-th step on (nothing for a d that is no step). */
  function RayFrom(s: Snapshot, white: bool, from: Pos, d: Dir, k: int): seq<Pos>
    decreases Room(Along(from, d, k), d)
  {
    var p := Along(from, d, k);
    if !IsStep(d) || !p.IsValid() then []
    else
      AlongNext(from, d, k);
      if IsEmpty(s, p) then [p] + RayFrom(s, white, from, d, k + 1)
      else if HasEnemyAt(s, white, p) then [p]
      else []
  }

  /** The squares the while loop for direction d adds, from the square next to `from`. */
  function Ray(s: Snapshot, white: bool, from: Pos, d: Dir): seq<Pos> {
    RayFrom(s, white, from, d, 1)
  }

  /** All rays from `from`, one per direction, in list order. */
  function SlideMoves(s: Snapshot, white: bool, from: Pos, dirs: seq<Dir>): seq<Pos> {
    if dirs == [] then []
    else SlideMoves(s, white, from, dirs[..|dirs| - 1]) + Ray(s, white, from, dirs[|dirs| - 1])
  }

  // ---- isPathClear ----

  /** Chebyshev distance: the number of king steps along a straight line. */
  function Dist(from: Pos, to: Pos): nat {
    Max(Abs(to.row - from.row), Abs(to.col - from.col))
  }

  /** Same row, same column or same diagonal. */
  predicate Aligned(from: Pos, to: Pos) {
    from.row == to.row || from.col == to.col || Abs(to.row - from.row) == Abs(to.col - from.col)
  }

  /** The direction isPathClear steps in: Integer.compare of each coordinate. */
  function StepToward(from: Pos, to: Pos): Dir {
    (Compare(to.row, from.row), Compare(to.col, from.col))
  }

  /** isPathClear: every square strictly between is empty and `to` is empty or enemy-held. */
  predicate PathClear(s: Snapshot, white: bool, from: Pos, to: Pos) {
    (forall k | 1 <= k < Dist(from, to) :: IsEmpty(s, Along(from, StepToward(from, to), k))) &&
    (IsEmpty(s, to) || HasEnemyAt(s, white, to))
  }

  /** Walking towards an aligned `to` meets it after exactly Dist steps and not before. */
  lemma AlongHits(from: Pos, to: Pos, i: int)
    requires Aligned(from, to) && 1 <= i <= Dist(from, to)
    ensures Along(from, StepToward(from, to), i) == to <==> i == Dist(from, to)
  {
  }

  /** The k-th square in a step direction lies that way, at distance k, aligned. */
  lemma AlongFacts(from: Pos, d: Dir, k: int)
    requires IsStep(d) && 1 <= k
    ensures Along(from, d, k) != from && Aligned(from, Along(from, d, k))
    ensures StepToward(from, Along(from, d, k)) == d && Dist(from, Along(from, d, k)) == k
  {
  }

  /** Once a walk from a square on the board has left the board, it stays off. */
  lemma AlongOff(from: Pos, d: Dir, j: int, m: int)
    requires IsStep(d) && from.IsValid() && 0 <= j <= m && !Along(from, d, j).IsValid()
    ensures !Along(from, d, m).IsValid()
  {
  }

  // ---- the loops ----

  /** The while loop as it runs: `acc` holds the squares added so far. */
  function RayAcc(s: Snapshot, white: bool, from: Pos, d: Dir, k: int, acc: seq<Pos>): seq<Pos>
    decreases Room(Along(from, d, k), d)
  {
    var p := Along(from, d, k);
    if !IsStep(d) || !p.IsValid() then acc
    else
      AlongNext(from, d, k);
      if IsEmpty(s, p) then RayAcc(s, white, from, d, k + 1, acc + [p])
      else if HasEnemyAt(s, white, p) then acc + [p]
      else acc
  }

  lemma {:induction false} RayAccRay(s: Snapshot, white: bool, from: Pos, d: Dir, k: int, acc: seq<Pos>)
    ensures RayAcc(s, white, from, d, k, acc) == acc + RayFrom(s, white, from, d, k)
    decreases Room(Along(from, d, k), d)
  {
    var p := Along(from, d, k);
    if !IsStep(d) || !p.IsValid() {
      assert acc + [] == acc;
    } else {
      AlongNext(from, d, k);
      if IsEmpty(s, p) {
        RayAccRay(s, white, from, d, k + 1, acc + [p]);
        assert (acc + [p]) + RayFrom(s, white, from, d, k + 1) == acc + ([p] + RayFrom(s, white, from, d, k + 1));
      } else if !HasEnemyAt(s, white, p) {
        assert acc + [] == acc;
      }
    }
  }

  /** One direction's while loop. */
  method WalkRay(piece: Piece, board: Board, d: Dir) returns (moves: seq<Pos>)
    requires board.Valid() && IsStep(d)
    ensures moves == Ray(board.Snap(), piece.isWhite, piece.position, d)
  {
    ghost var s := board.Snap();
    ghost var from := piece.position;
    var row := piece.position.row + d.0;
    var col := piece.position.col + d.1;
    ghost var k := 1;
    RayAccRay(s, piece.isWhite, from, d, 1, []);
    assert [] + Ray(s, piece.isWhite, from, d) == Ray(s, piece.isWhite, from, d);
    ghost var total := RayAcc(s, piece.isWhite, from, d, 1, []);
    moves := [];
    while row >= 0 && row < 8 && col >= 0 && col < 8
      invariant Pos(row, col) == Along(from, d, k)
      invariant RayAcc(s, piece.isWhite, from, d, k, moves) == total
      decreases Room(Pos(row, col), d)
    {
      AlongNext(from, d, k);
      var target := Pos(row, col);
      if board.IsEmpty(target) {
        moves := moves + [target];
      } else {
        if HasEnemyPieceAt(piece, board, target) {
          moves := moves + [target];
        }
        return;
      }
      row := row + d.0;
      col := col + d.1;
      k := k + 1;
    }
  }

  /** `for (int[] direction : directions) { ... while ... }`. */
  method WalkRays(piece: Piece, board: Board, dirs: seq<Dir>) returns (moves: seq<Pos>)
    requires board.Valid() && AllSteps(dirs)
    ensures moves == SlideMoves(board.Snap(), piece.isWhite, piece.position, dirs)
  {
    moves := [];
    ghost var s := board.Snap();
    for i := 0 to |dirs|
      invariant moves == SlideMoves(s, piece.isWhite, piece.position, dirs[..i])
    {
      var ray := WalkRay(piece, board, dirs[i]);
      assert dirs[..i + 1][..i] == dirs[..i];
      assert SlideMoves(s, piece.isWhite, piece.position, dirs[..i + 1])
          == SlideMoves(s, piece.isWhite, piece.position, dirs[..i]) + ray;
      moves := moves + ray;
    }
    assert dirs[..|dirs|] == dirs;
  }

  /** isPathClear. */
  method IsPathClear(piece: Piece, board: Board, from: Pos, to: Pos) returns (clear: bool)
    requires board.Valid() && Aligned(from, to)
    ensures clear == PathClear(board.Snap(), piece.isWhite, from, to)
  {
    var rowStep := Compare(to.row, from.row);
    var colStep := Compare(to.col, from.col);
    var currentRow := from.row + rowStep;
    var currentCol := from.col + colStep;
    ghost var s := board.Snap();
    ghost var d := (rowStep, colStep);
    ghost var n: int := Dist(from, to);
    ghost var i: int := 1;
    while currentRow != to.row || currentCol != to.col
      invariant Pos(currentRow, currentCol) == Along(from, d, i)
      invariant 1 <= i && (n > 0 ==> i <= n)
      invariant forall k | 1 <= k < i :: IsEmpty(s, Along(from, d, k))
      decreases n - i
    {
      AlongHits(from, to, i);
      var current := Pos(currentRow, currentCol);
      if !board.IsEmpty(current) {
        return false;
      }
      currentRow := currentRow + rowStep;
      currentCol := currentCol + colStep;
      i := i + 1;
    }
    clear := board.IsEmpty(to) || HasEnemyPieceAt(piece, board, to);
  }

  // ---- what the walk yields ----

  /**
   * From its j-th step on, the ray in direction d holds t exactly when t is
   * on the board, lies that way at distance at least j, every square from
   * step j up to t is empty and t itself is empty or enemy-held.
   */
  lemma {:induction false} RayFromMember(s: Snapshot, white: bool, from: Pos, d: Dir, j: int, t: Pos)
    requires IsStep(d) && from.IsValid() && 1 <= j
    ensures t in RayFrom(s, white, from, d, j) <==>
              t.IsValid() && t != from && Aligned(from, t) && StepToward(from, t) == d && j <= Dist(from, t) &&
              (forall k | j <= k < Dist(from, t) :: IsEmpty(s, Along(from, d, k))) &&
              (IsEmpty(s, t) || HasEnemyAt(s, white, t))
    decreases Room(Along(from, d, j), d)
  {
    var p := Along(from, d, j);
    AlongFacts(from, d, j);
    if t.IsValid() && t != from && Aligned(from, t) && StepToward(from, t) == d && j <= Dist(from, t) {
      AlongHits(from, t, j);
      AlongHits(from, t, Dist(from, t));
      if !p.IsValid() {
        AlongOff(from, d, j, Dist(from, t));
      }
    }
    if p.IsValid() {
      AlongNext(from, d, j);
      if IsEmpty(s, p) {
        RayFromMember(s, white, from, d, j + 1, t);
      }
    }
  }

  /** One ray: the aligned squares in that direction, other than `from`, that pass isPathClear. */
  lemma RayTarget(s: Snapshot, white: bool, from: Pos, d: Dir, t: Pos)
    requires IsStep(d) && from.IsValid()
    ensures t in Ray(s, white, from, d) <==>
              t.IsValid() && t != from && Aligned(from, t) && StepToward(from, t) == d && PathClear(s, white, from, t)
  {
    RayFromMember(s, white, from, d, 1, t);
    if t != from && Aligned(from, t) {
      AlongHits(from, t, Dist(from, t));
    }
  }

  /**
   * The targets of the walk over `dirs` are exactly the other squares on
   * the board that are aligned with `from` in one of the directions and pass
   * isPathClear.
   */
  lemma {:induction false} SlideTargets(s: Snapshot, white: bool, from: Pos, dirs: seq<Dir>, t: Pos)
    requires AllSteps(dirs) && from.IsValid()
    ensures t in SlideMoves(s, white, from, dirs) <==>
              t.IsValid() && t != from && Aligned(from, t) && StepToward(from, t) in dirs && PathClear(s, white, from, t)
    decreases |dirs|
  {
    if dirs != [] {
      var n := |dirs|;
      var init, d := dirs[..n - 1], dirs[n - 1];
      assert dirs == init + [d];
      assert IsStep(d) && AllSteps(init);
      assert t in SlideMoves(s, white, from, dirs) <==>
             t in SlideMoves(s, white, from, init) || t in Ray(s, white, from, d);
      assert StepToward(from, t) in dirs <==> StepToward(from, t) in init || StepToward(from, t) == d;
      SlideTargets(s, white, from, init, t);
      RayTarget(s, white, from, d, t);
    }
  }

  /** The own square never passes isPathClear. */
  lemma PathClearRejectsOwnSquare(s: Snapshot, white: bool, from: Pos)
    requires HasAllyAt(s, white, from)
    ensures !PathClear(s, white, from, from)
  {
  }

  /**
   * Each ray ends at its first occupied square: nothing of the ray lies
   * beyond an occupied square of it.
   */
  lemma RayStops(s: Snapshot, white: bool, from: Pos, d: Dir, t: Pos, u: Pos)
    requires IsStep(d) && from.IsValid()
    requires t in Ray(s, white, from, d) && Pieces.HasPieceAt(s, t) && u in Ray(s, white, from, d)
    ensures Dist(from, u) <= Dist(from, t)
  {
    RayTarget(s, white, from, d, t);
    RayTarget(s, white, from, d, u);
    AlongHits(from, t, Dist(from, t));
  }

  // ---- how long the walk is ----

  /** Room to the edge along one coordinate, for a walk from x in the sign of step. */
  function Span(x: int, step: int): int {
    if step > 0 then 7 - x else if step < 0 then x else 8
  }

  lemma {:induction false} RayFromLength(s: Snapshot, white: bool, from: Pos, d: Dir, j: int)
    requires IsStep(d) && from.IsValid() && 1 <= j <= Min(Span(from.row, d.0), Span(from.col, d.1)) + 1
    ensures |RayFrom(s, white, from, d, j)| <= Min(Span(from.row, d.0), Span(from.col, d.1)) + 1 - j
    decreases Room(Along(from, d, j), d)
  {
    var p := Along(from, d, j);
    if p.IsValid() {
      AlongNext(from, d, j);
      if IsEmpty(s, p) {
        RayFromLength(s, white, from, d, j + 1);
      }
    }
  }

  /** A ray from a square on the board holds at most as many squares as lie between it and the edge. */
  lemma RayBound(s: Snapshot, white: bool, from: Pos, d: Dir)
    requires IsStep(d) && from.IsValid()
    ensures |Ray(s, white, from, d)| <= Min(Span(from.row, d.0), Span(from.col, d.1))
  {
    RayFromLength(s, white, from, d, 1);
  }

  lemma SeqAssoc<T>(x: seq<T>, y: seq<T>, z: seq<T>)
    ensures (x + y) + z == x + (y + z)
  {
  }

  /** One more direction at the end of the list adds its ray at the end. */
  lemma SlideSnoc(s: Snapshot, white: bool, from: Pos, dirs: seq<Dir>, d: Dir)
    ensures SlideMoves(s, white, from, dirs + [d]) == SlideMoves(s, white, from, dirs) + Ray(s, white, from, d)
  {
    assert (dirs + [d])[..|dirs|] == dirs;
  }

  /** Walking a concatenation of direction lists is walking each in turn. */
  lemma {:induction false} SlideConcat(s: Snapshot, white: bool, from: Pos, a: seq<Dir>, b: seq<Dir>)
    ensures SlideMoves(s, white, from, a + b) == SlideMoves(s, white, from, a) + SlideMoves(s, white, from, b)
    decreases |b|
  {
    if b == [] {
      assert a + b == a;
    } else {
      var n := |b|;
      var init, d := b[..n - 1], b[n - 1];
      var ray := Ray(s, white, from, d);
      assert b == init + [d];
      assert a + b == (a + init) + [d];
      SlideConcat(s, white, from, a, init);
      SlideSnoc(s, white, from, a + init, d);
      SlideSnoc(s, white, from, init, d);
      SeqAssoc(SlideMoves(s, white, from, a), SlideMoves(s, white, from, init), ray);
    }
  }

  /** A four-direction walk is its four rays in order. */
  lemma SlideFour(s: Snapshot, white: bool, from: Pos, a: Dir, b: Dir, c: Dir, d: Dir)
    ensures SlideMoves(s, white, from, [a, b, c, d]) ==
            Ray(s, white, from, a) + Ray(s, white, from, b) + Ray(s, white, from, c) + Ray(s, white, from, d)
  {
    assert [] + [a] == [a] && [a] + [b] == [a, b] && [a, b] + [c] == [a, b, c] && [a, b, c] + [d] == [a, b, c, d];
    SlideSnoc(s, white, from, [], a);
    SlideSnoc(s, white, from, [a], b);
    SlideSnoc(s, white, from, [a, b], c);
    SlideSnoc(s, white, from, [a, b, c], d);
  }
}
