/**
 * The two game-tree searches of the engines, stated over an abstract game
 * so that the alpha-beta and quiescence theorems can be proved apart from
 * the chess rules:
 *   - IASuprema.minimax: minimax with fail-soft alpha-beta pruning;
 *   - IANivel8.negamax and IANivel8.quiescence: negamax with alpha-beta
 *     pruning and a captures-only quiescence search.
 * Scores are Java ints, and every negation of a score or a window bound is
 * Java's 32-bit negation, so `-Integer.MIN_VALUE` is `Integer.MIN_VALUE`.
 */
module Search {

  // ---- Java ints ----

  const MIN: int := -0x8000_0000
  const MAX: int := 0x7fff_ffff

  /** A Java int. */
  type I32 = x: int | MIN <= x <= MAX

  /** A Java int whose negation does not wrap. */
  type Score = x: int | -MAX <= x <= MAX

  /** Math.max. */
  function Max(x: int, y: int): int {
    if x >= y then x else y
  }

  /** Math.min. */
  function Min(x: int, y: int): int {
    if x <= y then x else y
  }

  /** Java's unary minus on int. */
  function Neg32(x: I32): I32 {
    if x == MIN then MIN else -x
  }

  /** `cor * x` with cor = 1 for white and -1 for black. */
  function Signed(white: bool, x: I32): I32 {
    if white then x else Neg32(x)
  }

  /** x brought into the closed window [lo, hi]. */
  function Clamp(x: int, lo: int, hi: int): int {
    Max(lo, Min(x, hi))
  }

  lemma NegWraps()
    ensures Neg32(MIN) == MIN && Neg32(MAX) == MIN + 1
  {
  }

  /**
   * The fail-soft alpha-beta guarantee: a result r for true value v under
   * the window (alfa, beta) is exact inside the window, and on the right
   * side of the bound it falls below or above.
   */
  predicate Fits(r: int, v: int, alfa: int, beta: int) {
    && (v <= alfa ==> r <= alfa)
    && (alfa < v < beta ==> r == v)
    && (beta <= v ==> beta <= r)
  }

  /** A result that fits under the negated window fits, negated, under the window. */
  lemma FitsNegate(x: int, v: int, alfa: int, beta: int)
    requires Fits(x, v, -beta, -alfa)
    ensures Fits(-x, -v, alfa, beta)
  {
  }

  /**
   * One step of a maximizing loop under the window (a0, beta): e is the
   * searched score of the next child and v its true value; pre and m are the
   * running maxima of the searched scores and of the true values.
   */
  lemma MaxStep(alfa: int, beta: int, pre: int, a0: int, m: int, e: int, v: int)
    requires alfa == Max(a0, pre) && alfa < beta
    requires m <= a0 ==> pre <= a0
    requires m > a0 ==> pre == m
    requires Fits(e, v, alfa, beta)
    ensures beta <= Max(alfa, e) ==> beta <= v && beta <= Max(pre, e)
    ensures Max(alfa, e) < beta ==>
      && Max(alfa, e) == Max(a0, Max(pre, e))
      && (Max(m, v) <= a0 ==> Max(pre, e) <= a0)
      && (Max(m, v) > a0 ==> Max(pre, e) == Max(m, v))
  {
  }

  // ---- minimax (IASuprema) ----

  /**
   * A game: the positions reached by the moves of the side to move, and
   * the score of a position from the point of view of the side given.
   */
  datatype Game<!P> = Game(children: (P, bool) -> seq<P>, evaluate: (P, bool) -> I32)

  /**
   * minimax(board, depth, isWhite, alfa, beta): white maximizes, black
   * minimizes; at depth 0 or without moves the position is scored for the
   * side to move.
   */
  function Minimax<P>(g: Game<P>, p: P, depth: nat, white: bool, alfa: I32, beta: I32): I32
    decreases depth, 1, 0
  {
    if depth == 0 then g.evaluate(p, white)
    else
      var cs := g.children(p, white);
      if |cs| == 0 then g.evaluate(p, white)
      else if white then MaxLoop(g, cs, 0, depth - 1, alfa, beta, MIN)
      else MinLoop(g, cs, 0, depth - 1, alfa, beta, MAX)
  }

  /** The white loop of minimax from the i-th child on. */
  function MaxLoop<P>(g: Game<P>, cs: seq<P>, i: nat, d: nat, alfa: I32, beta: I32, maxEval: I32): I32
    requires i <= |cs|
    decreases d + 1, 0, |cs| - i
  {
    if i == |cs| then maxEval
    else
      var eval := Minimax(g, cs[i], d, false, alfa, beta);
      var m := Max(maxEval, eval);
      var a := Max(alfa, eval);
      if beta <= a then m else MaxLoop(g, cs, i + 1, d, a, beta, m)
  }

  /** The black loop of minimax from the i-th child on. */
  function MinLoop<P>(g: Game<P>, cs: seq<P>, i: nat, d: nat, alfa: I32, beta: I32, minEval: I32): I32
    requires i <= |cs|
    decreases d + 1, 0, |cs| - i
  {
    if i == |cs| then minEval
    else
      var eval := Minimax(g, cs[i], d, true, alfa, beta);
      var m := Min(minEval, eval);
      var b := Min(beta, eval);
      if b <= alfa then m else MinLoop(g, cs, i + 1, d, alfa, b, m)
  }

  /** The unpruned minimax value of a position. */
  function Value<P>(g: Game<P>, p: P, depth: nat, white: bool): I32
    decreases depth, 1, 0
  {
    if depth == 0 then g.evaluate(p, white)
    else
      var cs := g.children(p, white);
      if |cs| == 0 then g.evaluate(p, white)
      else if white then MaxValue(g, cs, 0, depth - 1, MIN)
      else MinValue(g, cs, 0, depth - 1, MAX)
  }

  /** The largest of acc and the values of the children from the i-th on. */
  function MaxValue<P>(g: Game<P>, cs: seq<P>, i: nat, d: nat, acc: I32): I32
    requires i <= |cs|
    decreases d + 1, 0, |cs| - i
  {
    if i == |cs| then acc else MaxValue(g, cs, i + 1, d, Max(acc, Value(g, cs[i], d, false)))
  }

  /** The smallest of acc and the values of the children from the i-th on. */
  function MinValue<P>(g: Game<P>, cs: seq<P>, i: nat, d: nat, acc: I32): I32
    requires i <= |cs|
    decreases d + 1, 0, |cs| - i
  {
    if i == |cs| then acc else MinValue(g, cs, i + 1, d, Min(acc, Value(g, cs[i], d, true)))
  }

  lemma {:induction false} MaxValueAtLeast<P>(g: Game<P>, cs: seq<P>, i: nat, d: nat, acc: I32)
    requires i <= |cs|
    ensures MaxValue(g, cs, i, d, acc) >= acc
    decreases |cs| - i
  {
    if i < |cs| {
      MaxValueAtLeast(g, cs, i + 1, d, Max(acc, Value(g, cs[i], d, false)));
    }
  }

  lemma {:induction false} MinValueAtMost<P>(g: Game<P>, cs: seq<P>, i: nat, d: nat, acc: I32)
    requires i <= |cs|
    ensures MinValue(g, cs, i, d, acc) <= acc
    decreases |cs| - i
  {
    if i < |cs| {
      MinValueAtMost(g, cs, i + 1, d, Min(acc, Value(g, cs[i], d, true)));
    }
  }

  /** The value of a maximizing node is the largest child value, and at least every child value. */
  lemma {:induction false} MaxValueBounds<P>(g: Game<P>, cs: seq<P>, i: nat, d: nat, acc: I32, k: nat)
    requires i <= k < |cs|
    ensures Value(g, cs[k], d, false) <= MaxValue(g, cs, i, d, acc)
    decreases |cs| - i
  {
    var next := Max(acc, Value(g, cs[i], d, false));
    if k == i {
      MaxValueAtLeast(g, cs, i + 1, d, next);
    } else {
      MaxValueBounds(g, cs, i + 1, d, next, k);
    }
  }

  /**
   * The alpha-beta theorem for IASuprema.minimax: for any window with
   * alfa < beta the pruned search fits the unpruned value.
   */
  lemma {:induction false} MinimaxFits<P>(g: Game<P>, p: P, depth: nat, white: bool, alfa: I32, beta: I32)
    requires alfa < beta
    ensures Fits(Minimax(g, p, depth, white, alfa, beta), Value(g, p, depth, white), alfa, beta)
    decreases depth, 1, 0
  {
    if depth > 0 {
      var cs := g.children(p, white);
      if |cs| > 0 {
        if white {
          MaxLoopFits(g, cs, 0, depth - 1, alfa, beta, MIN, alfa, MIN);
        } else {
          MinLoopFits(g, cs, 0, depth - 1, alfa, beta, MAX, beta, MAX);
        }
      }
    }
  }

  /**
   * The loop invariant of the white loop under the window (a0, beta):
   * alfa is a0 raised to maxEval, and maxEval tracks the running maximum m
   * of the true child values once that maximum exceeds a0.
   */
  lemma {:induction false} MaxLoopFits<P>(g: Game<P>, cs: seq<P>, i: nat, d: nat, alfa: I32, beta: I32,
                                          maxEval: I32, a0: I32, m: I32)
    requires i <= |cs|
    requires alfa == Max(a0, maxEval) && alfa < beta
    requires m <= a0 ==> maxEval <= a0
    requires m > a0 ==> maxEval == m
    ensures Fits(MaxLoop(g, cs, i, d, alfa, beta, maxEval), MaxValue(g, cs, i, d, m), a0, beta)
    decreases d + 1, 0, |cs| - i
  {
    if i < |cs| {
      var eval := Minimax(g, cs[i], d, false, alfa, beta);
      var v := Value(g, cs[i], d, false);
      MinimaxFits(g, cs[i], d, false, alfa, beta);
      var a := Max(alfa, eval);
      if beta <= a {
        MaxValueAtLeast(g, cs, i + 1, d, Max(m, v));
      } else {
        MaxLoopFits(g, cs, i + 1, d, a, beta, Max(maxEval, eval), a0, Max(m, v));
      }
    }
  }

  /** The mirror image of MaxLoopFits for the black loop under the window (alfa, b0). */
  lemma {:induction false} MinLoopFits<P>(g: Game<P>, cs: seq<P>, i: nat, d: nat, alfa: I32, beta: I32,
                                          minEval: I32, b0: I32, m: I32)
    requires i <= |cs|
    requires beta == Min(b0, minEval) && alfa < beta
    requires m >= b0 ==> minEval >= b0
    requires m < b0 ==> minEval == m
    ensures Fits(MinLoop(g, cs, i, d, alfa, beta, minEval), MinValue(g, cs, i, d, m), alfa, b0)
    decreases d + 1, 0, |cs| - i
  {
    if i < |cs| {
      var eval := Minimax(g, cs[i], d, true, alfa, beta);
      var v := Value(g, cs[i], d, true);
      MinimaxFits(g, cs[i], d, true, alfa, beta);
      var b := Min(beta, eval);
      if b <= alfa {
        MinValueAtMost(g, cs, i + 1, d, Min(m, v));
      } else {
        MinLoopFits(g, cs, i + 1, d, alfa, b, Min(minEval, eval), b0, Min(m, v));
      }
    }
  }

  /** Under the window (MIN_VALUE, MAX_VALUE) that chooseBestMove passes, minimax is the unpruned value. */
  lemma MinimaxFullWindow<P>(g: Game<P>, p: P, depth: nat, white: bool)
    ensures Minimax(g, p, depth, white, MIN, MAX) == Value(g, p, depth, white)
  {
    MinimaxFits(g, p, depth, white, MIN, MAX);
  }

  /** When every evaluation lies in [lo, hi], so does the minimax value. */
  lemma {:induction false} ValueWithin<P>(g: Game<P>, p: P, depth: nat, white: bool, lo: int, hi: int)
    requires lo <= hi && forall q, w :: lo <= g.evaluate(q, w) <= hi
    ensures lo <= Value(g, p, depth, white) <= hi
    decreases depth, 1, 0
  {
    if depth > 0 {
      var cs := g.children(p, white);
      if |cs| > 0 {
        if white {
          MaxValueWithin(g, cs, 0, depth - 1, MIN, lo, hi);
        } else {
          MinValueWithin(g, cs, 0, depth - 1, MAX, lo, hi);
        }
      }
    }
  }

  lemma {:induction false} MaxValueWithin<P>(g: Game<P>, cs: seq<P>, i: nat, d: nat, acc: I32, lo: int, hi: int)
    requires i <= |cs| && lo <= hi && forall q, w :: lo <= g.evaluate(q, w) <= hi
    requires lo <= acc <= hi || (acc == MIN && i < |cs|)
    ensures lo <= MaxValue(g, cs, i, d, acc) <= hi
    decreases d + 1, 0, |cs| - i
  {
    if i < |cs| {
      ValueWithin(g, cs[i], d, false, lo, hi);
      MaxValueWithin(g, cs, i + 1, d, Max(acc, Value(g, cs[i], d, false)), lo, hi);
    }
  }

  lemma {:induction false} MinValueWithin<P>(g: Game<P>, cs: seq<P>, i: nat, d: nat, acc: I32, lo: int, hi: int)
    requires i <= |cs| && lo <= hi && forall q, w :: lo <= g.evaluate(q, w) <= hi
    requires lo <= acc <= hi || (acc == MAX && i < |cs|)
    ensures lo <= MinValue(g, cs, i, d, acc) <= hi
    decreases d + 1, 0, |cs| - i
  {
    if i < |cs| {
      ValueWithin(g, cs[i], d, true, lo, hi);
      MinValueWithin(g, cs, i + 1, d, Min(acc, Value(g, cs[i], d, true)), lo, hi);
    }
  }

  // ---- negamax and quiescence (IANivel8) ----

  /**
   * A game for negamax: all moves, the capturing moves, the score of a
   * position for the side given (never MIN_VALUE, as the chess evaluation
   * is far from it), and a size that every capture decreases.
   */
  datatype Tree<!P> = Tree(moves: (P, bool) -> seq<P>, captures: (P, bool) -> seq<P>,
                           evaluate: (P, bool) -> Score, size: P -> nat)

  /** Every capture makes the position smaller, so quiescence terminates. */
  ghost predicate Shrinks<P(!new)>(t: Tree<P>) {
    forall p: P, white: bool, c: P | c in t.captures(p, white) :: t.size(c) < t.size(p)
  }

  /** The stand-pat score: `cor * avaliarTabuleiro(board, cor == 1)`. */
  function Stand<P(!new)>(t: Tree<P>, p: P, white: bool): Score {
    Signed(white, t.evaluate(p, white))
  }

  /** quiescence(board, cor, alfa, beta). */
  function Quiescence<P(!new)>(t: Tree<P>, p: P, white: bool, alfa: I32, beta: I32): I32
    requires Shrinks(t)
    decreases t.size(p), 1
  {
    var stand := Stand(t, p, white);
    if stand >= beta then beta
    else QLoop(t, p, white, 0, if stand > alfa then stand else alfa, beta)
  }

  /** The capture loop of quiescence from the i-th capture on. */
  function QLoop<P(!new)>(t: Tree<P>, p: P, white: bool, i: nat, alfa: I32, beta: I32): I32
    requires Shrinks(t) && i <= |t.captures(p, white)|
    decreases t.size(p), 0, |t.captures(p, white)| - i
  {
    var cs := t.captures(p, white);
    if i == |cs| then alfa
    else
      assert cs[i] in cs;
      var valor := Neg32(Quiescence(t, cs[i], !white, Neg32(beta), Neg32(alfa)));
      if valor >= beta then beta
      else QLoop(t, p, white, i + 1, if valor > alfa then valor else alfa, beta)
  }

  /** The quiescence value: the better of standing pat and every capture, with exact negation. */
  function QValue<P(!new)>(t: Tree<P>, p: P, white: bool): Score
    requires Shrinks(t)
    decreases t.size(p), 1
  {
    QMax(t, p, white, 0, Stand(t, p, white))
  }

  function QMax<P(!new)>(t: Tree<P>, p: P, white: bool, i: nat, acc: Score): Score
    requires Shrinks(t) && i <= |t.captures(p, white)|
    decreases t.size(p), 0, |t.captures(p, white)| - i
  {
    var cs := t.captures(p, white);
    if i == |cs| then acc
    else
      assert cs[i] in cs;
      QMax(t, p, white, i + 1, Max(acc, -QValue(t, cs[i], !white)))
  }

  lemma {:induction false} QMaxAtLeast<P(!new)>(t: Tree<P>, p: P, white: bool, i: nat, acc: Score)
    requires Shrinks(t) && i <= |t.captures(p, white)|
    ensures QMax(t, p, white, i, acc) >= acc
    decreases |t.captures(p, white)| - i
  {
    var cs := t.captures(p, white);
    if i < |cs| {
      assert cs[i] in cs;
      QMaxAtLeast(t, p, white, i + 1, Max(acc, -QValue(t, cs[i], !white)));
    }
  }

  /** A stand-pat score at or above beta is answered with beta itself. */
  lemma QuiescenceStandPat<P(!new)>(t: Tree<P>, p: P, white: bool, alfa: I32, beta: I32)
    requires Shrinks(t) && Stand(t, p, white) >= beta
    ensures Quiescence(t, p, white, alfa, beta) == beta
  {
  }

  lemma {:induction false} QLoopBounds<P(!new)>(t: Tree<P>, p: P, white: bool, i: nat, alfa: I32, beta: I32)
    requires Shrinks(t) && i <= |t.captures(p, white)| && alfa <= beta
    ensures alfa <= QLoop(t, p, white, i, alfa, beta) <= beta
    decreases |t.captures(p, white)| - i
  {
    var cs := t.captures(p, white);
    if i < |cs| {
      assert cs[i] in cs;
      var valor := Neg32(Quiescence(t, cs[i], !white, Neg32(beta), Neg32(alfa)));
      if valor < beta {
        QLoopBounds(t, p, white, i + 1, if valor > alfa then valor else alfa, beta);
      }
    }
  }

  /**
   * Whatever the window, as long as alfa <= beta, quiescence stays inside
   * it and never answers below the stand-pat score capped at beta.
   */
  lemma QuiescenceBounds<P(!new)>(t: Tree<P>, p: P, white: bool, alfa: I32, beta: I32)
    requires Shrinks(t) && alfa <= beta
    ensures var r := Quiescence(t, p, white, alfa, beta);
      alfa <= r <= beta && Min(Stand(t, p, white), beta) <= r
  {
    var stand := Stand(t, p, white);
    if stand < beta {
      QLoopBounds(t, p, white, 0, if stand > alfa then stand else alfa, beta);
    }
  }

  /**
   * The fail-hard theorem for quiescence: with -MAX_VALUE <= alfa <= beta no
   * window bound wraps, and the result is the quiescence value clamped to
   * the window.
   */
  lemma {:induction false} QuiescenceClamp<P(!new)>(t: Tree<P>, p: P, white: bool, alfa: I32, beta: I32)
    requires Shrinks(t) && -MAX <= alfa <= beta
    ensures Quiescence(t, p, white, alfa, beta) == Clamp(QValue(t, p, white), alfa, beta)
    decreases t.size(p), 1
  {
    var stand := Stand(t, p, white);
    if stand >= beta {
      QMaxAtLeast(t, p, white, 0, stand);
    } else {
      QLoopClamp(t, p, white, 0, Max(alfa, stand), beta, alfa, stand);
    }
  }

  /** The capture loop keeps alfa == max(a0, s) for the running quiescence maximum s < beta. */
  lemma {:induction false} QLoopClamp<P(!new)>(t: Tree<P>, p: P, white: bool, i: nat, alfa: I32, beta: I32, a0: I32, s: Score)
    requires Shrinks(t) && i <= |t.captures(p, white)|
    requires -MAX <= a0 <= beta && s < beta && alfa == Max(a0, s)
    ensures QLoop(t, p, white, i, alfa, beta) == Clamp(QMax(t, p, white, i, s), a0, beta)
    decreases t.size(p), 0, |t.captures(p, white)| - i, 1
  {
    var cs := t.captures(p, white);
    if i < |cs| {
      var c := cs[i];
      assert c in cs;
      QChild(t, p, white, c, alfa, beta);
      QUnfold(t, p, white, i, alfa, beta, s);
      QLoopNext(t, p, white, i, alfa, beta, a0, s,
        Neg32(Quiescence(t, c, !white, Neg32(beta), Neg32(alfa))), -QValue(t, c, !white));
    }
  }

  /** One step of the capture loop, by its definition. */
  lemma QUnfold<P(!new)>(t: Tree<P>, p: P, white: bool, i: nat, alfa: I32, beta: I32, s: Score)
    requires Shrinks(t) && i < |t.captures(p, white)|
    ensures var c := t.captures(p, white)[i];
      var valor := Neg32(Quiescence(t, c, !white, Neg32(beta), Neg32(alfa)));
      && QMax(t, p, white, i, s) == QMax(t, p, white, i + 1, Max(s, -QValue(t, c, !white)))
      && QLoop(t, p, white, i, alfa, beta)
         == if valor >= beta then beta else QLoop(t, p, white, i + 1, Max(alfa, valor), beta)
  {
  }

  /** The step of QLoopClamp once the next capture's score valor and negated value w are known. */
  lemma {:induction false} QLoopNext<P(!new)>(t: Tree<P>, p: P, white: bool, i: nat, alfa: I32, beta: I32, a0: I32, s: Score,
                                              valor: I32, w: Score)
    requires Shrinks(t) && i < |t.captures(p, white)|
    requires -MAX <= a0 <= beta && s < beta && alfa == Max(a0, s)
    requires valor == Clamp(w, alfa, beta)
    requires QMax(t, p, white, i, s) == QMax(t, p, white, i + 1, Max(s, w))
    requires QLoop(t, p, white, i, alfa, beta)
          == if valor >= beta then beta else QLoop(t, p, white, i + 1, Max(alfa, valor), beta)
    ensures QLoop(t, p, white, i, alfa, beta) == Clamp(QMax(t, p, white, i, s), a0, beta)
    decreases t.size(p), 0, |t.captures(p, white)| - i, 0
  {
    QStep(alfa, beta, a0, s, valor, w);
    if valor >= beta {
      QMaxAtLeast(t, p, white, i + 1, Max(s, w));
    } else {
      QLoopClamp(t, p, white, i + 1, Max(alfa, valor), beta, a0, Max(s, w));
    }
  }

  /** One capture under a window that does not wrap: its negated result is the negated value, clamped. */
  lemma {:induction false} QChild<P(!new)>(t: Tree<P>, p: P, white: bool, c: P, alfa: I32, beta: I32)
    requires Shrinks(t) && c in t.captures(p, white) && -MAX <= alfa <= beta
    ensures Neg32(Quiescence(t, c, !white, Neg32(beta), Neg32(alfa))) == Clamp(-QValue(t, c, !white), alfa, beta)
    decreases t.size(p), 0, 0, 0
  {
    assert Neg32(beta) == -beta && Neg32(alfa) == -alfa;
    QuiescenceClamp(t, c, !white, -beta, -alfa);
  }

  /** One step of the capture loop, as arithmetic: valor is the clamped score w of the next capture. */
  lemma QStep(alfa: int, beta: int, a0: int, s: int, valor: int, w: int)
    requires a0 <= beta && s < beta && alfa == Max(a0, s) && valor == Clamp(w, alfa, beta)
    ensures valor >= beta ==> beta <= Max(s, w) || a0 == beta
    ensures valor < beta ==> Max(alfa, valor) == Max(a0, Max(s, w)) && Max(s, w) < beta
  {
  }

  /** negamax(board, depth, cor, alfa, beta). */
  function Negamax<P(!new)>(t: Tree<P>, p: P, depth: nat, white: bool, alfa: I32, beta: I32): I32
    requires Shrinks(t)
    decreases depth, 1, 0
  {
    if depth == 0 then Quiescence(t, p, white, alfa, beta)
    else
      var cs := t.moves(p, white);
      if |cs| == 0 then Stand(t, p, white)
      else NegaLoop(t, cs, 0, depth - 1, white, alfa, beta, MIN)
  }

  /** The move loop of negamax from the i-th child on. */
  function NegaLoop<P(!new)>(t: Tree<P>, cs: seq<P>, i: nat, d: nat, white: bool, alfa: I32, beta: I32, valorMax: I32): I32
    requires Shrinks(t) && i <= |cs|
    decreases d + 1, 0, |cs| - i
  {
    if i == |cs| then valorMax
    else
      var valor := Neg32(Negamax(t, cs[i], d, !white, Neg32(beta), Neg32(alfa)));
      var m := if valor > valorMax then valor else valorMax;
      var a := if m > alfa then m else alfa;
      if a >= beta then m else NegaLoop(t, cs, i + 1, d, white, a, beta, m)
  }

  /** The unpruned negamax value, with exact negation. */
  function NegaValue<P(!new)>(t: Tree<P>, p: P, depth: nat, white: bool): Score
    requires Shrinks(t)
    decreases depth, 1, 0
  {
    if depth == 0 then QValue(t, p, white)
    else
      var cs := t.moves(p, white);
      if |cs| == 0 then Stand(t, p, white)
      else NegaMax(t, cs, 0, depth - 1, white, -MAX)
  }

  function NegaMax<P(!new)>(t: Tree<P>, cs: seq<P>, i: nat, d: nat, white: bool, acc: Score): Score
    requires Shrinks(t) && i <= |cs|
    decreases d + 1, 0, |cs| - i
  {
    if i == |cs| then acc else NegaMax(t, cs, i + 1, d, white, Max(acc, -NegaValue(t, cs[i], d, !white)))
  }

  lemma {:induction false} NegaMaxAtLeast<P(!new)>(t: Tree<P>, cs: seq<P>, i: nat, d: nat, white: bool, acc: Score)
    requires Shrinks(t) && i <= |cs|
    ensures NegaMax(t, cs, i, d, white, acc) >= acc
    decreases |cs| - i
  {
    if i < |cs| {
      NegaMaxAtLeast(t, cs, i + 1, d, white, Max(acc, -NegaValue(t, cs[i], d, !white)));
    }
  }

  /**
   * The alpha-beta theorem for IANivel8.negamax: for a window with
   * -MAX_VALUE <= alfa < beta, where no bound wraps, the pruned search fits
   * the unpruned value and never answers MIN_VALUE.
   */
  lemma {:induction false} NegamaxFits<P(!new)>(t: Tree<P>, p: P, depth: nat, white: bool, alfa: I32, beta: I32)
    requires Shrinks(t) && -MAX <= alfa < beta
    ensures var r := Negamax(t, p, depth, white, alfa, beta);
      -MAX <= r && Fits(r, NegaValue(t, p, depth, white), alfa, beta)
    decreases depth, 1, 0, 0
  {
    if depth == 0 {
      QuiescenceClamp(t, p, white, alfa, beta);
    } else {
      var cs := t.moves(p, white);
      if |cs| > 0 {
        NegaLoopFits(t, cs, 0, depth - 1, white, alfa, beta, MIN, alfa, -MAX);
      }
    }
  }

  /**
   * The loop invariant of negamax under the window (a0, beta): alfa is a0
   * raised to valorMax, and valorMax tracks the running maximum m of the
   * negated child values once that maximum exceeds a0.
   */
  lemma {:induction false} NegaLoopFits<P(!new)>(t: Tree<P>, cs: seq<P>, i: nat, d: nat, white: bool, alfa: I32, beta: I32,
                                           valorMax: I32, a0: Score, m: Score)
    requires Shrinks(t) && i <= |cs|
    requires alfa == Max(a0, valorMax) && alfa < beta
    requires i < |cs| || -MAX <= valorMax
    requires m <= a0 ==> valorMax <= a0
    requires m > a0 ==> valorMax == m
    ensures var r := NegaLoop(t, cs, i, d, white, alfa, beta, valorMax);
      -MAX <= r && Fits(r, NegaMax(t, cs, i, d, white, m), a0, beta)
    decreases d + 1, 0, |cs| - i, 1
  {
    if i < |cs| {
      NegaChild(t, cs[i], d, white, alfa, beta, |cs| - i);
      NegaUnfold(t, cs, i, d, white, alfa, beta, valorMax, m);
      NegaLoopNext(t, cs, i, d, white, alfa, beta, valorMax, a0, m,
        Neg32(Negamax(t, cs[i], d, !white, Neg32(beta), Neg32(alfa))), -NegaValue(t, cs[i], d, !white));
    }
  }

  /** The loop step of NegaLoopFits once the next child's score e and negated value w are known. */
  lemma {:induction false} NegaLoopNext<P(!new)>(t: Tree<P>, cs: seq<P>, i: nat, d: nat, white: bool, alfa: I32, beta: I32,
                                           valorMax: I32, a0: Score, m: Score, e: Score, w: Score)
    requires Shrinks(t) && i < |cs|
    requires alfa == Max(a0, valorMax) && alfa < beta
    requires m <= a0 ==> valorMax <= a0
    requires m > a0 ==> valorMax == m
    requires Fits(e, w, alfa, beta)
    requires NegaMax(t, cs, i, d, white, m) == NegaMax(t, cs, i + 1, d, white, Max(m, w))
    requires NegaLoop(t, cs, i, d, white, alfa, beta, valorMax)
         == if Max(alfa, Max(valorMax, e)) >= beta then Max(valorMax, e)
            else NegaLoop(t, cs, i + 1, d, white, Max(alfa, Max(valorMax, e)), beta, Max(valorMax, e))
    ensures var r := NegaLoop(t, cs, i, d, white, alfa, beta, valorMax);
      -MAX <= r && Fits(r, NegaMax(t, cs, i, d, white, m), a0, beta)
    decreases d + 1, 0, |cs| - i, 0
  {
    MaxStep(alfa, beta, valorMax, a0, m, e, w);
    var mx := Max(valorMax, e);
    var a := Max(alfa, mx);
    if a >= beta {
      NegaMaxAtLeast(t, cs, i + 1, d, white, Max(m, w));
    } else {
      NegaLoopFits(t, cs, i + 1, d, white, a, beta, mx, a0, Max(m, w));
    }
  }

  lemma NegaUnfold<P(!new)>(t: Tree<P>, cs: seq<P>, i: nat, d: nat, white: bool, alfa: I32, beta: I32, valorMax: I32, m: Score)
    requires Shrinks(t) && i < |cs|
    ensures var valor := Neg32(Negamax(t, cs[i], d, !white, Neg32(beta), Neg32(alfa)));
      && NegaMax(t, cs, i, d, white, m) == NegaMax(t, cs, i + 1, d, white, Max(m, -NegaValue(t, cs[i], d, !white)))
      && NegaLoop(t, cs, i, d, white, alfa, beta, valorMax)
         == if Max(alfa, Max(valorMax, valor)) >= beta then Max(valorMax, valor)
            else NegaLoop(t, cs, i + 1, d, white, Max(alfa, Max(valorMax, valor)), beta, Max(valorMax, valor))
  {
  }

  /** One child under a window that does not wrap: its negated result fits its negated value. */
  lemma {:induction false} NegaChild<P(!new)>(t: Tree<P>, c: P, d: nat, white: bool, alfa: I32, beta: I32, rank: nat)
    requires Shrinks(t) && -MAX <= alfa < beta && rank > 0
    ensures var valor := Neg32(Negamax(t, c, d, !white, Neg32(beta), Neg32(alfa)));
      -MAX <= valor && Fits(valor, -NegaValue(t, c, d, !white), alfa, beta)
    decreases d + 1, 0, rank - 1, 2
  {
    assert Neg32(beta) == -beta && Neg32(alfa) == -alfa;
    NegamaxFits(t, c, d, !white, -beta, -alfa);
    FitsNegate(Negamax(t, c, d, !white, -beta, -alfa), NegaValue(t, c, d, !white), alfa, beta);
  }

  /** With the window (-MAX_VALUE, MAX_VALUE) negamax is the unpruned value. */
  lemma NegamaxFullWindow<P(!new)>(t: Tree<P>, p: P, depth: nat, white: bool)
    requires Shrinks(t)
    ensures Negamax(t, p, depth, white, -MAX, MAX) == NegaValue(t, p, depth, white)
  {
    NegamaxFits(t, p, depth, white, -MAX, MAX);
  }

  /**
   * The wrap-around of chooseBestMove's window: a node searched while its
   * parent's alfa is MIN_VALUE receives beta == -MIN_VALUE == MIN_VALUE, so
   * it returns the value of its first move and examines no other.
   */
  lemma NegamaxFirstOnly<P(!new)>(t: Tree<P>, p: P, depth: nat, white: bool, alfa: I32)
    requires Shrinks(t) && depth > 0 && |t.moves(p, white)| > 0
    ensures Negamax(t, p, depth, white, alfa, MIN)
         == Neg32(Negamax(t, t.moves(p, white)[0], depth - 1, !white, MIN, Neg32(alfa)))
  {
  }

  /**
   * The windows down the first line of play, each the negation of its
   * parent's: at the quiescence leaf the upper bound is not MIN_VALUE.
   */
  predicate FirstLineSafe(depth: nat, alfa: I32, beta: I32)
    decreases depth
  {
    if depth == 0 then beta != MIN else FirstLineSafe(depth - 1, Neg32(beta), Neg32(alfa))
  }

  /** The capture loop answers at least the smaller of its alfa and beta. */
  lemma {:induction false} QLoopAtLeast<P(!new)>(t: Tree<P>, p: P, white: bool, i: nat, alfa: I32, beta: I32)
    requires Shrinks(t) && i <= |t.captures(p, white)|
    ensures QLoop(t, p, white, i, alfa, beta) >= Min(alfa, beta)
    decreases |t.captures(p, white)| - i
  {
    var cs := t.captures(p, white);
    if i < |cs| {
      assert cs[i] in cs;
      var valor := Neg32(Quiescence(t, cs[i], !white, Neg32(beta), Neg32(alfa)));
      if valor < beta {
        QLoopAtLeast(t, p, white, i + 1, if valor > alfa then valor else alfa, beta);
      }
    }
  }

  /** With an upper bound other than MIN_VALUE, quiescence never answers MIN_VALUE. */
  lemma QuiescenceAboveMin<P(!new)>(t: Tree<P>, p: P, white: bool, alfa: I32, beta: I32)
    requires Shrinks(t) && beta != MIN
    ensures Quiescence(t, p, white, alfa, beta) >= -MAX
  {
    var stand := Stand(t, p, white);
    if stand < beta {
      QLoopAtLeast(t, p, white, 0, if stand > alfa then stand else alfa, beta);
    }
  }

  /** The move loop never answers below the best score so far. */
  lemma {:induction false} NegaLoopAtLeast<P(!new)>(t: Tree<P>, cs: seq<P>, i: nat, d: nat, white: bool, alfa: I32, beta: I32, valorMax: I32)
    requires Shrinks(t) && i <= |cs|
    ensures NegaLoop(t, cs, i, d, white, alfa, beta, valorMax) >= valorMax
    decreases |cs| - i
  {
    if i < |cs| {
      var valor := Neg32(Negamax(t, cs[i], d, !white, Neg32(beta), Neg32(alfa)));
      var m := if valor > valorMax then valor else valorMax;
      var a := if m > alfa then m else alfa;
      if a < beta {
        NegaLoopAtLeast(t, cs, i + 1, d, white, a, beta, m);
      }
    }
  }

  /**
   * Along a first line of play whose windows keep the quiescence bound off
   * MIN_VALUE, negamax never answers MIN_VALUE: the result is at least the
   * negated score of the first move, or the stand-pat score.
   */
  lemma {:induction false} NegamaxAboveMin<P(!new)>(t: Tree<P>, p: P, depth: nat, white: bool, alfa: I32, beta: I32)
    requires Shrinks(t) && FirstLineSafe(depth, alfa, beta)
    ensures Negamax(t, p, depth, white, alfa, beta) >= -MAX
    decreases depth
  {
    if depth == 0 {
      QuiescenceAboveMin(t, p, white, alfa, beta);
    } else {
      var cs := t.moves(p, white);
      if |cs| > 0 {
        NegamaxAboveMin(t, cs[0], depth - 1, !white, Neg32(beta), Neg32(alfa));
        var valor := Neg32(Negamax(t, cs[0], depth - 1, !white, Neg32(beta), Neg32(alfa)));
        var a := if valor > alfa then valor else alfa;
        if a < beta {
          NegaLoopAtLeast(t, cs, 1, depth - 1, white, a, beta, valor);
        }
      }
    }
  }
}

