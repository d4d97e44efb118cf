/**
 * The selection loop shared by makeBestMove (ChessAI) and chooseBestMove
 * (IASuprema, IANivel8): walk the scores in order and keep a move only when
 * its score is strictly better than the best so far, starting from a
 * sentinel score.  So ties go to the earliest move.
 */
module Picks {
  import opened Wrappers

  /** `a` beats `b`: strictly greater when maximizing, strictly smaller when minimizing. */
  predicate Better(maximize: bool, a: int, b: int) {
    if maximize then a > b else a < b
  }

  /** The state of the loop: the index kept so far and its score. */
  datatype Choice = Choice(index: Option<nat>, score: int)

  /** The element a choice designates, if any. */
  function Chosen<T>(xs: seq<T>, c: Choice): Option<T> {
    if c.index.Some? && c.index.value < |xs| then Some(xs[c.index.value]) else None
  }

  /** The loop over the whole of xs, from the sentinel `init`. */
  function Pick(xs: seq<int>, maximize: bool, init: int): Choice
  {
    if xs == [] then Choice(None, init)
    else
      var c := Pick(xs[..|xs| - 1], maximize, init);
      if Better(maximize, xs[|xs| - 1], c.score) then Choice(Some(|xs| - 1), xs[|xs| - 1]) else c
  }

  /**
   * What the loop keeps: nothing when no score beats the sentinel; otherwise
   * the first index whose score beats the sentinel and every earlier score,
   * and which no later score beats.
   */
  lemma {:induction false} PickSpec(xs: seq<int>, maximize: bool, init: int)
    ensures var c := Pick(xs, maximize, init);
      && (c.index.None? <==> forall j | 0 <= j < |xs| :: !Better(maximize, xs[j], init))
      && (c.index.None? ==> c.score == init)
      && (c.index.Some? ==>
            var i := c.index.value;
            && i < |xs| && c.score == xs[i] && Better(maximize, xs[i], init)
            && (forall j | 0 <= j < i :: Better(maximize, xs[i], xs[j]))
            && (forall j | i < j < |xs| :: !Better(maximize, xs[j], xs[i])))
  {
    if xs != [] {
      var ys := xs[..|xs| - 1];
      PickSpec(ys, maximize, init);
      assert forall j | 0 <= j < |ys| :: ys[j] == xs[j];
    }
  }

  /** Keeping a strict maximum is keeping a strict minimum of the negated scores. */
  lemma {:induction false} PickNegate(xs: seq<int>, ys: seq<int>, init: int)
    requires |xs| == |ys| && forall j | 0 <= j < |xs| :: ys[j] == -xs[j]
    ensures Pick(ys, false, -init).index == Pick(xs, true, init).index
    ensures Pick(ys, false, -init).score == -Pick(xs, true, init).score
  {
    if xs != [] {
      PickNegate(xs[..|xs| - 1], ys[..|ys| - 1], init);
    }
  }

  /** The loop state after one more score. */
  lemma PickStep(xs: seq<int>, i: nat, maximize: bool, init: int)
    requires i < |xs|
    ensures Pick(xs[..i + 1], maximize, init) ==
      var c := Pick(xs[..i], maximize, init);
      if Better(maximize, xs[i], c.score) then Choice(Some(i), xs[i]) else c
  {
    assert xs[..i + 1][..i] == xs[..i];
  }
}
