/** The level record the home screen and the game flow work on. */
module Levels {
  import opened Builtins

  /**
   * One entry of the level list. The preview image is left out; an absent
   * `requiresPurchase` is `false` and an absent `bestMoves` is `None`.
   */
  datatype Level = Level(
    id: int,
    name: string,
    unlocked: bool,
    completed: bool,
    bestMoves: Option<int>,
    requiresPurchase: bool)

  /** The shipped catalogue numbers its levels 1, 2, 3, ... in list order. */
  predicate NumberedInOrder(levels: seq<Level>) {
    forall k :: 0 <= k < |levels| ==> levels[k].id == k + 1
  }
}
