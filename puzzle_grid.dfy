/**
 * The tap/rotate controller of the puzzle board: a selection state machine
 * over piece ids that publishes a new puzzle state on every rotate or swap.
 *
 * The board's `puzzleState` is a property the parent replaces with each
 * published state; the controller here holds the state it last published (or
 * was constructed with) and returns each publication as an out-parameter.
 */
module PuzzleGrid {
  import opened Builtins
  import opened PuzzleLogic

  class GridController {
    var selectedPieceId: Option<int>
    var puzzleState: PuzzleState
    var showWinAnimation: bool

    /** The board keeps a bijection onto the grid, distinct ids and valid rotations. */
    ghost predicate Valid()
      reads this
    {
      WellFormed(puzzleState)
    }

    constructor(st: PuzzleState)
      ensures puzzleState == st && selectedPieceId == None && !showWinAnimation
      ensures WellFormed(st) ==> Valid()
    {
      puzzleState := st;
      selectedPieceId := None;
      showWinAnimation := false;
    }

    /**
     * A rotate gesture on piece `pieceId`: the first piece with that id turns
     * a quarter, the move counter goes up by one and `isComplete` is
     * recomputed; an unknown id publishes nothing. A completed board starts
     * the win animation.
     */
    method HandleRotate(pieceId: int) returns (published: Option<PuzzleState>)
      modifies this
      ensures var i := IndexOfId(old(puzzleState.pieces), pieceId);
        if i == -1 then
          && published == None
          && puzzleState == old(puzzleState)
          && showWinAnimation == old(showWinAnimation)
        else
          var pieces := old(puzzleState.pieces)[i := RotatePiece(old(puzzleState.pieces)[i])];
          && puzzleState == old(puzzleState).(pieces := pieces, moves := old(puzzleState.moves) + 1, isComplete := CheckWinCondition(pieces))
          && published == Some(puzzleState)
          && showWinAnimation == (old(showWinAnimation) || puzzleState.isComplete)
      ensures selectedPieceId == old(selectedPieceId)
      ensures old(CheckWinCondition(puzzleState.pieces)) && published.Some? ==> !puzzleState.isComplete
      ensures old(Valid()) ==> Valid()
    {
      var pieceIndex := IndexOfId(puzzleState.pieces, pieceId);
      published := None;
      if pieceIndex != -1 {
        var newPieces := puzzleState.pieces;
        newPieces := newPieces[pieceIndex := RotatePiece(newPieces[pieceIndex])];
        if WellFormed(puzzleState) {
          RotateKeepsWellFormed(puzzleState, pieceIndex);
        }
        if CheckWinCondition(puzzleState.pieces) {
          RotateBreaksWin(puzzleState.pieces, pieceIndex);
        }
        var newState := puzzleState.(pieces := newPieces, moves := puzzleState.moves + 1, isComplete := CheckWinCondition(newPieces));
        puzzleState := newState;
        published := Some(newState);
        if newState.isComplete {
          showWinAnimation := true;
        }
      }
    }

    /**
     * A tap on piece `pieceId`: with nothing selected it selects the piece;
     * on the selected piece it clears the selection; on another piece it
     * swaps the two, counts one move, recomputes `isComplete` and clears the
     * selection.
     */
    method HandleTap(pieceId: int) returns (published: Option<PuzzleState>)
      modifies this
      ensures old(selectedPieceId).None? ==>
        && selectedPieceId == Some(pieceId)
        && published == None
        && puzzleState == old(puzzleState)
        && showWinAnimation == old(showWinAnimation)
      ensures old(selectedPieceId) == Some(pieceId) ==>
        && selectedPieceId == None
        && published == None
        && puzzleState == old(puzzleState)
        && showWinAnimation == old(showWinAnimation)
      ensures old(selectedPieceId).Some? && old(selectedPieceId) != Some(pieceId) ==>
        var pieces := SwapPieces(old(puzzleState.pieces), old(selectedPieceId).value, pieceId);
        && puzzleState == old(puzzleState).(pieces := pieces, moves := old(puzzleState.moves) + 1, isComplete := CheckWinCondition(pieces))
        && published == Some(puzzleState)
        && selectedPieceId == None
        && showWinAnimation == (old(showWinAnimation) || puzzleState.isComplete)
      ensures old(Valid()) ==> Valid()
    {
      published := None;
      if selectedPieceId.None? {
        selectedPieceId := Some(pieceId);
      } else if selectedPieceId == Some(pieceId) {
        selectedPieceId := None;
      } else {
        var newPieces := SwapPieces(puzzleState.pieces, selectedPieceId.value, pieceId);
        if WellFormed(puzzleState) {
          SwapKeepsWellFormed(puzzleState, selectedPieceId.value, pieceId);
        }
        var newState := puzzleState.(pieces := newPieces, moves := puzzleState.moves + 1, isComplete := CheckWinCondition(newPieces));
        puzzleState := newState;
        published := Some(newState);
        if newState.isComplete {
          showWinAnimation := true;
        }
        selectedPieceId := None;
      }
    }
  }

  /**
   * Tapping `a`, then `b`, then `a`, then `b` again from an empty selection
   * restores the pieces: two swaps of the same pair cancel, yet four taps
   * count two moves.
   */
  method TapPairTwice(g: GridController, a: int, b: int)
    requires g.selectedPieceId == None && a != b
    modifies g
    ensures g.puzzleState.pieces == old(g.puzzleState.pieces)
    ensures g.puzzleState.moves == old(g.puzzleState.moves) + 2
    ensures g.selectedPieceId == None
  {
    var p1 := g.HandleTap(a);
    var p2 := g.HandleTap(b);
    var p3 := g.HandleTap(a);
    var p4 := g.HandleTap(b);
    SwapInvolution(old(g.puzzleState.pieces), a, b);
  }
}
