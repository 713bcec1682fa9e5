/**
 * The game flow of the app's root screen: recording a win in the level list,
 * moving on to the next level and going back to the home screen.
 */
module App {
  import opened Builtins
  import opened PuzzleLogic
  import opened Levels

  datatype Screen = Home | Puzzle

  datatype GameState = Playing | Completed

  /** `level.bestMoves ? ... : ...`: a missing record and a record of 0 are both falsy. */
  predicate HasRecord(best: Option<int>) {
    best.Some? && best.value != 0
  }

  /** The record after a win in `moves` moves. */
  function NewBestMoves(prev: Option<int>, moves: int): (b: int)
    ensures b <= moves
    ensures !HasRecord(prev) ==> b == moves
    ensures HasRecord(prev) ==> b <= prev.value && (b == prev.value || b == moves)
  {
    if HasRecord(prev) then Min(prev.value, moves) else moves
  }

  /** The level as it is stored after being won in `moves` moves. */
  function WonLevel(level: Level, moves: int): (r: Level)
    ensures r.completed && r.bestMoves == Some(NewBestMoves(level.bestMoves, moves))
    ensures r == level.(completed := true, bestMoves := r.bestMoves)
    ensures r.bestMoves.value <= moves
    ensures HasRecord(level.bestMoves) ==> r.bestMoves.value <= level.bestMoves.value
  {
    level.(completed := true, bestMoves := Some(NewBestMoves(level.bestMoves, moves)))
  }

  /** The `levelData.map(...)` of a win: every level with the selected id is marked won. */
  function UpdatedLevels(levels: seq<Level>, selectedId: int, moves: int): (r: seq<Level>)
    ensures |r| == |levels|
    ensures forall k :: 0 <= k < |levels| && levels[k].id != selectedId ==> r[k] == levels[k]
    ensures forall k :: 0 <= k < |levels| && levels[k].id == selectedId ==> r[k] == WonLevel(levels[k], moves)
  {
    seq(|levels|, k requires 0 <= k < |levels| =>
      if levels[k].id == selectedId then WonLevel(levels[k], moves) else levels[k])
  }

  /** A win changes no id, so the list stays numbered as it was. */
  lemma UpdatedLevelsKeepIds(levels: seq<Level>, selectedId: int, moves: int)
    ensures forall k :: 0 <= k < |levels| ==> UpdatedLevels(levels, selectedId, moves)[k].id == levels[k].id
    ensures NumberedInOrder(levels) ==> NumberedInOrder(UpdatedLevels(levels, selectedId, moves))
  {
  }

  /** Recording the same win twice is the same as recording it once. */
  lemma UpdatedLevelsIdempotent(levels: seq<Level>, selectedId: int, moves: int)
    ensures UpdatedLevels(UpdatedLevels(levels, selectedId, moves), selectedId, moves) == UpdatedLevels(levels, selectedId, moves)
  {
    var once := UpdatedLevels(levels, selectedId, moves);
    var twice := UpdatedLevels(once, selectedId, moves);
    forall k | 0 <= k < |levels| ensures twice[k] == once[k] {
      if levels[k].id == selectedId {
        assert once[k] == WonLevel(levels[k], moves);
      }
    }
  }

  /**
   * Two wins in a row, the first in a nonzero number of moves, leave the same
   * record as one win in the smaller number of moves.
   */
  lemma UpdatedLevelsKeepMinimum(levels: seq<Level>, selectedId: int, m1: int, m2: int)
    requires m1 != 0
    ensures UpdatedLevels(UpdatedLevels(levels, selectedId, m1), selectedId, m2) == UpdatedLevels(levels, selectedId, Min(m1, m2))
  {
    var first := UpdatedLevels(levels, selectedId, m1);
    var both := UpdatedLevels(first, selectedId, m2);
    var direct := UpdatedLevels(levels, selectedId, Min(m1, m2));
    forall k | 0 <= k < |levels| ensures both[k] == direct[k] {
      if levels[k].id == selectedId {
        assert first[k] == WonLevel(levels[k], m1);
      }
    }
  }

  /** A win in zero moves stores 0, which a later win does not recognise as a record. */
  lemma ZeroMoveRecordIsForgotten(level: Level, m2: int)
    requires level.bestMoves.Some? ==> level.bestMoves.value >= 0
    ensures WonLevel(WonLevel(level, 0), m2).bestMoves == Some(m2)
  {
  }

  /** `selectedLevel.id < levelData.length`. */
  predicate HasNextLevel(selectedId: int, levels: seq<Level>) {
    selectedId < |levels|
  }

  /** `levelData.find(level => level.id === selectedLevel.id + 1)`. */
  function NextLevel(levels: seq<Level>, selectedId: int): (r: Option<Level>)
    ensures r.Some? ==> r.value in levels && r.value.id == selectedId + 1
    ensures r.None? <==> forall k :: 0 <= k < |levels| ==> levels[k].id != selectedId + 1
    ensures r.Some? ==> exists k :: 0 <= k < |levels| && levels[k] == r.value && forall i :: 0 <= i < k ==> levels[i].id != selectedId + 1
  {
    Find(levels, (l: Level) => l.id == selectedId + 1)
  }

  /**
   * With levels numbered 1, 2, 3, ... the "next level" button is offered
   * exactly when a next level exists, for every non-negative id.
   */
  lemma HasNextLevelIffNextExists(levels: seq<Level>, selectedId: int)
    requires NumberedInOrder(levels)
    requires selectedId >= 0
    ensures HasNextLevel(selectedId, levels) <==> NextLevel(levels, selectedId).Some?
    ensures NextLevel(levels, selectedId).Some? ==> NextLevel(levels, selectedId).value == levels[selectedId]
  {
    if selectedId < |levels| {
      assert levels[selectedId].id == selectedId + 1;
    }
    var next := NextLevel(levels, selectedId);
    if next.Some? {
      var k :| 0 <= k < |levels| && levels[k] == next.value;
      assert k == selectedId;
    }
  }

  /** The app's screen and level state. */
  class AppState {
    var currentScreen: Screen
    var selectedLevel: Option<Level>
    var puzzleState: Option<PuzzleState>
    var gameState: GameState
    var levelData: seq<Level>
    var isTestMode: bool

    constructor(levels: seq<Level>)
      ensures currentScreen == Home && selectedLevel == None && puzzleState == None
      ensures gameState == Playing && levelData == levels && !isTestMode
    {
      currentScreen := Home;
      selectedLevel := None;
      puzzleState := None;
      gameState := Playing;
      levelData := levels;
      isTestMode := false;
    }

    /** With a level selected and a puzzle on the board, records the win. */
    method HandleWin()
      modifies this
      ensures old(selectedLevel).None? || old(puzzleState).None? ==>
        && gameState == old(gameState)
        && levelData == old(levelData)
      ensures old(selectedLevel).Some? && old(puzzleState).Some? ==>
        && gameState == Completed
        && levelData == UpdatedLevels(old(levelData), old(selectedLevel).value.id, old(puzzleState).value.moves)
      ensures currentScreen == old(currentScreen) && selectedLevel == old(selectedLevel)
      ensures puzzleState == old(puzzleState) && isTestMode == old(isTestMode)
    {
      if selectedLevel.None? || puzzleState.None? {
        return;
      }
      gameState := Completed;
      levelData := UpdatedLevels(levelData, selectedLevel.value.id, puzzleState.value.moves);
    }

    /** Back to the level list, with nothing selected and test mode off. */
    method HandleBackToHome()
      modifies this
      ensures currentScreen == Home && selectedLevel == None && puzzleState == None
      ensures gameState == Playing && !isTestMode
      ensures levelData == old(levelData)
    {
      currentScreen := Home;
      selectedLevel := None;
      puzzleState := None;
      gameState := Playing;
      isTestMode := false;
    }

    /** Selects the level whose id follows the selected one, or goes home when there is none. */
    method HandleNextLevel()
      modifies this
      ensures levelData == old(levelData)
      ensures old(selectedLevel).None? ==>
        && currentScreen == old(currentScreen) && selectedLevel == None
        && puzzleState == old(puzzleState) && gameState == old(gameState) && isTestMode == old(isTestMode)
      ensures old(selectedLevel).Some? && NextLevel(old(levelData), old(selectedLevel).value.id).Some? ==>
        && selectedLevel == NextLevel(old(levelData), old(selectedLevel).value.id)
        && selectedLevel.value in levelData
        && selectedLevel.value.id == old(selectedLevel).value.id + 1
        && gameState == Playing
        && currentScreen == old(currentScreen) && puzzleState == old(puzzleState) && isTestMode == old(isTestMode)
      ensures old(selectedLevel).Some? && NextLevel(old(levelData), old(selectedLevel).value.id).None? ==>
        && currentScreen == Home && selectedLevel == None && puzzleState == None
        && gameState == Playing && !isTestMode
    {
      if selectedLevel.None? {
        return;
      }
      var nextLevel := NextLevel(levelData, selectedLevel.value.id);
      if nextLevel.Some? {
        selectedLevel := nextLevel;
        gameState := Playing;
      } else {
        HandleBackToHome();
      }
    }
  }
}
