# Tile puzzle: the verified core

This project models the game engine of a mobile sliding-and-rotating tile
puzzle. It also models the thin game-flow logic around that engine.

- **Board.** A board is a `rows x cols` grid of pieces. Each piece has an id,
  a current cell (`row`, `col`), a home cell (`correctRow`, `correctCol`), a
  rotation in degrees and a colour.
- **Creating a puzzle.** `createPuzzle` lays the pieces out at home in
  row-major order. It then scrambles them.
- **Scrambling.** The scramble runs a Fisher–Yates shuffle over the
  positions only, in place on a copy of the array. Then every piece gets a
  random rotation from {0, 90, 180, 270}.
- **Playing.** The player rotates a piece a quarter turn, or swaps two
  pieces by tapping one and then another. The board is won when every piece
  is at home with rotation 0.
- **The level list.** The home screen shows the levels. The root screen
  records each win in the list and keeps the smallest move count. It also
  moves on to the next level or goes back home.

Modules, one per source file:

- `Builtins` (`builtins.dfy`) covers the JavaScript built-ins the code relies
  on:
  - `findIndex` and `find`;
  - the truncating `%` for a positive divisor, since Dafny's own `%` is
    Euclidean;
  - `Math.min` and `Math.max`.
- `PuzzleLogic` (`puzzle_logic.dfy`) holds the pieces, the board invariants
  and every exported operation of `utils/puzzleLogic.ts`.
  - `createPuzzle` and `scramblePuzzle` are methods with their source loops.
    Each is proved equal to a specification function: `SolvedPieces` and
    `Scrambled`.
  - The other operations are functions.
- `PuzzleGrid` (`puzzle_grid.dfy`) holds the tap/rotate controller of
  `components/PuzzleGrid.tsx`. It is a class whose fields are the selection,
  the board's state and the win-animation flag.
- `Levels` (`levels.dfy`) holds the level record of `utils/levels.ts`.
- `App` (`app.dfy`) holds the win bookkeeping, `hasNextLevel`, and the
  screen-state class with `handleWin`, `handleNextLevel` and
  `handleBackToHome` from `app/index.tsx`.
- `HomeScreen` (`home_screen.dfy`) holds the access predicates, the press
  guard and the `disabled` rule of `components/HomeScreen.tsx`.

The central invariant is `WellFormed`. A state is well formed when three
things hold:

- the piece positions form a bijection onto the grid: every position is a
  cell, no two positions coincide, and every cell is covered;
- piece ids are distinct;
- every rotation is in {0, 90, 180, 270}.

Every operation that changes a state keeps `WellFormed`. This covers:

- the scramble;
- rotate, swap and move;
- the controller's tap and rotate handlers.

It is preserved because each position change permutes the multiset of cells.

Several things come from outside the code:

- **Random numbers** (`Math.random`) are inputs. `draws[i] % (i + 1)` is the
  Fisher–Yates pick at step `i`. `rotDraws[k] % 4` picks piece `k`'s
  rotation. Every choice the source can make is reachable.
- **Colours** are a caller-supplied grid.
- **Premium.** Whether premium was bought is a parameter of the home-screen
  predicates.

## Model

| member | source | states |
|---|---|---|
| `Builtins.FindIndex` | utils/puzzleLogic.ts:82-83 | the result is -1 exactly when no element matches; otherwise it is the first matching index |
| `Builtins.Find` | utils/puzzleLogic.ts:131 | the result is absent exactly when no element matches; otherwise it is the first matching element of the list |
| `Builtins.Rem` | utils/puzzleLogic.ts:76 | JavaScript `%` for a positive divisor: the result has the sign of the dividend, has magnitude below the divisor, and is congruent to the dividend |
| `Builtins.Min` | utils/puzzleLogic.ts:136 | `Math.min`: the result is one of the two arguments and no larger than either |
| `Builtins.Max` | utils/puzzleLogic.ts:41 | `Math.max`: the result is one of the two arguments and no smaller than either |
| `PuzzleLogic.PermutationKeepsBijection` | utils/puzzleLogic.ts:52-63 | any permutation of a list of cells that is a bijection onto the grid is again one |
| `PuzzleLogic.Exchange` | utils/puzzleLogic.ts:57-62 | the position exchange of two entries, the step shared by the scramble (lines 57-62), `swapPieces` (lines 90-93) and `movePiece` (lines 112-113); it keeps the length, and `ExchangeFacts` states its effect |
| `PuzzleLogic.ExchangePermutesPositions` | utils/puzzleLogic.ts:57-62 | exchanging the cells of two entries leaves the multiset of cells unchanged |
| `PuzzleLogic.ExchangeFacts` | utils/puzzleLogic.ts:57-62 | the two entries trade cells, every entry keeps its other fields, and every other entry is unchanged |
| `PuzzleLogic.ExchangeTwice` | utils/puzzleLogic.ts:57-62 | exchanging the same two entries twice restores the list |
| `PuzzleLogic.ColorAt` | utils/puzzleLogic.ts:34 | the colour is never empty. It is the grid's colour when the grid has a non-empty entry for the cell, and `'#CCCCCC'` when the entry is missing or empty |
| `PuzzleLogic.HomePiece` | utils/puzzleLogic.ts:27-35 | the piece pushed for a cell has the given id, sits on that cell, which is also its home, has rotation 0 and has the cell's colour |
| `PuzzleLogic.SolvedPieces` | utils/puzzleLogic.ts:20-37 | the creation loops push exactly rows*cols pieces, or none when either dimension is not positive |
| `PuzzleLogic.SolvedPiecesHome` | utils/puzzleLogic.ts:25-36 | piece k has id k, sits on its home cell inside the grid, has rotation 0, and has the cell's colour |
| `PuzzleLogic.SolvedPiecesRowMajor` | utils/puzzleLogic.ts:25-36 | the piece for cell (r, c) is the (r*cols + c)-th pushed, and its id is that number |
| `PuzzleLogic.BijectionAddRow` | utils/puzzleLogic.ts:25-37 | adding the full next row of cells to a bijection onto the rows above gives a bijection onto the whole grid (the step of the outer creation loop) |
| `PuzzleLogic.SolvedPiecesIsBoard` | utils/puzzleLogic.ts:25-37 | before the scramble the pieces cover each grid cell exactly once |
| `PuzzleLogic.SolvedPiecesWin` | utils/puzzleLogic.ts:25-37 | the unscrambled board satisfies the win check |
| `PuzzleLogic.ShuffleDown` | utils/puzzleLogic.ts:53-63 | the descending Fisher–Yates loop keeps the length of the list |
| `PuzzleLogic.Shuffled` | utils/puzzleLogic.ts:53-63 | the whole shuffle keeps the length of the list |
| `PuzzleLogic.ShuffleKeepsIdentity` | utils/puzzleLogic.ts:53-63 | each entry keeps its id, home cell, rotation and colour; only its cell changes |
| `PuzzleLogic.ShufflePermutesPositions` | utils/puzzleLogic.ts:53-63 | the shuffle permutes the multiset of cells |
| `PuzzleLogic.IdentityDrawsKeepOrder` | utils/puzzleLogic.ts:53-54 | when every pick j equals i, the shuffle is the identity |
| `PuzzleLogic.RandomlyRotated` | utils/puzzleLogic.ts:66-68 | the rotation pass keeps the length, changes only each piece's rotation, and leaves it in {0, 90, 180, 270} |
| `PuzzleLogic.Scrambled` | utils/puzzleLogic.ts:49-71 | the specification of the scramble: the shuffle followed by the rotation pass, of the same length; `ScrambledProperties` states what it keeps |
| `PuzzleLogic.ScrambledProperties` | utils/puzzleLogic.ts:49-71 | the scramble keeps the length, ids, home cells and colours, permutes the cells, keeps a grid bijection one, and leaves every rotation in {0, 90, 180, 270} |
| `PuzzleLogic.ExchangeInPlace` | utils/puzzleLogic.ts:57-62 | swapping the row and column fields of two array entries in place yields `Exchange` of the old contents |
| `PuzzleLogic.RotateAllInPlace` | utils/puzzleLogic.ts:66-68 | the `forEach` loop leaves each piece with the rotation its draw picks, and nothing else changed |
| `PuzzleLogic.ScramblePuzzle` | utils/puzzleLogic.ts:49-71 | the in-place loops compute `Scrambled`: same length, ids, home cells and colours, a permutation of the cells, a board stays a board, and all rotations are valid |
| `PuzzleLogic.CreatePuzzle` | utils/puzzleLogic.ts:20-47 | the result holds the scrambled solved board with ids 0..rows*cols-1. It has gridSize = max(rows, cols), gridRows = rows, gridCols = cols, moves 0 and isComplete false, and it is well formed |
| `PuzzleLogic.CreatedIsWellFormed` | utils/puzzleLogic.ts:39-46 | the served state keeps the row-major ids and satisfies the board invariant |
| `PuzzleLogic.CreateMaySolve` | utils/puzzleLogic.ts:40-44 | for some draws the served board is already solved, although `isComplete` is set to false without checking |
| `PuzzleLogic.RotatePiece` | utils/puzzleLogic.ts:73-78 | only the rotation changes. The new rotation is congruent to the old rotation + 90 modulo 360, lies in [0, 360) for the inputs that occur, and a valid rotation stays valid and changes |
| `PuzzleLogic.RotateFourTimes` | utils/puzzleLogic.ts:73-78 | four quarter turns give back any rotation in [0, 360) |
| `PuzzleLogic.RotateTimes` | utils/puzzleLogic.ts:73-78 | any number of quarter turns keeps a valid rotation valid and changes nothing else |
| `PuzzleLogic.RotateKeepsWellFormed` | utils/puzzleLogic.ts:73-78 | turning one piece of a well-formed state keeps it well formed |
| `PuzzleLogic.IndexOfId` | utils/puzzleLogic.ts:82-83 | the result is the first index with the id, or -1 exactly when the id is absent |
| `PuzzleLogic.IndexAtPosition` | utils/puzzleLogic.ts:105 | the result is the first index at the cell, or -1 exactly when the cell is empty |
| `PuzzleLogic.IndexOfIdKeptByIds` | utils/puzzleLogic.ts:82-83 | a lookup by id gives the same index in any list with the same ids in the same order |
| `PuzzleLogic.SwapPieces` | utils/puzzleLogic.ts:80-97 | the first pieces with the two ids trade cells, and their rotations and other fields stay. Other pieces are unchanged and the cells are permuted. A missing id or equal ids leave the list as it was |
| `PuzzleLogic.SwapInvolution` | utils/puzzleLogic.ts:80-97 | swapping the same pair twice restores the list |
| `PuzzleLogic.SwapSymmetric` | utils/puzzleLogic.ts:80-97 | the order of the two ids does not matter |
| `PuzzleLogic.SwapKeepsWellFormed` | utils/puzzleLogic.ts:80-97 | a swap keeps a well-formed state well formed |
| `PuzzleLogic.MovePiece` | utils/puzzleLogic.ts:99-118 | the mover lands on the target cell and the piece found there takes the mover's old cell. Other pieces are unchanged and the cells are permuted. A missing id or an empty target leaves the list as it was |
| `PuzzleLogic.MoveIsSwapWithOccupant` | utils/puzzleLogic.ts:99-118 | with distinct ids and an occupied target, a move is the swap with the target's occupant |
| `PuzzleLogic.MoveKeepsWellFormed` | utils/puzzleLogic.ts:99-118 | a move keeps a well-formed state well formed |
| `PuzzleLogic.IsHome` | utils/puzzleLogic.ts:121-125 | by definition the per-piece test of the win check: on the home cell with rotation 0 |
| `PuzzleLogic.CheckWinCondition` | utils/puzzleLogic.ts:120-128 | true exactly when every piece is on its home cell with rotation 0 (so true of no pieces) |
| `PuzzleLogic.SwapBreaksWin` | utils/puzzleLogic.ts:80-128 | swapping two pieces on different cells of a won board loses it |
| `PuzzleLogic.RotateBreaksWin` | utils/puzzleLogic.ts:73-128 | one quarter turn of any piece of a won board loses it |
| `PuzzleLogic.GetPieceAtPosition` | utils/puzzleLogic.ts:130-132 | absent exactly when no piece is at the cell; otherwise it is the first piece there |
| `PuzzleLogic.BoardLookup` | utils/puzzleLogic.ts:130-132 | on a board the lookup finds a piece exactly for grid cells, and that piece is the only one at the cell |
| `PuzzleLogic.GetDifficultyGridSize` | utils/puzzleLogic.ts:134-137 | the size is difficulty + 2 up to difficulty 7 and 9 from there on |
| `PuzzleLogic.DifficultyGridSizeMonotone` | utils/puzzleLogic.ts:134-137 | a harder difficulty never gives a smaller grid |
| `PuzzleLogic.GetLevelGridDimensions` | utils/puzzleLogic.ts:139-154 | ids 1..20 fall in five bands of four with dimensions 4x3, 5x4, 6x4, 6x5 and 7x5; any other id gets 4x3; rows >= cols > 0 always |
| `PuzzleLogic.LevelGridGrows` | utils/puzzleLogic.ts:139-150 | within levels 1..20 a later level never has fewer rows, columns or cells |
| `PuzzleGrid.GridController.constructor` | components/PuzzleGrid.tsx:39-41 | the controller starts with no selection and no win animation, on the given state |
| `PuzzleGrid.GridController.HandleRotate` | components/PuzzleGrid.tsx:65-84 | an unknown id publishes nothing. Otherwise only the first piece with the id turns, moves goes up by exactly one, isComplete equals the win check of the new pieces, the other fields carry over and the win animation starts on a complete board. The selection is untouched, a won board is lost, and well-formedness is kept |
| `PuzzleGrid.GridController.HandleTap` | components/PuzzleGrid.tsx:86-110 | with no selection the tap selects and changes nothing else; a tap on the selected piece deselects. A tap on another piece publishes the `SwapPieces` result with moves + 1 and the recomputed isComplete, and clears the selection. Well-formedness is kept |
| `PuzzleGrid.TapPairTwice` | components/PuzzleGrid.tsx:86-110 | four taps a, b, a, b restore the pieces but count two moves |
| `App.HasRecord` | app/index.tsx:98 | by definition the truthiness test `level.bestMoves ?`: a record is present and not 0 |
| `App.NewBestMoves` | app/index.tsx:98 | the record never exceeds the new move count. With no truthy previous record it is the move count; otherwise it is the smaller of the two |
| `App.WonLevel` | app/index.tsx:97-103 | the won level is completed and its record is exactly `NewBestMoves` of the old record and the move count, so no worse than either; nothing else changes |
| `App.UpdatedLevels` | app/index.tsx:96-106 | same length; levels whose id is the selected one are marked won and every other level is unchanged |
| `App.UpdatedLevelsKeepIds` | app/index.tsx:96-106 | a win changes no id, so a list numbered 1, 2, 3, ... stays numbered |
| `App.UpdatedLevelsIdempotent` | app/index.tsx:96-106 | recording the same win twice equals recording it once |
| `App.UpdatedLevelsKeepMinimum` | app/index.tsx:96-106 | two wins with a non-zero first move count leave the record of one win in the smaller count |
| `App.ZeroMoveRecordIsForgotten` | app/index.tsx:98 | a stored record of 0 is falsy and is replaced by the next win's count |
| `App.HasNextLevel` | app/index.tsx:167 | by definition `selectedLevel.id < levelData.length`; `HasNextLevelIffNextExists` relates it to the next level's existence |
| `App.NextLevel` | app/index.tsx:128 | none is found exactly when no level has the next id; otherwise the result is the first level in the list with that id |
| `App.HasNextLevelIffNextExists` | app/index.tsx:167 | with levels numbered 1, 2, 3, ... and a non-negative id, `id < length` holds exactly when the next level exists, and that level is at index id |
| `App.AppState.constructor` | app/index.tsx:48-53 | the app starts on the home screen, with nothing selected, no puzzle, playing, outside test mode |
| `App.AppState.HandleWin` | app/index.tsx:90-109 | without a selected level or a puzzle nothing changes; otherwise the game is completed and the level list is `UpdatedLevels` for the selected id and the puzzle's moves. Screen, selection, puzzle and test mode stay |
| `App.AppState.HandleBackToHome` | app/index.tsx:117-123 | home screen, nothing selected, no puzzle, playing, test mode off; the level list stays |
| `App.AppState.HandleNextLevel` | app/index.tsx:125-136 | without a selection nothing changes. When the next id exists that level is selected and the game is playing; otherwise it goes back home |
| `HomeScreen.IsAccessible` | components/HomeScreen.tsx:32 | by definition: `unlocked`, and either not `requiresPurchase` or `hasPurchasedPremium` |
| `HomeScreen.IsPremiumLocked` | components/HomeScreen.tsx:33 | by definition `requiresPurchase && !hasPurchasedPremium` |
| `HomeScreen.Disabled` | components/HomeScreen.tsx:43 | by definition `!isAccessible && !isPremiumLocked`; `DisabledIffLockedAndNotPremium` gives its closed form |
| `HomeScreen.HandleLevelPress` | components/HomeScreen.tsx:24-29 | a press hands on the level exactly when it is unlocked, whatever the purchase state |
| `HomeScreen.PressCard` | components/HomeScreen.tsx:36-43 | a disabled card selects nothing; an enabled one defers to the press handler |
| `HomeScreen.PremiumLockedIsNotAccessible` | components/HomeScreen.tsx:32-33 | a premium-locked level is not accessible |
| `HomeScreen.CardStatesPartition` | components/HomeScreen.tsx:32-43 | every card is exactly one of accessible, premium-locked or disabled |
| `HomeScreen.DisabledIffLockedAndNotPremium` | components/HomeScreen.tsx:32-43 | a card is disabled exactly when its level is locked and not premium-locked |
| `HomeScreen.AccessWithoutPremiumGate` | components/HomeScreen.tsx:32-33 | for a free level or after purchase, access is `unlocked` and nothing is premium-locked |
| `HomeScreen.PressSelectsIffUnlocked` | components/HomeScreen.tsx:24-43 | pressing a card selects its level exactly when the level is unlocked; disabling never blocks an unlocked level |
| `HomeScreen.AccessibleIsSelectable` | components/HomeScreen.tsx:24-43 | an accessible card selects its level |
| `HomeScreen.PremiumLockedUnlockedIsSelectable` | components/HomeScreen.tsx:24-43 | an unlocked purchase-only level is selected without premium, although it shows as premium-locked |
| `HomeScreen.EnabledButInert` | components/HomeScreen.tsx:24-43 | a card that takes presses but selects nothing is exactly a locked, premium-locked level |

## Left out

- Randomness. The model does not describe the uniform distribution of the Fisher–Yates picks or of the rotations. The draws are arbitrary inputs, so every outcome is covered but no probability claim is made.
- The random hex colours of `app/index.tsx` are left out. Colours are an input grid.
- PuzzleLogic.ScramblePuzzle works on a copy of the pieces. The source copies only the array and updates the shared piece objects in place, so the caller's pieces change too. `createPuzzle` discards its own array, so nothing observable differs there.
- PuzzleLogic.CreatePuzzle has no default arguments. The source defaults `rows = 3, cols = 4`.
- Non-integer `rows`, `cols`, rotations, ids and moves are left out, because JavaScript numbers are modelled as unbounded integers.
- PuzzleLogic.RotatePiece promises a result in [0, 360) only for rotations >= -90. That covers every rotation the program produces.
- PuzzleGrid.GridController.HandleRotate and HandleTap hand over the published state themselves. In the source, `onPuzzleUpdate` sends it to the parent and the parent passes it back as a property. The model assumes the parent stores it unchanged. React's render scheduling is not modelled; the stale win callback it causes is described under `App.AppState.HandleWin` below.
- The reset of `showWinAnimation` when the game goes back to playing is an effect hook, and it is left out. So are the win-animation timers, the delayed `onWin` call, piece sizing in floating point, and sharing. All of these are rendering or timing.
- `handleLevelSelect`, the puzzle creation effect and test mode's own screen are left out. They are hook sequencing rather than named handlers. Test mode is modelled only as the flag that `handleBackToHome` clears.
- The root screen renders the home screen without `hasPurchasedPremium`, so in the app as shipped the flag is always falsy. The home-screen predicates take it as a parameter.
- The level catalogue of `utils/levels.ts` and its images are left out, because they are static data. Winning a level does not unlock the next one in the source either.
- In-app purchase, audio and the other screens are left out: they are store or media I/O with no game logic.
- App.AppState.HandleWin records the moves of the puzzle state it is given. In the source the win callback is a stale closure. `startWinAnimation` (components/PuzzleGrid.tsx:112-123) is reached from `handleTap` or `handleRotate` and calls, after its timer, the `onWin` property of the render before the winning move. That `handleWin` still holds the previous `puzzleState` (app/index.tsx:90-98). So the stored `bestMoves` is the move count before the winning move, one less than the count on screen. A stored record of 0 is therefore reachable for a board served one move from solved, which is the case `ZeroMoveRecordIsForgotten` describes. The model does not capture this off-by-one.
