/**
 * The tile-puzzle state engine: pieces on a rows x cols board, the scramble
 * (Fisher–Yates over positions plus a random rotation per piece), the rotate,
 * swap and move transitions, the win check, position lookup and the
 * level-to-grid-size tables.
 *
 * Random numbers are supplied by the caller as sequences of naturals
 * ("draws"); a draw `d` stands for `Math.floor(Math.random() * n)` through
 * `d % n`, so every value the source can pick is reachable.
 */
module PuzzleLogic {
  import opened Builtins

  datatype Piece = Piece(
    id: int,
    row: int,
    col: int,
    correctRow: int,
    correctCol: int,
    rotation: int,   // degrees: 0, 90, 180 or 270
    color: string)

  datatype PuzzleState = PuzzleState(
    pieces: seq<Piece>,
    gridSize: int,
    gridRows: int,
    gridCols: int,
    isComplete: bool,
    moves: int)

  datatype Dimensions = Dimensions(rows: int, cols: int)

  /** The rotations the scramble picks from. */
  const Rotations: seq<int> := [0, 90, 180, 270]

  /** Colour of a cell the colour grid does not provide. */
  const DefaultColor: string := "#CCCCCC"

  predicate ValidRotation(r: int) {
    r == 0 || r == 90 || r == 180 || r == 270
  }

  function Pos(p: Piece): (int, int) {
    (p.row, p.col)
  }

  function Positions(s: seq<Piece>): (ps: seq<(int, int)>)
    ensures |ps| == |s|
  {
    seq(|s|, k requires 0 <= k < |s| => Pos(s[k]))
  }

  // ---------------------------------------------------------------------------
  // Board invariants
  // ---------------------------------------------------------------------------

  predicate InGrid(cell: (int, int), rows: int, cols: int) {
    0 <= cell.0 < rows && 0 <= cell.1 < cols
  }

  /** Every position is a grid cell, no two coincide, and no cell is left empty. */
  ghost predicate IsGridBijection(ps: seq<(int, int)>, rows: int, cols: int) {
    && (forall k :: 0 <= k < |ps| ==> InGrid(ps[k], rows, cols))
    && (forall i, j :: 0 <= i < j < |ps| ==> ps[i] != ps[j])
    && (forall r, c :: 0 <= r < rows && 0 <= c < cols ==> (r, c) in ps)
  }

  /** Exactly one piece occupies each cell of the rows x cols grid. */
  ghost predicate IsBoard(s: seq<Piece>, rows: int, cols: int) {
    IsGridBijection(Positions(s), rows, cols)
  }

  ghost predicate UniqueIds(s: seq<Piece>) {
    forall i, j :: 0 <= i < j < |s| ==> s[i].id != s[j].id
  }

  ghost predicate RotationsValid(s: seq<Piece>) {
    forall k :: 0 <= k < |s| ==> ValidRotation(s[k].rotation)
  }

  /** The invariants a puzzle keeps during play. */
  ghost predicate WellFormed(st: PuzzleState) {
    && IsBoard(st.pieces, st.gridRows, st.gridCols)
    && UniqueIds(st.pieces)
    && RotationsValid(st.pieces)
  }

  /** `b` is `a` with at most its position changed. */
  predicate SameButPosition(a: Piece, b: Piece) {
    b == a.(row := b.row, col := b.col)
  }

  lemma {:induction false} TwoOccurrences<T>(s: seq<T>, i: int, j: int)
    requires 0 <= i < j < |s|
    ensures s[i] == s[j] ==> multiset(s)[s[i]] >= 2
  {
    assert s == s[..j] + [s[j]] + s[j + 1..];
    assert s[..j][i] == s[i];
    assert s[i] in multiset(s[..j]);
  }

  lemma {:induction false} DistinctCountAtMostOne<T>(s: seq<T>, x: T)
    requires forall i, j :: 0 <= i < j < |s| ==> s[i] != s[j]
    ensures multiset(s)[x] <= 1
  {
    if |s| > 0 {
      var t := s[..|s| - 1];
      assert s == t + [s[|s| - 1]];
      DistinctCountAtMostOne(t, x);
      assert x == s[|s| - 1] ==> x !in t;
    }
  }

  /** A bijection onto the grid stays one when its cells are permuted. */
  lemma {:induction false} PermutationKeepsBijection(ps: seq<(int, int)>, qs: seq<(int, int)>, rows: int, cols: int)
    requires multiset(ps) == multiset(qs)
    requires IsGridBijection(ps, rows, cols)
    ensures IsGridBijection(qs, rows, cols)
  {
    forall k | 0 <= k < |qs| ensures InGrid(qs[k], rows, cols) {
      assert qs[k] in multiset(ps);
    }
    forall i, j | 0 <= i < j < |qs| ensures qs[i] != qs[j] {
      TwoOccurrences(qs, i, j);
      DistinctCountAtMostOne(ps, qs[i]);
    }
    forall r, c | 0 <= r < rows && 0 <= c < cols ensures (r, c) in qs {
      assert (r, c) in multiset(ps);
    }
  }

  // ---------------------------------------------------------------------------
  // Exchanging the positions of two entries (the step of scramble, swap, move)
  // ---------------------------------------------------------------------------

  /** Entry `i` takes entry `j`'s position and entry `j` takes entry `i`'s. */
  function Exchange(s: seq<Piece>, i: int, j: int): (r: seq<Piece>)
    requires 0 <= i < |s| && 0 <= j < |s|
    ensures |r| == |s|
  {
    s[i := s[i].(row := s[j].row, col := s[j].col)][j := s[j].(row := s[i].row, col := s[i].col)]
  }

  /** Only the two positions trade places; everything else stays. */
  lemma ExchangeFacts(s: seq<Piece>, i: int, j: int)
    requires 0 <= i < |s| && 0 <= j < |s|
    ensures Pos(Exchange(s, i, j)[i]) == Pos(s[j]) && Pos(Exchange(s, i, j)[j]) == Pos(s[i])
    ensures forall k :: 0 <= k < |s| ==> SameButPosition(s[k], Exchange(s, i, j)[k])
    ensures forall k :: 0 <= k < |s| && k != i && k != j ==> Exchange(s, i, j)[k] == s[k]
  {
  }

  lemma ExchangePermutesPositions(s: seq<Piece>, i: int, j: int)
    requires 0 <= i < |s| && 0 <= j < |s|
    ensures multiset(Positions(Exchange(s, i, j))) == multiset(Positions(s))
  {
    var ps := Positions(s);
    assert Positions(Exchange(s, i, j)) == ps[i := ps[j]][j := ps[i]];
  }

  lemma ExchangeTwice(s: seq<Piece>, i: int, j: int)
    requires 0 <= i < |s| && 0 <= j < |s|
    ensures Exchange(Exchange(s, i, j), i, j) == s
  {
  }

  // ---------------------------------------------------------------------------
  // createPuzzle: the solved board, built row by row
  // ---------------------------------------------------------------------------

  /** `colors[row]?.[col] || '#CCCCCC'`: a missing or empty entry falls back to grey. */
  function ColorAt(colors: seq<seq<string>>, row: int, col: int): (c: string)
    ensures c != ""
    ensures 0 <= row < |colors| && 0 <= col < |colors[row]| && colors[row][col] != "" ==> c == colors[row][col]
    ensures !(0 <= row < |colors| && 0 <= col < |colors[row]| && colors[row][col] != "") ==> c == DefaultColor
  {
    if 0 <= row < |colors| && 0 <= col < |colors[row]| && colors[row][col] != "" then colors[row][col]
    else DefaultColor
  }

  /** The piece created for cell (row, col): at home, unrotated. */
  function HomePiece(colors: seq<seq<string>>, id: int, row: int, col: int): (p: Piece)
    ensures p.id == id && Pos(p) == (row, col) && IsHome(p) && p.color == ColorAt(colors, row, col)
  {
    Piece(id, row, col, row, col, 0, ColorAt(colors, row, col))
  }

  /** The first `width` pieces of row `row`, with ids continuing the row-major count. */
  function RowPrefix(colors: seq<seq<string>>, row: int, cols: int, width: nat): seq<Piece> {
    seq(width, c requires 0 <= c < width => HomePiece(colors, row * cols + c, row, c))
  }

  /** How many pieces the creation loops push. */
  function PieceCount(rows: int, cols: int): nat {
    if rows > 0 && cols > 0 then rows * cols else 0
  }

  /** The pieces of the first `rows` rows, in the order the creation loops push them. */
  function SolvedPieces(colors: seq<seq<string>>, rows: int, cols: int): (s: seq<Piece>)
    ensures |s| == PieceCount(rows, cols)
    decreases rows
  {
    if rows <= 0 then []
    else
      var prev := SolvedPieces(colors, rows - 1, cols);
      assert rows > 1 && cols > 0 ==> (rows - 1) * cols + cols == rows * cols;
      prev + RowPrefix(colors, rows - 1, cols, if cols > 0 then cols else 0)
  }

  /** Position of cell (row, col) in row-major order. */
  function CellIndex(row: int, col: int, cols: int): int {
    row * cols + col
  }

  lemma CellIndexInRange(r: int, c: int, rows: int, cols: int)
    requires 0 <= r < rows && 0 <= c < cols
    ensures 0 <= CellIndex(r, c, cols) < rows * cols
  {
    var d := rows - (r + 1);
    assert d >= 0;
    assert r * cols >= 0;
    assert d * cols >= 0;
    assert rows * cols == r * cols + cols + d * cols by {
      assert rows == r + 1 + d;
    }
  }

  /** Piece `k` of the solved board has id `k` and sits on its own grid cell, unrotated. */
  lemma {:induction false} SolvedPiecesHome(colors: seq<seq<string>>, rows: int, cols: int)
    ensures forall k :: 0 <= k < |SolvedPieces(colors, rows, cols)| ==>
      var p := SolvedPieces(colors, rows, cols)[k];
      p.id == k && IsHome(p) && InGrid(Pos(p), rows, cols) && p.color == ColorAt(colors, p.row, p.col)
    decreases rows
  {
    if rows > 0 && cols > 0 {
      var s := SolvedPieces(colors, rows, cols);
      var prev := SolvedPieces(colors, rows - 1, cols);
      SolvedPiecesHome(colors, rows - 1, cols);
      var n := |prev|;
      assert n == (rows - 1) * cols;
      assert |s| == n + cols;
      forall k | 0 <= k < |s|
        ensures s[k].id == k && IsHome(s[k]) && InGrid(Pos(s[k]), rows, cols)
        ensures s[k].color == ColorAt(colors, s[k].row, s[k].col)
      {
        if k < n {
          assert s[k] == prev[k];
        } else {
          assert s[k] == RowPrefix(colors, rows - 1, cols, cols)[k - n];
          assert s[k] == HomePiece(colors, (rows - 1) * cols + (k - n), rows - 1, k - n);
          assert s[k].id == k;
        }
      }
    }
  }

  /** The piece of cell (r, c) is the `r * cols + c`-th one pushed, with that id. */
  lemma {:induction false} SolvedPiecesRowMajor(colors: seq<seq<string>>, rows: int, cols: int)
    ensures forall r, c :: 0 <= r < rows && 0 <= c < cols ==>
      0 <= CellIndex(r, c, cols) < |SolvedPieces(colors, rows, cols)| &&
      SolvedPieces(colors, rows, cols)[CellIndex(r, c, cols)] == HomePiece(colors, CellIndex(r, c, cols), r, c)
    decreases rows
  {
    if rows > 0 && cols > 0 {
      var s := SolvedPieces(colors, rows, cols);
      var prev := SolvedPieces(colors, rows - 1, cols);
      SolvedPiecesRowMajor(colors, rows - 1, cols);
      var n := |prev|;
      assert n == (rows - 1) * cols;
      forall r, c | 0 <= r < rows && 0 <= c < cols
        ensures 0 <= CellIndex(r, c, cols) < |s|
        ensures s[CellIndex(r, c, cols)] == HomePiece(colors, CellIndex(r, c, cols), r, c)
      {
        if r < rows - 1 {
          CellIndexInRange(r, c, rows - 1, cols);
          assert s[CellIndex(r, c, cols)] == prev[CellIndex(r, c, cols)];
        } else {
          assert CellIndex(r, c, cols) == n + c;
          assert s[n + c] == RowPrefix(colors, rows - 1, cols, cols)[c];
        }
      }
    }
  }

  /** Appending a full bottom row (rows - 1, 0), ..., (rows - 1, cols - 1) to a bijection onto the rows above gives one onto the whole grid. */
  lemma BijectionAddRow(pp: seq<(int, int)>, ps: seq<(int, int)>, rows: int, cols: int)
    requires rows > 0 && cols > 0
    requires IsGridBijection(pp, rows - 1, cols)
    requires |ps| == |pp| + cols
    requires forall k :: 0 <= k < |pp| ==> ps[k] == pp[k]
    requires forall k :: |pp| <= k < |ps| ==> ps[k] == (rows - 1, k - |pp|)
    ensures IsGridBijection(ps, rows, cols)
  {
    var n := |pp|;
    forall k | 0 <= k < |ps| ensures InGrid(ps[k], rows, cols) {
      if k < n {
        assert InGrid(pp[k], rows - 1, cols);
      }
    }
    forall i, j | 0 <= i < j < |ps| ensures ps[i] != ps[j] {
      if j < n {
        assert ps[i] == pp[i] && ps[j] == pp[j];
      } else if i < n {
        assert ps[i].0 < rows - 1 by { assert InGrid(pp[i], rows - 1, cols); }
      }
    }
    forall r, c | 0 <= r < rows && 0 <= c < cols ensures (r, c) in ps {
      if r < rows - 1 {
        assert (r, c) in pp;
        var k :| 0 <= k < n && pp[k] == (r, c);
        assert ps[k] == (r, c);
      } else {
        assert ps[n + c] == (r, c);
      }
    }
  }

  /** Before the scramble the pieces form a bijection onto the grid. */
  lemma {:induction false} SolvedPiecesIsBoard(colors: seq<seq<string>>, rows: int, cols: int)
    ensures IsBoard(SolvedPieces(colors, rows, cols), rows, cols)
    decreases rows
  {
    if rows > 0 && cols > 0 {
      var s := SolvedPieces(colors, rows, cols);
      var prev := SolvedPieces(colors, rows - 1, cols);
      var ps, pp := Positions(s), Positions(prev);
      SolvedPiecesIsBoard(colors, rows - 1, cols);
      var n := |prev|;
      assert n == (rows - 1) * cols;
      assert |s| == n + cols;
      assert forall k :: 0 <= k < n ==> ps[k] == pp[k] by {
        forall k | 0 <= k < n ensures ps[k] == pp[k] {
          assert s[k] == prev[k];
        }
      }
      assert forall k :: n <= k < |s| ==> ps[k] == (rows - 1, k - n) by {
        forall k | n <= k < |s| ensures ps[k] == (rows - 1, k - n) {
          assert s[k] == RowPrefix(colors, rows - 1, cols, cols)[k - n];
          assert s[k] == HomePiece(colors, (rows - 1) * cols + (k - n), rows - 1, k - n);
        }
      }
      BijectionAddRow(pp, ps, rows, cols);
    }
  }

  lemma {:induction false} SolvedPiecesWin(colors: seq<seq<string>>, rows: int, cols: int)
    ensures CheckWinCondition(SolvedPieces(colors, rows, cols))
  {
    SolvedPiecesHome(colors, rows, cols);
  }

  // ---------------------------------------------------------------------------
  // scramblePuzzle
  // ---------------------------------------------------------------------------

  /** The Fisher–Yates loop from index `i` down to 1: step `i` exchanges entries `i` and `draws[i] % (i + 1)`. */
  function ShuffleDown(s: seq<Piece>, draws: seq<nat>, i: int): (r: seq<Piece>)
    requires i < |s| <= |draws|
    ensures |r| == |s|
    decreases i
  {
    if i <= 0 then s else ShuffleDown(Exchange(s, i, draws[i] % (i + 1)), draws, i - 1)
  }

  function Shuffled(s: seq<Piece>, draws: seq<nat>): (r: seq<Piece>)
    requires |s| <= |draws|
    ensures |r| == |s|
  {
    ShuffleDown(s, draws, |s| - 1)
  }

  /** The `forEach` that gives piece `k` the rotation `[0, 90, 180, 270][rotDraws[k] % 4]`. */
  function RandomlyRotated(s: seq<Piece>, rotDraws: seq<nat>): (r: seq<Piece>)
    requires |s| <= |rotDraws|
    ensures |r| == |s|
    ensures forall k :: 0 <= k < |s| ==> r[k] == s[k].(rotation := r[k].rotation) && ValidRotation(r[k].rotation)
  {
    seq(|s|, k requires 0 <= k < |s| => s[k].(rotation := Rotations[rotDraws[k] % 4]))
  }

  function Scrambled(s: seq<Piece>, draws: seq<nat>, rotDraws: seq<nat>): (r: seq<Piece>)
    requires |s| <= |draws| && |s| <= |rotDraws|
    ensures |r| == |s|
  {
    RandomlyRotated(Shuffled(s, draws), rotDraws)
  }

  /** The shuffle moves positions only: each entry keeps every other field. */
  lemma {:induction false} ShuffleKeepsIdentity(s: seq<Piece>, draws: seq<nat>, i: int)
    requires i < |s| <= |draws|
    ensures |ShuffleDown(s, draws, i)| == |s|
    ensures forall k :: 0 <= k < |s| ==> SameButPosition(s[k], ShuffleDown(s, draws, i)[k])
    decreases i
  {
    if i > 0 {
      ShuffleKeepsIdentity(Exchange(s, i, draws[i] % (i + 1)), draws, i - 1);
    }
  }

  /** The shuffle permutes positions: the multiset of cells is unchanged. */
  lemma {:induction false} ShufflePermutesPositions(s: seq<Piece>, draws: seq<nat>, i: int)
    requires i < |s| <= |draws|
    ensures multiset(Positions(ShuffleDown(s, draws, i))) == multiset(Positions(s))
    decreases i
  {
    if i > 0 {
      var j := draws[i] % (i + 1);
      ExchangePermutesPositions(s, i, j);
      ShufflePermutesPositions(Exchange(s, i, j), draws, i - 1);
    }
  }

  /** Draw `k` at step `k` picks `j == i`, an exchange with itself: that shuffle is the identity. */
  lemma {:induction false} IdentityDrawsKeepOrder(s: seq<Piece>, draws: seq<nat>, i: int)
    requires i < |s| <= |draws|
    requires forall k :: 0 <= k < |draws| ==> draws[k] == k
    ensures ShuffleDown(s, draws, i) == s
    decreases i
  {
    if i > 0 {
      assert draws[i] % (i + 1) == i;
      assert Exchange(s, i, i) == s;
      IdentityDrawsKeepOrder(s, draws, i - 1);
    }
  }

  /** The scramble keeps ids, targets and colours, permutes the cells and leaves valid rotations. */
  lemma ScrambledProperties(pieces: seq<Piece>, rows: int, cols: int, draws: seq<nat>, rotDraws: seq<nat>)
    requires |pieces| <= |draws| && |pieces| <= |rotDraws|
    ensures |Scrambled(pieces, draws, rotDraws)| == |pieces|
    ensures forall k :: 0 <= k < |pieces| ==>
      var p := Scrambled(pieces, draws, rotDraws)[k];
      p == pieces[k].(row := p.row, col := p.col, rotation := p.rotation)
    ensures multiset(Positions(Scrambled(pieces, draws, rotDraws))) == multiset(Positions(pieces))
    ensures IsBoard(pieces, rows, cols) ==> IsBoard(Scrambled(pieces, draws, rotDraws), rows, cols)
    ensures RotationsValid(Scrambled(pieces, draws, rotDraws))
  {
    var shuffled := Shuffled(pieces, draws);
    var r := Scrambled(pieces, draws, rotDraws);
    ShuffleKeepsIdentity(pieces, draws, |pieces| - 1);
    ShufflePermutesPositions(pieces, draws, |pieces| - 1);
    assert Positions(r) == Positions(shuffled);
    if IsBoard(pieces, rows, cols) {
      PermutationKeepsBijection(Positions(pieces), Positions(r), rows, cols);
    }
  }

  /** One step of the shuffle: entries `i` and `j` of the array trade their row and column. */
  method ExchangeInPlace(a: array<Piece>, i: int, j: int)
    requires 0 <= i < a.Length && 0 <= j < a.Length
    modifies a
    ensures a[..] == Exchange(old(a[..]), i, j)
  {
    var tempRow, tempCol := a[i].row, a[i].col;
    a[i] := a[i].(row := a[j].row, col := a[j].col);
    a[j] := a[j].(row := tempRow, col := tempCol);
  }

  /** The `forEach` that gives every piece of the array a random rotation. */
  method RotateAllInPlace(a: array<Piece>, rotDraws: seq<nat>)
    requires a.Length <= |rotDraws|
    modifies a
    ensures a[..] == RandomlyRotated(old(a[..]), rotDraws)
  {
    var k := 0;
    while k < a.Length
      invariant 0 <= k <= a.Length
      invariant forall m :: 0 <= m < k ==> a[m] == old(a[m]).(rotation := Rotations[rotDraws[m] % 4])
      invariant forall m :: k <= m < a.Length ==> a[m] == old(a[m])
    {
      a[k] := a[k].(rotation := Rotations[rotDraws[k] % 4]);
      k := k + 1;
    }
  }

  /**
   * The Fisher–Yates position shuffle followed by a random rotation per piece,
   * run in place on a copy of `pieces`. `rows` and `cols` are not consulted.
   */
  method ScramblePuzzle(pieces: seq<Piece>, rows: int, cols: int, draws: seq<nat>, rotDraws: seq<nat>)
    returns (scrambled: seq<Piece>)
    requires |pieces| <= |draws| && |pieces| <= |rotDraws|
    ensures scrambled == Scrambled(pieces, draws, rotDraws)
    ensures |scrambled| == |pieces|
    ensures forall k :: 0 <= k < |pieces| ==>
      scrambled[k] == pieces[k].(row := scrambled[k].row, col := scrambled[k].col, rotation := scrambled[k].rotation)
    ensures multiset(Positions(scrambled)) == multiset(Positions(pieces))
    ensures IsBoard(pieces, rows, cols) ==> IsBoard(scrambled, rows, cols)
    ensures RotationsValid(scrambled)
  {
    var a := new Piece[|pieces|](k requires 0 <= k < |pieces| => pieces[k]);
    assert a[..] == pieces;
    var i := a.Length - 1;
    while i > 0
      invariant -1 <= i < a.Length
      invariant a.Length == 0 ==> i == -1
      invariant ShuffleDown(a[..], draws, i) == Shuffled(pieces, draws)
    {
      var j := draws[i] % (i + 1);
      ExchangeInPlace(a, i, j);
      i := i - 1;
    }
    RotateAllInPlace(a, rotDraws);
    scrambled := a[..];
    ScrambledProperties(pieces, rows, cols, draws, rotDraws);
  }

  // ---------------------------------------------------------------------------
  // createPuzzle
  // ---------------------------------------------------------------------------

  /**
   * Builds one piece per cell in row-major order (ids 0, 1, ...), then
   * scrambles them. `draws` and `rotDraws` stand for the scramble's random numbers.
   */
  method CreatePuzzle(colors: seq<seq<string>>, rows: int, cols: int, draws: seq<nat>, rotDraws: seq<nat>)
    returns (st: PuzzleState)
    requires PieceCount(rows, cols) <= |draws| && PieceCount(rows, cols) <= |rotDraws|
    ensures |st.pieces| == PieceCount(rows, cols)
    ensures st.pieces == Scrambled(SolvedPieces(colors, rows, cols), draws, rotDraws)
    ensures st.gridSize == Max(rows, cols) && st.gridRows == rows && st.gridCols == cols
    ensures !st.isComplete && st.moves == 0
    ensures forall k :: 0 <= k < |st.pieces| ==> st.pieces[k].id == k
    ensures WellFormed(st)
  {
    var pieces: seq<Piece> := [];
    var id := 0;
    var row := 0;
    while row < rows
      invariant 0 <= row <= Max(rows, 0)
      invariant pieces == SolvedPieces(colors, row, cols)
      invariant id == |pieces|
    {
      var col := 0;
      while col < cols
        invariant 0 <= col <= Max(cols, 0)
        invariant pieces == SolvedPieces(colors, row, cols) + RowPrefix(colors, row, cols, col)
        invariant id == |pieces| == PieceCount(row, cols) + col
      {
        assert PieceCount(row, cols) == row * cols;
        assert RowPrefix(colors, row, cols, col + 1) == RowPrefix(colors, row, cols, col) + [HomePiece(colors, id, row, col)];
        pieces := pieces + [Piece(id, row, col, row, col, 0, ColorAt(colors, row, col))];
        id := id + 1;
        col := col + 1;
      }
      assert cols <= 0 ==> RowPrefix(colors, row, cols, 0) == [];
      row := row + 1;
    }
    assert rows <= 0 ==> pieces == [] == SolvedPieces(colors, rows, cols);
    var scrambled := ScramblePuzzle(pieces, rows, cols, draws, rotDraws);
    st := PuzzleState(scrambled, Max(rows, cols), rows, cols, false, 0);
    CreatedIsWellFormed(colors, rows, cols, draws, rotDraws);
  }

  /** The served board keeps the row-major ids and is a well-formed puzzle. */
  lemma CreatedIsWellFormed(colors: seq<seq<string>>, rows: int, cols: int, draws: seq<nat>, rotDraws: seq<nat>)
    requires PieceCount(rows, cols) <= |draws| && PieceCount(rows, cols) <= |rotDraws|
    ensures forall k :: 0 <= k < PieceCount(rows, cols) ==>
      Scrambled(SolvedPieces(colors, rows, cols), draws, rotDraws)[k].id == k
    ensures WellFormed(PuzzleState(Scrambled(SolvedPieces(colors, rows, cols), draws, rotDraws), Max(rows, cols), rows, cols, false, 0))
  {
    var pieces := SolvedPieces(colors, rows, cols);
    var scrambled := Scrambled(pieces, draws, rotDraws);
    SolvedPiecesHome(colors, rows, cols);
    SolvedPiecesIsBoard(colors, rows, cols);
    ScrambledProperties(pieces, rows, cols, draws, rotDraws);
    assert forall k :: 0 <= k < |scrambled| ==> scrambled[k].id == pieces[k].id == k;
    assert UniqueIds(scrambled);
  }

  /**
   * `isComplete` is set to false without looking: when the draws pick `j == i`
   * at every step and rotation 0 for every piece, the served board is solved.
   */
  lemma CreateMaySolve(colors: seq<seq<string>>, rows: int, cols: int, draws: seq<nat>, rotDraws: seq<nat>)
    requires PieceCount(rows, cols) <= |draws| && PieceCount(rows, cols) <= |rotDraws|
    requires forall k :: 0 <= k < |draws| ==> draws[k] == k
    requires forall k :: 0 <= k < |rotDraws| ==> rotDraws[k] % 4 == 0
    ensures CheckWinCondition(Scrambled(SolvedPieces(colors, rows, cols), draws, rotDraws))
  {
    var s := SolvedPieces(colors, rows, cols);
    SolvedPiecesHome(colors, rows, cols);
    IdentityDrawsKeepOrder(s, draws, |s| - 1);
    forall k | 0 <= k < |s| ensures IsHome(Scrambled(s, draws, rotDraws)[k]) {
      assert Scrambled(s, draws, rotDraws)[k] == s[k].(rotation := 0);
    }
  }

  // ---------------------------------------------------------------------------
  // rotatePiece
  // ---------------------------------------------------------------------------

  /** `{...piece, rotation: (piece.rotation + 90) % 360}` with JavaScript's `%`. */
  function RotatePiece(p: Piece): (r: Piece)
    ensures r == p.(rotation := r.rotation)
    ensures (r.rotation - (p.rotation + 90)) % 360 == 0
    ensures p.rotation >= -90 ==> 0 <= r.rotation < 360
    ensures ValidRotation(p.rotation) ==> ValidRotation(r.rotation) && r.rotation != p.rotation
  {
    var r := Rem(p.rotation + 90, 360);
    p.(rotation := r)
  }

  /** Four quarter turns give back any rotation in [0, 360). */
  lemma RotateFourTimes(p: Piece)
    requires 0 <= p.rotation < 360
    ensures RotatePiece(RotatePiece(RotatePiece(RotatePiece(p)))) == p
  {
  }

  /** Any number of quarter turns keeps a valid rotation valid. */
  function RotateTimes(p: Piece, n: nat): (r: Piece)
    ensures ValidRotation(p.rotation) ==> ValidRotation(r.rotation)
    ensures r == p.(rotation := r.rotation)
  {
    if n == 0 then p else RotatePiece(RotateTimes(p, n - 1))
  }

  /** Turning one piece keeps every position, so the puzzle stays well formed. */
  lemma RotateKeepsWellFormed(st: PuzzleState, i: int)
    requires WellFormed(st)
    requires 0 <= i < |st.pieces|
    ensures WellFormed(st.(pieces := st.pieces[i := RotatePiece(st.pieces[i])]))
  {
    var r := st.pieces[i := RotatePiece(st.pieces[i])];
    assert Positions(r) == Positions(st.pieces);
  }

  // ---------------------------------------------------------------------------
  // swapPieces and movePiece
  // ---------------------------------------------------------------------------

  function IndexOfId(pieces: seq<Piece>, id: int): (k: int)
    ensures -1 <= k < |pieces|
    ensures k == -1 <==> forall i :: 0 <= i < |pieces| ==> pieces[i].id != id
    ensures 0 <= k ==> pieces[k].id == id && forall i :: 0 <= i < k ==> pieces[i].id != id
  {
    FindIndex(pieces, (p: Piece) => p.id == id)
  }

  function IndexAtPosition(pieces: seq<Piece>, row: int, col: int): (k: int)
    ensures -1 <= k < |pieces|
    ensures k == -1 <==> forall i :: 0 <= i < |pieces| ==> Pos(pieces[i]) != (row, col)
    ensures 0 <= k ==> Pos(pieces[k]) == (row, col) && forall i :: 0 <= i < k ==> Pos(pieces[i]) != (row, col)
  {
    FindIndex(pieces, (p: Piece) => p.row == row && p.col == col)
  }

  /** Lookups by id see through any change that keeps every entry's id. */
  lemma IndexOfIdKeptByIds(s: seq<Piece>, t: seq<Piece>, id: int)
    requires |s| == |t|
    requires forall k :: 0 <= k < |s| ==> s[k].id == t[k].id
    ensures IndexOfId(s, id) == IndexOfId(t, id)
  {
    FindIndexRespectsAgreement(s, (p: Piece) => p.id == id, t, (p: Piece) => p.id == id);
  }

  /**
   * Exchanges the positions of the first pieces with ids `pieceId1` and
   * `pieceId2`; rotations and all other fields stay. Nothing happens if either
   * id is missing.
   */
  function SwapPieces(pieces: seq<Piece>, pieceId1: int, pieceId2: int): (r: seq<Piece>)
    ensures |r| == |pieces|
    ensures forall k :: 0 <= k < |pieces| ==> SameButPosition(pieces[k], r[k])
    ensures multiset(Positions(r)) == multiset(Positions(pieces))
    ensures pieceId1 == pieceId2 ==> r == pieces
    ensures var i, j := IndexOfId(pieces, pieceId1), IndexOfId(pieces, pieceId2);
      if i == -1 || j == -1 then r == pieces
      else
        && Pos(r[i]) == Pos(pieces[j]) && Pos(r[j]) == Pos(pieces[i])
        && forall k :: 0 <= k < |pieces| && k != i && k != j ==> r[k] == pieces[k]
  {
    var i := IndexOfId(pieces, pieceId1);
    var j := IndexOfId(pieces, pieceId2);
    if i != -1 && j != -1 then
      ExchangePermutesPositions(pieces, i, j);
      Exchange(pieces, i, j)
    else pieces
  }

  /** Swapping the same pair twice restores the original pieces. */
  lemma SwapInvolution(pieces: seq<Piece>, a: int, b: int)
    ensures SwapPieces(SwapPieces(pieces, a, b), a, b) == pieces
  {
    var t := SwapPieces(pieces, a, b);
    IndexOfIdKeptByIds(pieces, t, a);
    IndexOfIdKeptByIds(pieces, t, b);
    var i, j := IndexOfId(pieces, a), IndexOfId(pieces, b);
    if i != -1 && j != -1 {
      ExchangeTwice(pieces, i, j);
    }
  }

  /** The order of the two ids does not matter. */
  lemma SwapSymmetric(pieces: seq<Piece>, a: int, b: int)
    ensures SwapPieces(pieces, a, b) == SwapPieces(pieces, b, a)
  {
    var i, j := IndexOfId(pieces, a), IndexOfId(pieces, b);
    if i != -1 && j != -1 {
      assert Exchange(pieces, i, j) == Exchange(pieces, j, i);
    }
  }

  lemma SwapKeepsWellFormed(st: PuzzleState, a: int, b: int)
    requires WellFormed(st)
    ensures WellFormed(st.(pieces := SwapPieces(st.pieces, a, b)))
  {
    var r := SwapPieces(st.pieces, a, b);
    PermutationKeepsBijection(Positions(st.pieces), Positions(r), st.gridRows, st.gridCols);
  }

  /**
   * Moves the first piece with id `pieceId` to (newRow, newCol) and the first
   * piece found there to the mover's old cell. Nothing happens if the id is
   * missing or no piece occupies the target.
   */
  function MovePiece(pieces: seq<Piece>, pieceId: int, newRow: int, newCol: int): (r: seq<Piece>)
    ensures |r| == |pieces|
    ensures forall k :: 0 <= k < |pieces| ==> SameButPosition(pieces[k], r[k])
    ensures multiset(Positions(r)) == multiset(Positions(pieces))
    ensures var i, t := IndexOfId(pieces, pieceId), IndexAtPosition(pieces, newRow, newCol);
      if i == -1 || t == -1 then r == pieces
      else
        && Pos(r[i]) == (newRow, newCol) && Pos(r[t]) == Pos(pieces[i])
        && forall k :: 0 <= k < |pieces| && k != i && k != t ==> r[k] == pieces[k]
  {
    var i := IndexOfId(pieces, pieceId);
    if i != -1 then
      var t := IndexAtPosition(pieces, newRow, newCol);
      if t != -1 then
        ExchangePermutesPositions(pieces, i, t);
        Exchange(pieces, i, t)
      else pieces
    else pieces
  }

  /** With unique ids, a move is a swap with the piece occupying the target cell. */
  lemma MoveIsSwapWithOccupant(pieces: seq<Piece>, pieceId: int, newRow: int, newCol: int)
    requires UniqueIds(pieces)
    requires IndexAtPosition(pieces, newRow, newCol) != -1
    ensures var t := IndexAtPosition(pieces, newRow, newCol);
      MovePiece(pieces, pieceId, newRow, newCol) == SwapPieces(pieces, pieceId, pieces[t].id)
  {
    var t := IndexAtPosition(pieces, newRow, newCol);
    var k := IndexOfId(pieces, pieces[t].id);
    assert k == t;
  }

  lemma MoveKeepsWellFormed(st: PuzzleState, pieceId: int, newRow: int, newCol: int)
    requires WellFormed(st)
    ensures WellFormed(st.(pieces := MovePiece(st.pieces, pieceId, newRow, newCol)))
  {
    var r := MovePiece(st.pieces, pieceId, newRow, newCol);
    PermutationKeepsBijection(Positions(st.pieces), Positions(r), st.gridRows, st.gridCols);
  }

  // ---------------------------------------------------------------------------
  // checkWinCondition and getPieceAtPosition
  // ---------------------------------------------------------------------------

  predicate IsHome(p: Piece) {
    p.row == p.correctRow && p.col == p.correctCol && p.rotation == 0
  }

  /** `pieces.every(...)`: every piece is home with rotation 0 (true of no pieces). */
  function CheckWinCondition(pieces: seq<Piece>): (w: bool)
    ensures w <==> forall k :: 0 <= k < |pieces| ==> IsHome(pieces[k])
  {
    if |pieces| == 0 then true
    else IsHome(pieces[0]) && CheckWinCondition(pieces[1..])
  }

  /** From a won board, swapping two pieces on different cells loses it. */
  lemma SwapBreaksWin(pieces: seq<Piece>, a: int, b: int)
    requires CheckWinCondition(pieces)
    requires IndexOfId(pieces, a) != -1 && IndexOfId(pieces, b) != -1
    requires Pos(pieces[IndexOfId(pieces, a)]) != Pos(pieces[IndexOfId(pieces, b)])
    ensures !CheckWinCondition(SwapPieces(pieces, a, b))
  {
    var i := IndexOfId(pieces, a);
    assert !IsHome(SwapPieces(pieces, a, b)[i]);
  }

  /** From a won board, one quarter turn of any piece loses it. */
  lemma RotateBreaksWin(pieces: seq<Piece>, k: int)
    requires CheckWinCondition(pieces)
    requires 0 <= k < |pieces|
    ensures !CheckWinCondition(pieces[k := RotatePiece(pieces[k])])
  {
    assert !IsHome(pieces[k := RotatePiece(pieces[k])][k]);
  }

  /** The first piece at (row, col), if any. */
  function GetPieceAtPosition(pieces: seq<Piece>, row: int, col: int): (r: Option<Piece>)
    ensures r.None? <==> forall k :: 0 <= k < |pieces| ==> Pos(pieces[k]) != (row, col)
    ensures r.Some? ==> r.value == pieces[IndexAtPosition(pieces, row, col)]
  {
    Find(pieces, (p: Piece) => p.row == row && p.col == col)
  }

  /** On a board, every grid cell holds exactly one piece and lookups elsewhere find nothing. */
  lemma BoardLookup(pieces: seq<Piece>, rows: int, cols: int, row: int, col: int)
    requires IsBoard(pieces, rows, cols)
    ensures GetPieceAtPosition(pieces, row, col).Some? <==> InGrid((row, col), rows, cols)
    ensures GetPieceAtPosition(pieces, row, col).Some? ==>
      forall k :: 0 <= k < |pieces| && Pos(pieces[k]) == (row, col) ==> pieces[k] == GetPieceAtPosition(pieces, row, col).value
  {
    var ps := Positions(pieces);
    if InGrid((row, col), rows, cols) {
      assert (row, col) in ps;
      var k :| 0 <= k < |ps| && ps[k] == (row, col);
      assert Pos(pieces[k]) == (row, col);
    } else {
      forall k | 0 <= k < |pieces| ensures Pos(pieces[k]) != (row, col) {
        assert ps[k] == Pos(pieces[k]);
      }
    }
    var t := IndexAtPosition(pieces, row, col);
    forall k | 0 <= k < |pieces| && Pos(pieces[k]) == (row, col) ensures k == t {
      assert ps[k] == ps[t];
    }
  }

  // ---------------------------------------------------------------------------
  // Grid-size tables
  // ---------------------------------------------------------------------------

  /** `Math.min(3 + difficulty - 1, 9)`. */
  function GetDifficultyGridSize(difficulty: int): (n: int)
    ensures n <= 9
    ensures difficulty <= 7 ==> n == difficulty + 2
    ensures difficulty >= 7 ==> n == 9
  {
    Min(3 + difficulty - 1, 9)
  }

  lemma DifficultyGridSizeMonotone(d1: int, d2: int)
    requires d1 <= d2
    ensures GetDifficultyGridSize(d1) <= GetDifficultyGridSize(d2)
  {
  }

  /** The grid sizes of the five bands of four levels. */
  const Bands: seq<Dimensions> := [Dimensions(4, 3), Dimensions(5, 4), Dimensions(6, 4), Dimensions(6, 5), Dimensions(7, 5)]

  function GetLevelGridDimensions(levelId: int): (d: Dimensions)
    ensures 1 <= levelId <= 20 ==> d == Bands[(levelId - 1) / 4]
    ensures !(1 <= levelId <= 20) ==> d == Bands[0]
    ensures d.rows >= d.cols > 0
  {
    if levelId >= 1 && levelId <= 4 then Dimensions(4, 3)
    else if levelId >= 5 && levelId <= 8 then Dimensions(5, 4)
    else if levelId >= 9 && levelId <= 12 then Dimensions(6, 4)
    else if levelId >= 13 && levelId <= 16 then Dimensions(6, 5)
    else if levelId >= 17 && levelId <= 20 then Dimensions(7, 5)
    else Dimensions(4, 3)
  }

  /** Within levels 1 to 20, a later level never has a smaller grid. */
  lemma LevelGridGrows(a: int, b: int)
    requires 1 <= a <= b <= 20
    ensures var da, db := GetLevelGridDimensions(a), GetLevelGridDimensions(b);
      da.rows <= db.rows && da.cols <= db.cols && da.rows * da.cols <= db.rows * db.cols
  {
  }
}
