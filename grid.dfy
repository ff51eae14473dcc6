/** The board as a value: a 3x3 grid of squares, the eight winning lines,
    the classification of a position and the effect of one move. */
module Grids {
  import opened Cells

  /** A row or column number of the board. */
  type Index = i: int | 0 <= i < 3

  /** Three rows of three squares, row-major. */
  type Grid = g: seq<seq<Cell>> | |g| == 3 && |g[0]| == 3 && |g[1]| == 3 && |g[2]| == 3
    witness [[Blank, Blank, Blank], [Blank, Blank, Blank], [Blank, Blank, Blank]]

  /** Why a move is refused. */
  datatype MoveError = InvalidCoordinates | SquareFilled

  /** The position a new board starts in. */
  const EmptyGrid: Grid := [[Blank, Blank, Blank], [Blank, Blank, Blank], [Blank, Blank, Blank]]

  lemma EmptyGridIsBlank()
    ensures forall i: Index, j: Index :: EmptyGrid[i][j] == Blank
    ensures Evaluate(EmptyGrid) == InProgress
    ensures BlankCount(EmptyGrid) == 9
  {
    assert EmptyGrid[0][0] == Blank;
    assert !Wins(EmptyGrid, X) by { NoLineOfBlankGrid(X); }
    assert !Wins(EmptyGrid, O) by { NoLineOfBlankGrid(O); }
  }

  lemma NoLineOfBlankGrid(p: Cell)
    requires p != Blank
    ensures !Wins(EmptyGrid, p)
  {
    forall k | 0 <= k < |Lines| ensures !LineFull(EmptyGrid, Lines[k], p) {
      assert EmptyGrid[Lines[k][0].0][Lines[k][0].1] == Blank;
    }
  }

  // ---------------------------------------------------------------------
  // The reference definition of a win: a table of the eight lines.

  /** The eight lines of three squares: three rows, three columns, the main
      diagonal and the anti-diagonal. */
  const Lines: seq<seq<(Index, Index)>> := [
    [(0, 0), (0, 1), (0, 2)], [(1, 0), (1, 1), (1, 2)], [(2, 0), (2, 1), (2, 2)],
    [(0, 0), (1, 0), (2, 0)], [(0, 1), (1, 1), (2, 1)], [(0, 2), (1, 2), (2, 2)],
    [(0, 0), (1, 1), (2, 2)],
    [(0, 2), (1, 1), (2, 0)]
  ]

  /** Every square of `line` holds `p`. */
  ghost predicate LineFull(g: Grid, line: seq<(Index, Index)>, p: Cell)
  {
    forall m :: 0 <= m < |line| ==> g[line[m].0][line[m].1] == p
  }

  /** Some line of the board is entirely `p`. */
  ghost predicate Wins(g: Grid, p: Cell)
  {
    exists k :: 0 <= k < |Lines| && LineFull(g, Lines[k], p)
  }

  /** Some square is still empty. */
  predicate HasBlank(g: Grid)
  {
    exists i: Index, j: Index :: g[i][j] == Blank
  }

  // ---------------------------------------------------------------------
  // The checks as the engine performs them.

  predicate RowFull(g: Grid, i: Index, p: Cell)
  {
    forall j: Index :: g[i][j] == p
  }

  predicate ColFull(g: Grid, j: Index, p: Cell)
  {
    forall i: Index :: g[i][j] == p
  }

  predicate DiagFull(g: Grid, p: Cell)
  {
    forall i: Index :: g[i][i] == p
  }

  predicate AntiDiagFull(g: Grid, p: Cell)
  {
    forall i: Index :: g[i][2 - i] == p
  }

  /** The engine's test for `p`: any full row, then any full column, then
      the main diagonal, then the anti-diagonal. */
  predicate HasFullLine(g: Grid, p: Cell)
  {
    (exists i: Index :: RowFull(g, i, p)) ||
    (exists j: Index :: ColFull(g, j, p)) ||
    DiagFull(g, p) ||
    AntiDiagFull(g, p)
  }

  /** The engine's four checks find exactly the lines of the table. */
  lemma HasFullLineIffWins(g: Grid, p: Cell)
    ensures HasFullLine(g, p) <==> Wins(g, p)
  {
    if HasFullLine(g, p) {
      FullLineIsInTable(g, p);
    }
    if Wins(g, p) {
      var k :| 0 <= k < |Lines| && LineFull(g, Lines[k], p);
      TableLineIsFull(g, p, k);
    }
  }

  /** Each of the engine's checks finds one of the lines of the table. */
  lemma FullLineIsInTable(g: Grid, p: Cell)
    requires HasFullLine(g, p)
    ensures Wins(g, p)
  {
    var k: int;
    if i: Index :| RowFull(g, i, p) {
      k := i;
      assert g[i][0] == p && g[i][1] == p && g[i][2] == p;
    } else if j: Index :| ColFull(g, j, p) {
      k := 3 + j;
      assert g[0][j] == p && g[1][j] == p && g[2][j] == p;
    } else if DiagFull(g, p) {
      k := 6;
      assert g[0][0] == p && g[1][1] == p && g[2][2] == p;
    } else {
      k := 7;
      assert g[0][2] == p && g[1][1] == p && g[2][0] == p;
    }
    assert LineFull(g, Lines[k], p);
  }

  /** Each line of the table is found by one of the engine's checks. */
  lemma TableLineIsFull(g: Grid, p: Cell, k: int)
    requires 0 <= k < |Lines| && LineFull(g, Lines[k], p)
    ensures HasFullLine(g, p)
  {
    var line := Lines[k];
    assert g[line[0].0][line[0].1] == p && g[line[1].0][line[1].1] == p && g[line[2].0][line[2].1] == p;
    if k < 3 {
      assert RowFull(g, k, p);
    } else if k < 6 {
      assert ColFull(g, k - 3, p);
    } else if k == 6 {
      assert DiagFull(g, p);
    } else {
      assert AntiDiagFull(g, p);
    }
  }

  /** Classifies a position as check_game_state does: a winner if X, or
      failing that O, has a full line; otherwise in progress while a square
      is empty, and a draw once none is. */
  function Evaluate(g: Grid): (s: GameState)
    ensures s == Winner(X) <==> Wins(g, X)
    ensures s == Winner(O) <==> !Wins(g, X) && Wins(g, O)
    ensures s == InProgress <==> !Wins(g, X) && !Wins(g, O) && HasBlank(g)
    ensures s == Draw <==> !Wins(g, X) && !Wins(g, O) && !HasBlank(g)
    ensures s.Winner? ==> s.player != Blank
  {
    HasFullLineIffWins(g, X);
    HasFullLineIffWins(g, O);
    if HasFullLine(g, X) then Winner(X)
    else if HasFullLine(g, O) then Winner(O)
    else if HasBlank(g) then InProgress
    else Draw
  }

  /** When both players have a full line (a position no alternating game
      reaches) X is reported. */
  lemma XTakesPriority(g: Grid)
    requires Wins(g, X) && Wins(g, O)
    ensures Evaluate(g) == Winner(X)
  {
  }

  // ---------------------------------------------------------------------
  // One move.

  /** The effect of make_move on the position: the bounds are checked
      first, then that the square is empty, and only then is the one square
      written. */
  function Move(g: Grid, row: nat, col: nat, p: Cell): (r: Result<Grid, MoveError>)
    ensures r == Err(InvalidCoordinates) <==> row >= 3 || col >= 3
    ensures r == Err(SquareFilled) <==> row < 3 && col < 3 && g[row][col] != Blank
    ensures r.Ok? <==> row < 3 && col < 3 && g[row][col] == Blank
    ensures r.Ok? ==> row < 3 && col < 3 && r.value[row][col] == p
    ensures r.Ok? ==> forall i: Index, j: Index :: (i != row || j != col) ==> r.value[i][j] == g[i][j]
  {
    if row >= 3 || col >= 3 then Err(InvalidCoordinates)
    else if g[row][col] != Blank then Err(SquareFilled)
    else Ok(g[row := g[row][col := p]])
  }

  /** The number of empty squares. */
  function BlankCount(g: Grid): nat
  {
    RowBlanks(g[0]) + RowBlanks(g[1]) + RowBlanks(g[2])
  }

  function RowBlanks(r: seq<Cell>): nat
    requires |r| == 3
  {
    (if r[0] == Blank then 1 else 0) + (if r[1] == Blank then 1 else 0) + (if r[2] == Blank then 1 else 0)
  }

  /** A position has an empty square exactly when the count is positive. */
  lemma BlankCountPositive(g: Grid)
    ensures BlankCount(g) <= 9
    ensures BlankCount(g) > 0 <==> HasBlank(g)
  {
    if BlankCount(g) > 0 {
      var i: Index := if RowBlanks(g[0]) > 0 then 0 else if RowBlanks(g[1]) > 0 then 1 else 2;
      var j: Index := if g[i][0] == Blank then 0 else if g[i][1] == Blank then 1 else 2;
      assert g[i][j] == Blank;
    }
  }

  /** A successful move of a player uses up exactly one empty square. */
  lemma MoveUsesOneBlank(g: Grid, row: nat, col: nat, p: Cell)
    requires p != Blank && Move(g, row, col, p).Ok?
    ensures BlankCount(Move(g, row, col, p).value) + 1 == BlankCount(g)
  {
    var h := Move(g, row, col, p).value;
    forall i: Index | i != row ensures h[i] == g[i] {
      assert h[i][0] == g[i][0] && h[i][1] == g[i][1] && h[i][2] == g[i][2];
    }
    assert RowBlanks(h[row]) + 1 == RowBlanks(g[row]) by {
      forall j: Index | j != col ensures h[row][j] == g[row][j] { }
    }
  }

  /** A full board is never in progress: the game ends after at most nine
      successful moves. */
  lemma FullBoardIsOver(g: Grid)
    requires BlankCount(g) == 0
    ensures Evaluate(g) != InProgress
  {
    BlankCountPositive(g);
  }
}
