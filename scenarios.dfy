/** Short games played on a Board object, whose results follow from the
    contracts of Board alone. */
module Scenarios {
  import opened Cells
  import opened Grids
  import opened Boards

  /** X completes the top row while O holds two squares of the middle
      row. */
  method RowWin() returns (s: GameState)
    ensures s == Winner(X)
  {
    var b := new Board();
    var r := b.MakeMove(0, 0, X);
    r := b.MakeMove(1, 0, O);
    r := b.MakeMove(0, 1, X);
    r := b.MakeMove(1, 1, O);
    r := b.MakeMove(0, 2, X);
    assert RowFull(b.Cells(), 0, X);
    s := b.CheckGameState();
  }

  /** Nine moves that leave no full line: X X O / O O X / X O X. */
  method FullBoardDraw() returns (s: GameState)
    ensures s == Draw
  {
    var b := new Board();
    var r := b.MakeMove(0, 0, X);
    r := b.MakeMove(0, 2, O);
    r := b.MakeMove(0, 1, X);
    assert b.Cells()[0] == [X, X, O];
    r := b.MakeMove(1, 0, O);
    r := b.MakeMove(1, 2, X);
    r := b.MakeMove(1, 1, O);
    assert b.Cells()[0] == [X, X, O] && b.Cells()[1] == [O, O, X];
    r := b.MakeMove(2, 0, X);
    r := b.MakeMove(2, 1, O);
    r := b.MakeMove(2, 2, X);
    assert b.Cells() == DrawnPosition;
    DrawnPositionIsDraw();
    s := b.CheckGameState();
  }

  const DrawnPosition: Grid := [[X, X, O], [O, O, X], [X, O, X]]

  lemma DrawnPositionIsDraw()
    ensures Evaluate(DrawnPosition) == Draw
  {
    var g := DrawnPosition;
    FullLineBySquares(g, X);
    FullLineBySquares(g, O);
    assert g[2][2] != Blank;
  }

  /** A full line, spelled out square by square: the eight triples of
      squares on which `p` can win. */
  predicate FullTriple(g: Grid, p: Cell)
  {
    (g[0][0] == p && g[0][1] == p && g[0][2] == p) ||
    (g[1][0] == p && g[1][1] == p && g[1][2] == p) ||
    (g[2][0] == p && g[2][1] == p && g[2][2] == p) ||
    (g[0][0] == p && g[1][0] == p && g[2][0] == p) ||
    (g[0][1] == p && g[1][1] == p && g[2][1] == p) ||
    (g[0][2] == p && g[1][2] == p && g[2][2] == p) ||
    (g[0][0] == p && g[1][1] == p && g[2][2] == p) ||
    (g[0][2] == p && g[1][1] == p && g[2][0] == p)
  }

  /** The engine's checks and the eight triples agree. */
  lemma FullLineBySquares(g: Grid, p: Cell)
    ensures HasFullLine(g, p) <==> FullTriple(g, p)
  {
    if HasFullLine(g, p) {
      ChecksFindTriple(g, p);
    }
    if FullTriple(g, p) {
      TripleFoundByChecks(g, p);
    }
  }

  lemma ChecksFindTriple(g: Grid, p: Cell)
    requires HasFullLine(g, p)
    ensures FullTriple(g, p)
  {
    if i: Index :| RowFull(g, i, p) {
      assert g[i][0] == p && g[i][1] == p && g[i][2] == p;
      if i == 0 { } else if i == 1 { } else { }
    } else if j: Index :| ColFull(g, j, p) {
      assert g[0][j] == p && g[1][j] == p && g[2][j] == p;
      if j == 0 { } else if j == 1 { } else { }
    } else if DiagFull(g, p) {
      assert g[0][0] == p && g[1][1] == p && g[2][2] == p;
    } else {
      assert g[0][2] == p && g[1][1] == p && g[2][0] == p;
    }
  }

  lemma TripleFoundByChecks(g: Grid, p: Cell)
    requires FullTriple(g, p)
    ensures HasFullLine(g, p)
  {
    forall i: Index | g[i][0] == p && g[i][1] == p && g[i][2] == p ensures RowFull(g, i, p) {
      forall j: Index ensures g[i][j] == p { if j == 0 { } else if j == 1 { } else { } }
    }
    forall j: Index | g[0][j] == p && g[1][j] == p && g[2][j] == p ensures ColFull(g, j, p) {
      forall i: Index ensures g[i][j] == p { if i == 0 { } else if i == 1 { } else { } }
    }
    if g[0][0] == p && g[1][1] == p && g[2][2] == p {
      forall i: Index ensures g[i][i] == p { if i == 0 { } else if i == 1 { } else { } }
    }
    if g[0][2] == p && g[1][1] == p && g[2][0] == p {
      forall i: Index ensures g[i][2 - i] == p { if i == 0 { } else if i == 1 { } else { } }
    }
  }

  /** A second move onto the same square is refused and the first mark
      stays. */
  method OccupiedSquare() returns (first: Result<(), MoveError>, second: Result<(), MoveError>, cell: Cell)
    ensures first.Ok? && second == Err(SquareFilled) && cell == X
  {
    var b := new Board();
    first := b.MakeMove(0, 0, X);
    second := b.MakeMove(0, 0, O);
    cell := b.grid[0, 0];
  }

  /** A row number past the board is refused and the board stays empty. */
  method OffTheBoard() returns (r: Result<(), MoveError>, s: GameState)
    ensures r == Err(InvalidCoordinates) && s == InProgress
  {
    var b := new Board();
    r := b.MakeMove(3, 0, X);
    EmptyGridIsBlank();
    s := b.CheckGameState();
  }
}
