/** The board object: a fixed 3x3 array of squares that moves update in
    place. */
module Boards {
  import opened Cells
  import opened Grids

  class Board {
    var grid: array2<Cell>

    /** The grid keeps its 3x3 shape for the lifetime of the board. */
    ghost predicate Valid()
      reads this
    {
      grid.Length0 == 3 && grid.Length1 == 3
    }

    /** The position the array currently holds. */
    ghost function Cells(): Grid
      reads this, grid
      requires Valid()
    {
      [[grid[0, 0], grid[0, 1], grid[0, 2]],
       [grid[1, 0], grid[1, 1], grid[1, 2]],
       [grid[2, 0], grid[2, 1], grid[2, 2]]]
    }

    /** A new board: all nine squares are empty. */
    constructor ()
      ensures Valid() && fresh(grid)
      ensures forall i: Index, j: Index :: grid[i, j] == Blank
      ensures Cells() == EmptyGrid
    {
      grid := new Cell[3, 3]((i, j) => Blank);
    }

    /** Places `player` at (`row`, `col`). Out-of-range coordinates are
        refused first, then a square that is already filled; a refused move
        leaves the board as it was, and an accepted one writes exactly one
        square. */
    method MakeMove(row: nat, col: nat, player: Cell) returns (r: Result<(), MoveError>)
      requires Valid()
      modifies grid
      ensures Valid()
      ensures r == Err(InvalidCoordinates) <==> row >= 3 || col >= 3
      ensures r == Err(SquareFilled) <==> row < 3 && col < 3 && old(grid[row, col]) != Blank
      ensures r.Err? ==> unchanged(grid)
      ensures r.Ok? ==> row < 3 && col < 3 && old(grid[row, col]) == Blank && grid[row, col] == player
      ensures r.Ok? ==> forall i: Index, j: Index :: (i != row || j != col) ==> grid[i, j] == old(grid[i, j])
      ensures match Move(old(Cells()), row, col, player)
              case Ok(g) => r.Ok? && Cells() == g
              case Err(e) => r == Err(e) && Cells() == old(Cells())
    {
      if row >= 3 || col >= 3 {
        return Err(InvalidCoordinates);
      }
      if grid[row, col] != Blank {
        return Err(SquareFilled);
      }
      ghost var before := Cells();
      grid[row, col] := player;
      assert Cells() == before[row := before[row][col := player]] by {
        forall i: Index ensures Cells()[i] == before[row := before[row][col := player]][i] { }
      }
      return Ok(());
    }

    /** Classifies the current position, checking for X and then O the
        rows, the columns, the main diagonal and the anti-diagonal, and
        then whether any square is still empty. */
    method CheckGameState() returns (s: GameState)
      requires Valid()
      ensures s == Evaluate(Cells())
    {
      var players := [X, O];
      for k := 0 to 2
        invariant k > 0 ==> !HasFullLine(Cells(), X)
        invariant k > 1 ==> !HasFullLine(Cells(), O)
      {
        var player := players[k];
        var i := 0;
        while i < 3
          invariant 0 <= i <= 3
          invariant forall m: Index :: m < i ==> !RowFull(Cells(), m, player)
        {
          if grid[i, 0] == player && grid[i, 1] == player && grid[i, 2] == player {
            assert RowFull(Cells(), i, player);
            assert HasFullLine(Cells(), player);
            return Winner(player);
          }
          assert !RowFull(Cells(), i, player) by {
            assert Cells()[i][0] != player || Cells()[i][1] != player || Cells()[i][2] != player;
          }
          i := i + 1;
        }
        var j := 0;
        while j < 3
          invariant 0 <= j <= 3
          invariant forall m: Index :: m < j ==> !ColFull(Cells(), m, player)
        {
          if grid[0, j] == player && grid[1, j] == player && grid[2, j] == player {
            assert ColFull(Cells(), j, player);
            assert HasFullLine(Cells(), player);
            return Winner(player);
          }
          assert !ColFull(Cells(), j, player) by {
            assert Cells()[0][j] != player || Cells()[1][j] != player || Cells()[2][j] != player;
          }
          j := j + 1;
        }
        if grid[0, 0] == player && grid[1, 1] == player && grid[2, 2] == player {
          assert DiagFull(Cells(), player);
          return Winner(player);
        }
        if grid[0, 2] == player && grid[1, 1] == player && grid[2, 0] == player {
          assert AntiDiagFull(Cells(), player);
          return Winner(player);
        }
      }
      var i := 0;
      while i < 3
        invariant 0 <= i <= 3
        invariant forall m: Index, n: Index :: m < i ==> grid[m, n] != Blank
      {
        var j := 0;
        while j < 3
          invariant 0 <= j <= 3
          invariant forall n: Index :: n < j ==> grid[i, n] != Blank
        {
          if grid[i, j] == Blank {
            assert Cells()[i][j] == Blank;
            return InProgress;
          }
          j := j + 1;
        }
        i := i + 1;
      }
      return Draw;
    }
  }
}
