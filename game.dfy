/** The rule by which the console game advances: one line of input is
    read, parsed and played for the player whose turn it is. */
module Game {
  import opened Cells
  import opened Grids
  import opened Parsing

  /** The player who moves first. */
  const FirstTurn: Cell := O

  /** One line of input for the player `turn` in position `g`: a line that
      does not parse, or a move the board refuses, leaves both the position
      and the turn as they were; a move the board accepts is made and the
      turn passes to the other player. Playing on is decided by
      Evaluate(g) == InProgress, outside this rule. */
  function Step(g: Grid, turn: Cell, line: string): (r: (Grid, Cell))
    requires turn != Blank
    ensures r.1 != Blank
    ensures r.1 == turn <==> r.0 == g
    ensures r.1 != turn ==> r.1 == NextTurn(turn) && BlankCount(r.0) + 1 == BlankCount(g)
    ensures ParseInput(line).Err? ==> r == (g, turn)
    ensures ParseInput(line).Ok? ==>
      var (row, col) := ParseInput(line).value;
      match Move(g, row, col, turn)
      case Err(_) => r == (g, turn)
      case Ok(h) => r == (h, NextTurn(turn))
  {
    match ParseInput(line)
    case Err(_) => (g, turn)
    case Ok((row, col)) =>
      match Move(g, row, col, turn)
      case Err(_) => (g, turn)
      case Ok(h) =>
        MoveUsesOneBlank(g, row, col, turn);
        (h, NextTurn(turn))
  }

  /** A game lasts at most nine accepted moves: each uses up an empty
      square, and once none is left the position is no longer in
      progress. */
  lemma StepsRunOut(g: Grid, turn: Cell, line: string)
    requires turn != Blank && Evaluate(g) == InProgress
    ensures BlankCount(g) > 0
    ensures Step(g, turn, line).1 != turn ==> BlankCount(Step(g, turn, line).0) < BlankCount(g)
  {
    BlankCountPositive(g);
  }
}
