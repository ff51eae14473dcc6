/** The values of the tic-tac-toe engine: what a square holds, what a game
    position is classified as, and the success/failure wrappers its
    operations return. */
module Cells {

  /** The content of one square: a player's mark or nothing. */
  datatype Cell = X | O | Blank

  /** The classification of a board position. */
  datatype GameState = InProgress | Winner(player: Cell) | Draw

  /** A value or an error, as an operation that can fail returns it. */
  datatype Result<+T, +E> = Ok(value: T) | Err(error: E)

  datatype Option<+T> = None | Some(value: T)

  /** The character a square is shown as. */
  function Symbol(c: Cell): char
  {
    match c
    case X => 'X'
    case O => 'O'
    case Blank => '.'
  }

  /** Distinct squares are shown as distinct characters, so the text
      rendering of a board loses nothing. */
  lemma SymbolInjective(a: Cell, b: Cell)
    ensures Symbol(a) == Symbol(b) ==> a == b
  {
  }

  /** Whose turn follows `current`'s. The source aborts when called with
      `Blank`; here that is a precondition. */
  function NextTurn(current: Cell): (next: Cell)
    requires current != Blank
    ensures next != Blank && next != current
  {
    match current
    case X => O
    case O => X
  }

  /** Passing the turn twice gives it back. */
  lemma NextTurnInvolution(current: Cell)
    requires current != Blank
    ensures NextTurn(NextTurn(current)) == current
  {
  }
}
