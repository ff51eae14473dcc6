# Tic-tac-toe engine, modelled in Dafny

A model of the two-player console tic-tac-toe game in `tictactoe/src/main.rs`:
the square type `BoardState` (`X`, `O`, `Blank`) and the outcome type
`GameState` (`InProgress`, `Winner(p)`, `Draw`); the `Board` with its fixed
3x3 grid, its constructor, its only mutator `make_move` and its classifier
`check_game_state`; turn alternation `next_turn`; the input parser
`parse_input`; and the rule of the main loop that passes the turn only after
an accepted move.

Files and modules:

- `cells.dfy`, module `Cells`: `Cell` (the source's `BoardState`), `GameState`,
  a `Result`/`Option` pair of wrappers, the display symbol of a square and
  `NextTurn`.
- `grid.dfy`, module `Grids`: the board as a value (`Grid`, three rows of
  three), the reference definition of a win as a table of the eight lines
  (`Lines`, `Wins`), the engine's own checks (rows, columns, diagonal,
  anti-diagonal), `Evaluate` (the classification), `Move` (the effect of
  one move) and the count of empty squares.
- `board.dfy`, module `Boards`: class `Board`, holding the grid as an
  `array2<Cell>` that `MakeMove` updates in place. `CheckGameState` runs
  the source's loop over `[X, O]` with early returns and is proved equal to
  `Evaluate` of the array's contents; `MakeMove` is proved to write exactly
  one square or nothing.
- `parse.dfy`, module `Parsing`: `Split` (as `split(',')`), `Trim`,
  `ParseUsize` (as `parse::<usize>`) and `ParseInput`, with the round trip
  from two rendered numbers back to the pair.
- `game.dfy`, module `Game`: the first player (`O`) and `Step`, the effect
  of one line of input on the position and the turn.
- `scenarios.dfy`, module `Scenarios`: short games played on a `Board`
  (a row win, a draw, an occupied square, an off-board move).

The model follows the code in these points:

- The game starts with `O` to move (`tictactoe/src/main.rs:122`), not `X`.
- `make_move` does not check the mark it is given, so `MakeMove` and `Move`
  also accept `Blank` (writing `Blank` onto an empty square succeeds). The
  main loop only ever passes `X` or `O`.
- The errors are named after the code's messages ("Invalid coordinates",
  "This square is already filled", "Invalid number of inputs",
  "Invalid number"): `InvalidCoordinates`, `SquareFilled`,
  `WrongInputCount`, `InvalidNumber`.

## Model

| member | source | states |
|---|---|---|
| `Cells.SymbolInjective` | tictactoe/src/main.rs:18-28 | squares are shown as `X`, `O` and `.`; distinct squares get distinct characters |
| `Cells.NextTurn` | tictactoe/src/main.rs:98-104 | defined only for a player's mark; the result is the other player, never `Blank` |
| `Cells.NextTurnInvolution` | tictactoe/src/main.rs:98-104 | passing the turn twice gives it back |
| `Grids.EmptyGridIsBlank` | tictactoe/src/main.rs:35-37 | the starting position has all nine squares empty, nine empty squares, and is in progress |
| `Grids.HasFullLineIffWins` | tictactoe/src/main.rs:52-74 | the engine's four checks (any full row, any full column, main diagonal, anti-diagonal) hold exactly when one of the eight lines of the table is full of the player |
| `Grids.Evaluate` | tictactoe/src/main.rs:50-82 | `Winner(X)` iff X has a full line; `Winner(O)` iff O has one and X has none; `InProgress` iff no one has a line and a square is empty; `Draw` iff no one has a line and no square is empty; the winner is never `Blank` |
| `Grids.XTakesPriority` | tictactoe/src/main.rs:52-55 | when both players have a full line, X is reported |
| `Grids.Move` | tictactoe/src/main.rs:84-95 | out-of-range coordinates give `InvalidCoordinates` (checked first); an in-range filled square gives `SquareFilled`; otherwise the target square gets the mark and the other eight are unchanged |
| `Grids.BlankCountPositive` | tictactoe/src/main.rs:76-79 | at most nine squares are empty, and some square is empty exactly when the count is positive |
| `Grids.MoveUsesOneBlank` | tictactoe/src/main.rs:89-94 | an accepted move of a player reduces the number of empty squares by one |
| `Grids.FullBoardIsOver` | tictactoe/src/main.rs:76-81 | a board with no empty square is a win or a draw, never in progress |
| `Boards.Board.constructor` | tictactoe/src/main.rs:35-37 | a new board has a fresh 3x3 grid whose nine squares are all `Blank` |
| `Boards.Board.MakeMove` | tictactoe/src/main.rs:84-95 | refuses out-of-range coordinates first and a filled square next, changing nothing; otherwise the square was empty before, holds the mark after, and no other square changes; agrees with `Move` on the old position |
| `Boards.Board.CheckGameState` | tictactoe/src/main.rs:50-82 | reads the array only; the result is `Evaluate` of the current position |
| `Parsing.Split` | tictactoe/src/main.rs:107 | a line with n commas gives n + 1 parts, none containing a comma, which joined with commas give the line back |
| `Parsing.SplitPair` | tictactoe/src/main.rs:107-111 | two comma-free strings joined by one comma split into exactly those two parts |
| `Parsing.Trim` | tictactoe/src/main.rs:113-114 | the result is a middle part of the input with only whitespace before and after it; it is empty exactly when the input is all whitespace, and otherwise neither starts nor ends with whitespace |
| `Parsing.TrimPadded` | tictactoe/src/main.rs:113-114 | trimming a word surrounded by whitespace (such as the line feed left by reading a line) gives the word |
| `Parsing.LeadingZero` | tictactoe/src/main.rs:113-114 | a leading zero does not change the value of a string of digits |
| `Parsing.ParseUsize` | tictactoe/src/main.rs:113-114 | accepted exactly when, after one optional leading `+`, what remains is at least one digit, only digits, and denotes at most the largest `usize`; so the empty string, a lone `+` and anything starting with `-` are refused; an accepted string's value is the decimal value of its digits |
| `Parsing.ParseUsizeDecimal` | tictactoe/src/main.rs:113-114 | every value up to the largest `usize` parses back from its decimal rendering, with or without `+`; every larger value is refused |
| `Parsing.ParseUsizeZeroPadded` | tictactoe/src/main.rs:113-114 | any number of leading zeros, with or without `+`, is accepted and ignored: `07` and `+007` read as 7 |
| `Parsing.ParseInput` | tictactoe/src/main.rs:106-117 | `WrongInputCount` exactly when the line does not contain exactly one comma; accepted numbers fit in a `usize` |
| `Parsing.ParseInputAtComma` | tictactoe/src/main.rs:106-116 | a line with one comma is accepted exactly when both trimmed sides parse, and gives those two numbers unchecked against the board size; otherwise `InvalidNumber` |
| `Parsing.ParseInputRoundTrip` | tictactoe/src/main.rs:106-116 | two numbers up to the largest `usize`, rendered in decimal around one comma with any whitespace around each, parse back to the same pair |
| `Parsing.ParseInputBadNumber` | tictactoe/src/main.rs:109-114 | a line with one comma and a side that does not trim to a `usize` is refused with `InvalidNumber` |
| `Game.Step` | tictactoe/src/main.rs:134-147 | a line that `ParseInput` refuses, or a move `Move` refuses at the parsed square, leaves position and turn unchanged; an accepted move gives the position `Move` makes at the parsed `(row, col)` and passes the turn to the other player; the turn changes exactly when the position does, one empty square is then used up, and the turn is never `Blank` |
| `Game.StepsRunOut` | tictactoe/src/main.rs:123-128 | a position still in progress has an empty square, and an accepted move strictly reduces their number, so the loop ends after at most nine accepted moves |
| `Scenarios.RowWin` | tictactoe/src/main.rs:52-56 | X filling the top row while O holds two squares of the middle row is a win for X |
| `Scenarios.FullBoardDraw` | tictactoe/src/main.rs:76-81 | nine moves that leave X X O / O O X / X O X make a draw |
| `Scenarios.OccupiedSquare` | tictactoe/src/main.rs:89-91 | a second move onto a filled square is refused with `SquareFilled` and the first mark stays |
| `Scenarios.OffTheBoard` | tictactoe/src/main.rs:85-87 | a move at row 3 is refused with `InvalidCoordinates` and the board stays in progress |

## Left out

- `Board::draw` and every `println!`/`print!` (tictactoe/src/main.rs:38-48, 131, 140, 146, 150-155): console output. Only the symbol of each square (`Cells.Symbol`) is modelled.
- The `main` loop itself (tictactoe/src/main.rs:119-158): it interleaves reading standard input with the game. Its rule for advancing is `Game.Step` with the first player `Game.FirstTurn`; the input lines are parameters. The abort when a line cannot be read (`expect`, line 136) and the behaviour at end of input are not modelled.
- The abort after the loop when the outcome is still `InProgress` (tictactoe/src/main.rs:154): the loop only exits on an outcome other than `InProgress` (lines 125-128), so it cannot occur; it is not modelled as behaviour.
- The abort in `next_turn` on `Blank` (tictactoe/src/main.rs:102): a precondition of `Cells.NextTurn`.
- The text of the error messages: errors are enumerations.
- The numeric discriminants of `BoardState` (tictactoe/src/main.rs:6-8): nothing reads them.
- `Parsing.Trim`: removes only the six ASCII whitespace characters (tab, line feed, vertical tab, form feed, carriage return, space); `str::trim` also removes the non-ASCII characters with the Unicode White_Space property.
- `Parsing.ParseUsize`: takes `usize` to be 64 bits wide; on another target the bound `UsizeMax` differs.
- Coordinates are `nat` in `Move` and `MakeMove` rather than a bounded `usize`; every value `ParseInput` returns is at most `UsizeMax`.
