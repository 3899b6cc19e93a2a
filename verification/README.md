# Tic-tac-toe engine of `script.js`, modelled in Dafny

The page plays tic-tac-toe between a human (`X`) and the computer (`O`). Its
engine is a nine-cell array `gameState` (each cell `''`, `'X'` or `'O'`), a
`currentPlayer` field, the eight fixed winning lines, and these operations:
reset (`initializeGame`), the click guard and the player's move
(`handleCellClick`), the computer's reply (`aiMove`), the computer's choice
(`findBestMove`), and the terminal tests (`checkWinner`, `checkTie`, with the
win-before-tie choice of `updateGameStatus`).

The model has three modules:

- `Board` (board.dfy): cells, the marks `X` and `O`, the board as a nine-element sequence, the
  winning lines in scan order, `CheckWinner`, `CheckTie`, `EmptyCells`,
  `GameStatus` and the click guard, as pure functions.
- `Opponent` (opponent.dfy): the move choice. `ScanLines` is the scan over the
  lines with its early returns, and `BestMove` is the whole of `findBestMove`.
  They are compared with an independent statement of the rule: `Completes`
  says when a pair of cells applies, and `FirstCompletion` says which
  applicable pair comes first in line order and pair order.
- `Game` (game.dfy): the class `TicTacToe`. It holds the `gameState` array and
  `currentPlayer`, and its methods change them in place as the page does.
  `FindBestMove` is the page's loop, proved equal to `BestMove`.

Two behaviours of the code are modelled as written, not corrected:

- `currentPlayer` only ever holds `X`; the class invariant `Valid()` says so.
  So the tests after the computer's move look for an `X` line or a full board.
  A line completed by `O` is never reported, and play goes on: `ClickCell`
  never reports a win for `O`, and `ComputerWinUndetected` shows a board where
  `O` completes a line and the game continues.
- The rule does not ask whose marks the pair holds. A pair of `X` marks on an
  earlier line is blocked even when `O` could win at once on a later line
  (`BlocksBeforeWinning`).

The click guard (script.js:101) does not check whether the game is over.
After an `X` win, `currentPlayer` is still `X`, so clicks on free cells are
still applied (`ClickAcceptedAfterWin`, on a board reached by play).

## Model

| member | source | states |
|---|---|---|
| `Board.WinningConditionsAreLines` | script.js:6-10 | the 8 winning lines are exactly the straight lines of the grid (3 rows, 3 columns, 2 diagonals), each listed once |
| `Board.IsTerminal` | script.js:30 | the test `checkWinner() \|\| checkTie()` holds iff some winning line is all `currentPlayer` or no cell is `''` |
| `Board.ClickAccepted` | script.js:101 | a click passes the guard only when `currentPlayer` is `X` and the cell is `''`, so never on a full board; a refused click has `O` to move or an occupied cell |
| `Board.AnyFilled` | script.js:80-84 | the `some` over the lines is true iff some line in the list has all three cells equal to the given mark |
| `Board.CheckWinner` | script.js:79-85 | true iff one of the 8 winning lines has all three cells equal to `currentPlayer` |
| `Board.NoneEmpty` | script.js:88 | the `every` over the cells is true iff no cell is empty |
| `Board.CheckTie` | script.js:87-89 | true iff none of the 9 cells is `''`, whatever the lines hold |
| `Board.EmptyFrom` | script.js:71 | the filtered list from position k holds only empty positions at or after k, in ascending order, and it holds every such position |
| `Board.EmptyCells` | script.js:71 | the empty-cell list holds exactly the empty positions, in ascending board order, and it is empty iff the board is full |
| `Board.GameStatus` | script.js:91-97 | reports a win for `currentPlayer` iff one of its lines is complete, a tie iff the board is full and no such line exists, and nothing otherwise |
| `Board.WinBeatsTie` | script.js:91-96 | a full board with a completed line for the player is terminal and is reported as a win, never a tie |
| `Board.StatusOfTerminal` | script.js:91-96 | `checkWinner() \|\| checkTie()` holds iff the status is a win or a tie, and a win reported for `X` is never a win for `O` |
| `Board.ClickAcceptedAfterWin` | script.js:101 | on `O O X / _ X O / X _ X`, reached by clicks 4, 8, 2, 6, `X` has won and the guard still accepts clicks on the free cells 3 and 7 |
| `Opponent.Pairs` | script.js:59-66 | each line yields exactly three pairs to try; their cells and order are stated by `PairsCoverLine` |
| `Opponent.PairsCoverLine` | script.js:59-66 | each pair takes two cells of its line and aims at the third, and the targets are c, then b, then a |
| `Opponent.Completes` | script.js:59-65 | a pair applies iff its two cells are both `X` or both `O` and its third cell is `''`: either side's pair applies |
| `Opponent.ScanLines` | script.js:57-68 | the scan finds nothing iff no pair of any line holds two equal non-empty marks beside an empty third cell; any cell it returns is empty |
| `Opponent.ScanLinesSkip` | script.js:57-68 | a line none of whose three pairs applies is passed over and the scan goes on with the next line |
| `Opponent.ScanLinesFirst` | script.js:57-68 | the scan returns the empty third cell of the first applicable pair, taking lines in order and, within a line, (a,b→c), then (a,c→b), then (b,c→a) |
| `Opponent.FirstCompletionExists` | script.js:57-68 | when some pair applies, a first applicable pair in that order exists, so the scan's answer is determined |
| `Opponent.BestMove` | script.js:55-77 | the move is -1 exactly when no cell is `''`; otherwise it is a position 0..8 whose cell is `''` |
| `Opponent.BestMovePriority` | script.js:57-68 | when a pair applies, the move is the third cell of the first applicable pair, whichever mark the pair holds |
| `Opponent.BestMoveFallback` | script.js:70-74 | when no pair applies and a cell is free, the move is a member of the empty-cell list, namely the entry the random draw selects |
| `Opponent.FallbackReachesEveryEmpty` | script.js:71-73 | when no pair applies, every empty cell is the move for some outcome of the random draw |
| `Opponent.BlocksBeforeWinning` | script.js:59-61 | on `X X _ / O O _ / X _ _` the move is 2, which blocks `X`, although `O` would complete the middle row at 5 |
| `Opponent.ComputerWinUndetected` | script.js:46-51 | on `O O _ / X _ _ / X _ X` the board is not terminal, the move is 2, `O` then holds the top row, and the status is still in progress |
| `Game.TicTacToe.constructor` | script.js:4-5 | a fresh game has nine empty cells and `X` to move, and the class invariant (nine cells, `currentPlayer` is `X`) holds |
| `Game.TicTacToe.InitializeGame` | script.js:15-23 | reset leaves all nine cells `''` and `currentPlayer` equal to `X` |
| `Game.TicTacToe.FindBestMove` | script.js:55-77 | the loop returns exactly `BestMove` of the current board for the given draw, and it changes nothing |
| `Game.TicTacToe.AiMove` | script.js:38-53 | `O` is written at the chosen cell, or nowhere when the choice is -1, and no other cell changes; if the board is then terminal for `currentPlayer` the status is reported and the turn stays, otherwise the turn goes to `X` |
| `Game.TicTacToe.HandleCellClick` | script.js:25-36 | the player's mark goes into the clicked cell; a terminal board is reported with no `O` placed; otherwise exactly one empty cell, the one `BestMove` picks, receives `O` |
| `Game.TicTacToe.ClickCell` | script.js:99-105 | a click is applied only when `currentPlayer` is `X` and the cell is `''`; it writes `X` to that cell alone; a terminal result places no `O`; otherwise exactly one other, previously empty cell becomes `O`, nothing else changes, and `X` is to move again; a win for `O` is never reported |

## Left out

- Rendering is not modelled: cell lookup, `innerText` and `classList` updates,
  the `playerIndicator` text and the event wiring (script.js:3, 12-13, 17-20,
  22, 27-28, 42-43, 52, 93-95, 99-107). What `updateGameStatus` would show is
  returned as a `Status` value by the methods (`reported`). `None` means it was
  not called.
- `Math.random()` (script.js:73) is replaced by an arbitrary natural number
  `roll`, and the fallback takes the empty cell at position `roll % n` of the
  `n` empty cells. Every empty cell can be chosen
  (`FallbackReachesEveryEmpty`). The model says nothing about the uniformity
  of the draw.
- The click handler is a method that takes the cell's index. The closure over
  each DOM cell and its event listener are not modelled.
