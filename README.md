# Tic-Tac-Toe game engine

A Dafny model of the game logic of a browser Tic-Tac-Toe page: the fixed table
of the eight winning combinations of a row-major 3x3 board, the winner scan and
the draw test that classify a board, the click handler that places a mark,
re-classifies the board, counts a win and passes the turn, and the two reset
buttons.

- `types.dfy` (module `Types`): `Player` (`X`, `O`, or `Nobody` for the
  source's `null`), boards as `seq<Player>`, the empty board, mark counting.
- `engine.dfy` (module `Engine`): the literal table `WinningCombinations`, the
  scan `WinnerFrom`/`Winner` (a recursive function, the specification) and the
  method `CheckWinner` (the `for` loop with early return, proved equal to it),
  the draw test `CheckDraw`, and the geometry of the table (`IsGridLine`).
- `game.dfy` (module `Game`): the page state `GameState`; the transitions as
  functions from state to state (`Click`, `NewGameState`, `ZeroedScoresState`);
  the invariant `Consistent` of every reachable state with the lemmas that the
  initial state has it and every transition keeps it; and the class `Home`,
  which holds the state in fields and the board in an `array`, whose methods
  `HandleCellClick`, `ResetGame` and `ResetScores` are proved to produce
  exactly the state the transition functions give. `HandleCellClick` copies
  the board into a fresh array and writes the copy, as the page does; the old
  array is never written.

The types declare a board size and a per-move timer (types.ts:14-16), and the
board component takes a `boardSize` prop (components/GameBoard.tsx:7), but the
page's game logic (app/page.tsx:9-13 and 41-99) uses only the fixed 3x3 literal
table, so the model follows the page: the table is the literal one, and its
geometry is proved (`TableIsGridLines`: the table holds exactly the rows,
columns and two diagonals of the 3x3 grid).

## Model

| member | source | states |
|---|---|---|
| `Types.EmptyBoard` | app/page.tsx:17 | the fresh board has 9 cells, all empty |
| `Engine.WinningCombinations` | app/page.tsx:9-13 | the literal table (a constant, no contract); its properties are stated by `TableShape` and `TableIsGridLines` |
| `Engine.TableShape` | app/page.tsx:9-13 | the table has 2*3+2 = 8 entries, each three distinct cell indices (the index type bounds them to [0,9)) |
| `Engine.TableIsGridLines` | app/page.tsx:9-13 | a triple is in the table iff it is, in increasing order, the three cells of one row, one column, the main diagonal or the anti-diagonal of the row-major 3x3 grid |
| `Engine.WinnerFrom` | app/page.tsx:41-48 | the scan from table position k returns `Nobody` iff no later combination has a mark in its first cell matched by the other two; otherwise it returns a mark holding all three cells of the first such combination |
| `Engine.Winner` | app/page.tsx:41-48 | the winner is `Nobody` iff neither X nor O holds a whole combination, and otherwise holds one; first-in-order is stated by `WinnerSpec` |
| `Engine.WinnerSpec` | app/page.tsx:41-48 | the winner is `Nobody` iff neither X nor O holds a whole combination; otherwise the winner holds one, and it is the first held combination in table order (rows, columns, diagonals) |
| `Engine.WinnerIsOnlyLineHolder` | app/page.tsx:42-45 | when a single mark holds every held combination, the scan returns that mark |
| `Engine.CheckWinner` | app/page.tsx:41-48 | the loop with early return yields the scan's winner, and `Nobody` iff no combination passes the test |
| `Engine.CheckDraw` | app/page.tsx:50-52 | a draw iff every cell holds a mark and neither X nor O holds a combination; a draw has no empty cell |
| `Engine.WinAndDrawExclusive` | app/page.tsx:50-52 | a board is never both won and drawn, and a board with an empty cell is no draw |
| `Game.InitialState` | app/page.tsx:16-25 | the initial state (a constant, no contract); its invariant is stated by `InitialConsistent` |
| `Game.NextPlayer` | app/page.tsx:75 | the next turn is always a mark (X or O) and differs from the one who moved |
| `Game.AddWin` | app/page.tsx:65-71 | the total score rises by one iff there is a winner, and a mark that did not win keeps its score |
| `Game.Click` | app/page.tsx:54-80 | a click keeps a 9-cell board and changes no cell other than the clicked one; see also `ClickIgnored`, `ClickPlaces`, `ClickScores`, `ClickPreservesConsistent` |
| `Game.InitialConsistent` | app/page.tsx:16-25 | the initial state (empty board, X to move, no winner, no draw, 0-0) satisfies the reachable-state invariant |
| `Game.ClickIgnored` | app/page.tsx:55-57 | a click on a taken cell, or after a win or a draw, leaves the whole state unchanged |
| `Game.ClickPlaces` | app/page.tsx:59-75 | an accepted click leaves a 9-cell board equal to the old one except the clicked cell, which holds the mover's mark; one empty cell fewer when the mover is X or O; X passes to O and O to X |
| `Game.ClickScores` | app/page.tsx:62-78 | after an accepted click the new winner's score rises by exactly one and the other stays; with no winner both stay; the total rises by one iff there is a winner; winner and draw are never both set |
| `Game.ClickPreservesConsistent` | app/page.tsx:54-80 | every click keeps the invariant: X or O to move, X has moved as often as O or once more when O is to move, stored winner and draw are the board's, no mark but the stored winner holds a combination, and a winner is the mark that moved last |
| `Game.NeverStuck` | app/page.tsx:54-80 | in a consistent running game (no winner, no draw) some empty cell exists whose click is accepted |
| `Game.WinnerIsUnique` | app/page.tsx:62-63 | in a consistent state with a winner, the winner holds a combination and the other mark holds none |
| `Game.NewGameState` | app/page.tsx:82-90 | the state after "Reset Game" (no contract); its properties are stated by `ResetGameSpec` |
| `Game.ZeroedScoresState` | app/page.tsx:92-99 | the state after "Reset Scores" (no contract); its properties are stated by `ResetScoresSpec` |
| `Game.ResetGameSpec` | app/page.tsx:82-90 | "Reset Game" gives 9 empty cells, X to move, no winner, no draw, the same scores, and a consistent state |
| `Game.ResetScoresSpec` | app/page.tsx:92-99 | "Reset Scores" sets both scores to 0, keeps board, turn, winner and draw, and keeps a consistent state consistent |
| `Game.Home.constructor` | app/page.tsx:16-25 | the component starts in the initial state, which is consistent |
| `Game.Home.HandleCellClick` | app/page.tsx:54-80 | the fields after a click are exactly the state `Click` gives from the fields before, and a consistent state stays consistent |
| `Game.Home.ResetGame` | app/page.tsx:82-90 | the fields after "Reset Game" are the fresh game with the old scores, on a fresh board array |
| `Game.Home.ResetScores` | app/page.tsx:92-99 | the fields after "Reset Scores" are the old state with both scores 0, on the same board array |

## Left out

- Loading and saving the scores in the browser's `localStorage` (app/page.tsx:27-39 and 94): browser I/O and `JSON.parse` of stored text. Scores are plain naturals in the state.
- Scores are JavaScript numbers; the model uses unbounded naturals and does not model floating-point precision limits.
- Rendering (app/page.tsx:101-147 and the components `GameBoard`, `GameStatus`, `ScoreBoard`), the layout's dark-mode toggle, the settings, cheats and bug-report dialogs, the bug-report HTTP handler and the styling configuration: presentation and I/O with no game logic.
- `boardSize`, `timeLeft` and `timerEnabled` (types.ts:14-16): declared but not used by the page's game logic, which is fixed at 3x3 with no timer.
- `Game.Home.HandleCellClick`: requires the index to be a cell of the board; the page only passes indices produced by mapping over the board (components/GameBoard.tsx:19-22), so a click outside the board cannot happen.
- `Engine.WinnerFrom`: requires a 9-cell board; the page never builds another, and JavaScript's reads past the end of an array are not modelled.
