# Tic-tac-toe game engine, modelled in Dafny

This project models the `Game` class of a console tic-tac-toe game. A human
plays "X" against a bot that plays "O" on uniformly random empty cells.

- **The board.** `positions` has nine cells, each `" "`, `"X"` or `"O"`. Index
  0-2 is the bottom row and 6-8 the top row, the numpad layout.
- **Win lines.** A constant table of eight lines: three rows, three columns
  and two diagonals.
- **Win detector.** `checkForWin` scans the table for a line of three equal
  marks.
- **Round loop.** `run` repeats a round until the game ends:
  - It reads and validates the player's 1-based position and writes `"X"`.
  - It checks for a player win, then for a tie (no `" "` left).
  - It draws random indices until one is empty and writes `"O"` there.
  - It checks for a bot win.

Layout:

- `Wrappers.dfy`: `Option`.
- `Board.dfy`: module `Board`, the board as a value.
  - The cell type and the win table.
  - `LineComplete` and `HasWin` (the win predicate), `IsFull` (the tie test)
    and `Count` (marks of one kind).
  - A second, geometric definition of a win: three equal marks in a straight
    line of the grid, given in row and column coordinates. It is proved equal
    to the table scan.
  - `Status`, the outcome derived from a board. It names the winner by the
    counts of X and O; `AllWinsAre` says whose lines are complete.
  - `Play` and `LegalPlay`: a game as a sequence of moves from a start board,
    X and O alternating, each on an empty cell of a board without a win.
  - Lemmas about counting: nine is odd, so only the player's move can fill
    the board.
  - `PlayedFrom` (a board is a legal game from a start board, marks kept)
    and `GameStopped` (what a decided game's final board says about its
    outcome, its counts and the parity of its moves) gather those facts.
- `Game.dfy`: module `TicTacToe`.
  - `CheckInput` is one pass of the input validation.
  - The game of `run` as values, a reference for the methods:
    - `FirstAccepted` is the player's turn: the first input `CheckInput` accepts.
    - `FirstEmpty` is the bot's turn: the first draw that hits an Empty cell.
    - `RoundOf` is one round: the player's turn, the win and tie checks, the
      bot's turn and its win check.
    - `PlayGame` and `BotGame` are the whole game, half by half, until a half
      decides it or the inputs or draws run out. The result is a
      `GameRecord`: the outcome, how many inputs and draws were taken, and
      the cells played.
    - `Resumed` puts rounds already played in front of the rest of a game;
      `Resumes` says the game from the start board is the rounds played so
      far followed by the game from the current board.
  - The class `Game` holds `positions` as an `array<Cell>` that its methods
    update in place.
  - Its methods are the win scan, the player's validation loop, the bot's
    rejection-sampling loop, the player's and the bot's halves of a round
    (`PlayerHalf`, `BotHalf`), one round of `run` (`Round`), one pass of the
    loop of `run` reading from the inputs and draws not yet taken
    (`NextRound`), and the loop of `run` (`Run`).
  - Each method is proved to compute its reference: the turns give
    `FirstAccepted` and `FirstEmpty`, `Round` gives `RoundOf`, and `Run`
    gives `PlayGame` on the board it started from.

The three string values of a cell are the datatype `Cell = Empty | X | O`.
The board can therefore hold nothing else, by construction.

The occupied-cell test of the validation loop (TicTacToe.kt:40) rejects a
cell that holds either mark, so a player can never overwrite their own "X".
`CheckInput` keeps that test as written, checking for "O" or "X", and its
contract states the consequence: a move is accepted exactly when the cell is
Empty. The source's message for this case reads "That positions is already
taken!".

## Model

| member | source | states |
|---|---|---|
| `Board.WinCombinations` | TicTacToe.kt:9-18 | The table has exactly 8 lines of 3 indices each, and every index lies in 0..8, so every read of the scan is in bounds. |
| `Board.EntryIsStraight` | TicTacToe.kt:9-18 | Each table entry lists, in order, the three cells of one row, column or diagonal of the 3x3 grid, starting at the cell and going in the direction that `EntryAsStraightLine` gives. |
| `Board.StraightLinesAreInTable` | TicTacToe.kt:9-18 | Every straight line of three cells on the grid is in the table, forwards or backwards, so the table misses no line. |
| `Board.WinIffThreeInARow` | TicTacToe.kt:98-108 | The table-based win predicate holds exactly when three equal non-empty marks lie in a straight line on the grid (both directions). |
| `TicTacToe.Game.CheckForWin` | TicTacToe.kt:98-108 | The scan with early return answers true iff some line of the table holds three equal cells that are not `" "`. It changes nothing. |
| `Board.NewWinBelongsToMover` | TicTacToe.kt:54-83 | If a board with no win gets mark m in an empty cell, every line of the table that is then complete goes through that cell and is all m (`AllWinsAre`). So "You Win!" follows only X lines and "You Lose!" only O lines. |
| `TicTacToe.CheckInput` | TicTacToe.kt:33-46 | An input is accepted iff it is an integer n with 1 <= n <= 9 and cell n-1 holds neither mark, and the chosen index is n-1. Otherwise the error is: not an integer, out of range, or already taken, in that order of checking. |
| `TicTacToe.Game.PlayerTurn` | TicTacToe.kt:30-52 | Requires a board that is not full, since the loop can only end on a free cell. Inputs are taken in order until one is accepted. Every input before it is rejected and leaves the board unchanged. The accepted cell was empty and becomes "X". No other cell changes. If the inputs run out, nothing changes. The inputs taken and the cell are exactly `FirstAccepted` of the old board. |
| `TicTacToe.Game.BotTurn` | TicTacToe.kt:72-76 | The loop exits only on a drawn index in 0..8 whose cell is empty. Every earlier draw hit a marked cell. Only that cell changes, to "O". The draws taken and the cell are exactly `FirstEmpty` of the old board. |
| `TicTacToe.Game.PlayerHalf` | TicTacToe.kt:30-68 | The player's move is `FirstAccepted` of the old board, then the win check before the tie check. After a move, the outcome is PlayerWin iff the board has a win, and Tie iff it has no win and is full. A win makes every complete line X's. The outcome is the board's status; InProgress only when the inputs ran out. Otherwise the bot moves next on a board without a win that is not full, with one more X than O. |
| `TicTacToe.Game.BotHalf` | TicTacToe.kt:70-83 | Requires the state the player's half leaves. The bot's move is `FirstEmpty` of the old board, then the win check. After a move, the outcome is BotWin iff the board has a win, and every complete line is then O's. InProgress only when the draws ran out. Otherwise the next round starts: equal counts and no win. |
| `TicTacToe.Game.Round` | TicTacToe.kt:23-84 | One pass of the loop body, composed of the two halves; its outcome, the inputs and draws it took and its moves are exactly `RoundOf` of the old board. The player's cell is the one the first accepted input names, and every earlier input was rejected. The bot's cell is the first draw that hits an empty cell, and every earlier draw hit a marked cell. The new board is the old one with these moves played, the bot's only if the player's move neither won nor filled the board. A player win makes every complete line X's; a bot win, O's. The outcome is the board's status. The round continues only after two moves on a board without a win; InProgress comes either before any move or after the player's move when the draws ran out. |
| `TicTacToe.Game.NextRound` | TicTacToe.kt:23-84 | One pass of the loop of `run` on the inputs and draws from the given offsets on: its outcome, the inputs and draws it took and the moves it appended are exactly `RoundOf` of the board it started from. Requires that the game from the start board is the rounds played so far followed by the game from the current board (`Resumes`). If the round leaves the game open, that stays true with the new offsets and moves, and more input was taken. If it decides the game, the outcome, offsets and moves are exactly `PlayGame` from the start board. Either way the board is the start board with the moves played legally, marks kept, and a decided game satisfies `GameStopped`. |
| `TicTacToe.Game.Run` | TicTacToe.kt:22-85 | The outcome, the number of inputs and draws read, and the moves are exactly `PlayGame` of the start board. The final board is the start board with the moves played in order, X and O alternating. Every move went to an empty cell of a board without a win, so nothing is played after the first win. A player win ends after an odd number of moves with every complete line X's. A bot win ends after an even number with every complete line O's and a free cell. A tie has 5 X and 4 O. The outcome is the status of the final board. `InProgress` only when the inputs or the draws ran out. A marked cell never reverts or changes. |
| `TicTacToe.FirstAccepted` | TicTacToe.kt:30-52 | The validation loop as a value: it takes inputs up to and including the first one `CheckInput` accepts. That input's index is the cell, and the cell is Empty. With no accepted input, every input is taken and no cell is chosen. |
| `TicTacToe.FirstEmpty` | TicTacToe.kt:72-76 | The rejection loop as a value: it takes draws up to and including the first one that addresses an Empty cell, and that draw is the cell. With no such draw, every draw is taken and no cell is chosen. |
| `TicTacToe.RoundOf` | TicTacToe.kt:23-84 | One pass of the loop body as a value. The loop goes on only after two moves, one input and one draw taken at least. A player win or a tie comes after one move and takes no draw. A bot win comes after two moves. InProgress means the inputs or the draws ran out. |
| `TicTacToe.PlayGame` | TicTacToe.kt:22-85 | The whole of `run` as a value, from the player's turn: the player's half, the win check, the tie check, then the game from the bot's turn. It never takes more inputs or draws than there are. |
| `TicTacToe.BotGame` | TicTacToe.kt:70-84 | The rest of a round and the game after it, from the bot's turn: the bot's half, the win check, then the next round. It never takes more inputs or draws than there are. |
| `TicTacToe.OpenGameRanOut` | TicTacToe.kt:22-85 | The game from the player's turn ends InProgress only when all inputs or all draws were taken: `run` itself only leaves its loop on a win or a tie. |
| `TicTacToe.OpenBotGameRanOut` | TicTacToe.kt:70-85 | The same from the bot's turn. |
| `TicTacToe.FirstAcceptedIs` | TicTacToe.kt:30-52 | A turn that took its inputs in order, every one before the accepted one rejected (all of them when none was accepted), is `FirstAccepted`: the validation loop's choice is determined by the inputs. |
| `TicTacToe.FirstEmptyIs` | TicTacToe.kt:72-76 | A turn whose every draw before the chosen one hit a mark (all of them when none was chosen) is `FirstEmpty`: the bot's choice is determined by the draws. |
| `TicTacToe.RoundStep` | TicTacToe.kt:22-85 | The game from a board is its first round: when the round decides it, the game is that round; otherwise it is the round followed by the game from the board the round left, on the inputs and draws the round did not take. |
| `TicTacToe.ResumedTwice` | TicTacToe.kt:22-85 | Proof helper for the loop: the input, draw and move totals of rounds played in two stretches add up to those of one stretch. |
| `TicTacToe.GameEnds` | TicTacToe.kt:56-83 | When the game from the current board is decided at once, the game from the start board ends with it, with the totals of all rounds. |
| `TicTacToe.GameGoesOn` | TicTacToe.kt:23-84 | A round that leaves the game open keeps the game from the start board equal to the rounds played followed by the game from the new board. |
| `TicTacToe.Game.constructor` | TicTacToe.kt:5 | A new game has nine empty cells. That is a valid start of a round. |
| `Board.CountBounded` | TicTacToe.kt:64 | A value's count is at most the board size, and it is zero exactly when the value is absent. So the tie test `" " !in positions` means zero empty cells. |
| `Board.IsFull` | TicTacToe.kt:64 | The tie test `" " !in positions` holds exactly when the board counts no Empty cell. |
| `Board.CountsSum` | TicTacToe.kt:5 | Empty, X and O counts add up to the board size: every cell holds exactly one of the three values. |
| `Board.CountUpdate` | TicTacToe.kt:44 | Writing a value into one cell moves exactly that cell from its old value's count to the new value's. |
| `Board.PlaceCounts` | TicTacToe.kt:44-76 | Writing a mark into an empty cell adds one to that mark's count and removes one empty cell. The other mark's count is unchanged. |
| `Board.EqualCountsLeaveAnEmptyCell` | TicTacToe.kt:62-68 | With as many X as O, the number of empty cells is odd, so the board is not full. Only the player's move can fill it, which is why the tie is tested only after that move. |
| `Board.FullBoardEndsOnPlayerMove` | TicTacToe.kt:62-68 | A full board reached by alternating play has 5 X and 4 O: the player made the last move. |
| `Board.LegalPlayExtends` | TicTacToe.kt:40-76 | Playing the next mark on an empty cell of a board without a win writes that one cell, and the longer game is still legal. |
| `Board.PlayConcat` | TicTacToe.kt:22-85 | A game of whole rounds followed by more moves is the later moves played on the board the rounds leave: the marks alternate across rounds as they do within one. |
| `Board.LegalPlayConcat` | TicTacToe.kt:22-85 | Whole rounds of legal play followed by legal play from the board they leave make a legal game. |
| `Board.StatusOfPlayedBoard` | TicTacToe.kt:54-83 | For boards of alternating play, the derived status is a player win iff there is a win and X is one ahead. It is a bot win iff there is a win and the counts are equal, and then the board is not full. A tie has 5 X and 4 O. |

## Left out

- `printBoard`, every `println` message and `main`: console output and the entry point. The rejection reasons of the validation loop are the `MoveCheck` values instead of messages. The result of `run` is the returned `Outcome` instead of "You Win!", "You Lose!" or "Tie!".
- `readln()` and `String.toInt()`: terminal input and a library parse. The player's lines arrive as an already-parsed `seq<Option<int>>`, with `None` for a line that throws `NumberFormatException`. Text outside Kotlin's 32-bit `Int` range also throws, so the caller passes `None` for it. `toInt() - 1` wraps around only for `Int.MIN_VALUE`. The wrapped value `Int.MAX_VALUE` is rejected as out of range, and so is the unbounded value the model computes, so the verdict is the same.
- End of input during `readln()`: the Kotlin program fails there. The model's input sequence simply runs out, and `Run` then returns `InProgress`.
- `(0..8).random()`: the random source is a finite sequence of draws in 0..8 supplied by the caller. The real loop ends with probability one because an empty cell exists. That probabilistic termination is not modelled.
- TicTacToe.Game.BotTurn: when the supplied draws run out before an empty cell is drawn, the model returns `None` and leaves the board unchanged, and `Run` returns `InProgress`. The Kotlin loop would keep drawing instead.
- TicTacToe.Game.Run: requires a board at the start of a round, meaning as many X as O and no win. `main` calls `run` once on a fresh `Game`, so this always holds. A second `run` on a finished game is not modelled.
- The `Int?` type of `botChoice` is modelled as `Option<CellIndex>`. Kotlin `MutableList` details are not modelled.
