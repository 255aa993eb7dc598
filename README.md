# Tic-tac-toe game controller

A model of the console tic-tac-toe game in `cli.py`: the `TicTacToeGame`
controller with its 3x3 board of empty or marked cells, its two players in
turn order, the turn index, the winner field, the per-symbol move histories
and the move counter; the bot player's choice among the empty cells; and the
result row written when a game ends.

The project has five modules:

- `Wrappers`: `Option`, standing for Python's `None`-or-value.
- `Board`: symbols `X`/`O`, cells, the board as a list of rows, moves, the
  cell update `board[row][col] = symbol` (`Place`) and the row-major scan that
  builds the bot's candidate list (`Scan`, `AvailableMoves`), with the lemmas
  that describe them.
- `Players`: the `Human`/`Bot` split, and the bot's move.
- `Rules`: the game data as a value (`GameState`), the invariant it keeps
  (`Consistent`), a fresh game (`Initial`), one round on a proposed move
  (`Step`), any sequence of rounds (`Rounds`) and the result row
  (`ResultRowOf`).
- `Game`: the class `TicTacToeGame`, whose fields are updated in place and
  whose methods are specified by the functions of `Rules` over `State()`.

The invariant `Consistent` says that each symbol's history lists exactly the
cells holding that symbol, each once, and that the counter is the length of
the two histories together. From it, `ConsistentCounts` shows that the
counter equals the number of marked cells.

`get_winner` and `make_empty_board` live in `logic.py`, which is not part of
this model. `get_winner` is a function-typed constructor argument stored in
the field `getWinner`; its result is taken to be `None` or a symbol. In place of
`make_empty_board`, the constructor takes the board and requires all nine
cells to be empty.

A rejected move (no move, or an occupied cell) prints "Try again." at
`cli.py:66` and `cli.py:68`, which suggests the same player moves again. But
`play_round` calls `switch_player` unconditionally (`cli.py:70`), so a
rejected move passes the turn. The model follows the code: `Step` flips the
turn in both cases. `RejectedMovePassesTurn` shows a consequence: the two
symbols' move counts can drift apart by more than one, which strict
alternation would rule out.

Preconditions taken from the code: a move's row and column are in 0..2
(larger values raise `IndexError` at `cli.py:60`, values from -3 to -1
would index from the end, and smaller ones raise `IndexError` too). The two
symbols are `X` and `O`, the only keys of `move_history`. This is enforced by the type `Symbol`.

## Model

| member | source | states |
|---|---|---|
| Board.Place | cli.py:60-61 | the written cell holds the mover's symbol and every other cell keeps its value |
| Board.ScanSpec | cli.py:26 | the scan lists exactly the cells holding the given value, each once, in increasing row-major position |
| Board.AvailableMovesAreEmptyCells | cli.py:26-27 | the candidate list holds exactly the empty cells in row-major order, and it is empty iff the board is full |
| Board.SingleEmptyCell | cli.py:26-27 | on a board with exactly one empty cell, the candidate list is just that cell |
| Board.EmptyGridScan | cli.py:31 | a board with every cell empty holds no X, no O, and offers nine candidates |
| Board.MarkedPlusAvailable | cli.py:26 | marked cells and candidates together are the nine cells |
| Board.ScanPlaceSame | cli.py:61 | marking an empty cell adds exactly that cell to the cells holding the symbol |
| Board.ScanPlaceOther | cli.py:61 | marking a cell leaves the cells holding any value other than the old and new ones unchanged |
| Players.BotMove | cli.py:25-27 | the bot returns None iff no cell is empty; otherwise an in-range empty cell taken from the candidate list |
| Rules.NextIndex | cli.py:38-39 | switching keeps the turn index in {0, 1} and changes it |
| Rules.NextIndexTwice | cli.py:38-39 | switching twice restores the turn index |
| Rules.Initial | cli.py:30-36 | a fresh game satisfies the invariant, with the given players, turn 0, no winner, empty histories, counter 0 and nine free cells |
| Rules.ConsistentCounts | cli.py:60-64 | in a consistent state the counter equals the number of marked cells, and counter plus free cells is nine |
| Rules.EverySymbolHasHistory | cli.py:63 | in every consistent state both symbols are keys of the move history (as set up at line 35), so appending to the current player's entry cannot fail |
| Rules.HistoryAppend | cli.py:61-63 | appending the marked cell to the mover's history keeps that history matched to the board |
| Rules.HistoryUntouched | cli.py:61-63 | the other symbol's unchanged history still matches the board after the mark |
| Rules.PlaceKeepsConsistent | cli.py:60-64 | an accepted move keeps the invariant |
| Rules.Step | cli.py:58-70 | an accepted move marks its cell for the mover, leaves every other cell alone, refreshes the winner, appends the move to the mover's history only and adds one to the counter; a rejected move (None or occupied cell) changes board, histories, counter and winner not at all; in both cases the turn index flips, marked cells never change and the invariant holds |
| Rules.Rounds | cli.py:82-83 | any sequence of rounds from a consistent state keeps the invariant, keeps the counter equal to the number of marked cells, grows it by at most one per round and never changes a marked cell |
| Rules.RoundsAlternate | cli.py:70 | after any sequence of rounds, accepted or rejected, the turn index is back where it started iff the number of rounds is even |
| Rules.RoundsSnoc | cli.py:82-83 | one more round after a sequence of rounds is one more step |
| Rules.NoWinnerBeforeSnoc | cli.py:82-83 | if no round so far started from a state with a winner and the current state has none, then after one more round the same still holds for every round, the new one included |
| Rules.FollowsPlayersSnoc | cli.py:52-56 | if every round so far was proposed by the player whose turn it was (a human with that round's input, the bot with a candidate of the board it saw) and one more round is proposed that way, then the same holds for every round, the new one included |
| Rules.RejectedMovePassesTurn | cli.py:65-70 | X at (0,0), O refused at (0,0), X at (1,1): X has two moves, O none, and it is O's turn |
| Rules.ResultRowOf | cli.py:76-79 | the row's winner field is "Draw" iff there is no winner and otherwise the winner's symbol; its X and O counts are the cells holding each symbol and add up to its total, which is the number of marked cells |
| Game.TicTacToeGame.constructor | cli.py:30-36 | the new game's state is the fresh state on the given empty board and players |
| Game.TicTacToeGame.SwitchPlayer | cli.py:38-39 | only the turn index changes, to the other player's, and switching keeps the game invariant |
| Game.TicTacToeGame.ApplyMove | cli.py:58-70 | the new state is `Step` of the old state and the proposal, and the invariant holds |
| Game.TicTacToeGame.PlayRound | cli.py:51-70 | a human's proposal is the given input, a bot's is a valid bot choice on the old board, and the new state is `Step` of the old state and that proposal |
| Game.TicTacToeGame.RecordGameDetails | cli.py:76-79 | the row is the result row of the current state |
| Game.TicTacToeGame.PlayGame | cli.py:81-94 | the final state is `Rounds` of the start state on the proposals made; every round was played from a state with no winner, so play stops at the first winner; each round's proposal came from the player whose turn it was: on a human's turn the input for that round, on the bot's turn a candidate of the board at that moment; play continues until there is a winner or the inputs run out; a row is produced iff there is a winner, and is that state's result row |

## Left out

- `HumanPlayer.make_move` (cli.py:19-22): console `input()` and `int()` parsing are I/O; the human's move is an input to `PlayRound` and `PlayGame`.
- `Player.make_move` (cli.py:15-16) only raises `NotImplementedError`; every player here is a `Human` or a `Bot`.
- `print_board` (cli.py:41-49) and the messages printed in `play_round` and `play_game`: output only, no effect on the game data.
- Logging and files: `logging.basicConfig` (cli.py:6-9), `logging.info`, the CSV file opened and written in `record_game_details` and `datetime.now()`; the timestamp is a parameter and the row is returned instead of written.
- `random.choice`: modelled as an unspecified choice among the candidates, with no claim about its distribution.
- `get_winner` and `make_empty_board`: logic.py is not part of this model; nothing about who wins is modelled. The result of `get_winner` is `None` or a symbol, so a falsy result other than `None` (or any other value) cannot be represented. Such a value is the only way `play_game` ends in a draw, because the loop at cli.py:82 stops only on a value that is not `None`, and `if self.winner:` at cli.py:87 sends falsy values to the draw branch (cli.py:90-92). So `PlayGame` never reaches that branch and never produces a `"Draw"` row, although `ResultRowOf` does give `"Draw"` for a state without a winner.
- The board is a value of type `Grid`. This takes `make_empty_board` to return three separate row lists. If the rows were one shared list, as `[[None] * 3] * 3` makes, the write at cli.py:61 would show in every row, and the model would not capture it.
- Game.TicTacToeGame.PlayGame: does not model the unbounded `while self.winner is None` loop. Termination of that loop depends on `get_winner`, so the model bounds the loop by the supplied inputs, one per round. Every input must be in range, including the placeholders that bot rounds consume, because which rounds belong to the human is only known as play proceeds.
- Out-of-range or negative coordinates (IndexError, or Python's negative indexing) are excluded by preconditions rather than modelled.
