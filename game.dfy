/**
 * The game controller `TicTacToeGame`: its fields change in place, round
 * by round, and each method is specified by the pure functions of module
 * Rules over the value `State()` of those fields.
 */
module Game {
  import opened Wrappers
  import opened Board
  import opened Players
  import opened Rules

  class TicTacToeGame {
    var board: Grid
    const players: seq<Player>
    var currentPlayerIndex: int
    var winner: Option<Symbol>
    var moveHistory: map<Symbol, seq<Move>>
    var totalMoves: int
    /** `get_winner` of logic.py, which is not part of this model: any function of the board. */
    const getWinner: Grid -> Option<Symbol>

    /** The fields as one value. */
    ghost function State(): GameState
      reads this
    {
      GameState(board, players, currentPlayerIndex, winner, moveHistory, totalMoves)
    }

    ghost predicate Valid()
      reads this
    {
      Consistent(State())
    }

    /** `__init__`, given the board `make_empty_board` returns. */
    constructor (emptyBoard: Grid, player1: Player, player2: Player, getWinner: Grid -> Option<Symbol>)
      requires WellFormed(emptyBoard)
      requires forall i, j :: 0 <= i < 3 && 0 <= j < 3 ==> emptyBoard[i][j] == None
      ensures Valid()
      ensures State() == Initial(emptyBoard, player1, player2)
      ensures this.getWinner == getWinner
    {
      board := emptyBoard;
      players := [player1, player2];
      currentPlayerIndex := 0;
      winner := None;
      moveHistory := map[X := [], O := []];
      totalMoves := 0;
      this.getWinner := getWinner;
      new;
      assert State() == Initial(emptyBoard, player1, player2);
    }

    /** `switch_player`: only the turn index changes. */
    method SwitchPlayer()
      modifies this`currentPlayerIndex
      ensures currentPlayerIndex == NextIndex(old(currentPlayerIndex))
      ensures old(Valid()) ==> Valid()
    {
      currentPlayerIndex := (currentPlayerIndex + 1) % 2;
    }

    /**
     * The part of `play_round` after the player has proposed `move`: mark
     * the cell if it is empty, then record the winner, the history and the
     * counter; in every case switch the player.
     */
    method ApplyMove(move: Option<Move>)
      requires Valid()
      requires move.Some? ==> InRange(move.value)
      modifies this
      ensures Valid()
      ensures State() == Step(old(State()), move, getWinner)
    {
      var player := players[currentPlayerIndex];
      ghost var before := State();
      ghost var after := Step(before, move, getWinner);
      if move.Some? && board[move.value.row][move.value.col] == None {
        var m := move.value;
        assert player.symbol == Mover(before);
        board := Place(board, m, player.symbol);
        winner := getWinner(board);
        moveHistory := moveHistory[player.symbol := moveHistory[player.symbol] + [m]];
        totalMoves := totalMoves + 1;
        assert State() == after.(current := currentPlayerIndex);
      } else {
        assert State() == after.(current := currentPlayerIndex);
      }
      SwitchPlayer();
      assert State() == after;
    }

    /**
     * `play_round`: the current player proposes a move (a human the given
     * input, the bot a choice of its own) and the move is applied.
     */
    method PlayRound(humanMove: Move) returns (ghost proposal: Option<Move>)
      requires Valid()
      requires players[currentPlayerIndex].Human? ==> InRange(humanMove)
      modifies this
      ensures Valid()
      ensures players[old(currentPlayerIndex)].Human? ==> proposal == Some(humanMove)
      ensures players[old(currentPlayerIndex)].Bot? ==> IsBotChoice(old(board), proposal)
      ensures proposal.Some? ==> InRange(proposal.value)
      ensures State() == Step(old(State()), proposal, getWinner)
    {
      var player := players[currentPlayerIndex];
      var move: Option<Move>;
      match player {
        case Human(_) =>
          move := Some(humanMove);
        case Bot(_) =>
          move := BotMove(board);
      }
      ApplyMove(move);
      proposal := move;
    }

    /** The row `record_game_details` appends, for a given timestamp. */
    method RecordGameDetails(timestamp: string) returns (row: ResultRow)
      requires Valid()
      ensures row == ResultRowOf(State(), timestamp)
    {
      var winnerText := if winner.Some? then SymbolName(winner.value) else "Draw";
      row := ResultRow(timestamp, winnerText, totalMoves, |moveHistory[X]|, |moveHistory[O]|);
    }

    /**
     * `play_game` with a bounded supply of console input: while there is
     * no winner, play a round, giving the human the next input (a bot's
     * round consumes one input and ignores it). When a winner is found the
     * result row is produced; when the inputs run out first, none is. Every
     * input must be a cell in range, the placeholders bot rounds consume
     * included, since which rounds are the human's is known only as play
     * proceeds.
     */
    method PlayGame(humanMoves: seq<Move>, timestamp: string) returns (row: Option<ResultRow>, ghost proposals: seq<Option<Move>>)
      requires Valid()
      requires forall i :: 0 <= i < |humanMoves| ==> InRange(humanMoves[i])
      modifies this
      ensures Valid()
      ensures AllInRange(proposals) && |proposals| <= |humanMoves|
      ensures State() == Rounds(old(State()), proposals, getWinner)
      ensures NoWinnerBefore(old(State()), proposals, getWinner)
      ensures FollowsPlayers(old(State()), proposals, humanMoves, getWinner)
      ensures winner.None? ==> |proposals| == |humanMoves|
      ensures old(winner).Some? ==> proposals == []
      ensures row.Some? <==> winner.Some?
      ensures row.Some? ==> row.value == ResultRowOf(State(), timestamp)
    {
      var i := 0;
      proposals := [];
      while winner.None? && i < |humanMoves|
        invariant Valid()
        invariant 0 <= i <= |humanMoves| && |proposals| == i
        invariant AllInRange(proposals)
        invariant State() == Rounds(old(State()), proposals, getWinner)
        invariant NoWinnerBefore(old(State()), proposals, getWinner)
        invariant FollowsPlayers(old(State()), proposals, humanMoves, getWinner)
        invariant old(winner).Some? ==> i == 0
        decreases |humanMoves| - i
      {
        ghost var before := proposals;
        ghost var t := State();
        var proposal := PlayRound(humanMoves[i]);
        assert RoundChoice(t, proposal, humanMoves[i]);
        NoWinnerBeforeSnoc(old(State()), before, proposal, getWinner);
        FollowsPlayersSnoc(old(State()), before, proposal, humanMoves, getWinner);
        RoundsSnoc(old(State()), before, proposal, getWinner);
        proposals := before + [proposal];
        i := i + 1;
      }
      if winner.Some? {
        var r := RecordGameDetails(timestamp);
        row := Some(r);
      } else {
        row := None;
      }
    }
  }
}
