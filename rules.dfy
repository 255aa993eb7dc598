/**
 * The state of one game as a value, and the pure effect of one round on
 * it. The class in module Game keeps the same data in fields and is
 * specified by the functions here.
 */
module Rules {
  import opened Wrappers
  import opened Board
  import opened Players

  /**
   * The data `TicTacToeGame` holds: the board, the two players in turn
   * order, whose turn it is, the winner found so far, each symbol's moves
   * and the number of moves made.
   */
  datatype GameState = GameState(
    board: Grid,
    players: seq<Player>,
    current: int,
    winner: Option<Symbol>,
    history: map<Symbol, seq<Move>>,
    totalMoves: int)

  /** `history` lists exactly the cells of `g` that hold `sym`, each once, in some order. */
  ghost predicate HistoryMatches(history: seq<Move>, g: Grid, sym: Symbol)
    requires WellFormed(g)
  {
    multiset(history) == multiset(Scan(g, Some(sym), 9))
  }

  /** A matching history is as long as the list of cells holding its symbol. */
  lemma HistoryLength(history: seq<Move>, g: Grid, sym: Symbol)
    requires WellFormed(g) && HistoryMatches(history, g, sym)
    ensures |history| == |Scan(g, Some(sym), 9)|
  {
    assert |multiset(history)| == |history|;
    assert |multiset(Scan(g, Some(sym), 9))| == |Scan(g, Some(sym), 9)|;
  }

  /**
   * The invariant every reachable state keeps: the board is 3x3, the turn
   * index is 0 or 1, the history has one entry per symbol, each symbol's
   * history lists exactly the cells holding that symbol (each once), and
   * the move counter is the length of the two histories together.
   */
  ghost predicate Consistent(s: GameState) {
    && WellFormed(s.board)
    && |s.players| == 2
    && 0 <= s.current < 2
    && s.history.Keys == {X, O}
    && HistoryMatches(s.history[X], s.board, X)
    && HistoryMatches(s.history[O], s.board, O)
    && s.totalMoves == |s.history[X]| + |s.history[O]|
  }

  /** The counter agrees with the board: it counts the marked cells, and those and the empty cells make nine. */
  lemma ConsistentCounts(s: GameState)
    requires Consistent(s)
    ensures s.totalMoves == MarkedCount(s.board)
    ensures s.totalMoves + |AvailableMoves(s.board)| == 9
  {
    HistoryLength(s.history[X], s.board, X);
    HistoryLength(s.history[O], s.board, O);
    MarkedPlusAvailable(s.board);
  }

  /** `switch_player`: the turn index after `i`, `(i + 1) % 2`. */
  function NextIndex(i: int): (r: int)
    ensures 0 <= r < 2
    ensures 0 <= i < 2 ==> r != i
  {
    (i + 1) % 2
  }

  /** Switching twice gives the turn back. */
  lemma NextIndexTwice(i: int)
    requires 0 <= i < 2
    ensures NextIndex(NextIndex(i)) == i
  {
  }

  /**
   * A fresh game on `board`, which `make_empty_board` supplies with every
   * cell empty: first player to move, no winner, no moves.
   */
  function Initial(board: Grid, player1: Player, player2: Player): (s: GameState)
    requires WellFormed(board)
    requires forall i, j :: 0 <= i < 3 && 0 <= j < 3 ==> board[i][j] == None
    ensures Consistent(s)
    ensures s.board == board && s.players == [player1, player2] && s.current == 0 && s.winner == None
    ensures s.history[X] == [] && s.history[O] == [] && s.totalMoves == 0
    ensures MarkedCount(s.board) == 0 && |AvailableMoves(s.board)| == 9
  {
    EmptyGridScan(board);
    GameState(board, [player1, player2], 0, None, map[X := [], O := []], 0)
  }

  /** Every symbol has an entry in the history, so appending to the mover's entry never misses its key. */
  lemma EverySymbolHasHistory(s: GameState)
    requires Consistent(s)
    ensures forall t: Symbol :: t in s.history
  {
    forall t: Symbol
      ensures t in s.history
    {
      assert t == X || t == O;
    }
  }

  /** The symbol of the player whose turn it is; the history has an entry for it. */
  function Mover(s: GameState): (sym: Symbol)
    requires Consistent(s)
    ensures sym in s.history
  {
    var sym := s.players[s.current].symbol;
    assert sym == X || sym == O;
    sym
  }

  /**
   * Marking an empty cell with `sym` and appending it to `sym`'s history
   * keeps the invariant, whatever the new winner and turn index are.
   */
  lemma PlaceKeepsConsistent(s: GameState, m: Move, sym: Symbol, winner: Option<Symbol>, current: int)
    requires Consistent(s) && InRange(m) && At(s.board, m) == None && 0 <= current < 2
    ensures Consistent(GameState(Place(s.board, m, sym), s.players, current, winner,
                                 s.history[sym := s.history[sym] + [m]], s.totalMoves + 1))
  {
    var b := Place(s.board, m, sym);
    PlaceSameExcept(s.board, m, sym);
    HistoryAppend(s.history[sym], s.board, b, m, sym);
    if sym == X {
      HistoryUntouched(s.history[O], s.board, b, m, O);
    } else {
      HistoryUntouched(s.history[X], s.board, b, m, X);
    }
  }

  /** Marking empty cell `m` with `sym` and appending `m` to `sym`'s history keeps them matched. */
  lemma HistoryAppend(history: seq<Move>, g: Grid, h: Grid, m: Move, sym: Symbol)
    requires WellFormed(g) && WellFormed(h) && InRange(m) && SameExcept(g, h, m)
    requires At(g, m) == None && At(h, m) == Some(sym)
    requires HistoryMatches(history, g, sym)
    ensures HistoryMatches(history + [m], h, sym)
  {
    ScanPlaceSame(g, h, m, sym, 9);
  }

  /** The other symbol's history still matches once an empty cell is marked with a different symbol. */
  lemma HistoryUntouched(history: seq<Move>, g: Grid, h: Grid, m: Move, sym: Symbol)
    requires WellFormed(g) && WellFormed(h) && InRange(m) && SameExcept(g, h, m)
    requires At(g, m) == None && At(h, m) != Some(sym)
    requires HistoryMatches(history, g, sym)
    ensures HistoryMatches(history, h, sym)
  {
    ScanPlaceOther(g, h, m, Some(sym), 9);
  }

  /** A proposal is applied when it names a cell and that cell is empty. */
  predicate Accepts(s: GameState, move: Option<Move>)
    requires WellFormed(s.board)
  {
    move.Some? && InRange(move.value) && At(s.board, move.value) == None
  }

  /**
   * One round on a proposed move, as `play_round` does it after asking the
   * player: an accepted move marks its cell with the mover's symbol,
   * refreshes the winner from `getWinner`, extends the mover's history and
   * the counter; a rejected one changes none of these. Either way the turn
   * passes to the other player.
   */
  function Step(s: GameState, move: Option<Move>, getWinner: Grid -> Option<Symbol>): (r: GameState)
    requires Consistent(s)
    requires move.Some? ==> InRange(move.value)
    ensures Consistent(r)
    ensures r.players == s.players
    ensures r.current == NextIndex(s.current)
    ensures forall i, j :: 0 <= i < 3 && 0 <= j < 3 && s.board[i][j].Some? ==> r.board[i][j] == s.board[i][j]
    ensures Accepts(s, move) ==>
      && r.board[move.value.row][move.value.col] == Some(Mover(s))
      && (forall i, j :: 0 <= i < 3 && 0 <= j < 3 && (i != move.value.row || j != move.value.col) ==> r.board[i][j] == s.board[i][j])
      && r.winner == getWinner(r.board)
      && r.history[Mover(s)] == s.history[Mover(s)] + [move.value]
      && (forall t :: t in s.history && t != Mover(s) ==> r.history[t] == s.history[t])
      && r.totalMoves == s.totalMoves + 1
    ensures !Accepts(s, move) ==>
      r.board == s.board && r.winner == s.winner && r.history == s.history && r.totalMoves == s.totalMoves
  {
    var sym := Mover(s);
    if Accepts(s, move) then
      var m := move.value;
      var b := Place(s.board, m, sym);
      PlaceKeepsConsistent(s, m, sym, getWinner(b), NextIndex(s.current));
      s.(board := b, winner := getWinner(b), history := s.history[sym := s.history[sym] + [m]],
         totalMoves := s.totalMoves + 1, current := NextIndex(s.current))
    else
      s.(current := NextIndex(s.current))
  }

  /**
   * The parity argument for one round: the turn moved from `a` to `b`, and
   * after the other `n - 1` rounds it is back at `b` exactly when `n - 1`
   * is even; so it is at `a` exactly when `n` is even.
   */
  lemma TurnParity(a: int, b: int, c: int, n: nat)
    requires 0 <= a < 2 && 0 <= b < 2 && 0 <= c < 2 && a != b && n > 0
    requires c == b <==> (n - 1) % 2 == 0
    ensures c == a <==> n % 2 == 0
  {
  }

  /** Every proposal of `moves` names a cell of the board. */
  predicate AllInRange(moves: seq<Option<Move>>) {
    forall i :: 0 <= i < |moves| && moves[i].Some? ==> InRange(moves[i].value)
  }

  lemma AllInRangeTail(moves: seq<Option<Move>>)
    requires moves != [] && AllInRange(moves)
    ensures AllInRange(moves[1..])
  {
    forall i | 0 <= i < |moves[1..]| && moves[1..][i].Some? ensures InRange(moves[1..][i].value) {
      assert moves[1..][i] == moves[i + 1];
    }
  }

  /**
   * Any sequence of rounds: the invariant holds throughout, the counter
   * equals the number of marked cells and grows by at most one per round,
   * and no marked cell is ever changed.
   */
  function Rounds(s: GameState, moves: seq<Option<Move>>, getWinner: Grid -> Option<Symbol>): (r: GameState)
    requires Consistent(s) && AllInRange(moves)
    ensures Consistent(r)
    ensures r.totalMoves == MarkedCount(r.board)
    ensures r.players == s.players
    ensures s.totalMoves <= r.totalMoves <= s.totalMoves + |moves|
    ensures forall i, j :: 0 <= i < 3 && 0 <= j < 3 && s.board[i][j].Some? ==> r.board[i][j] == s.board[i][j]
    decreases |moves|
  {
    if moves == [] then
      ConsistentCounts(s);
      s
    else
      AllInRangeTail(moves);
      Rounds(Step(s, moves[0], getWinner), moves[1..], getWinner)
  }

  /**
   * The turn index advances once per round whether or not the round's move
   * was accepted: after an even number of rounds it is back where it was.
   */
  lemma {:induction false} RoundsAlternate(s: GameState, moves: seq<Option<Move>>, getWinner: Grid -> Option<Symbol>)
    requires Consistent(s) && AllInRange(moves)
    ensures Rounds(s, moves, getWinner).current == s.current <==> |moves| % 2 == 0
    decreases |moves|
  {
    if moves != [] {
      var next := RoundsFirst(s, moves, getWinner);
      var rest := moves[1..];
      assert |rest| == |moves| - 1;
      RoundsAlternate(next, rest, getWinner);
      var c := Rounds(next, rest, getWinner).current;
      TurnParity(s.current, next.current, c, |moves|);
    }
  }

  /** The first of a non-empty sequence of rounds passes the turn and leaves the rest to play. */
  lemma RoundsFirst(s: GameState, moves: seq<Option<Move>>, getWinner: Grid -> Option<Symbol>) returns (next: GameState)
    requires Consistent(s) && AllInRange(moves) && moves != []
    ensures Consistent(next) && AllInRange(moves[1..])
    ensures next.current == NextIndex(s.current)
    ensures Rounds(s, moves, getWinner) == Rounds(next, moves[1..], getWinner)
  {
    AllInRangeTail(moves);
    next := Step(s, moves[0], getWinner);
  }

  lemma AllInRangeSnoc(moves: seq<Option<Move>>, move: Option<Move>)
    requires AllInRange(moves) && (move.Some? ==> InRange(move.value))
    ensures AllInRange(moves + [move])
  {
    var all := moves + [move];
    forall i | 0 <= i < |all| && all[i].Some? ensures InRange(all[i].value) {
      if i < |moves| {
        assert all[i] == moves[i];
      }
    }
  }

  /** Playing one more round after a sequence of rounds is one more `Step`. */
  lemma {:induction false} RoundsSnoc(s: GameState, moves: seq<Option<Move>>, move: Option<Move>, getWinner: Grid -> Option<Symbol>)
    requires Consistent(s) && AllInRange(moves) && (move.Some? ==> InRange(move.value))
    ensures AllInRange(moves + [move])
    ensures Rounds(s, moves + [move], getWinner) == Step(Rounds(s, moves, getWinner), move, getWinner)
    decreases |moves|
  {
    var all := moves + [move];
    AllInRangeSnoc(moves, move);
    if moves == [] {
      assert all == [move];
    } else {
      AllInRangeTail(moves);
      assert all[0] == moves[0] && all[1..] == moves[1..] + [move];
      RoundsSnoc(Step(s, moves[0], getWinner), moves[1..], move, getWinner);
    }
  }

  /** Every round of `moves` was played from a state that had no winner yet. */
  ghost predicate NoWinnerBefore(s: GameState, moves: seq<Option<Move>>, getWinner: Grid -> Option<Symbol>)
    requires Consistent(s) && AllInRange(moves)
  {
    forall k :: 0 <= k < |moves| ==> Rounds(s, moves[..k], getWinner).winner.None?
  }

  /** Playing one more round from a state without a winner keeps every earlier round winner-free. */
  lemma NoWinnerBeforeSnoc(s: GameState, moves: seq<Option<Move>>, move: Option<Move>, getWinner: Grid -> Option<Symbol>)
    requires Consistent(s) && AllInRange(moves) && (move.Some? ==> InRange(move.value))
    requires NoWinnerBefore(s, moves, getWinner)
    requires Rounds(s, moves, getWinner).winner.None?
    ensures AllInRange(moves + [move])
    ensures NoWinnerBefore(s, moves + [move], getWinner)
  {
    var all := moves + [move];
    AllInRangeSnoc(moves, move);
    forall k | 0 <= k <= |moves| {
      SnocPrefix(moves, move, k);
    }
  }

  /**
   * The proposal of one round from state `t`: the given input when the
   * current player is a human, one of the candidate cells (or none, on a
   * full board) when it is the bot.
   */
  predicate RoundChoice(t: GameState, proposal: Option<Move>, humanMove: Move)
    requires Consistent(t)
  {
    && (t.players[t.current].Human? ==> proposal == Some(humanMove))
    && (t.players[t.current].Bot? ==> IsBotChoice(t.board, proposal))
  }

  /** Each round `k` of `moves` was proposed by the player whose turn it was, a human with input `k`. */
  ghost predicate FollowsPlayers(s: GameState, moves: seq<Option<Move>>, humanMoves: seq<Move>, getWinner: Grid -> Option<Symbol>)
    requires Consistent(s) && AllInRange(moves) && |moves| <= |humanMoves|
  {
    forall k :: 0 <= k < |moves| ==> RoundChoice(Rounds(s, moves[..k], getWinner), moves[k], humanMoves[k])
  }

  /** A round proposed by the current player extends a sequence of rounds that each were. */
  lemma FollowsPlayersSnoc(s: GameState, moves: seq<Option<Move>>, move: Option<Move>, humanMoves: seq<Move>, getWinner: Grid -> Option<Symbol>)
    requires Consistent(s) && AllInRange(moves) && (move.Some? ==> InRange(move.value)) && |moves| < |humanMoves|
    requires FollowsPlayers(s, moves, humanMoves, getWinner)
    requires RoundChoice(Rounds(s, moves, getWinner), move, humanMoves[|moves|])
    ensures AllInRange(moves + [move])
    ensures FollowsPlayers(s, moves + [move], humanMoves, getWinner)
  {
    var all := moves + [move];
    AllInRangeSnoc(moves, move);
    forall k | 0 <= k <= |moves| {
      SnocPrefix(moves, move, k);
    }
  }

  /** The prefixes of `moves + [move]` are those of `moves`, and the whole of `moves`. */
  lemma SnocPrefix(moves: seq<Option<Move>>, move: Option<Move>, k: nat)
    requires k <= |moves|
    ensures (moves + [move])[..k] == moves[..k]
    ensures k == |moves| ==> moves[..k] == moves && (moves + [move])[k] == move
    ensures k < |moves| ==> (moves + [move])[k] == moves[k]
  {
    assert (moves + [move])[..k] == moves[..k];
  }

  /**
   * A rejected move still passes the turn: X takes (0, 0), O proposes the
   * same cell and is refused, and X moves again, so X has two moves and O
   * none, and it is O's turn.
   */
  lemma RejectedMovePassesTurn(board: Grid, player1: Player, player2: Player, getWinner: Grid -> Option<Symbol>)
    requires WellFormed(board)
    requires forall i, j :: 0 <= i < 3 && 0 <= j < 3 ==> board[i][j] == None
    requires player1.symbol == X && player2.symbol == O
    ensures var s := Rounds(Initial(board, player1, player2), [Some(Move(0, 0)), Some(Move(0, 0)), Some(Move(1, 1))], getWinner);
      |s.history[X]| == 2 && |s.history[O]| == 0 && s.current == 1
  {
    var s0 := Initial(board, player1, player2);
    var s1 := Step(s0, Some(Move(0, 0)), getWinner);
    assert Accepts(s0, Some(Move(0, 0)));
    var s2 := Step(s1, Some(Move(0, 0)), getWinner);
    assert !Accepts(s1, Some(Move(0, 0)));
    var s3 := Step(s2, Some(Move(1, 1)), getWinner);
    assert Accepts(s2, Some(Move(1, 1)));
    var moves := [Some(Move(0, 0)), Some(Move(0, 0)), Some(Move(1, 1))];
    assert moves[1..] == [Some(Move(0, 0)), Some(Move(1, 1))];
    assert moves[1..][1..] == [Some(Move(1, 1))];
    assert moves[1..][1..][1..] == [];
    assert Rounds(s0, moves, getWinner) == s3;
  }

  /** The row `record_game_details` writes, without the file around it. */
  datatype ResultRow = ResultRow(timestamp: string, winner: string, totalMoves: int, movesX: int, movesO: int)

  /**
   * The result row of state `s`: "Draw" exactly when there is no winner,
   * otherwise the winner's symbol; the per-symbol counts add up to the total,
   * which is the number of marked cells.
   */
  function ResultRowOf(s: GameState, timestamp: string): (r: ResultRow)
    requires Consistent(s)
    ensures r.timestamp == timestamp
    ensures r.winner == "Draw" <==> s.winner.None?
    ensures s.winner.Some? ==> r.winner == SymbolName(s.winner.value)
    ensures r.movesX + r.movesO == r.totalMoves
    ensures r.movesX == |Scan(s.board, Some(X), 9)| && r.movesO == |Scan(s.board, Some(O), 9)|
    ensures r.totalMoves == MarkedCount(s.board)
  {
    ConsistentCounts(s);
    HistoryLength(s.history[X], s.board, X);
    HistoryLength(s.history[O], s.board, O);
    var winner := if s.winner.Some? then SymbolName(s.winner.value) else "Draw";
    ResultRow(timestamp, winner, s.totalMoves, |s.history[X]|, |s.history[O]|)
  }
}
