/**
 * The two kinds of participant. A human's move comes from the console and
 * enters the model as an input; the bot picks one of the empty cells.
 */
module Players {
  import opened Wrappers
  import opened Board

  datatype Player = Human(symbol: Symbol) | Bot(symbol: Symbol)

  /** What the bot may answer on board `g`: nothing when no cell is empty, else one candidate. */
  predicate IsBotChoice(g: Grid, proposal: Option<Move>)
    requires WellFormed(g)
  {
    if AvailableMoves(g) == [] then proposal.None? else proposal.Some? && proposal.value in AvailableMoves(g)
  }

  /**
   * The bot's move: some element of the row-major list of empty cells
   * (which one is left open, as `random.choice` picks it), or `None` when
   * that list is empty.
   */
  method BotMove(g: Grid) returns (proposal: Option<Move>)
    requires WellFormed(g)
    ensures proposal.None? <==> IsFull(g)
    ensures proposal.Some? ==> InRange(proposal.value) && At(g, proposal.value) == None
    ensures IsBotChoice(g, proposal)
  {
    var available := AvailableMoves(g);
    AvailableMovesAreEmptyCells(g);
    if available == [] {
      proposal := None;
    } else {
      assert available[0] in available;
      var m :| m in available;
      proposal := Some(m);
    }
  }
}
