/**
 * The tools the referee calls: thin wrappers that compose the rules over the
 * one game state they share with the referee, and report their results as
 * records.
 */
module Tools {
  import opened Wrappers
  import opened State
  import Logic
  import Text

  /** What `validate_move_tool` reports: the verdict, its reason, and the move
      (lower-cased, not stripped) when it is valid. */
  datatype MoveCheck = MoveCheck(valid: bool, reason: string, move: Option<string>)

  /** What `resolve_round_tool` reports; `result` is the outcome's string value. */
  datatype RoundReport = RoundReport(
    userMove: Move,
    botMove: Move,
    result: string,
    explanation: string,
    roundNumber: int)

  /** What `update_game_state_tool` reports: the state's dictionary, whether the
      game is over, and the winner once it is. */
  datatype StateUpdate = StateUpdate(gameState: StateDict, gameOver: bool, winner: Option<string>)

  /** What `get_game_status_tool` reports; `score` is the pair the source prints as "user-bot". */
  datatype GameStatus = GameStatus(round: int, score: (int, int), userBombAvailable: bool, gameOver: bool)

  class GameTools {
    var gameState: GameState

    constructor (gs: GameState)
      ensures gameState == gs
    {
      gameState := gs;
    }

    /** `validate_move_tool`: `validate_move`'s verdict and reason, plus the
        lower-cased input exactly when it is valid. */
    function ValidateMoveTool(move: string): (c: MoveCheck)
      reads this, gameState
      ensures c.valid == Logic.ValidateMove(move, gameState.Value()).valid
      ensures c.reason == Logic.ValidateMove(move, gameState.Value()).reason
      ensures c.move.None? <==> !c.valid
      ensures c.valid ==> c.move == Some(Text.Lower(move))
    {
      var v := Logic.ValidateMove(move, gameState.Value());
      MoveCheck(v.valid, v.reason, if v.valid then Some(Text.Lower(move)) else None)
    }

    /**
     * `resolve_round_tool`: draws the bot's move (from the injected `coin` and
     * `pick`), resolves the round and explains it, all against the current,
     * not yet advanced, round number. The state is only read.
     */
    function ResolveRoundTool(userMove: Move, coin: bool, pick: nat): (rr: RoundReport)
      reads this, gameState
      requires pick < |Logic.BotChoices|
      ensures rr.userMove == userMove
      ensures rr.botMove == Logic.GetBotMove(gameState.Value(), coin, pick)
      ensures ParseResult(rr.result) == Some(Logic.ResolveRound(userMove, rr.botMove))
      ensures rr.explanation ==
        Logic.GetResultExplanation(userMove, rr.botMove, Logic.ResolveRound(userMove, rr.botMove))
      ensures rr.roundNumber == gameState.roundNumber
    {
      var botMove := Logic.GetBotMove(gameState.Value(), coin, pick);
      var result := Logic.ResolveRound(userMove, botMove);
      var explanation := Logic.GetResultExplanation(userMove, botMove, result);
      ParseResultValue(result);
      RoundReport(userMove, botMove, ResultValue(result), explanation, gameState.roundNumber)
    }

    /**
     * `update_game_state_tool`: turns the result string back into an outcome
     * (an unknown string is Python's `ValueError`, here `None`, and nothing
     * changes), applies the round to the shared state, and reports it, with
     * the winner only once the game is over.
     */
    method UpdateGameStateTool(userMove: Move, botMove: Move, resultValue: string)
      returns (u: Option<StateUpdate>)
      modifies this, gameState
      ensures gameState == old(gameState)
      ensures u.None? <==> ParseResult(resultValue).None?
      ensures u.None? ==> unchanged(gameState)
      ensures u.Some? ==>
                gameState.Value() == Logic.ApplyRound(old(gameState.Value()), userMove, botMove,
                                                      ParseResult(resultValue).value)
      ensures u.Some? ==> u.value.gameState == gameState.ToDict()
      ensures u.Some? ==> u.value.gameOver == gameState.gameOver
      ensures u.Some? ==> u.value.winner == if gameState.gameOver then Some(gameState.GetWinner()) else None
    {
      var result := ParseResult(resultValue);
      if result.None? {
        return None;
      }
      gameState := Logic.UpdateGameState(gameState, userMove, botMove, result.value);
      var winner := if gameState.gameOver then Some(gameState.GetWinner()) else None;
      u := Some(StateUpdate(gameState.ToDict(), gameState.gameOver, winner));
    }

    /** `get_game_status_tool`: a read-only view of the round, the score, whether
        the user's bomb is still available, and whether the game is over. */
    function GetGameStatusTool(): (st: GameStatus)
      reads this, gameState
      ensures st.round == gameState.roundNumber
      ensures st.score == (gameState.userScore, gameState.botScore)
      ensures st.userBombAvailable <==> !gameState.userBombUsed
      ensures st.gameOver == gameState.gameOver
    {
      GameStatus(gameState.roundNumber, (gameState.userScore, gameState.botScore),
                 !gameState.userBombUsed, gameState.gameOver)
    }
  }
}
