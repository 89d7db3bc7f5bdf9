/**
 * Whole games played against the referee, as a client sees them: what the
 * specifications of `RefereeAgent` alone let a caller conclude.
 */
module Scenarios {
  import opened Wrappers
  import opened State
  import Logic
  import opened Referee

  /** Three rounds of rock against the bot's rock: three draws, the game is
      over after round 3, the final result is a 0-0 draw, and a fourth input
      is refused. */
  method ThreeDrawnRounds() returns (last: Reply, after: Reply)
    ensures last.Played? && last.final == Some(FinalResult(0, 0, DrawGame))
    ensures after == GameIsOver
  {
    var referee := new RefereeAgent();
    var reply := RockAgainstRock(referee);
    reply := RockAgainstRock(referee);
    last := RockAgainstRock(referee);
    after := referee.ProcessMove("rock", false, 0);
  }

  /** One round of rock against the bot's rock in a running game at 0-0: a
      draw, so the score stays 0-0 and the game ends after round 3. */
  method RockAgainstRock(referee: RefereeAgent) returns (reply: Reply)
    requires referee.Valid() && !referee.gameState.gameOver
    requires referee.gameState.userScore == 0 && referee.gameState.botScore == 0
    modifies referee.gameState, referee.tools
    ensures referee.Valid() && referee.gameState == old(referee.gameState)
    ensures referee.gameState.roundNumber == old(referee.gameState.roundNumber) + 1
    ensures referee.gameState.userScore == 0 && referee.gameState.botScore == 0
    ensures referee.gameState.gameOver <==> old(referee.gameState.roundNumber) >= 3
    ensures reply.Played? && (reply.final.Some? <==> referee.gameState.gameOver)
    ensures reply.final.Some? ==> reply.final.value == referee.GenerateFinalResult()
  {
    StepOnMoveName(referee.gameState.Value(), Rock, false, 0);
    reply := referee.ProcessMove("rock", false, 0);
  }

  /** A bomb in round 1 beats the bot, which may not bomb in round 1; a second
      bomb only wastes round 2 with the "Bomb already used!" reason, and the
      score stays 1-0. */
  method SecondBombWastesTheRound() returns (first: Reply, second: Reply)
    ensures first.Played? && first.round.botMove == Rock && first.score == (1, 0)
    ensures second == Wasted(Logic.BombUsedReason, 2, None)
  {
    var referee := new RefereeAgent();
    StepOnMoveName(referee.gameState.Value(), Bomb, true, 0);
    first := referee.ProcessMove("bomb", true, 0);
    assert referee.gameState.roundNumber == 2 && referee.gameState.userBombUsed;
    assert referee.gameState.userScore == 1 && referee.gameState.botScore == 0;
    SecondBombIsWasted(referee.gameState.Value(), "bomb", true, 0);
    second := referee.ProcessMove("bomb", true, 0);
  }
}
