/**
 * The referee: the top-level state machine that takes one line of user input
 * per call, refuses input after the game is over, ignores quit words, wastes
 * a round on an invalid move and otherwise plays the round through the tools,
 * all on the one game state it shares with its tools.
 */
module Referee {
  import opened Wrappers
  import opened State
  import Logic
  import Text
  import opened Tools

  const QuitWords: seq<string> := ["quit", "exit", "stop"]

  /** Which closing line `_generate_final_result` announces. */
  datatype Verdict = YouWin | BotWinsGame | DrawGame

  /** The final announcement: the final score and the verdict. */
  datatype FinalResult = FinalResult(userScore: int, botScore: int, verdict: Verdict)

  /** The referee's answer to one input, by the case it announces. */
  datatype Reply =
    | GameIsOver
    | Goodbye
    | Wasted(reason: string, wastedRound: int, final: Option<FinalResult>)
    | Played(round: RoundReport, score: (int, int),
             final: Option<FinalResult>, bombStillAvailable: bool)

  /** A played reply reports the round `process_move` played on `before` for
      `userInput` against the policy's move: the parsed move, the bot's move,
      the outcome and its explanation, and, from the state `after` the round,
      the score, the final result iff over and the bomb hint iff the game goes
      on with the user's bomb unused. */
  ghost predicate PlayedReply(reply: Reply, before: GameValue, after: GameValue,
                              userInput: string, coin: bool, pick: nat)
    requires pick < |Logic.BotChoices|
  {
    && reply.Played?
    && ParseMove(Text.Normalize(userInput)) == Some(reply.round.userMove)
    && reply.round.botMove == Logic.GetBotMove(before, coin, pick)
    && reply.round.roundNumber == before.roundNumber
    && ParseResult(reply.round.result) == Some(Logic.ResolveRound(reply.round.userMove, reply.round.botMove))
    && reply.round.explanation ==
         Logic.GetResultExplanation(reply.round.userMove, reply.round.botMove,
                                    Logic.ResolveRound(reply.round.userMove, reply.round.botMove))
    && reply.score == (after.userScore, after.botScore)
    && (reply.final.Some? <==> after.gameOver)
    && (reply.bombStillAvailable <==> !after.gameOver && !after.userBombUsed)
  }

  /** The number of rounds in `h` that ended with `r`. */
  function CountResult(h: seq<RoundHistory>, r: RoundResult): (n: nat)
    ensures n <= |h|
  {
    if h == [] then 0
    else CountResult(h[..|h| - 1], r) + (if h[|h| - 1].result == r then 1 else 0)
  }

  /** The number of rounds in `h` in which the user played the bomb. */
  function UserBombs(h: seq<RoundHistory>): (n: nat)
    ensures n <= |h|
  {
    if h == [] then 0
    else UserBombs(h[..|h| - 1]) + (if h[|h| - 1].userMove == Some(Bomb) then 1 else 0)
  }

  /** The number of rounds in `h` in which the bot played the bomb. */
  function BotBombs(h: seq<RoundHistory>): (n: nat)
    ensures n <= |h|
  {
    if h == [] then 0
    else BotBombs(h[..|h| - 1]) + (if h[|h| - 1].botMove == Bomb then 1 else 0)
  }

  /** Appending one round adds its contribution to each count. */
  lemma {:induction false} CountsAppend(h: seq<RoundHistory>, x: RoundHistory)
    ensures forall r :: CountResult(h + [x], r) == CountResult(h, r) + (if x.result == r then 1 else 0)
    ensures UserBombs(h + [x]) == UserBombs(h) + (if x.userMove == Some(Bomb) then 1 else 0)
    ensures BotBombs(h + [x]) == BotBombs(h) + (if x.botMove == Bomb then 1 else 0)
  {
    assert (h + [x])[..|h|] == h;
  }

  /** No more rounds are won, by either side, than have been played. */
  lemma {:induction false} WinsWithinRounds(h: seq<RoundHistory>)
    ensures CountResult(h, UserWin) + CountResult(h, BotWin) <= |h|
  {
    if h != [] {
      WinsWithinRounds(h[..|h| - 1]);
    }
  }

  /** A history record made by playing a round under the rules: a user move,
      the rules' outcome and its explanation, and no bot bomb in round 1. */
  ghost predicate ResolvedRecord(rec: RoundHistory)
  {
    && rec.userMove.Some?
    && rec.result == Logic.ResolveRound(rec.userMove.value, rec.botMove)
    && rec.reason == Logic.GetResultExplanation(rec.userMove.value, rec.botMove, rec.result)
    && (rec.botMove == Bomb ==> rec.roundNumber > 1)
  }

  /**
   * What holds of every state the referee reaches from a new game: the round
   * number stays within 1..MaxRounds + 1, the game is over exactly past
   * MaxRounds, each score counts the rounds its side won, each bomb flag says
   * whether that side's one bomb is in the history, and the history holds
   * rules-made rounds in increasing round order, all before the current round.
   */
  ghost predicate Reachable(g: GameValue)
  {
    var h := g.roundsHistory;
    && 1 <= g.roundNumber <= Logic.MaxRounds + 1
    && |h| <= g.roundNumber - 1
    && (g.gameOver <==> g.roundNumber > Logic.MaxRounds)
    && Tallied(g)
    && OrderedRecords(h, g.roundNumber)
  }

  /** The score and bomb part of `Reachable`: each score counts the rounds its
      side won, and each bomb flag says whether that side's one bomb is in the
      history. */
  ghost predicate Tallied(g: GameValue)
  {
    var h := g.roundsHistory;
    && g.userScore == CountResult(h, UserWin)
    && g.botScore == CountResult(h, BotWin)
    && UserBombs(h) <= 1 && (g.userBombUsed <==> UserBombs(h) == 1)
    && BotBombs(h) <= 1 && (g.botBombUsed <==> BotBombs(h) == 1)
  }

  /** The bounds every reachable state keeps: at most four as round number,
      no more rounds recorded than played, no more points than recorded rounds,
      and game over exactly past round 3. */
  lemma {:induction false} ReachableBounds(g: GameValue)
    requires Reachable(g)
    ensures g.roundNumber <= 4
    ensures |g.roundsHistory| <= g.roundNumber - 1 && |g.roundsHistory| <= Logic.MaxRounds
    ensures g.userScore + g.botScore <= |g.roundsHistory|
    ensures g.gameOver <==> g.roundNumber > 3
  {
    WinsWithinRounds(g.roundsHistory);
  }

  /** The wasted-round transition of `process_move`: the round number moves on
      and the game ends once it passes 3; scores, bomb flags and history stay. */
  function SkipRound(g: GameValue): (next: GameValue)
    ensures next.roundNumber == g.roundNumber + 1
    ensures next.gameOver <==> g.gameOver || next.roundNumber > 3
    ensures next.userScore == g.userScore && next.botScore == g.botScore
    ensures next.userBombUsed == g.userBombUsed && next.botBombUsed == g.botBombUsed
    ensures next.roundsHistory == g.roundsHistory
  {
    var roundNumber := g.roundNumber + 1;
    g.(roundNumber := roundNumber, gameOver := g.gameOver || roundNumber > 3)
  }

  /** A wasted round keeps a reachable state reachable. */
  lemma {:induction false} SkipRoundKeepsReachable(g: GameValue)
    requires Reachable(g) && !g.gameOver
    ensures Reachable(SkipRound(g))
  {
  }

  /** The history part of `Reachable`: rules-made records, numbered in
      increasing order and all below `roundNumber`. */
  ghost predicate OrderedRecords(h: seq<RoundHistory>, roundNumber: int)
  {
    && (forall i :: 0 <= i < |h| ==> ResolvedRecord(h[i]) && 1 <= h[i].roundNumber < roundNumber)
    && (forall i, j :: 0 <= i < j < |h| ==> h[i].roundNumber < h[j].roundNumber)
  }

  /** Appending a rules-made record for the current round keeps every record
      rules-made and numbered below the next round. */
  lemma {:induction false} AppendKeepsResolved(h: seq<RoundHistory>, roundNumber: int, rec: RoundHistory)
    requires forall i :: 0 <= i < |h| ==> ResolvedRecord(h[i]) && 1 <= h[i].roundNumber < roundNumber
    requires ResolvedRecord(rec) && rec.roundNumber == roundNumber >= 1
    ensures forall i :: 0 <= i < |h + [rec]| ==>
              ResolvedRecord((h + [rec])[i]) && 1 <= (h + [rec])[i].roundNumber < roundNumber + 1
  {
    var h' := h + [rec];
    forall i | 0 <= i < |h'|
      ensures ResolvedRecord(h'[i]) && 1 <= h'[i].roundNumber < roundNumber + 1
    {
      if i < |h| {
        assert h'[i] == h[i];
      }
    }
  }

  /** Appending a record numbered above every earlier one keeps the numbers increasing. */
  lemma {:induction false} AppendKeepsIncreasing(h: seq<RoundHistory>, rec: RoundHistory)
    requires forall i :: 0 <= i < |h| ==> h[i].roundNumber < rec.roundNumber
    requires forall i, j :: 0 <= i < j < |h| ==> h[i].roundNumber < h[j].roundNumber
    ensures forall i, j :: 0 <= i < j < |h + [rec]| ==> (h + [rec])[i].roundNumber < (h + [rec])[j].roundNumber
  {
    var h' := h + [rec];
    forall i, j | 0 <= i < j < |h'|
      ensures h'[i].roundNumber < h'[j].roundNumber
    {
      assert h'[i] == h[i];
      if j < |h| {
        assert h'[j] == h[j];
      }
    }
  }

  /** Appending a rules-made record for the current round keeps the history ordered. */
  lemma {:induction false} AppendKeepsOrdered(h: seq<RoundHistory>, roundNumber: int, rec: RoundHistory)
    requires OrderedRecords(h, roundNumber)
    requires ResolvedRecord(rec) && rec.roundNumber == roundNumber >= 1
    ensures OrderedRecords(h + [rec], roundNumber + 1)
  {
    AppendKeepsResolved(h, roundNumber, rec);
    AppendKeepsIncreasing(h, rec);
  }

  /** A round that plays each bomb only while it is unused keeps the scores and
      bomb flags in step with the history. */
  lemma {:induction false} ApplyRoundKeepsTallied(g: GameValue, userMove: Move, botMove: Move)
    requires Tallied(g)
    requires userMove == Bomb ==> !g.userBombUsed
    requires botMove == Bomb ==> !g.botBombUsed
    ensures Tallied(Logic.ApplyRound(g, userMove, botMove, Logic.ResolveRound(userMove, botMove)))
  {
    var result := Logic.ResolveRound(userMove, botMove);
    var next := Logic.ApplyRound(g, userMove, botMove, result);
    var h := g.roundsHistory;
    var rec := next.roundsHistory[|h|];
    assert next.roundsHistory == h + [rec];
    CountsAppend(h, rec);
  }

  /** A round played under the rules keeps a reachable state reachable, when
      the user's bomb is played only while unused and the bot's only while
      unused and after round 1. */
  lemma {:induction false} ApplyRoundKeepsReachable(g: GameValue, userMove: Move, botMove: Move)
    requires Reachable(g) && !g.gameOver
    requires userMove == Bomb ==> !g.userBombUsed
    requires botMove == Bomb ==> !g.botBombUsed && g.roundNumber > 1
    ensures Reachable(Logic.ApplyRound(g, userMove, botMove, Logic.ResolveRound(userMove, botMove)))
  {
    var result := Logic.ResolveRound(userMove, botMove);
    var next := Logic.ApplyRound(g, userMove, botMove, result);
    var h := g.roundsHistory;
    var rec := next.roundsHistory[|h|];
    assert next.roundsHistory == h + [rec];
    assert ResolvedRecord(rec);
    ApplyRoundKeepsTallied(g, userMove, botMove);
    AppendKeepsOrdered(h, g.roundNumber, rec);
  }

  /**
   * The state `process_move` leaves behind, given the bot's random choices:
   * unchanged after game over or on a quit word, a wasted round when the
   * normalized input does not validate, and otherwise the full round
   * transition for the user's move against the policy's move.
   */
  function Step(g: GameValue, userInput: string, coin: bool, pick: nat): (next: GameValue)
    requires pick < |Logic.BotChoices|
    ensures g.gameOver || Text.Normalize(userInput) in QuitWords ==> next == g
    ensures !g.gameOver && Text.Normalize(userInput) !in QuitWords ==> next.roundNumber == g.roundNumber + 1
  {
    var n := Text.Normalize(userInput);
    Text.NormalizeIdempotent(userInput);
    if g.gameOver || n in QuitWords then g
    else if !Logic.ValidateMove(n, g).valid then SkipRound(g)
    else
      var userMove := ParseMove(n).value;
      var botMove := Logic.GetBotMove(g, coin, pick);
      Logic.ApplyRound(g, userMove, botMove, Logic.ResolveRound(userMove, botMove))
  }

  /** Every step from a reachable state reaches a reachable state. */
  lemma {:induction false} StepKeepsReachable(g: GameValue, userInput: string, coin: bool, pick: nat)
    requires pick < |Logic.BotChoices|
    requires Reachable(g)
    ensures Reachable(Step(g, userInput, coin, pick))
  {
    var n := Text.Normalize(userInput);
    Text.NormalizeIdempotent(userInput);
    if g.gameOver || n in QuitWords {
    } else if !Logic.ValidateMove(n, g).valid {
      SkipRoundKeepsReachable(g);
    } else {
      var userMove := ParseMove(n).value;
      var botMove := Logic.GetBotMove(g, coin, pick);
      ApplyRoundKeepsReachable(g, userMove, botMove);
    }
  }

  /** What a step never undoes: a used bomb, a finished game, the rounds
      already counted and the rounds already recorded. */
  lemma {:induction false} StepLatches(g: GameValue, userInput: string, coin: bool, pick: nat)
    requires pick < |Logic.BotChoices|
    ensures var next := Step(g, userInput, coin, pick);
      && (g.userBombUsed ==> next.userBombUsed)
      && (g.botBombUsed ==> next.botBombUsed)
      && (g.gameOver ==> next.gameOver)
      && g.roundNumber <= next.roundNumber
      && g.roundsHistory <= next.roundsHistory
  {
    var n := Text.Normalize(userInput);
    Text.NormalizeIdempotent(userInput);
    if g.gameOver || n in QuitWords {
    } else if !Logic.ValidateMove(n, g).valid {
    } else {
      var m := ParseMove(n).value;
      var b := Logic.GetBotMove(g, coin, pick);
      var next := Logic.ApplyRound(g, m, b, Logic.ResolveRound(m, b));
      assert next.roundsHistory[..|g.roundsHistory|] == g.roundsHistory;
    }
  }

  /** In a running game, a submission that is not a quit word wastes the round
      when `validate_move` refuses it and otherwise plays the move it names. */
  lemma {:induction false} StepByValidation(g: GameValue, userInput: string, coin: bool, pick: nat)
    requires pick < |Logic.BotChoices|
    requires !g.gameOver && Text.Normalize(userInput) !in QuitWords
    ensures !Logic.ValidateMove(userInput, g).valid ==> Step(g, userInput, coin, pick) == SkipRound(g)
    ensures Logic.ValidateMove(userInput, g).valid ==>
      && ParseMove(Text.Normalize(userInput)).Some?
      && var m := ParseMove(Text.Normalize(userInput)).value;
         var b := Logic.GetBotMove(g, coin, pick);
         Step(g, userInput, coin, pick) == Logic.ApplyRound(g, m, b, Logic.ResolveRound(m, b))
  {
    var n := Text.Normalize(userInput);
    Text.NormalizeIdempotent(userInput);
    assert Text.Normalize(n) == n;
    assert Logic.ValidateMove(n, g).valid == Logic.ValidateMove(userInput, g).valid;
  }

  /**
   * One submission that is not refused or a quit word uses up exactly one
   * round: a valid move records exactly one round more, an invalid or
   * bomb-exhausted one leaves scores, bomb flags and history as they were.
   */
  lemma {:induction false} StepUsesOneRound(g: GameValue, userInput: string, coin: bool, pick: nat)
    requires pick < |Logic.BotChoices|
    requires !g.gameOver && Text.Normalize(userInput) !in QuitWords
    ensures var next := Step(g, userInput, coin, pick);
      && next.roundNumber == g.roundNumber + 1
      && (Logic.ValidateMove(userInput, g).valid ==>
            |next.roundsHistory| == |g.roundsHistory| + 1
            && next.roundsHistory[..|g.roundsHistory|] == g.roundsHistory)
      && (!Logic.ValidateMove(userInput, g).valid ==>
            && next.roundsHistory == g.roundsHistory
            && next.userScore == g.userScore && next.botScore == g.botScore
            && next.userBombUsed == g.userBombUsed && next.botBombUsed == g.botBombUsed)
  {
    StepByValidation(g, userInput, coin, pick);
  }

  /** A move's name is its own normal form, is no quit word, and names that move. */
  lemma {:induction false} MoveNameIsCanonical(m: Move)
    ensures Text.Normalize(MoveValue(m)) == MoveValue(m) && MoveValue(m) !in QuitWords
    ensures ParseMove(Text.Normalize(MoveValue(m))) == Some(m)
  {
    var name := MoveValue(m);
    Text.NormalizeOfLowerWord(name);
    assert name != QuitWords[0] && name != QuitWords[1] && name != QuitWords[2];
    ParseMoveValue(m);
  }

  /** A second bomb is never played: once the user's bomb is used, "bomb" only
      wastes the round. */
  lemma {:induction false} SecondBombIsWasted(g: GameValue, userInput: string, coin: bool, pick: nat)
    requires pick < |Logic.BotChoices|
    requires !g.gameOver && g.userBombUsed && Text.Normalize(userInput) == "bomb"
    ensures Step(g, userInput, coin, pick) == SkipRound(g)
    ensures Logic.ValidateMove(userInput, g) == Logic.Validation(false, Logic.BombUsedReason)
  {
    MoveNameIsCanonical(Bomb);
    var v := Logic.ValidateMove(userInput, g);
    assert !v.valid && v.reason == Logic.BombUsedReason;
    StepByValidation(g, userInput, coin, pick);
  }

  /** Typing a move's name while the game runs (and, for the bomb, while the
      user's bomb is unused) plays exactly that move against the policy's move. */
  lemma {:induction false} StepOnMoveName(g: GameValue, m: Move, coin: bool, pick: nat)
    requires pick < |Logic.BotChoices|
    requires !g.gameOver && (m == Bomb ==> !g.userBombUsed)
    ensures Text.Normalize(MoveValue(m)) == MoveValue(m) && MoveValue(m) !in QuitWords
    ensures Logic.ValidateMove(MoveValue(m), g).valid
    ensures var b := Logic.GetBotMove(g, coin, pick);
      Step(g, MoveValue(m), coin, pick) == Logic.ApplyRound(g, m, b, Logic.ResolveRound(m, b))
  {
    MoveNameIsCanonical(m);
    StepByValidation(g, MoveValue(m), coin, pick);
  }

  /** One submission: what the user typed and the bot's random choices for it. */
  datatype Turn = Turn(userInput: string, coin: bool, pick: nat)

  predicate WellDrawn(turns: seq<Turn>)
  {
    forall i :: 0 <= i < |turns| ==> turns[i].pick < |Logic.BotChoices|
  }

  /** The state after submitting `turns` one by one, starting from `g`. */
  function Run(g: GameValue, turns: seq<Turn>): GameValue
    requires WellDrawn(turns)
    decreases |turns|
  {
    if turns == [] then g
    else Run(Step(g, turns[0].userInput, turns[0].coin, turns[0].pick), turns[1..])
  }

  /** Reachability survives any sequence of submissions. */
  lemma {:induction false} RunKeepsReachable(g: GameValue, turns: seq<Turn>)
    requires WellDrawn(turns) && Reachable(g)
    ensures Reachable(Run(g, turns))
    decreases |turns|
  {
    if turns != [] {
      StepKeepsReachable(g, turns[0].userInput, turns[0].coin, turns[0].pick);
      RunKeepsReachable(Step(g, turns[0].userInput, turns[0].coin, turns[0].pick), turns[1..]);
    }
  }

  /**
   * Whatever the user types and whatever the bot draws, every state reached
   * from a new game has a round number of at most 4, records at most one round
   * per round played, has no more points than recorded rounds, is over exactly
   * past round 3, and has each side's bomb in the history at most once.
   */
  lemma {:induction false} EveryGameStaysInBounds(turns: seq<Turn>)
    requires WellDrawn(turns)
    ensures var g := Run(NewGame, turns);
      && g.roundNumber <= 4
      && |g.roundsHistory| <= g.roundNumber - 1
      && g.userScore + g.botScore <= |g.roundsHistory|
      && (g.gameOver <==> g.roundNumber > 3)
      && UserBombs(g.roundsHistory) <= 1 && BotBombs(g.roundsHistory) <= 1
  {
    assert Reachable(NewGame);
    RunKeepsReachable(NewGame, turns);
    ReachableBounds(Run(NewGame, turns));
  }

  class RefereeAgent {
    var gameState: GameState
    var tools: GameTools

    /** The tools work on the referee's own state object, and that state is
        one the referee can reach from a new game. */
    ghost predicate Valid()
      reads this, tools, gameState
    {
      tools.gameState == gameState && Reachable(gameState.Value())
    }

    /** A new referee holds a new game, shared with its tools. */
    constructor ()
      ensures Valid() && fresh(gameState) && fresh(tools)
      ensures gameState.Value() == NewGame
    {
      var gs := new GameState();
      gameState := gs;
      tools := new GameTools(gs);
    }

    /** `_generate_final_result`: the final score and the winner `get_winner` names. */
    function GenerateFinalResult(): (f: FinalResult)
      reads this, gameState
      ensures f.userScore == gameState.userScore && f.botScore == gameState.botScore
      ensures f.verdict == YouWin <==> gameState.GetWinner() == "USER WINS"
      ensures f.verdict == BotWinsGame <==> gameState.GetWinner() == "BOT WINS"
      ensures f.verdict == DrawGame <==> gameState.GetWinner() == "DRAW"
    {
      var winner := gameState.GetWinner();
      var verdict :=
        if winner == "USER WINS" then YouWin
        else if winner == "BOT WINS" then BotWinsGame
        else DrawGame;
      FinalResult(gameState.userScore, gameState.botScore, verdict)
    }

    /** `_format_round_result`: the round, the score, the final announcement
        once the game is over, and otherwise the reminder that the user's bomb
        is still available. */
    function FormatRoundResult(round: RoundReport): (reply: Reply)
      reads this, gameState
      ensures reply.Played? && reply.round == round
      ensures reply.score == (gameState.userScore, gameState.botScore)
      ensures reply.final.Some? <==> gameState.gameOver
      ensures reply.final.Some? ==> reply.final.value == GenerateFinalResult()
      ensures reply.bombStillAvailable <==> !gameState.gameOver && !gameState.userBombUsed
    {
      Played(round, (gameState.userScore, gameState.botScore),
             if gameState.gameOver then Some(GenerateFinalResult()) else None,
             !gameState.gameOver && !gameState.userBombUsed)
    }

    /**
     * `process_move`, with the bot's random choices passed in: the shared state
     * moves as `Step` says, and stays reachable. The reply says which case
     * applied: refused after game over, a quit word, a wasted round with the
     * validator's reason, or a played round against the policy's move.
     */
    method ProcessMove(userInput: string, coin: bool, pick: nat) returns (reply: Reply)
      requires Valid()
      requires pick < |Logic.BotChoices|
      modifies gameState, tools
      ensures Valid() && gameState == old(gameState) && tools == old(tools)
      ensures gameState.Value() == Step(old(gameState.Value()), userInput, coin, pick)
      ensures reply == GameIsOver <==> old(gameState.gameOver)
      ensures reply == Goodbye <==> !old(gameState.gameOver) && Text.Normalize(userInput) in QuitWords
      ensures reply.Wasted? <==>
                && !old(gameState.gameOver) && Text.Normalize(userInput) !in QuitWords
                && !Logic.ValidateMove(userInput, old(gameState.Value())).valid
      ensures reply.Wasted? ==>
                && reply.reason == Logic.ValidateMove(userInput, old(gameState.Value())).reason
                && reply.wastedRound == old(gameState.roundNumber)
                && (reply.final.Some? <==> gameState.gameOver)
      ensures reply.Played? ==>
                PlayedReply(reply, old(gameState.Value()), gameState.Value(), userInput, coin, pick)
      ensures (reply.Wasted? || reply.Played?) && reply.final.Some? ==>
                reply.final.value == GenerateFinalResult()
    {
      if gameState.gameOver {
        return GameIsOver;
      }

      var userInputLower := Text.Normalize(userInput);

      if userInputLower in QuitWords {
        return Goodbye;
      }

      reply := JudgeMove(userInput, coin, pick);
    }

    /** The part of `process_move` after the game-over and quit checks: the
        input is validated, and the round is wasted or played accordingly. */
    method JudgeMove(userInput: string, coin: bool, pick: nat) returns (reply: Reply)
      requires Valid() && !gameState.gameOver && Text.Normalize(userInput) !in QuitWords
      requires pick < |Logic.BotChoices|
      modifies gameState, tools
      ensures Valid() && gameState == old(gameState) && tools == old(tools)
      ensures gameState.Value() == Step(old(gameState.Value()), userInput, coin, pick)
      ensures reply.Wasted? || reply.Played?
      ensures reply.Wasted? <==> !Logic.ValidateMove(userInput, old(gameState.Value())).valid
      ensures reply.Wasted? ==>
                && reply.reason == Logic.ValidateMove(userInput, old(gameState.Value())).reason
                && reply.wastedRound == old(gameState.roundNumber)
                && (reply.final.Some? <==> gameState.gameOver)
      ensures reply.Played? ==>
                PlayedReply(reply, old(gameState.Value()), gameState.Value(), userInput, coin, pick)
      ensures reply.final.Some? ==> reply.final.value == GenerateFinalResult()
    {
      ghost var before := gameState.Value();
      StepKeepsReachable(before, userInput, coin, pick);
      StepByValidation(before, userInput, coin, pick);
      Text.NormalizeIdempotent(userInput);
      var validation := tools.ValidateMoveTool(Text.Normalize(userInput));
      assert validation.valid == Logic.ValidateMove(userInput, before).valid;

      if !validation.valid {
        assert validation.reason == Logic.ValidateMove(userInput, before).reason;
        reply := WasteRound(validation.reason);
        return;
      }

      Text.LowerOfNormalized(userInput);
      var userMove := ParseMove(validation.move.value).value;
      assert userMove == ParseMove(Text.Normalize(userInput)).value;
      reply := PlayRound(userMove, coin, pick);
    }

    /** The wasted-round branch of `process_move`: the state moves as
        `SkipRound` says, and the final result is announced once the game is
        over. */
    method WasteRound(reason: string) returns (reply: Reply)
      requires Valid() && !gameState.gameOver
      modifies gameState
      ensures gameState.Value() == SkipRound(old(gameState.Value()))
      ensures reply == Wasted(reason, old(gameState.roundNumber),
                              if gameState.gameOver then Some(GenerateFinalResult()) else None)
    {
      var wastedRound := gameState.roundNumber;
      gameState.roundNumber := gameState.roundNumber + 1;
      var final := None;
      if gameState.roundNumber > 3 {
        gameState.gameOver := true;
        final := Some(GenerateFinalResult());
      }
      reply := Wasted(reason, wastedRound, final);
    }

    /** The played-round branch of `process_move`: the tools draw the bot's
        move, resolve the round and apply it, once, to the shared state. */
    method PlayRound(userMove: Move, coin: bool, pick: nat) returns (reply: Reply)
      requires Valid()
      requires pick < |Logic.BotChoices|
      modifies gameState, tools
      ensures gameState == old(gameState) && tools == old(tools) && tools.gameState == gameState
      ensures reply.Played? && reply == FormatRoundResult(reply.round)
      ensures reply.round.userMove == userMove
      ensures reply.round.botMove == Logic.GetBotMove(old(gameState.Value()), coin, pick)
      ensures reply.round.roundNumber == old(gameState.roundNumber)
      ensures ParseResult(reply.round.result) == Some(Logic.ResolveRound(userMove, reply.round.botMove))
      ensures reply.round.explanation ==
        Logic.GetResultExplanation(userMove, reply.round.botMove, Logic.ResolveRound(userMove, reply.round.botMove))
      ensures gameState.Value() ==
        Logic.ApplyRound(old(gameState.Value()), userMove, reply.round.botMove,
                         Logic.ResolveRound(userMove, reply.round.botMove))
    {
      var roundResult := tools.ResolveRoundTool(userMove, coin, pick);
      var stateUpdate := tools.UpdateGameStateTool(roundResult.userMove, roundResult.botMove,
                                                   roundResult.result);
      reply := FormatRoundResult(roundResult);
    }

    /** `reset_game`: a new game state, and new tools bound to that same object. */
    method ResetGame()
      modifies this
      ensures Valid() && fresh(gameState) && fresh(tools)
      ensures gameState.Value() == NewGame
    {
      gameState := new GameState();
      tools := new GameTools(gameState);
    }
  }
}
