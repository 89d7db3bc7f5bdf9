/**
 * The rules of rock, paper, scissors, bomb: move validation, the bot's
 * policy, the outcome of a round, its explanation, and the one full
 * state transition after a played round.
 */
module Logic {
  import opened Wrappers
  import opened State
  import Text

  const ValidMoves: seq<string> := ["rock", "paper", "scissors", "bomb"]
  const MaxRounds: int := 3

  /** The `(is_valid, reason)` pair of `validate_move`. */
  datatype Validation = Validation(valid: bool, reason: string)

  const InvalidMoveReason: string := "Invalid move. Choose: rock, paper, scissors, or bomb"
  const BombUsedReason: string := "Bomb already used!"
  const ValidMoveReason: string := "Valid move"

  /**
   * `validate_move`: the normalized input must name a move, and it may be the
   * bomb only while the user's bomb is unused. Reads the state, changes nothing.
   */
  function ValidateMove(move: string, gs: GameValue): (v: Validation)
    ensures var m := ParseMove(Text.Normalize(move));
      && (v.valid <==> m.Some? && !(m.value == Bomb && gs.userBombUsed))
      && (m.None? ==> v.reason == InvalidMoveReason)
      && (m == Some(Bomb) && gs.userBombUsed ==> v.reason == BombUsedReason)
      && (v.valid ==> v.reason == ValidMoveReason)
  {
    var m := Text.Normalize(move);
    ValidMovesAreParsed(m);
    if m !in ValidMoves then Validation(false, InvalidMoveReason)
    else if m == "bomb" && gs.userBombUsed then Validation(false, BombUsedReason)
    else Validation(true, ValidMoveReason)
  }

  /** `VALID_MOVES` lists exactly the values of the four moves. */
  lemma {:induction false} ValidMovesAreParsed(s: string)
    ensures s in ValidMoves <==> ParseMove(s).Some?
  {
    if ParseMove(s).Some? {
      match ParseMove(s).value
      case Rock => assert ValidMoves[0] == s;
      case Paper => assert ValidMoves[1] == s;
      case Scissors => assert ValidMoves[2] == s;
      case Bomb => assert ValidMoves[3] == s;
    }
  }

  /** Validation depends on the user's bomb flag alone, never on the round number
      or anything else in the state. */
  lemma {:induction false} ValidateIgnoresRound(move: string, g1: GameValue, g2: GameValue)
    requires g1.userBombUsed == g2.userBombUsed
    ensures ValidateMove(move, g1) == ValidateMove(move, g2)
  {
  }

  /** The user may open with the bomb: in round 1 an unused bomb is a valid move. */
  lemma {:induction false} BombValidInFirstRound(gs: GameValue)
    requires gs.roundNumber == 1 && !gs.userBombUsed
    ensures ValidateMove("bomb", gs).valid
  {
    Text.NormalizeOfLowerWord("bomb");
  }

  /** Case and surrounding whitespace do not matter: "ROCK " is the move rock. */
  lemma {:induction false} ValidateNormalizesInput(gs: GameValue)
    ensures Text.Normalize("ROCK ") == MoveValue(Rock)
    ensures ValidateMove("ROCK ", gs) == Validation(true, ValidMoveReason)
  {
    PaddedCapitalsNormalize();
  }

  lemma {:induction false} PaddedCapitalsNormalize()
    ensures Text.Normalize("ROCK ") == "rock"
  {
    var l := Text.Lower("ROCK ");
    assert l == "rock " by {
      assert l[0] == 'r' && l[1] == 'o' && l[2] == 'c' && l[3] == 'k' && l[4] == ' ';
    }
    Text.TrimStartOfUnpadded(l);
    assert l[..4] == "rock";
    assert Text.TrimEnd(l) == Text.TrimEnd("rock");
    Text.TrimEndOfUnpadded("rock");
  }

  /** The moves the bot picks from when it does not play the bomb. */
  const BotChoices: seq<Move> := [Rock, Paper, Scissors]

  /**
   * `get_bot_move`, with its randomness passed in: `coin` is the outcome of the
   * 30% draw (`random.random() < 0.3`) and `pick` the index `random.choice`
   * takes. The bomb is played exactly when the coin says so, the bot's bomb is
   * unused and the game is past round 1; otherwise the picked plain move.
   */
  function GetBotMove(gs: GameValue, coin: bool, pick: nat): (m: Move)
    requires pick < |BotChoices|
    ensures m == Bomb <==> coin && !gs.botBombUsed && gs.roundNumber > 1
    ensures m != Bomb ==> m == BotChoices[pick]
  {
    if !gs.botBombUsed && gs.roundNumber > 1 && coin then Bomb
    else BotChoices[pick]
  }

  /** The policy's range: every plain move can always be drawn, and the bomb
      can be drawn exactly when it is unused and round 1 is over. */
  lemma {:induction false} BotMoveRange(gs: GameValue, m: Move)
    ensures (exists coin: bool, pick: nat :: pick < |BotChoices| && GetBotMove(gs, coin, pick) == m)
        <==> (m != Bomb || (!gs.botBombUsed && gs.roundNumber > 1))
  {
    match m
    case Rock => assert GetBotMove(gs, false, 0) == Rock;
    case Paper => assert GetBotMove(gs, false, 1) == Paper;
    case Scissors => assert GetBotMove(gs, false, 2) == Scissors;
    case Bomb =>
      if !gs.botBombUsed && gs.roundNumber > 1 {
        assert GetBotMove(gs, true, 0) == Bomb;
      }
  }

  /** Which move beats which: the bomb beats every other move, and rock beats
      scissors, scissors beat paper, paper beats rock. */
  predicate Beats(x: Move, y: Move)
  {
    || (x == Bomb && y != Bomb)
    || (x == Rock && y == Scissors)
    || (x == Scissors && y == Paper)
    || (x == Paper && y == Rock)
  }

  /** Of two different moves exactly one beats the other, and no move beats itself. */
  lemma {:induction false} BeatsDecidesEveryPair(x: Move, y: Move)
    ensures !Beats(x, x)
    ensures x != y ==> (Beats(x, y) <==> !Beats(y, x))
  {
  }

  /**
   * `resolve_round`: the user wins exactly when the user's move beats the bot's,
   * the bot wins exactly when its move beats the user's, equal moves draw, and
   * the outcome is never `Invalid`.
   */
  function ResolveRound(userMove: Move, botMove: Move): (r: RoundResult)
    ensures r == UserWin <==> Beats(userMove, botMove)
    ensures r == BotWin <==> Beats(botMove, userMove)
    ensures r == Draw <==> userMove == botMove
    ensures r != Invalid
  {
    if userMove == Bomb && botMove == Bomb then Draw
    else if userMove == Bomb then UserWin
    else if botMove == Bomb then BotWin
    else if userMove == botMove then Draw
    else if (userMove, botMove) in {(Rock, Scissors), (Scissors, Paper), (Paper, Rock)} then UserWin
    else BotWin
  }

  /** The outcome seen from the other side. */
  function Swap(r: RoundResult): RoundResult
  {
    match r
    case UserWin => BotWin
    case BotWin => UserWin
    case other => other
  }

  /** Exchanging the two moves exchanges the winner and keeps a draw. */
  lemma {:induction false} ResolveSymmetric(x: Move, y: Move)
    ensures ResolveRound(y, x) == Swap(ResolveRound(x, y))
  {
  }

  /** A single bomb wins whatever it meets; two bombs draw. */
  lemma {:induction false} BombDominates(other: Move)
    ensures ResolveRound(Bomb, Bomb) == Draw
    ensures other != Bomb ==> ResolveRound(Bomb, other) == UserWin && ResolveRound(other, Bomb) == BotWin
  {
  }

  const BombIcon: string := "\U{1F4A3}"

  /** `get_result_explanation`: one sentence per outcome; "Invalid round" is
      given for the `Invalid` outcome and for nothing else. */
  function GetResultExplanation(userMove: Move, botMove: Move, result: RoundResult): (e: string)
    ensures result == Invalid <==> e == "Invalid round"
  {
    var user, bot := MoveValue(userMove), MoveValue(botMove);
    CapitalizedInitial(userMove);
    CapitalizedInitial(botMove);
    var e :=
      if result == Draw then
        "Both chose " + user + ". Draw!"
      else if result == UserWin then
        if userMove == Bomb then BombIcon + " Bomb destroys " + bot + "!"
        else Text.Capitalize(user) + " beats " + bot + "!"
      else if result == BotWin then
        if botMove == Bomb then BombIcon + " Bot's bomb destroys " + user + "!"
        else Text.Capitalize(bot) + " beats " + user + "!"
      else
        "Invalid round";
    assert result != Invalid ==> e[0] != 'I';
    e
  }

  /** A capitalised move value never starts like "Invalid round". */
  lemma {:induction false} CapitalizedInitial(m: Move)
    ensures |Text.Capitalize(MoveValue(m))| > 0 && Text.Capitalize(MoveValue(m))[0] != 'I'
  {
    assert Text.Capitalize(MoveValue(m))[0] == Text.UpperChar(MoveValue(m)[0]);
  }

  /** For a round resolved by the rules the explanation tells the truth: a draw
      names the common move, a bomb win names what the bomb destroyed, and any
      other win names the winning move first, capitalised, and then the beaten one. */
  lemma {:induction false} ExplanationOfResolvedRound(userMove: Move, botMove: Move)
    ensures var e := GetResultExplanation(userMove, botMove, ResolveRound(userMove, botMove));
      && (userMove == botMove ==> e == "Both chose " + MoveValue(userMove) + ". Draw!")
      && (userMove == Bomb && botMove != Bomb ==> e == BombIcon + " Bomb destroys " + MoveValue(botMove) + "!")
      && (botMove == Bomb && userMove != Bomb ==> e == BombIcon + " Bot's bomb destroys " + MoveValue(userMove) + "!")
      && (forall w, l ::
            w != Bomb && l != Bomb && Beats(w, l) && ((w, l) == (userMove, botMove) || (w, l) == (botMove, userMove)) ==>
              e == Text.Capitalize(MoveValue(w)) + " beats " + MoveValue(l) + "!")
  {
    var r := ResolveRound(userMove, botMove);
    if userMove == botMove {
      assert r == Draw;
    } else if userMove == Bomb {
      assert r == UserWin;
    } else if botMove == Bomb {
      assert r == BotWin;
    } else if Beats(userMove, botMove) {
      assert r == UserWin && !Beats(botMove, userMove);
    } else {
      assert r == BotWin && Beats(botMove, userMove);
    }
  }

  /**
   * The value `update_game_state` leaves behind: the bomb flags of the sides
   * that played the bomb latch to true and no flag is ever cleared, the round's
   * point goes to its winner only, the round is appended to the history under
   * the number it was played in, the round number grows by one, and the game
   * ends once that number passes `MaxRounds`, never to restart.
   */
  function ApplyRound(gs: GameValue, userMove: Move, botMove: Move, result: RoundResult): (next: GameValue)
    ensures next.userBombUsed <==> gs.userBombUsed || userMove == Bomb
    ensures next.botBombUsed <==> gs.botBombUsed || botMove == Bomb
    ensures result == UserWin ==> next.userScore == gs.userScore + 1 && next.botScore == gs.botScore
    ensures result == BotWin ==> next.botScore == gs.botScore + 1 && next.userScore == gs.userScore
    ensures result in {Draw, Invalid} ==> next.userScore == gs.userScore && next.botScore == gs.botScore
    ensures |next.roundsHistory| == |gs.roundsHistory| + 1
    ensures next.roundsHistory[..|gs.roundsHistory|] == gs.roundsHistory
    ensures next.roundsHistory[|gs.roundsHistory|] ==
      RoundHistory(gs.roundNumber, Some(userMove), botMove, result,
                   GetResultExplanation(userMove, botMove, result))
    ensures next.roundNumber == gs.roundNumber + 1
    ensures next.gameOver <==> gs.gameOver || gs.roundNumber >= MaxRounds
  {
    var record := RoundHistory(gs.roundNumber, Some(userMove), botMove, result,
                               GetResultExplanation(userMove, botMove, result));
    gs.(userBombUsed := gs.userBombUsed || userMove == Bomb,
        botBombUsed := gs.botBombUsed || botMove == Bomb,
        userScore := gs.userScore + (if result == UserWin then 1 else 0),
        botScore := gs.botScore + (if result == BotWin then 1 else 0),
        roundsHistory := gs.roundsHistory + [record],
        roundNumber := gs.roundNumber + 1,
        gameOver := gs.gameOver || gs.roundNumber + 1 > MaxRounds)
  }

  /** `update_game_state`: applies one round to the state in place, step by
      step, and returns the same object. */
  method UpdateGameState(gs: GameState, userMove: Move, botMove: Move, result: RoundResult)
    returns (updated: GameState)
    modifies gs
    ensures updated == gs
    ensures gs.Value() == ApplyRound(old(gs.Value()), userMove, botMove, result)
  {
    ghost var before := gs.Value();
    ghost var target := ApplyRound(before, userMove, botMove, result);

    if userMove == Bomb {
      gs.userBombUsed := true;
    }
    if botMove == Bomb {
      gs.botBombUsed := true;
    }
    assert gs.userBombUsed == target.userBombUsed && gs.botBombUsed == target.botBombUsed;

    if result == UserWin {
      gs.userScore := gs.userScore + 1;
    } else if result == BotWin {
      gs.botScore := gs.botScore + 1;
    }
    assert gs.userScore == target.userScore && gs.botScore == target.botScore;

    var explanation := GetResultExplanation(userMove, botMove, result);
    var record := RoundHistory(gs.roundNumber, Some(userMove), botMove, result, explanation);
    gs.roundsHistory := gs.roundsHistory + [record];
    assert gs.roundsHistory == target.roundsHistory;

    gs.roundNumber := gs.roundNumber + 1;

    if gs.roundNumber > MaxRounds {
      gs.gameOver := true;
    }
    assert gs.roundNumber == target.roundNumber && gs.gameOver == target.gameOver;
    updated := gs;
  }
}
