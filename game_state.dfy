/**
 * The data of one game: the moves, the round outcomes, the record of a
 * played round, and the mutable `GameState` with its dictionary view and
 * its winner.
 */
module State {
  import opened Wrappers
  import Text

  /** The four moves; `MoveValue` is the enumeration's string value. */
  datatype Move = Rock | Paper | Scissors | Bomb

  function MoveValue(m: Move): (s: string)
    ensures |s| > 0 && forall i :: 0 <= i < |s| ==> Text.IsLowerAscii(s[i])
  {
    match m
    case Rock => "rock"
    case Paper => "paper"
    case Scissors => "scissors"
    case Bomb => "bomb"
  }

  /** The move whose value is `s`, if any: `Move(s)` without the `ValueError`. */
  function ParseMove(s: string): (r: Option<Move>)
    ensures r.Some? ==> MoveValue(r.value) == s
    ensures r.None? ==> s != "rock" && s != "paper" && s != "scissors" && s != "bomb"
  {
    if s == "rock" then Some(Rock)
    else if s == "paper" then Some(Paper)
    else if s == "scissors" then Some(Scissors)
    else if s == "bomb" then Some(Bomb)
    else None
  }

  /** Every move's value parses back to that move. */
  lemma {:induction false} ParseMoveValue(m: Move)
    ensures ParseMove(MoveValue(m)) == Some(m)
  {
  }

  datatype RoundResult = UserWin | BotWin | Draw | Invalid

  /** The outcome's string value: lower-case snake case, with a distinct initial
      per outcome, so the value determines the outcome. */
  function ResultValue(r: RoundResult): (s: string)
    ensures |s| >= 4 && forall i :: 0 <= i < |s| ==> 'a' <= s[i] <= 'z' || s[i] == '_'
    ensures s[0] == 'u' <==> r == UserWin
    ensures s[0] == 'b' <==> r == BotWin
    ensures s[0] == 'd' <==> r == Draw
    ensures s[0] == 'i' <==> r == Invalid
  {
    match r
    case UserWin => "user_win"
    case BotWin => "bot_win"
    case Draw => "draw"
    case Invalid => "invalid"
  }

  /** `RoundResult(s)`: the outcome whose value is `s`, or `None` where Python raises `ValueError`. */
  function ParseResult(s: string): (r: Option<RoundResult>)
    ensures r.Some? ==> ResultValue(r.value) == s
    ensures r.None? ==> s != "user_win" && s != "bot_win" && s != "draw" && s != "invalid"
  {
    if s == "user_win" then Some(UserWin)
    else if s == "bot_win" then Some(BotWin)
    else if s == "draw" then Some(Draw)
    else if s == "invalid" then Some(Invalid)
    else None
  }

  /** The outcome's value survives the trip through its string form. */
  lemma {:induction false} ParseResultValue(r: RoundResult)
    ensures ParseResult(ResultValue(r)) == Some(r)
  {
  }

  /** One played round, as appended to the history. */
  datatype RoundHistory = RoundHistory(
    roundNumber: int,
    userMove: Option<Move>,
    botMove: Move,
    result: RoundResult,
    reason: string)

  /** The serialised shape of a game state: the history only by its length. */
  datatype StateDict = StateDict(
    roundNumber: int,
    userScore: int,
    botScore: int,
    userBombUsed: bool,
    botBombUsed: bool,
    roundsPlayed: int,
    gameOver: bool)

  /** The value of a game state at one moment: every field, history included. */
  datatype GameValue = GameValue(
    roundNumber: int,
    userScore: int,
    botScore: int,
    userBombUsed: bool,
    botBombUsed: bool,
    roundsHistory: seq<RoundHistory>,
    gameOver: bool)

  /** The defaults of a new `GameState`. */
  const NewGame: GameValue := GameValue(1, 0, 0, false, false, [], false)

  class GameState {
    var roundNumber: int
    var userScore: int
    var botScore: int
    var userBombUsed: bool
    var botBombUsed: bool
    var roundsHistory: seq<RoundHistory>
    var gameOver: bool

    /** The state's current value. */
    function Value(): (v: GameValue)
      reads this
    {
      GameValue(roundNumber, userScore, botScore, userBombUsed, botBombUsed, roundsHistory, gameOver)
    }

    /** A new game: round 1, no points, both bombs available, nothing played. */
    constructor ()
      ensures Value() == NewGame
      ensures roundNumber == 1 && userScore == 0 && botScore == 0
      ensures !userBombUsed && !botBombUsed
      ensures roundsHistory == [] && !gameOver
    {
      roundNumber := 1;
      userScore := 0;
      botScore := 0;
      userBombUsed := false;
      botBombUsed := false;
      roundsHistory := [];
      gameOver := false;
    }

    /** `to_dict`: every scalar field as it is, and the number of rounds played. */
    function ToDict(): (d: StateDict)
      reads this
      ensures d.roundNumber == roundNumber && d.gameOver == gameOver
      ensures d.userScore == userScore && d.botScore == botScore
      ensures d.userBombUsed == userBombUsed && d.botBombUsed == botBombUsed
      ensures d.roundsPlayed == |roundsHistory|
    {
      StateDict(roundNumber, userScore, botScore, userBombUsed, botBombUsed,
                |roundsHistory|, gameOver)
    }

    /** `get_winner`: the higher score wins; equal scores are a draw. The three
        answers are exhaustive and exclusive. */
    function GetWinner(): (w: string)
      reads this
      ensures w == "USER WINS" <==> userScore > botScore
      ensures w == "BOT WINS" <==> botScore > userScore
      ensures w == "DRAW" <==> userScore == botScore
    {
      if userScore > botScore then "USER WINS"
      else if botScore > userScore then "BOT WINS"
      else "DRAW"
    }
  }
}
