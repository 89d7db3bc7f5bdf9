# Rock, paper, scissors, bomb: the referee, modelled in Dafny

This project models the game core of a conversational referee for a
best-of-three game of rock, paper, scissors and bomb. The bomb beats every
other move, each player may play it once, and two bombs draw. The
modelled parts are:

- the game state (`GameState`), updated in place round by round: round
  number, both scores, both bomb flags, the history of played rounds, and
  the game-over flag;
- the rules (`GameLogic`): move validation, the bot's move policy, round
  resolution, the explanation sentence, and the state update;
- the tool layer (`GameTools`), which wraps the rules in dictionary-shaped
  results and shares the one game state object with the referee;
- the referee's turn logic (`RefereeAgent.process_move`):
  - it refuses input once the game is over;
  - it says goodbye on a quit word;
  - it wastes the round on an invalid move;
  - otherwise it plays the round through the tools. It also formats the
    round and final results and resets the game.

Modules follow the source files:

| Dafny file | module | models |
|---|---|---|
| `wrappers.dfy` | `Wrappers` | `Optional` / `None` |
| `text.dfy` | `Text` | Python's `str.lower()`, `str.strip()`, `str.capitalize()` as the core uses them |
| `game_state.dfy` | `State` | `game/game_state.py` |
| `game_logic.dfy` | `Logic` | `game/game_logic.py` |
| `tools.dfy` | `Tools` | `agent/tools.py` |
| `referee_agent.dfy` | `Referee` | `agent/referee_agent.py` (turn logic only) |
| `scenarios.dfy` | `Scenarios` | one whole game (three draws) and the opening two rounds of another, played through `ProcessMove` |

Modelling decisions:

- **Randomness is a parameter.** `random.random() < 0.3` becomes a boolean
  `coin`. `random.choice(["rock", "paper", "scissors"])` becomes an index
  `pick < 3` into `Logic.BotChoices`. `Logic.BotMoveRange` shows that
  these parameters reach exactly the moves the source can produce.
- **Moves past validation are `Move` values.** Every caller of the round
  functions passes a move that `validate_move` accepted and lower-cased, or
  one the bot policy produced. Such a string is always one of the four
  enumeration values, so the model takes `State.Move` there. The string
  forms are still present: `MoveValue`, `ParseMove` and, for outcomes,
  `ResultValue` / `ParseResult`.
- **`RoundResult(result_value)` can fail.** In `update_game_state_tool`
  an unknown result string raises `ValueError` before anything changes. The
  model returns `None` and leaves the state unchanged.
- **One shared object.** The referee and its tools hold the same
  `GameState`. `RefereeAgent.Valid()` states this sharing together with the
  reachability invariant `Referee.Reachable`.
- **Replies are modelled by case, not by text.** The referee's answers are
  strings with emoji. The model returns a `Reply` value that names the case
  announced and carries the data interpolated into it: reason, round
  number, score, final result, and the "bomb still available" hint.
  The explanation sentence of a round is modelled as text.
- **The score string `"u-b"`** of `get_game_status_tool` is modelled as the
  pair `(u, b)`.
- **Wasted rounds are not recorded in the history.** The record type allows
  a missing user move, but `process_move` never appends a record for an
  invalid move; it only advances the round number. The model follows the
  code, so every recorded round in a reachable state has a user move
  (`Referee.ResolvedRecord`).

## Model

| member | source | states |
|---|---|---|
| `Text.Lower` | game/game_logic.py:22 | `str.lower()`: the same length, every character lower-cased one by one |
| `Text.Capitalize` | game/game_logic.py:98 | `str.capitalize()`: the same length; on a lower-case word, the first letter becomes its capital and every other letter stays as it was |
| `Text.TrimStart` | game/game_logic.py:22 | removes exactly the leading whitespace: a suffix of the input that does not start with whitespace |
| `Text.TrimEnd` | game/game_logic.py:22 | removes exactly the trailing whitespace: a prefix of the input that does not end with whitespace |
| `Text.Strip` | game/game_logic.py:22 | `str.strip()`: a slice of the input; only whitespace is cut on either side; the result neither starts nor ends with whitespace |
| `Text.StripIdempotent` | game/game_logic.py:22 | stripping twice is stripping once |
| `Text.NormalizeIsLoweredSlice` | agent/referee_agent.py:92 | `lower().strip()`: the result is one contiguous slice of the input, lower-cased, starting where the leading whitespace ends |
| `Text.LowerIdempotent` | agent/tools.py:30 | lower-casing twice is lower-casing once |
| `Text.LowerOfNormalized` | agent/tools.py:30 | lower-casing an input already lowered and stripped changes nothing |
| `Text.NormalizeIdempotent` | agent/referee_agent.py:92-99 | `validate_move` lowers and strips again the input the referee already lowered and stripped; doing so changes nothing |
| `Text.NormalizeOfLowerWord` | game/game_logic.py:22-24 | a lower-case move name without padding passes the normalisation unchanged |
| `State.MoveValue` | game/game_state.py:8-13 | each move's value is a non-empty lower-case ASCII word |
| `State.ParseMove` | game/game_state.py:8-13 | `Move(s)`: a move whose value is `s`, or nothing exactly when `s` is none of the four values |
| `State.ParseMoveValue` | game/game_state.py:8-13 | a move's value parses back to that move |
| `State.ResultValue` | game/game_state.py:16-21 | `result.value`: a lower-case snake-case string whose initial differs per outcome, so the string determines the outcome |
| `State.ParseResult` | game/game_state.py:16-21 | `RoundResult(s)`: an outcome whose value is `s`, or nothing exactly when `s` is none of the four values |
| `State.ParseResultValue` | agent/tools.py:55 | an outcome's value, as the tools report it, parses back to that outcome |
| `State.GameState.constructor` | game/game_state.py:37-43 | a new game: round 1, scores 0, both bombs available, empty history, not over |
| `State.GameState.ToDict` | game/game_state.py:45-55 | every scalar field copied; `rounds_played` is the history's length |
| `State.GameState.GetWinner` | game/game_state.py:57-64 | "USER WINS" iff the user leads, "BOT WINS" iff the bot leads, "DRAW" iff the scores are equal |
| `Logic.ValidateMove` | game/game_logic.py:15-30 | valid iff the lowered, stripped input names a move and is not the bomb once the user's bomb is used; each case has its reason string |
| `Logic.ValidMovesAreParsed` | game/game_logic.py:11 | membership in `VALID_MOVES` is exactly naming a move |
| `Logic.ValidateIgnoresRound` | game/game_logic.py:24-28 | validity depends on the state only through the user's bomb flag |
| `Logic.BombValidInFirstRound` | game/game_logic.py:27-30 | unlike the bot, the user may play the bomb in round 1 |
| `Logic.ValidateNormalizesInput` | game/game_logic.py:22-30 | input with capitals and padding (`"ROCK "`) is accepted as the move it names |
| `Logic.PaddedCapitalsNormalize` | game/game_logic.py:22 | `"ROCK "` lowered and stripped is `"rock"` |
| `Logic.GetBotMove` | game/game_logic.py:33-49 | the bot plays the bomb iff its bomb is unused, the round is past the first, and the 30% draw succeeds; otherwise the drawn move among rock, paper and scissors |
| `Logic.BotMoveRange` | game/game_logic.py:41-49 | the moves the bot can produce: rock, paper and scissors always; the bomb exactly when its bomb is unused and the round is past the first |
| `Logic.BeatsDecidesEveryPair` | game/game_logic.py:67-87 | no move beats itself; of two different moves, exactly one beats the other |
| `Logic.ResolveRound` | game/game_logic.py:52-87 | user wins iff the user's move beats the bot's; bot wins iff the reverse; draw iff the moves are equal; never invalid |
| `Logic.ResolveSymmetric` | game/game_logic.py:67-87 | swapping the players swaps the winner |
| `Logic.BombDominates` | game/game_logic.py:67-72 | two bombs draw; a bomb beats every other move, on either side |
| `Logic.GetResultExplanation` | game/game_logic.py:90-105 | the text is "Invalid round" exactly for the invalid outcome |
| `Logic.CapitalizedInitial` | game/game_logic.py:98 | a capitalised move name is non-empty and does not start with "I", so it cannot be taken for "Invalid round" |
| `Logic.ExplanationOfResolvedRound` | game/game_logic.py:92-103 | the sentence for each resolved round: the draw, the bomb on either side, or the winning move capitalised before the losing one |
| `Logic.ApplyRound` | game/game_logic.py:119-147 | bomb flags latch; the point goes to the winner only; one record appended with the round number, both moves, the outcome and its explanation; the round number grows by one; over once past `MAX_ROUNDS` |
| `Logic.UpdateGameState` | game/game_logic.py:108-149 | updates the given object in place to `ApplyRound` of its old value, and returns that same object |
| `Tools.GameTools.constructor` | agent/tools.py:11-13 | the tools hold the game state they are given, not a copy |
| `Tools.GameTools.ValidateMoveTool` | agent/tools.py:15-31 | validity and reason as `validate_move` on the shared state; the move is present iff valid, and then it is the lower-cased input |
| `Tools.GameTools.ResolveRoundTool` | agent/tools.py:33-58 | the bot move is the policy's; the result string parses to `resolve_round` of the two moves; the explanation matches; the current round number |
| `Tools.GameTools.UpdateGameStateTool` | agent/tools.py:60-96 | on an unknown result string, fails and changes nothing; otherwise the shared state becomes `ApplyRound` of its old value, and the report is its dictionary, its game-over flag, and the winner only once over |
| `Tools.GameTools.GetGameStatusTool` | agent/tools.py:98-110 | the round number, the score pair, the bomb availability as the negated flag, and the game-over flag |
| `Referee.CountResult` | game/game_logic.py:126-129 | the number of recorded rounds with a given outcome is at most the history's length |
| `Referee.UserBombs` | game/game_logic.py:120-121 | the number of recorded rounds in which the user played the bomb is at most the history's length |
| `Referee.BotBombs` | game/game_logic.py:122-123 | the number of recorded rounds in which the bot played the bomb is at most the history's length |
| `Referee.CountsAppend` | game/game_logic.py:140 | appending one record adds that record's contribution to each count |
| `Referee.WinsWithinRounds` | game/game_logic.py:126-129 | wins by either side together never exceed the recorded rounds |
| `Referee.ReachableBounds` | agent/referee_agent.py:88-123 | a reachable state has round number at most 4, at most one record per round played, no more points than records, and is over exactly past round 3 |
| `Referee.SkipRound` | agent/referee_agent.py:106-110 | a wasted round: the round number grows by one, the game ends past round 3, and nothing else changes |
| `Referee.SkipRoundKeepsReachable` | agent/referee_agent.py:101-113 | wasting a round in a running game keeps the invariant |
| `Referee.AppendKeepsOrdered` | game/game_logic.py:132-143 | appending the current round's record keeps the history in increasing round order, below the next round number |
| `Referee.ApplyRoundKeepsTallied` | game/game_logic.py:119-140 | a round that plays each bomb only while it is unused keeps each score equal to its side's wins and each bomb flag equal to "that bomb is in the history" |
| `Referee.ApplyRoundKeepsReachable` | game/game_logic.py:119-147 | playing a legal round in a running game keeps the invariant: scores equal win counts, bomb flags equal bomb counts, at most one bomb each |
| `Referee.Step` | agent/referee_agent.py:88-123 | one submission to `process_move`: after game over or on a quit word, the state is unchanged; otherwise exactly one round is used |
| `Referee.StepLatches` | agent/referee_agent.py:88-123 | a submission never takes back a used bomb, a finished game, a counted round or a recorded round |
| `Referee.StepKeepsReachable` | agent/referee_agent.py:88-123 | every submission, whatever it is, keeps the invariant |
| `Referee.StepByValidation` | agent/referee_agent.py:99-123 | in a running game, a non-quit submission that `validate_move` refuses wastes the round; any other plays the move it names against the policy's move |
| `Referee.MoveNameIsCanonical` | game/game_logic.py:22-30 | a move's name passes the normalisation unchanged, is no quit word, and names that move |
| `Referee.StepUsesOneRound` | agent/referee_agent.py:99-123 | in a running game, a non-quit submission uses exactly one round: a valid one appends one record, an invalid one changes nothing else |
| `Referee.SecondBombIsWasted` | agent/referee_agent.py:99-110 | once the user's bomb is used, "bomb" is refused with "Bomb already used!" and only wastes the round |
| `Referee.StepOnMoveName` | agent/referee_agent.py:92-123 | typing a legal move's name plays exactly that move against the bot's policy move |
| `Referee.RunKeepsReachable` | agent/referee_agent.py:78-128 | the invariant survives any sequence of submissions |
| `Referee.EveryGameStaysInBounds` | agent/referee_agent.py:78-128 | from a new game, for any inputs and any random draws: round number at most 4, at most one record per round played, points within records, over exactly past round 3, each bomb played at most once |
| `Referee.RefereeAgent.constructor` | agent/referee_agent.py:37-38 | a new game, shared by the referee and its tools |
| `Referee.RefereeAgent.GenerateFinalResult` | agent/referee_agent.py:145-159 | the final score, and the closing line chosen by `get_winner`, one per winner |
| `Referee.RefereeAgent.FormatRoundResult` | agent/referee_agent.py:130-143 | the round report and current score; the final result iff the game is over; otherwise the bomb hint iff the user's bomb is unused. The `state_update` argument is never read, so the model does not take it |
| `Referee.RefereeAgent.ProcessMove` | agent/referee_agent.py:78-128 | the new state is `Step` of the old one and the objects stay shared. The reply is "game over" iff the game was over, "goodbye" iff a quit word, and "wasted" (with the validation reason and round) iff the move is invalid. Otherwise it is the played round: the parsed move, the policy's bot move, the outcome `resolve_round` gives for them and its explanation, the new score, the final result iff over, and the bomb hint iff the game goes on and the user's bomb is unused |
| `Referee.RefereeAgent.JudgeMove` | agent/referee_agent.py:98-128 | past the game-over and quit checks: the state becomes `Step` of the old one; the reply is a wasted round (with the validation reason and round) iff the move is invalid, and otherwise the played round, with the parsed move, the policy's bot move, the outcome and explanation `resolve_round` gives for them, the new score, the final result iff over, and the bomb hint iff the game goes on and the user's bomb is unused |
| `Referee.RefereeAgent.WasteRound` | agent/referee_agent.py:101-113 | the invalid-move branch: the state becomes `SkipRound` of the old one; the reply carries the reason, the wasted round, and the final result iff the game ended |
| `Referee.RefereeAgent.PlayRound` | agent/referee_agent.py:115-128 | the valid-move branch: resolve through the tools, update the shared state to `ApplyRound`, format the reply; the reply carries the user's move, the policy's bot move, the outcome `resolve_round` gives for them and the explanation `get_result_explanation` gives for that outcome |
| `Referee.RefereeAgent.ResetGame` | agent/referee_agent.py:161-165 | fresh state and tools, sharing a new game |
| `Scenarios.ThreeDrawnRounds` | agent/referee_agent.py:78-128 | three drawn rounds end the game as a 0-0 draw, and the next input is refused as "game over" |
| `Scenarios.RockAgainstRock` | agent/referee_agent.py:78-128 | rock against the bot's rock at 0-0 is played as a draw: the score stays 0-0, one round is used, and the game ends after round 3 |
| `Scenarios.SecondBombWastesTheRound` | agent/referee_agent.py:78-128 | a round-1 bomb against rock scores 1-0; a second bomb in round 2 is wasted with "Bomb already used!" |

## Left out

- Calls to the hosted language model (`_call_huggingface`), the API key and URL, the system prompt and `conversation_history`. These are network I/O.
- `get_welcome_message` and the welcome text that `reset_game` returns. `Referee.RefereeAgent.ResetGame` models only the state it resets.
- Reply texts: emoji, line breaks and `upper()` of the move names in the round and final announcements. `Reply` carries the case and the data interpolated.
- Random number generation: the draws are the parameters `coin` and `pick`.
- `Text.Lower`: covers ASCII capitals and the Kelvin sign, the one non-ASCII character that lower-cases to an ASCII letter. Other non-ASCII case mappings, including those that change length, are left out. They cannot turn input into a move name, so validity and reasons are unaffected.
- `Text.Capitalize`: only ASCII case is modelled. It is applied only to move names.
- Move-typed inputs: `resolve_round_tool`, `update_game_state_tool`, `resolve_round` and `get_result_explanation` take strings, which the model narrows to `Move`. The referee only ever passes them parsed move names, so its behaviour is covered. A direct caller passing other text is not: `get_result_explanation` compares `user_move == "bomb"` without lower-casing (game/game_logic.py:96), so for "BOMB" against "rock" it would explain "Bomb beats rock!" rather than the bomb sentence. Likewise `resolve_round` scores any word that is not a move, against a move other than bomb, as a bot win (game/game_logic.py:84-87).
- `Logic.GetResultExplanation`: its contract states only the invalid case; the sentences for resolved rounds are in `Logic.ExplanationOfResolvedRound`.
- The web front end and the command-line entry point are not part of this model.
