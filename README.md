# Mastermind game engine in Dafny

A model of the game engine of a command-line Mastermind game (`mastermind.py`).
One player, the mastermind, sets a secret code of four digits, each at most 9.
The other player, the codebreaker, has up to eleven guesses to find it.
Each guess is scored with black and white pegs. Points go to the codebreaker for
a win and to the mastermind for every failed guess. A game is one round or a
tournament of innings, and a tie is settled by a sudden-death round.

The modules follow the structure of the program:

- `Base` (`base.dfy`): the class constants `code_length = 4`, `max_digit = 9`,
  `guesses_per_round = 12` and the largest accepted inning count, 10.
- `Codes` (`codes.dfy`): what `get_code` accepts and how it re-prompts, and how
  the CPU branch of `get_solution` builds a code from random digits.
- `Scoring` (`scoring.dfy`): `compare_codes`. The loop over solution indices is
  the method `CompareCodes`; one pass of it, the inner loop over the mutable
  `positions` list with its `break`, is the method `ScanIndex`. `ScanIndex` is
  proved against the function `ScoreStep`, one scan step for one solution
  index, and `CompareCodes` against the function `Score`, which runs those
  steps over all solution indices in turn.
- `Rounds` (`rounds.dfy`): `mastermind_round` as a value. It gives the round's
  outcome (won after k failed guesses, or out of guesses) and the points each
  role collects.
- `Arbiter` (`arbiter.dfy`): the decision of `declare_winner`, sudden death
  included.
- `Tournament` (`tournament.dfy`): the inning count of `mastermind_game`, the
  points accumulated over the innings, and the game-mode menu of `set_game_mode`.
- `Game` (`game.dfy`): the `Player` and `MasterMind` objects. Their methods
  update `points` and `single_game` in place, as the source does, and are proved
  against the functions above.

The model follows the code where it departs from textbook Mastermind or from
its own prompts:

- Scoring is the source's consuming scan, not the textbook formula. The peg
  total equals the number of symbols the codes share (`PegTotal`). The black
  count can still be below the number of agreeing positions: guess `2145`
  against solution `1123` scores `(0, 2)` although index 1 agrees (`Trace2145`).
- A round scores at most 11 guesses, because the loop runs while more than one
  guess is left.
- A tournament of `n` innings plays `n + 1` innings.
- The inning prompt says "1 - 10", but any integer up to 10 is accepted.
  A count of 0 plays a single round with single-game mode off, so that round is
  judged on point totals. A negative count plays no round at all, which leads
  straight to a tie and a sudden death.

## Model

| member | source | states |
|---|---|---|
| Codes.DigitChar | mastermind.py:175 | `str(d)` of a digit is a digit character whose value is `d` |
| Codes.FirstToken | mastermind.py:192-196 | the token is the text after the leading separators up to the next separator; it holds no separator; it is empty exactly when the line is all separators (the bare `except` giving "") |
| Codes.CheckCode | mastermind.py:197-217 | the length test and the per-character scan accept exactly the strings of CodeLength digits, each at most MaxDigit |
| Codes.ReadCode | mastermind.py:188-217 | the line re-prompting stops at is one of the typed lines |
| Codes.ReadCodeFirstAccepted | mastermind.py:188-217 | re-prompting stops at the first typed line whose first token is a valid code, returns that token, and every earlier line was rejected |
| Codes.ReadCodeNoneIffNoneAccepted | mastermind.py:188-217 | no code is returned exactly when no typed line is accepted |
| Codes.DrawnCode | mastermind.py:172-176 | the CPU's code is a valid code whose i-th digit is the i-th random draw |
| Codes.GenerateSolution | mastermind.py:172-176 | the loop that appends `str(randrange(...))` once per position builds exactly that code |
| Scoring.AllPositions | mastermind.py:224 | `list(range(code_length))`: the positions 0..3 in order, all open |
| Scoring.FirstMatch | mastermind.py:226-227 | the first open position whose guess symbol equals the solution symbol; no earlier open position matches |
| Scoring.ScoreStep | mastermind.py:226-237 | one solution index keeps the open positions valid, hands out at most one peg per consumed position, and gives a black peg only where guess and solution agree at that index |
| Scoring.Run | mastermind.py:225-237 | after any number of solution indices, pegs plus open positions add up to CodeLength |
| Scoring.Score | mastermind.py:219-238 | black + white is at most CodeLength |
| Scoring.ScanIndex | mastermind.py:226-237 | the inner loop with `break` and `remove` leaves the counters and open positions exactly as one scan step for that solution index does |
| Scoring.CompareCodes | mastermind.py:219-238 | the loop over solution indices returns exactly the pegs of `Score`, so at most CodeLength of them |
| Scoring.RunBlackBound | mastermind.py:228-233 | within any prefix of the scan, the black count is at most the number of agreeing positions |
| Scoring.BlackAtMostExact | mastermind.py:228-233 | black pegs never exceed the positions where guess and solution agree |
| Scoring.SameCodeAllBlack | mastermind.py:225-238 | a code scored against itself gives `(CodeLength, 0)` |
| Scoring.AllBlackIffEqual | mastermind.py:146 | all pegs are black exactly when every position agrees |
| Scoring.StepConsumes | mastermind.py:226-237 | a step removes one guess symbol equal to the solution symbol and adds one peg when such a symbol is still open, and changes nothing otherwise |
| Scoring.RunPool | mastermind.py:224-237 | after n indices the open guess symbols are the guess's symbols minus the first n solution symbols, and the pegs so far are the shared symbols of that prefix |
| Scoring.PegTotal | mastermind.py:224-237 | the total number of pegs is the number of symbols the two codes share, counted with multiplicity, so repeated digits are never double-counted |
| Scoring.PegTotalSymmetric | mastermind.py:219-238 | swapping guess and solution keeps the peg total |
| Scoring.DisjointScoresNothing | mastermind.py:225-238 | codes with no symbol in common score `(0, 0)` |
| Scoring.Trace1122 | mastermind.py:225-238 | guess `1122` against solution `1212` scores `(2, 2)` |
| Scoring.Trace1234 | mastermind.py:225-238 | guess `1234` against solution `4321` scores `(0, 4)` |
| Scoring.Trace2145 | mastermind.py:225-238 | guess `2145` against solution `1123` scores `(0, 2)` although one position agrees: the scan order costs the black peg |
| Scoring.Trace0000 | mastermind.py:225-238 | guess `0000` against solution `1111` scores `(0, 0)` |
| Rounds.SolutionFor | mastermind.py:172-186 | in multiplayer mode the solution is the typed code; otherwise each digit is the corresponding random draw |
| Rounds.WinIffSolution | mastermind.py:143-146 | the round's winning test `black_pegs == code_length` holds exactly when the guess is the solution |
| Rounds.Play | mastermind.py:137-153 | a won round ends at a guess index between the current one and the last scored guess (index 10) |
| Rounds.PlayWonAtFirstHit | mastermind.py:139-150 | a won round stops at the first guess equal to the solution |
| Rounds.PlayExhaustedNoHit | mastermind.py:139-155 | the guesses run out exactly when none of the remaining scored guesses is the solution |
| Rounds.RoundOutcome | mastermind.py:137-155 | the outcome of a round over the 12-guess limit is one the round loop can produce: a win comes after at most 10 failed guesses |
| Rounds.OutcomeOf | mastermind.py:133-155 | a round played from its input (solution by mode, then the guesses) ends in an outcome the round loop can produce |
| Rounds.CodebreakerGain | mastermind.py:146-148 | the codebreaker gains at most one point, and gains it exactly when the round is won |
| Rounds.MastermindGain | mastermind.py:148-155 | the mastermind's gain and the codebreaker's together come to the failed guesses plus one |
| Rounds.FailedGuesses | mastermind.py:148-155 | a round the loop can produce has at most 11 failed guesses |
| Rounds.RoundOutcomeMeaning | mastermind.py:137-155 | the round is won after k failures exactly when guess k is the first of the 11 scored guesses equal to the solution; it runs out exactly when none of the 11 is |
| Rounds.RoundPoints | mastermind.py:146-155 | a round hands out one point per failed guess plus one deciding point, so 1 to 12 points in all; the codebreaker gains at most 1 |
| Rounds.ExhaustedPoints | mastermind.py:152-155 | eleven failed guesses give the mastermind 12 points and the codebreaker none |
| Rounds.WonPoints | mastermind.py:146-153 | k failed guesses and then the solution give the mastermind k points and the codebreaker 1 |
| Arbiter.Arbitrate | mastermind.py:257-288 | in single-game mode the first player wins exactly when it has nonzero points; otherwise the strictly larger total wins; a tie outside single-game mode names no winner |
| Arbiter.Decide | mastermind.py:257-288 | without a tie (or in single-game mode) the winner is the one the comparison names; after a tie outside single-game mode the extra round's codebreaker wins exactly when that round is won, whatever the tied totals were |
| Arbiter.PointsAfter | mastermind.py:272-283 | without a tie (or in single-game mode) the totals are left as they are; after a tie they restart and end as the extra round's points alone: the codebreaker holds its 0 or 1 and the two together hold the failed guesses plus one |
| Arbiter.DecideWithoutTie | mastermind.py:257-288 | without a tie the final winner is the first player exactly when it wins the comparison |
| Arbiter.ComparisonSymmetric | mastermind.py:285-288 | outside single-game mode the winner holds strictly more points, and swapping the players swaps the winner |
| Arbiter.SingleGameZeroGoesToSecond | mastermind.py:257-261 | in single-game mode a first player with 0 points loses whatever the second holds |
| Arbiter.SuddenDeathFewerPointsWins | mastermind.py:272-283 | a sudden-death codebreaker who wins after two failures ends with 1 point against 2 and is still the winner |
| Tournament.Innings | mastermind.py:110-111 | definition: `rounds + 1` for a non-negative count, 0 for a negative one; `Game.MasterMind.PlayInnings` proves its loop runs exactly that many innings |
| Tournament.OutcomesAt | mastermind.py:110-121 | entry i of the outcome list is how round i of the input ends, an outcome the round loop can produce |
| Tournament.InningFirst | mastermind.py:113-121 | player 1's and player 2's points from one inning together come to the failed guesses of its two rounds plus two |
| Tournament.InningSecond | mastermind.py:113-121 | definition: player 2's points from inning k, the mastermind gain of the inning's first round plus the codebreaker gain of its second; its partner is `Tournament.InningFirst` |
| Tournament.FirstGain | mastermind.py:110-121 | definition: player 1's points from the first n innings, the sum of its inning points; `Tournament.TournamentTotal` and `Tournament.TournamentSymmetric` state its properties |
| Tournament.SecondGain | mastermind.py:110-121 | definition: player 2's points from the first n innings, the sum of its inning points; `Tournament.TournamentTotal` and `Tournament.TournamentSymmetric` state its properties |
| Tournament.RoundsTotalBounds | mastermind.py:133-155 | n rounds that the round loop can produce hand out between n and 12n points in all |
| Tournament.TournamentTotal | mastermind.py:107-131 | over n innings the two players together collect exactly the failed guesses plus one per round, between 2n and 24n points |
| Tournament.GainsPrefix | mastermind.py:110-121 | the points of the first n innings depend only on the rounds of those innings |
| Tournament.TournamentSymmetric | mastermind.py:111-121 | swapping the two rounds of every inning swaps the players' totals: both players are treated alike |
| Tournament.SelectGameMode | mastermind.py:80-105 | mode "2" is always accepted with rounds 0 and single-game mode on; mode "1" is accepted exactly when the inning count parses and is at most 10, and then returns that count; any other answer re-prompts |
| Tournament.RoundsPlayed | mastermind.py:45-49 | definition: the rounds a match plays, two per inning for a nonzero count and one otherwise; `Tournament.InningBoundOnlyFromAbove` states what it gives for each accepted count |
| Tournament.MatchGains | mastermind.py:45-49 | definition: the points each player collects before `declare_winner`, from the tournament when `rounds` is nonzero and from one round otherwise; `Tournament.ZeroInningsVerdict`, `Tournament.SingleRoundVerdict` and `Game.MasterMind.Mastermind` state what follows from it |
| Tournament.InningBoundOnlyFromAbove | mastermind.py:85-95 | every count up to 10 is accepted, including 0 and negatives; 0 then plays one round, a negative count none, and n > 0 plays 2(n+1) rounds |
| Tournament.ZeroInningsVerdict | mastermind.py:45-49 | with rounds 0 and single-game mode off, player 1 wins only on a first-guess hit; a second-guess hit ties 1-1; anything later goes to player 2 |
| Tournament.SingleRoundVerdict | mastermind.py:45-49 | in single-round mode player 1, the codebreaker, wins exactly when the round is won |
| Game.Player.constructor | mastermind.py:21-23 | a new player has the given name and 0 points |
| Game.MasterMind.constructor | mastermind.py:313-314 | the game starts in solo, non-single-game mode |
| Game.MasterMind.GetSolution | mastermind.py:164-186 | the round's solution is the drawn code in solo mode and the typed code in multiplayer mode |
| Game.MasterMind.PlayRound | mastermind.py:133-162 | the countdown loop adds the round's codebreaker gain (1 on a win) and mastermind gain (one per failure, one more when the guesses run out) to the two players in place |
| Game.MasterMind.DeclareWinner | mastermind.py:255-288 | the returned winner is the arbitrated one; on a tie the points are reset and replaced by the extra round's gains, and a tie switches single-game mode on while otherwise it stays as it was |
| Game.MasterMind.PlayInning | mastermind.py:113-121 | one inning raises player 1's points by its codebreaker gain in the first round and its mastermind gain in the second, and player 2's the other way round |
| Game.MasterMind.PlayInnings | mastermind.py:110-129 | the loop runs exactly `rounds + 1` innings for a non-negative count and none for a negative one, and each player's points are raised by its tournament gain: codebreaker gains from its own rounds, mastermind gains from the other's |
| Game.MasterMind.PlayGame | mastermind.py:107-131 | the tournament ends with the winner and points that arbitration gives for the accumulated totals, and single-game mode is on afterwards exactly when it was on before or those totals tied |
| Game.MasterMind.PlaySingleRound | mastermind.py:48-49 | one round with player 1 as codebreaker, then the arbitrated winner and points; single-game mode is on afterwards exactly when it was on before or the round's points tied |
| Game.MasterMind.Mastermind | mastermind.py:45-49 | a nonzero `rounds` plays a tournament, zero plays one round, and the winner and points are those arbitration gives for the match's gains; single-game mode is on afterwards exactly when it was on before or the gains tied |

## Left out

- Terminal I/O and pacing are not modelled: `print`, `input`, `sleep`, `screen_clear` (lines 10-12) and `start_up`. Typed text reaches the model as parameters: the guesses of each round, the code a human mastermind types, the inning count and the sudden-death response.
- `set_players` (lines 53-78) is not modelled. Its only effect on the engine is the `multiplayer` field, which the model takes as given, and the player names.
- `print_grid` (lines 240-253) and the `grid` string are not modelled: they are only ever printed.
- `play_again_check` (lines 293-307) is not modelled: it is process control through `exit()` and a restart of `mastermind()`.
- Randomness: `randrange` (line 175) becomes a parameter, the four draws of a round, each at most 9. No distribution is modelled.
- Python's `int()` is not modelled: code digits are ASCII `'0'..'9'`, and the inning count arrives already parsed (None when it does not parse). `str.split()` separators are the ASCII ones; Unicode whitespace is not modelled.
- Rounds.Play: a round takes already-accepted codes. Re-prompting on invalid lines is stated separately by `Codes.ReadCode`. Each round is given its own list of guesses, so one input stream shared by consecutive rounds is not modelled.
- The retry loop of `get_solution` (lines 179-181) is not modelled. It cannot run, because `get_code` never returns `None`.
- The wrong prompt argument in `get_code`'s recursive call (line 215) is not modelled: it only changes the text of the prompt.
- The line after the tie branch of `declare_winner` (line 290) is not modelled. There `winner` is unbound, but the recursive call never returns normally, because it ends in `play_again_check`. `Game.MasterMind.DeclareWinner` instead returns the winner named by its recursive call.
- Game.MasterMind.PlayRound requires two distinct players. Every call in the source passes two different `Player` objects.
- Player points are natural numbers: the source only ever increments them or resets them to 0.
