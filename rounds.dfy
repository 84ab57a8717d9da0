/** One round (`mastermind_round`) as a value: which guess, if any, cracks
    the solution before the guess counter runs down, and the points each
    role collects. */
module Rounds {
  import opened Base
  import opened Codes
  import opened Scoring

  /** Guesses scored in one round at most: the counter starts at
      GuessesPerRound and the loop runs only while more than one is left. */
  const MaxScoredGuesses: nat := GuessesPerRound - 1

  /** How a round ends: won by the codebreaker after `failures` wrong
      guesses, or with the guesses used up. */
  datatype Outcome = Won(failures: nat) | Exhausted

  /** What a round reads from outside the engine: the code a human
      mastermind types, the digits `randrange` draws for the CPU, and the
      codebreaker's guesses as `get_code` returns them. */
  datatype RoundInput = RoundInput(typed: Code, draws: seq<nat>, guesses: seq<Code>)

  /** Enough valid input for any round (typed input never runs out). */
  predicate WellFormedInput(input: RoundInput) {
    ValidDraws(input.draws) && |input.guesses| >= MaxScoredGuesses
  }

  /** The code `get_solution` returns: drawn by the CPU unless in multiplayer mode. */
  function SolutionFor(multiplayer: bool, input: RoundInput): (s: Code)
    requires ValidDraws(input.draws)
    ensures multiplayer ==> s == input.typed
    ensures !multiplayer ==> forall i :: 0 <= i < CodeLength ==> DigitValue(s[i]) == input.draws[i]
  {
    if multiplayer then input.typed else DrawnCode(input.draws)
  }

  /** The round loop from the point where `left` guesses are left. The
      loop's winning test, all pegs black, holds exactly when the guess is
      the solution (WinIffSolution), so it is stated here as equality. */
  function Play(solution: Code, guesses: seq<Code>, left: nat): (o: Outcome)
    requires 1 <= left <= GuessesPerRound && |guesses| >= MaxScoredGuesses
    ensures o.Won? ==> GuessesPerRound - left <= o.failures < MaxScoredGuesses
    decreases left
  {
    if left == 1 then Exhausted
    else
      var n := GuessesPerRound - left;
      if guesses[n] == solution then Won(n)
      else Play(solution, guesses, left - 1)
  }

  function RoundOutcome(solution: Code, guesses: seq<Code>): (o: Outcome)
    requires |guesses| >= MaxScoredGuesses
    ensures Reachable(o)
  {
    Play(solution, guesses, GuessesPerRound)
  }

  function OutcomeOf(multiplayer: bool, input: RoundInput): (o: Outcome)
    requires WellFormedInput(input)
    ensures Reachable(o)
  {
    RoundOutcome(SolutionFor(multiplayer, input), input.guesses)
  }

  /** An outcome the round loop can produce: a win comes before the guesses
      run out. */
  predicate Reachable(o: Outcome) {
    o.Won? ==> o.failures < MaxScoredGuesses
  }

  /** Points the codebreaker collects: one for a win. */
  function CodebreakerGain(o: Outcome): (g: nat)
    ensures g <= 1 && (g == 1 <==> o.Won?)
  {
    if o.Won? then 1 else 0
  }

  /** Points the mastermind collects: one per failed guess, one more when
      the guesses run out. */
  function MastermindGain(o: Outcome): (g: nat)
    ensures g + CodebreakerGain(o) == FailedGuesses(o) + 1
  {
    match o
    case Won(failures) => failures
    case Exhausted => MaxScoredGuesses + 1
  }

  /** Wrong guesses scored in the round. */
  function FailedGuesses(o: Outcome): (f: nat)
    ensures Reachable(o) ==> f <= MaxScoredGuesses
  {
    match o
    case Won(failures) => failures
    case Exhausted => MaxScoredGuesses
  }

  /** A guess wins exactly when it is the solution. */
  lemma WinIffSolution(guess: Code, solution: Code)
    ensures Score(guess, solution).black == CodeLength <==> guess == solution
  {
    AllBlackIffEqual(guess, solution);
    if forall i :: 0 <= i < CodeLength ==> guess[i] == solution[i] {
      assert guess == solution;
    }
  }

  /** When the loop is won, it stops at the first guess from the current
      one on that cracks the solution. */
  lemma {:induction false} PlayWonAtFirstHit(solution: Code, guesses: seq<Code>, left: nat)
    requires 1 <= left <= GuessesPerRound && |guesses| >= MaxScoredGuesses
    ensures Play(solution, guesses, left).Won? ==>
              guesses[Play(solution, guesses, left).failures] == solution
    ensures Play(solution, guesses, left).Won? ==>
              forall m :: GuessesPerRound - left <= m < Play(solution, guesses, left).failures ==>
                guesses[m] != solution
  {
    if left > 1 {
      PlayWonAtFirstHit(solution, guesses, left - 1);
    }
  }

  /** The loop runs out only when none of the remaining scored guesses
      cracks the solution. */
  lemma {:induction false} PlayExhaustedNoHit(solution: Code, guesses: seq<Code>, left: nat)
    requires 1 <= left <= GuessesPerRound && |guesses| >= MaxScoredGuesses
    ensures Play(solution, guesses, left).Exhausted? <==>
              forall m :: GuessesPerRound - left <= m < MaxScoredGuesses ==> guesses[m] != solution
  {
    if left > 1 {
      PlayExhaustedNoHit(solution, guesses, left - 1);
    }
  }

  /** The round is won on the first guess that equals the solution, if one
      of the first MaxScoredGuesses does; otherwise the guesses run out. */
  lemma RoundOutcomeMeaning(solution: Code, guesses: seq<Code>, k: nat)
    requires |guesses| >= MaxScoredGuesses
    ensures RoundOutcome(solution, guesses) == Won(k) <==>
            k < MaxScoredGuesses && guesses[k] == solution &&
            forall m :: 0 <= m < k ==> guesses[m] != solution
    ensures RoundOutcome(solution, guesses) == Exhausted <==>
            forall m :: 0 <= m < MaxScoredGuesses ==> guesses[m] != solution
  {
    PlayWonAtFirstHit(solution, guesses, GuessesPerRound);
    PlayExhaustedNoHit(solution, guesses, GuessesPerRound);
  }

  /** Every round hands out one point per failed guess plus one deciding
      point (the codebreaker's win or the mastermind's exhaustion bonus),
      so between 1 and GuessesPerRound points in all. */
  lemma RoundPoints(solution: Code, guesses: seq<Code>)
    requires |guesses| >= MaxScoredGuesses
    ensures var o := RoundOutcome(solution, guesses);
            CodebreakerGain(o) + MastermindGain(o) == FailedGuesses(o) + 1 &&
            1 <= CodebreakerGain(o) + MastermindGain(o) <= GuessesPerRound
    ensures CodebreakerGain(RoundOutcome(solution, guesses)) <= 1
  {
  }

  /** All scored guesses failing gives the mastermind GuessesPerRound points
      and the codebreaker none. */
  lemma ExhaustedPoints(solution: Code, guesses: seq<Code>)
    requires |guesses| >= MaxScoredGuesses
    requires forall m :: 0 <= m < MaxScoredGuesses ==> guesses[m] != solution
    ensures MastermindGain(RoundOutcome(solution, guesses)) == GuessesPerRound
    ensures CodebreakerGain(RoundOutcome(solution, guesses)) == 0
  {
    RoundOutcomeMeaning(solution, guesses, 0);
  }

  /** `k` failed guesses followed by the solution give the mastermind `k`
      points and the codebreaker one. */
  lemma WonPoints(solution: Code, guesses: seq<Code>, k: nat)
    requires |guesses| >= MaxScoredGuesses && k < MaxScoredGuesses
    requires guesses[k] == solution && forall m :: 0 <= m < k ==> guesses[m] != solution
    ensures MastermindGain(RoundOutcome(solution, guesses)) == k
    ensures CodebreakerGain(RoundOutcome(solution, guesses)) == 1
  {
    RoundOutcomeMeaning(solution, guesses, k);
  }
}
