/** Game: the `MasterMind` object and its players, whose points the round,
    tournament and winner methods update in place. */
module Game {
  import opened Base
  import opened Codes
  import opened Scoring
  import opened Rounds
  import opened Arbiter
  import opened Tournament

  /** A player: a fixed name and a running point total. */
  class Player {
    const name: string
    var points: nat

    constructor (name: string)
      ensures this.name == name && points == 0
    {
      this.name := name;
      points := 0;
    }
  }

  /** What the tie branch of `declare_winner` reads: the answer to "who
      shall be the Mastermind?" and the input of the extra round. */
  datatype Tiebreak = Tiebreak(response: string, input: RoundInput)

  class MasterMind {
    var multiplayer: bool
    var singleGame: bool

    /** The class defaults, before the menus have been answered. */
    constructor ()
      ensures !multiplayer && !singleGame
    {
      multiplayer := false;
      singleGame := false;
    }

    /** `get_solution`: the CPU draws a code unless in multiplayer mode, where
        the mastermind types one. */
    method GetSolution(input: RoundInput) returns (solution: Code)
      requires ValidDraws(input.draws)
      ensures solution == SolutionFor(multiplayer, input)
    {
      if !multiplayer {
        solution := GenerateSolution(input.draws);
        return;
      }
      solution := input.typed;
    }

    /** `mastermind_round`: score guesses while more than one guess is left;
        an all-black guess pays the codebreaker one point and ends the round,
        every other guess pays the mastermind one point, and running out pays
        the mastermind one more. */
    method PlayRound(codebreaker: Player, mastermind: Player, input: RoundInput)
      requires codebreaker != mastermind
      requires WellFormedInput(input)
      modifies codebreaker`points, mastermind`points
      ensures codebreaker.points == old(codebreaker.points) + CodebreakerGain(OutcomeOf(multiplayer, input))
      ensures mastermind.points == old(mastermind.points) + MastermindGain(OutcomeOf(multiplayer, input))
    {
      var solution := GetSolution(input);
      var guessesLeft := GuessesPerRound;
      while guessesLeft > 1
        invariant 1 <= guessesLeft <= GuessesPerRound
        invariant OutcomeOf(multiplayer, input) == Play(solution, input.guesses, guessesLeft)
        invariant codebreaker.points == old(codebreaker.points)
        invariant mastermind.points == old(mastermind.points) + (GuessesPerRound - guessesLeft)
        decreases guessesLeft
      {
        var guess := input.guesses[GuessesPerRound - guessesLeft];
        var black, white := CompareCodes(guess, solution);
        WinIffSolution(guess, solution);
        if black == CodeLength {
          codebreaker.points := codebreaker.points + 1;
          return;
        }
        guessesLeft := guessesLeft - 1;
        mastermind.points := mastermind.points + 1;
      }
      mastermind.points := mastermind.points + 1;
    }

    /** `declare_winner`: the winner by single-game mode or by totals; on a
        tie outside single-game mode the named player (player 2 unless the
        response is player 1's name) becomes mastermind, both totals restart
        at zero, single-game mode is switched on, one more round is played
        and the decision is taken again with the codebreaker first. */
    method DeclareWinner(player1: Player, player2: Player, tiebreak: Tiebreak) returns (winner: Player)
      requires player1 != player2
      requires WellFormedInput(tiebreak.input)
      modifies this`singleGame, player1`points, player2`points
      decreases if singleGame then 0 else 1
      ensures var side := Decide(old(singleGame), old(player1.points), old(player2.points),
                                 tiebreak.response == player1.name, OutcomeOf(multiplayer, tiebreak.input));
              winner == (if side == First then player1 else player2)
      ensures (player1.points, player2.points)
           == PointsAfter(old(singleGame), old(player1.points), old(player2.points),
                          tiebreak.response == player1.name, OutcomeOf(multiplayer, tiebreak.input))
      ensures singleGame == (old(singleGame) || old(player1.points) == old(player2.points))
    {
      if singleGame {
        winner := if player1.points != 0 then player1 else player2;
      } else if player1.points == player2.points {
        var mastermind, codebreaker := player2, player1;
        if tiebreak.response == player1.name {
          mastermind, codebreaker := player1, player2;
        }
        mastermind.points := 0;
        codebreaker.points := 0;
        singleGame := true;
        PlayRound(codebreaker, mastermind, tiebreak.input);
        winner := DeclareWinner(codebreaker, mastermind, tiebreak);
      } else if player1.points > player2.points {
        winner := player1;
      } else {
        winner := player2;
      }
    }

    /** Inning `k` of `mastermind_game`: a round with `p1` as codebreaker,
        then one with `p2` as codebreaker. */
    method PlayInning(p1: Player, p2: Player, inputs: seq<RoundInput>, k: nat)
      requires p1 != p2
      requires WellFormedInputs(inputs, k + 1)
      modifies p1`points, p2`points
      ensures p1.points == old(p1.points) + InningFirst(Outcomes(multiplayer, inputs), k)
      ensures p2.points == old(p2.points) + InningSecond(Outcomes(multiplayer, inputs), k)
    {
      OutcomesAt(multiplayer, inputs, 2 * k);
      OutcomesAt(multiplayer, inputs, 2 * k + 1);
      PlayRound(p1, p2, inputs[2 * k]);
      PlayRound(p2, p1, inputs[2 * k + 1]);
    }

    /** The loop of `mastermind_game`: `rounds + 1` innings (none for a
        negative count), points accumulating in place. */
    method PlayInnings(rounds: int, p1: Player, p2: Player, inputs: seq<RoundInput>) returns (played: nat)
      requires p1 != p2
      requires WellFormedInputs(inputs, Innings(rounds))
      modifies p1`points, p2`points
      ensures p1.points == old(p1.points) + FirstGain(Outcomes(multiplayer, inputs), Innings(rounds))
      ensures p2.points == old(p2.points) + SecondGain(Outcomes(multiplayer, inputs), Innings(rounds))
      ensures rounds >= 0 ==> played == rounds + 1
      ensures rounds < 0 ==> played == 0
    {
      ghost var mp := multiplayer;
      ghost var os := Outcomes(mp, inputs);
      var currentRound := 0;
      while currentRound <= rounds
        invariant 0 <= currentRound <= Innings(rounds)
        invariant mp == multiplayer
        invariant p1.points == old(p1.points) + FirstGain(os, currentRound)
        invariant p2.points == old(p2.points) + SecondGain(os, currentRound)
        decreases rounds + 1 - currentRound
      {
        PlayInning(p1, p2, inputs, currentRound);
        currentRound := currentRound + 1;
      }
      played := currentRound;
    }

    /** `mastermind_game`: the innings, then one call of `declare_winner`. */
    method PlayGame(rounds: int, p1: Player, p2: Player, inputs: seq<RoundInput>, tiebreak: Tiebreak)
      returns (winner: Player)
      requires p1 != p2
      requires WellFormedInputs(inputs, Innings(rounds)) && WellFormedInput(tiebreak.input)
      modifies this`singleGame, p1`points, p2`points
      ensures var g1 := old(p1.points) + FirstGain(Outcomes(multiplayer, inputs), Innings(rounds));
              var g2 := old(p2.points) + SecondGain(Outcomes(multiplayer, inputs), Innings(rounds));
              var extra := OutcomeOf(multiplayer, tiebreak.input);
              (p1.points, p2.points) == PointsAfter(old(singleGame), g1, g2, tiebreak.response == p1.name, extra) &&
              winner == (if Decide(old(singleGame), g1, g2, tiebreak.response == p1.name, extra) == First then p1 else p2) &&
              singleGame == (old(singleGame) || g1 == g2)
    {
      ghost var mp := multiplayer;
      ghost var os := Outcomes(mp, inputs);
      ghost var g1 := p1.points + FirstGain(os, Innings(rounds));
      ghost var g2 := p2.points + SecondGain(os, Innings(rounds));
      var _ := PlayInnings(rounds, p1, p2, inputs);
      assert mp == multiplayer;
      assert p1.points == g1 && p2.points == g2;
      winner := DeclareWinner(p1, p2, tiebreak);
      assert mp == multiplayer;
    }

    /** The single-round branch of `mastermind`: one round with player 1 as
        codebreaker, then `declare_winner`. */
    method PlaySingleRound(p1: Player, p2: Player, input: RoundInput, tiebreak: Tiebreak)
      returns (winner: Player)
      requires p1 != p2
      requires WellFormedInput(input) && WellFormedInput(tiebreak.input)
      modifies this`singleGame, p1`points, p2`points
      ensures var g1 := old(p1.points) + CodebreakerGain(OutcomeOf(multiplayer, input));
              var g2 := old(p2.points) + MastermindGain(OutcomeOf(multiplayer, input));
              var extra := OutcomeOf(multiplayer, tiebreak.input);
              (p1.points, p2.points) == PointsAfter(old(singleGame), g1, g2, tiebreak.response == p1.name, extra) &&
              winner == (if Decide(old(singleGame), g1, g2, tiebreak.response == p1.name, extra) == First then p1 else p2) &&
              singleGame == (old(singleGame) || g1 == g2)
    {
      ghost var mp := multiplayer;
      ghost var o := OutcomeOf(mp, input);
      ghost var g1 := p1.points + CodebreakerGain(o);
      ghost var g2 := p2.points + MastermindGain(o);
      PlayRound(p1, p2, input);
      assert mp == multiplayer;
      assert p1.points == g1 && p2.points == g2;
      ghost var extra := OutcomeOf(mp, tiebreak.input);
      winner := DeclareWinner(p1, p2, tiebreak);
      assert mp == multiplayer;
    }

    /** The body of `mastermind` once the menus are answered: a tournament
        when `rounds` is nonzero, otherwise a single round. */
    method Mastermind(rounds: int, p1: Player, p2: Player, inputs: seq<RoundInput>, tiebreak: Tiebreak)
      returns (winner: Player)
      requires p1 != p2
      requires EnoughInput(inputs, rounds) && WellFormedInput(tiebreak.input)
      modifies this`singleGame, p1`points, p2`points
      ensures var (gain1, gain2) := MatchGains(multiplayer, rounds, inputs);
              var g1 := old(p1.points) + gain1;
              var g2 := old(p2.points) + gain2;
              var extra := OutcomeOf(multiplayer, tiebreak.input);
              (p1.points, p2.points) == PointsAfter(old(singleGame), g1, g2, tiebreak.response == p1.name, extra) &&
              winner == (if Decide(old(singleGame), g1, g2, tiebreak.response == p1.name, extra) == First then p1 else p2) &&
              singleGame == (old(singleGame) || g1 == g2)
    {
      ghost var mp := multiplayer;
      if rounds != 0 {
        assert WellFormedInputs(inputs, Innings(rounds));
        winner := PlayGame(rounds, p1, p2, inputs, tiebreak);
      } else {
        winner := PlaySingleRound(p1, p2, inputs[0], tiebreak);
      }
      assert mp == multiplayer;
    }
  }
}
