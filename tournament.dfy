/** Tournament: how many rounds a game plays, who holds which role in each,
    and the points the two players collect before the winner is declared. */
module Tournament {
  import opened Base
  import opened Codes
  import opened Rounds
  import opened Arbiter

  /** Innings `mastermind_game` plays: its loop runs while the counter, which
      starts at 0, is at most `rounds`. */
  function Innings(rounds: int): nat {
    if rounds >= 0 then rounds + 1 else 0
  }

  /** Valid input for every round of the list. */
  predicate AllWellFormed(inputs: seq<RoundInput>) {
    forall i :: 0 <= i < |inputs| ==> WellFormedInput(inputs[i])
  }

  /** Input for every round of `n` innings: round 2k of the list is inning
      k's first round (player 1 codebreaks), round 2k+1 its second (player 2
      codebreaks). */
  predicate WellFormedInputs(inputs: seq<RoundInput>, n: nat) {
    |inputs| >= 2 * n && AllWellFormed(inputs)
  }

  /** How each round of the list ends. */
  function Outcomes(multiplayer: bool, inputs: seq<RoundInput>): (os: seq<Outcome>)
    requires AllWellFormed(inputs)
    ensures |os| == |inputs|
  {
    if inputs == [] then []
    else [OutcomeOf(multiplayer, inputs[0])] + Outcomes(multiplayer, inputs[1..])
  }

  /** Entry `i` is how round `i` ends, an outcome the round loop can produce. */
  lemma {:induction false} OutcomesAt(multiplayer: bool, inputs: seq<RoundInput>, i: nat)
    requires AllWellFormed(inputs) && i < |inputs|
    ensures Outcomes(multiplayer, inputs)[i] == OutcomeOf(multiplayer, inputs[i])
    ensures Reachable(Outcomes(multiplayer, inputs)[i])
  {
    if i > 0 {
      OutcomesAt(multiplayer, inputs[1..], i - 1);
    }
  }

  /** Points player 1 collects in inning `k`: as codebreaker in its first
      round, as mastermind in its second. */
  function InningFirst(os: seq<Outcome>, k: nat): (r: nat)
    requires |os| >= 2 * k + 2
    ensures r + InningSecond(os, k) == FailedGuesses(os[2 * k]) + FailedGuesses(os[2 * k + 1]) + 2
  {
    CodebreakerGain(os[2 * k]) + MastermindGain(os[2 * k + 1])
  }

  /** Points player 2 collects in inning `k`: as mastermind in its first
      round, as codebreaker in its second. */
  function InningSecond(os: seq<Outcome>, k: nat): nat
    requires |os| >= 2 * k + 2
  {
    MastermindGain(os[2 * k]) + CodebreakerGain(os[2 * k + 1])
  }

  /** Points player 1 collects in the first `n` innings of the outcomes `os`. */
  function FirstGain(os: seq<Outcome>, n: nat): nat
    requires |os| >= 2 * n
  {
    if n == 0 then 0 else FirstGain(os, n - 1) + InningFirst(os, n - 1)
  }

  /** Points player 2 collects in the first `n` innings. */
  function SecondGain(os: seq<Outcome>, n: nat): nat
    requires |os| >= 2 * n
  {
    if n == 0 then 0 else SecondGain(os, n - 1) + InningSecond(os, n - 1)
  }

  /** Points handed out over the first `n` rounds: one per failed guess plus
      one deciding point per round. */
  function RoundsTotal(os: seq<Outcome>, n: nat): nat
    requires n <= |os|
  {
    if n == 0 then 0
    else RoundsTotal(os, n - 1) + FailedGuesses(os[n - 1]) + 1
  }

  lemma {:induction false} RoundsTotalBounds(os: seq<Outcome>, n: nat)
    requires n <= |os| && forall k :: 0 <= k < n ==> Reachable(os[k])
    ensures n <= RoundsTotal(os, n) <= n * GuessesPerRound
  {
    if n > 0 {
      RoundsTotalBounds(os, n - 1);
      assert Reachable(os[n - 1]);
    }
  }

  /** Every point of a tournament comes from its rounds: the two players
      together collect exactly the failed guesses plus one per round, so
      between 2n and 2n * GuessesPerRound over n innings. */
  lemma {:induction false} TournamentTotal(os: seq<Outcome>, n: nat)
    requires |os| >= 2 * n && forall k :: 0 <= k < 2 * n ==> Reachable(os[k])
    ensures FirstGain(os, n) + SecondGain(os, n) == RoundsTotal(os, 2 * n)
    ensures 2 * n <= FirstGain(os, n) + SecondGain(os, n) <= 2 * n * GuessesPerRound
  {
    if n > 0 {
      TournamentTotal(os, n - 1);
      var a, b := os[2 * n - 2], os[2 * n - 1];
      assert CodebreakerGain(a) + MastermindGain(a) == FailedGuesses(a) + 1;
      assert CodebreakerGain(b) + MastermindGain(b) == FailedGuesses(b) + 1;
      assert RoundsTotal(os, 2 * n) == RoundsTotal(os, 2 * n - 1) + FailedGuesses(b) + 1;
      assert RoundsTotal(os, 2 * n - 1) == RoundsTotal(os, 2 * n - 2) + FailedGuesses(a) + 1;
    }
    RoundsTotalBounds(os, 2 * n);
  }

  /** The first `n` innings with the two rounds of each exchanged. */
  function SwapInnings<T>(xs: seq<T>, n: nat): (r: seq<T>)
    requires |xs| >= 2 * n
    ensures |r| == 2 * n
    ensures forall k :: 0 <= k < n ==> r[2 * k] == xs[2 * k + 1] && r[2 * k + 1] == xs[2 * k]
  {
    if n == 0 then [] else SwapInnings(xs, n - 1) + [xs[2 * n - 1], xs[2 * n - 2]]
  }

  /** The gains of the first `n` innings depend only on those innings. */
  lemma {:induction false} GainsPrefix(os: seq<Outcome>, prefix: seq<Outcome>, n: nat)
    requires |os| >= 2 * n && |prefix| >= 2 * n
    requires os[..2 * n] == prefix[..2 * n]
    ensures FirstGain(os, n) == FirstGain(prefix, n)
    ensures SecondGain(os, n) == SecondGain(prefix, n)
  {
    if n > 0 {
      assert os[..2 * (n - 1)] == prefix[..2 * (n - 1)];
      assert os[2 * n - 2] == os[..2 * n][2 * n - 2] == prefix[2 * n - 2];
      assert os[2 * n - 1] == os[..2 * n][2 * n - 1] == prefix[2 * n - 1];
      GainsPrefix(os, prefix, n - 1);
    }
  }

  /** Swapping the two rounds of every inning swaps the players' gains: the
      tournament treats both players alike. */
  lemma {:induction false} TournamentSymmetric(os: seq<Outcome>, n: nat)
    requires |os| >= 2 * n
    ensures FirstGain(SwapInnings(os, n), n) == SecondGain(os, n)
    ensures SecondGain(SwapInnings(os, n), n) == FirstGain(os, n)
  {
    if n > 0 {
      var s := SwapInnings(os, n);
      var s' := SwapInnings(os, n - 1);
      TournamentSymmetric(os, n - 1);
      assert s == s' + [os[2 * n - 1], os[2 * n - 2]];
      assert s[..2 * (n - 1)] == s'[..2 * (n - 1)];
      GainsPrefix(s, s', n - 1);
      assert s[2 * n - 2] == os[2 * n - 1] && s[2 * n - 1] == os[2 * n - 2];
    }
  }

  /** What `set_game_mode` settles: the `rounds` it returns and whether it
      switches single-game mode on. */
  datatype GameMode = GameMode(rounds: int, singleGame: bool)

  /** `set_game_mode` on a menu choice and the inning count as parsed by
      `int()` (None when it does not parse); None when the answer is
      rejected and the prompt repeats. */
  function SelectGameMode(choice: string, innings: Option<int>): (r: Option<GameMode>)
    ensures r.Some? <==> choice == "2" || (choice == "1" && innings.Some? && innings.value <= MaxInnings)
    ensures r.Some? ==> (r.value.singleGame <==> choice == "2")
    ensures r.Some? && choice == "1" ==> r.value.rounds == innings.value
    ensures r.Some? && choice == "2" ==> r.value.rounds == 0
  {
    if choice == "1" then
      match innings
      case Some(n) => if n > MaxInnings then None else Some(GameMode(n, false))
      case None => None
    else if choice == "2" then Some(GameMode(0, true))
    else None
  }

  /** Rounds `mastermind` plays before declaring the winner: a tournament
      when the returned `rounds` is nonzero, one round otherwise. */
  function RoundsPlayed(rounds: int): nat {
    if rounds != 0 then 2 * Innings(rounds) else 1
  }

  /** The inning prompt has no lower bound: an inning count of 0 is
      accepted yet plays a single round with single-game mode off, and a
      negative count plays no round at all. */
  lemma InningBoundOnlyFromAbove(n: int)
    requires n <= MaxInnings
    ensures SelectGameMode("1", Some(n)) == Some(GameMode(n, false))
    ensures n == 0 ==> RoundsPlayed(n) == 1
    ensures n < 0 ==> RoundsPlayed(n) == 0
    ensures n > 0 ==> RoundsPlayed(n) == 2 * (n + 1)
  {
  }

  /** Valid input for every round `mastermind` plays with this `rounds`. */
  predicate EnoughInput(inputs: seq<RoundInput>, rounds: int) {
    |inputs| >= RoundsPlayed(rounds) && AllWellFormed(inputs)
  }

  /** Points each player collects before `declare_winner`, starting from
      zero, given the `rounds` returned by `set_game_mode`. */
  function MatchGains(multiplayer: bool, rounds: int, inputs: seq<RoundInput>): (nat, nat)
    requires EnoughInput(inputs, rounds)
  {
    if rounds != 0 then
      var os := Outcomes(multiplayer, inputs);
      (FirstGain(os, Innings(rounds)), SecondGain(os, Innings(rounds)))
    else (CodebreakerGain(OutcomeOf(multiplayer, inputs[0])), MastermindGain(OutcomeOf(multiplayer, inputs[0])))
  }

  /** With an inning count of 0 one round is played and judged by totals, not
      by single-game mode: player 1 wins only by cracking the code at the
      first guess, a hit at the second guess ties 1-1 and forces a sudden
      death, and anything later goes to player 2. */
  lemma ZeroInningsVerdict(multiplayer: bool, inputs: seq<RoundInput>)
    requires EnoughInput(inputs, 0)
    ensures var (g1, g2) := MatchGains(multiplayer, 0, inputs);
            var o := OutcomeOf(multiplayer, inputs[0]);
            (Arbitrate(false, g1, g2) == Some(First) <==> o == Won(0)) &&
            (Arbitrate(false, g1, g2).None? <==> o == Won(1)) &&
            (Arbitrate(false, g1, g2) == Some(Second) <==> o.Exhausted? || (o.Won? && o.failures >= 2))
  {
  }

  /** In single-round mode the codebreaker, player 1, wins exactly when the
      round is won. */
  lemma SingleRoundVerdict(multiplayer: bool, inputs: seq<RoundInput>, firstIsMastermind: bool, extra: Outcome)
    requires EnoughInput(inputs, 0)
    ensures var (g1, g2) := MatchGains(multiplayer, 0, inputs);
            Decide(true, g1, g2, firstIsMastermind, extra) == First <==> OutcomeOf(multiplayer, inputs[0]).Won?
  {
  }
}
