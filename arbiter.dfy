/** Arbiter: the decision `declare_winner` takes from the two point totals,
    including the sudden-death round that settles a tie. */
module Arbiter {
  import opened Base
  import opened Rounds

  /** Which argument of `declare_winner`: `player1` or `player2`. */
  datatype Side = First | Second

  function Other(s: Side): (o: Side)
    ensures o != s
  {
    if s == First then Second else First
  }

  /** The winner `declare_winner` names without a sudden death: in single-game
      mode the first player wins on any nonzero total, otherwise the larger
      total wins; None on a tie outside single-game mode. */
  function Arbitrate(singleGame: bool, p1: nat, p2: nat): (v: Option<Side>)
    ensures v.None? <==> !singleGame && p1 == p2
    ensures v == Some(First) <==> (if singleGame then p1 != 0 else p1 > p2)
    ensures v == Some(Second) <==> (if singleGame then p1 == 0 else p2 > p1)
  {
    if singleGame then
      if p1 != 0 then Some(First) else Some(Second)
    else if p1 == p2 then None
    else if p1 > p2 then Some(First)
    else Some(Second)
  }

  /** The codebreaker of the sudden-death round: the player not chosen as
      mastermind. */
  function SuddenDeathCodebreaker(firstIsMastermind: bool): Side {
    if firstIsMastermind then Second else First
  }

  /** The winner `declare_winner` ends with. On a tie the extra round's
      codebreaker and mastermind start again from zero and collect that
      round's gains; the recursive call, codebreaker first and in
      single-game mode, then names the winner without further recursion. */
  function Decide(singleGame: bool, p1: nat, p2: nat, firstIsMastermind: bool, extra: Outcome): (w: Side)
    ensures singleGame || p1 != p2 ==> Arbitrate(singleGame, p1, p2) == Some(w)
    ensures !singleGame && p1 == p2 ==> (w == SuddenDeathCodebreaker(firstIsMastermind) <==> extra.Won?)
  {
    match Arbitrate(singleGame, p1, p2)
    case Some(side) => side
    case None =>
      var codebreaker := SuddenDeathCodebreaker(firstIsMastermind);
      if Arbitrate(true, CodebreakerGain(extra), MastermindGain(extra)) == Some(First) then codebreaker
      else Other(codebreaker)
  }

  /** The totals `player1` and `player2` hold after `declare_winner`: unchanged
      unless a sudden death reset them and handed out the extra round's gains. */
  function PointsAfter(singleGame: bool, p1: nat, p2: nat, firstIsMastermind: bool, extra: Outcome): (r: (nat, nat))
    ensures singleGame || p1 != p2 ==> r == (p1, p2)
    ensures !singleGame && p1 == p2 ==>
              r.0 + r.1 == FailedGuesses(extra) + 1 &&
              (if firstIsMastermind then r.1 else r.0) == CodebreakerGain(extra)
  {
    if singleGame || p1 != p2 then (p1, p2)
    else if firstIsMastermind then (MastermindGain(extra), CodebreakerGain(extra))
    else (CodebreakerGain(extra), MastermindGain(extra))
  }

  /** Outside a tie the decision is the plain comparison. */
  lemma DecideWithoutTie(singleGame: bool, p1: nat, p2: nat, firstIsMastermind: bool, extra: Outcome)
    requires singleGame || p1 != p2
    ensures Decide(singleGame, p1, p2, firstIsMastermind, extra) == First <==>
            (if singleGame then p1 != 0 else p1 > p2)
  {
  }

  /** Outside single-game mode the winner holds strictly more points than the
      loser, and swapping the players swaps the winner. */
  lemma ComparisonSymmetric(p1: nat, p2: nat)
    requires p1 != p2
    ensures Arbitrate(false, p2, p1) == Some(Other(Arbitrate(false, p1, p2).value))
    ensures Arbitrate(false, p1, p2) == Some(First) ==> p1 > p2
    ensures Arbitrate(false, p1, p2) == Some(Second) ==> p2 > p1
  {
  }

  /** In single-game mode the first player can lose while holding no more
      points than the second: a 0-0 single game goes to `player2`. */
  lemma SingleGameZeroGoesToSecond(p2: nat)
    ensures Decide(true, 0, p2, false, Exhausted) == Second
  {
  }

  /** The sudden death ignores who collected more points in the extra round:
      a codebreaker who cracks the code after two failures wins with one
      point against the mastermind's two. */
  lemma SuddenDeathFewerPointsWins(p: nat)
    ensures PointsAfter(false, p, p, true, Won(2)) == (2, 1)
    ensures Decide(false, p, p, true, Won(2)) == Second
  {
  }
}
