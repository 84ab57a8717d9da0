/** Peg scoring (`compare_codes`). For each solution index the scan takes the
    first still-open guess position holding the same symbol and consumes one
    position for it: an exact ("black") peg when that position is the index
    itself, or when the index is still open and matches in place; a "white"
    peg otherwise. The functions below state the scan one solution index at
    a time; CompareCodes is the nested loop proved against them. */
module Scoring {
  import opened Base

  datatype Pegs = Pegs(black: nat, white: nat)

  /** The state of the scan: both counters and the list of open guess positions. */
  datatype Tally = Tally(black: nat, white: nat, positions: seq<nat>)

  /** The scan reads the first CodeLength symbols of both strings. */
  predicate Comparable(guess: string, solution: string) {
    |guess| >= CodeLength && |solution| >= CodeLength
  }

  /** Open positions: indices below CodeLength, in increasing order (so distinct). */
  predicate OpenPositions(ps: seq<nat>) {
    (forall k :: 0 <= k < |ps| ==> ps[k] < CodeLength) &&
    (forall k, m :: 0 <= k < m < |ps| ==> ps[k] < ps[m])
  }

  /** `list(range(CodeLength))` */
  function AllPositions(): (ps: seq<nat>)
    ensures OpenPositions(ps) && |ps| == CodeLength
    ensures forall k :: 0 <= k < |ps| ==> ps[k] == k
  {
    seq(CodeLength, k requires 0 <= k => k as nat)
  }

  /** `ps.index(v)`: the first place holding `v`. */
  function IndexOf(ps: seq<nat>, v: nat): (k: nat)
    requires v in ps
    ensures k < |ps| && ps[k] == v
    ensures forall m :: 0 <= m < k ==> ps[m] != v
  {
    if ps[0] == v then 0 else 1 + IndexOf(ps[1..], v)
  }

  /** `ps` without its entry at index `k`. */
  function RemoveAt(ps: seq<nat>, k: nat): (r: seq<nat>)
    requires k < |ps|
    ensures |r| + 1 == |ps|
    ensures OpenPositions(ps) ==> OpenPositions(r) && ps[k] !in r
    ensures forall x :: x in r ==> x in ps
  {
    ps[..k] + ps[k + 1..]
  }

  /** `ps.remove(v)`: drops the first occurrence of `v`. */
  function Remove(ps: seq<nat>, v: nat): (r: seq<nat>)
    requires v in ps
  {
    RemoveAt(ps, IndexOf(ps, v))
  }

  /** Index of the first open position whose guess symbol is `d`, or |ps| if none. */
  function FirstMatch(guess: string, ps: seq<nat>, d: char): (k: nat)
    requires |guess| >= CodeLength && OpenPositions(ps)
    ensures k <= |ps|
    ensures forall m :: 0 <= m < k ==> guess[ps[m]] != d
    ensures k < |ps| ==> guess[ps[k]] == d
  {
    if ps == [] then 0
    else if guess[ps[0]] == d then 0
    else 1 + FirstMatch(guess, ps[1..], d)
  }

  /** One pass of the inner loop, for solution index `i`. */
  function ScoreStep(guess: string, solution: string, i: nat, t: Tally): (r: Tally)
    requires Comparable(guess, solution) && i < CodeLength && OpenPositions(t.positions)
    ensures OpenPositions(r.positions)
    ensures r.black + r.white + |r.positions| == t.black + t.white + |t.positions|
    ensures |t.positions| <= |r.positions| + 1 && |r.positions| <= |t.positions|
    ensures r.black > t.black ==> guess[i] == solution[i]
    ensures forall x :: x in r.positions ==> x in t.positions
  {
    var ps := t.positions;
    var k := FirstMatch(guess, ps, solution[i]);
    if k == |ps| then t
    else
      var j := ps[k];
      if i == j then Tally(t.black + 1, t.white, Remove(ps, j))
      else if i in ps && solution[i] == guess[i] then Tally(t.black + 1, t.white, Remove(ps, i))
      else Tally(t.black, t.white + 1, Remove(ps, j))
  }

  /** The scan after its first `n` solution indices. */
  function Run(guess: string, solution: string, n: nat): (r: Tally)
    requires Comparable(guess, solution) && n <= CodeLength
    ensures OpenPositions(r.positions)
    ensures r.black + r.white + |r.positions| == CodeLength
  {
    if n == 0 then Tally(0, 0, AllPositions())
    else ScoreStep(guess, solution, n - 1, Run(guess, solution, n - 1))
  }

  /** `compare_codes(guess, solution)` as a value. */
  function Score(guess: string, solution: string): (p: Pegs)
    requires Comparable(guess, solution)
    ensures p.black + p.white <= CodeLength
  {
    var t := Run(guess, solution, CodeLength);
    Pegs(t.black, t.white)
  }

  /** The pass for index `i` when the first matching open position is the
      `k`-th. */
  lemma StepAtMatch(guess: string, solution: string, i: nat, t: Tally, k: nat)
    requires Comparable(guess, solution) && i < CodeLength && OpenPositions(t.positions)
    requires k < |t.positions| && guess[t.positions[k]] == solution[i]
    requires forall m :: 0 <= m < k ==> guess[t.positions[m]] != solution[i]
    ensures var ps, j := t.positions, t.positions[k];
            ScoreStep(guess, solution, i, t) ==
              if i == j then Tally(t.black + 1, t.white, Remove(ps, j))
              else if i in ps && solution[i] == guess[i] then Tally(t.black + 1, t.white, Remove(ps, i))
              else Tally(t.black, t.white + 1, Remove(ps, j))
  {
    assert FirstMatch(guess, t.positions, solution[i]) == k;
  }

  /** The pass for index `i` when no open position matches. */
  lemma StepNoMatch(guess: string, solution: string, i: nat, t: Tally)
    requires Comparable(guess, solution) && i < CodeLength && OpenPositions(t.positions)
    requires forall m :: 0 <= m < |t.positions| ==> guess[t.positions[m]] != solution[i]
    ensures ScoreStep(guess, solution, i, t) == t
  {
    assert FirstMatch(guess, t.positions, solution[i]) == |t.positions|;
  }

  /** One pass of the outer loop of `compare_codes`, for solution index `i`:
      the inner loop walks the open positions and stops (`break`) at the
      first one holding the solution symbol; that position, or the index
      itself when it is still open and matches in place, is consumed for
      one peg. */
  method ScanIndex(guess: string, solution: string, i: nat, black: nat, white: nat, positions: seq<nat>)
    returns (black': nat, white': nat, positions': seq<nat>)
    requires Comparable(guess, solution) && i < CodeLength && OpenPositions(positions)
    ensures Tally(black', white', positions') == ScoreStep(guess, solution, i, Tally(black, white, positions))
  {
    black', white', positions' := black, white, positions;
    var k := 0;
    while k < |positions|
      invariant 0 <= k <= |positions|
      invariant forall m :: 0 <= m < k ==> guess[positions[m]] != solution[i]
    {
      if solution[i] == guess[positions[k]] {
        break;
      }
      k := k + 1;
    }
    if k < |positions| {
      var j := positions[k];
      StepAtMatch(guess, solution, i, Tally(black, white, positions), k);
      if i == j {
        black' := black + 1;
        positions' := Remove(positions, j);
      } else if i in positions && solution[i] == guess[i] {
        black' := black + 1;
        positions' := Remove(positions, i);
      } else {
        white' := white + 1;
        positions' := Remove(positions, j);
      }
    } else {
      StepNoMatch(guess, solution, i, Tally(black, white, positions));
    }
  }

  /** `compare_codes`: every solution index in turn, starting with all guess
      positions open. */
  method CompareCodes(guess: string, solution: string) returns (black: nat, white: nat)
    requires Comparable(guess, solution)
    ensures Pegs(black, white) == Score(guess, solution)
    ensures black + white <= CodeLength
  {
    white := 0;
    black := 0;
    var positions := AllPositions();
    for i := 0 to CodeLength
      invariant Tally(black, white, positions) == Run(guess, solution, i)
    {
      black, white, positions := ScanIndex(guess, solution, i, black, white, positions);
    }
  }

  // ---------------------------------------------------------------------
  // Black pegs and exact positions

  /** Number of indices below `n` where guess and solution agree. */
  function ExactCount(guess: string, solution: string, n: nat): (c: nat)
    requires n <= |guess| && n <= |solution|
    ensures c <= n
  {
    if n == 0 then 0
    else ExactCount(guess, solution, n - 1) + (if guess[n - 1] == solution[n - 1] then 1 else 0)
  }

  lemma {:induction false} ExactCountFull(guess: string, solution: string, n: nat)
    requires n <= |guess| && n <= |solution|
    ensures ExactCount(guess, solution, n) == n <==> forall i :: 0 <= i < n ==> guess[i] == solution[i]
  {
    if n > 0 {
      ExactCountFull(guess, solution, n - 1);
    }
  }

  lemma {:induction false} RunBlackBound(guess: string, solution: string, n: nat)
    requires Comparable(guess, solution) && n <= CodeLength
    ensures Run(guess, solution, n).black <= ExactCount(guess, solution, n)
  {
    if n > 0 {
      RunBlackBound(guess, solution, n - 1);
      var t := Run(guess, solution, n - 1);
      assert Run(guess, solution, n) == ScoreStep(guess, solution, n - 1, t);
    }
  }

  /** A black peg is only ever awarded at an index where the codes agree. */
  lemma BlackAtMostExact(guess: string, solution: string)
    requires Comparable(guess, solution)
    ensures Score(guess, solution).black <= ExactCount(guess, solution, CodeLength)
  {
    RunBlackBound(guess, solution, CodeLength);
  }

  /** The open positions while scoring a code against an equal one: exactly
      the indices not yet scanned. */
  function OpenFrom(n: nat): (ps: seq<nat>)
    requires n <= CodeLength
    ensures OpenPositions(ps) && |ps| == CodeLength - n
    ensures forall k :: 0 <= k < |ps| ==> ps[k] == n + k
  {
    seq(CodeLength - n, k requires 0 <= k => (n + k) as nat)
  }

  lemma AllOpenFromStart()
    ensures AllPositions() == OpenFrom(0)
  {
    assert forall k :: 0 <= k < CodeLength ==> AllPositions()[k] == OpenFrom(0)[k];
  }

  /** On agreeing codes, scanning index `i` consumes position `i` itself as
      a black peg. */
  lemma StepOnEqual(guess: string, solution: string, i: nat)
    requires Comparable(guess, solution) && i < CodeLength
    requires guess[i] == solution[i]
    ensures ScoreStep(guess, solution, i, Tally(i, 0, OpenFrom(i))) == Tally(i + 1, 0, OpenFrom(i + 1))
  {
    var ps := OpenFrom(i);
    assert ps[0] == i;
    assert FirstMatch(guess, ps, solution[i]) == 0;
    assert IndexOf(ps, i) == 0;
    assert RemoveAt(ps, 0) == ps[1..] == OpenFrom(i + 1);
  }

  lemma {:induction false} RunOnEqual(guess: string, solution: string, n: nat)
    requires Comparable(guess, solution) && n <= CodeLength
    requires guess[..CodeLength] == solution[..CodeLength]
    ensures Run(guess, solution, n) == Tally(n, 0, OpenFrom(n))
  {
    if n == 0 {
      AllOpenFromStart();
    } else {
      RunOnEqual(guess, solution, n - 1);
      assert guess[n - 1] == guess[..CodeLength][n - 1];
      StepOnEqual(guess, solution, n - 1);
      var t := Run(guess, solution, n - 1);
      assert Run(guess, solution, n) == ScoreStep(guess, solution, n - 1, t);
    }
  }

  /** Codes agreeing on every position score all black: `(CodeLength, 0)`. */
  lemma SameCodeAllBlack(guess: string, solution: string)
    requires Comparable(guess, solution)
    requires forall i :: 0 <= i < CodeLength ==> guess[i] == solution[i]
    ensures Score(guess, solution) == Pegs(CodeLength, 0)
  {
    assert guess[..CodeLength] == solution[..CodeLength];
    RunOnEqual(guess, solution, CodeLength);
  }

  /** The winning test of a round: all pegs black exactly when the codes agree. */
  lemma AllBlackIffEqual(guess: string, solution: string)
    requires Comparable(guess, solution)
    ensures Score(guess, solution).black == CodeLength <==>
            forall i :: 0 <= i < CodeLength ==> guess[i] == solution[i]
  {
    BlackAtMostExact(guess, solution);
    ExactCountFull(guess, solution, CodeLength);
    if forall i :: 0 <= i < CodeLength ==> guess[i] == solution[i] {
      SameCodeAllBlack(guess, solution);
    }
  }

  // ---------------------------------------------------------------------
  // The peg total

  /** The guess symbols at the open positions. */
  function Symbols(guess: string, ps: seq<nat>): (r: seq<char>)
    requires |guess| >= CodeLength && OpenPositions(ps)
    ensures |r| == |ps| && forall k :: 0 <= k < |ps| ==> r[k] == guess[ps[k]]
  {
    seq(|ps|, k requires 0 <= k < |ps| => guess[ps[k]])
  }

  lemma SymbolsRemoveAt(guess: string, ps: seq<nat>, k: nat)
    requires |guess| >= CodeLength && OpenPositions(ps) && k < |ps|
    ensures multiset(Symbols(guess, RemoveAt(ps, k))) == multiset(Symbols(guess, ps)) - multiset{guess[ps[k]]}
  {
    var a := Symbols(guess, ps);
    assert a == a[..k] + [a[k]] + a[k + 1..];
    assert Symbols(guess, RemoveAt(ps, k)) == a[..k] + a[k + 1..];
  }

  /** One scan step consumes one guess position holding the solution symbol
      when there is one, and changes nothing otherwise. */
  lemma StepConsumes(guess: string, solution: string, i: nat, t: Tally, r: Tally)
    requires Comparable(guess, solution) && i < CodeLength && OpenPositions(t.positions)
    requires r == ScoreStep(guess, solution, i, t)
    ensures solution[i] in multiset(Symbols(guess, t.positions)) ==>
              multiset(Symbols(guess, r.positions)) == multiset(Symbols(guess, t.positions)) - multiset{solution[i]} &&
              r.black + r.white == t.black + t.white + 1
    ensures solution[i] !in multiset(Symbols(guess, t.positions)) ==> r == t
  {
    var ps := t.positions;
    var d := solution[i];
    var k := FirstMatch(guess, ps, d);
    if k < |ps| {
      assert Symbols(guess, ps)[k] == d;
      var j := ps[k];
      if i == j {
        SymbolsRemoveAt(guess, ps, IndexOf(ps, j));
      } else if i in ps && solution[i] == guess[i] {
        SymbolsRemoveAt(guess, ps, IndexOf(ps, i));
      } else {
        SymbolsRemoveAt(guess, ps, IndexOf(ps, j));
      }
    } else {
      assert d !in Symbols(guess, ps);
    }
  }

  /** Scanning a solution symbol the remaining guess symbols still hold. */
  lemma ConsumeShared(g: multiset<char>, s: multiset<char>, d: char)
    requires d in g - s
    ensures g - (s + multiset{d}) == (g - s) - multiset{d}
    ensures |(s + multiset{d}) * g| == |s * g| + 1
  {
    assert forall x :: (g - (s + multiset{d}))[x] == ((g - s) - multiset{d})[x];
    assert forall x :: ((s + multiset{d}) * g)[x] == (s * g + multiset{d})[x];
    assert (s + multiset{d}) * g == s * g + multiset{d};
  }

  /** Scanning a solution symbol the remaining guess symbols do not hold. */
  lemma ConsumeNothing(g: multiset<char>, s: multiset<char>, d: char)
    requires d !in g - s
    ensures g - (s + multiset{d}) == g - s
    ensures |(s + multiset{d}) * g| == |s * g|
  {
    assert forall x :: (g - (s + multiset{d}))[x] == (g - s)[x];
    assert forall x :: ((s + multiset{d}) * g)[x] == (s * g)[x];
    assert (s + multiset{d}) * g == s * g;
  }

  lemma RunPoolStart(guess: string, solution: string)
    requires Comparable(guess, solution)
    ensures multiset(Symbols(guess, AllPositions())) == multiset(guess[..CodeLength]) - multiset(solution[..0])
    ensures |multiset(solution[..0]) * multiset(guess[..CodeLength])| == 0
  {
    assert Symbols(guess, AllPositions()) == guess[..CodeLength];
    assert solution[..0] == [];
  }

  /** The step of RunPool: scanning solution index `n - 1` keeps the pool
      of open guess symbols and the peg count in step with the scanned
      prefix of the solution. */
  lemma RunPoolStep(guess: string, solution: string, n: nat, t: Tally)
    requires Comparable(guess, solution) && 0 < n <= CodeLength && OpenPositions(t.positions)
    requires multiset(Symbols(guess, t.positions)) == multiset(guess[..CodeLength]) - multiset(solution[..n - 1])
    requires t.black + t.white == |multiset(solution[..n - 1]) * multiset(guess[..CodeLength])|
    ensures var r := ScoreStep(guess, solution, n - 1, t);
            multiset(Symbols(guess, r.positions)) == multiset(guess[..CodeLength]) - multiset(solution[..n]) &&
            r.black + r.white == |multiset(solution[..n]) * multiset(guess[..CodeLength])|
  {
    var g := multiset(guess[..CodeLength]);
    var r := ScoreStep(guess, solution, n - 1, t);
    var d := solution[n - 1];
    var s := multiset(solution[..n - 1]);
    assert solution[..n] == solution[..n - 1] + [d];
    assert multiset(solution[..n]) == s + multiset{d};
    assert multiset(Symbols(guess, t.positions)) == g - s;
    StepConsumes(guess, solution, n - 1, t, r);
    if d in g - s {
      ConsumeShared(g, s, d);
      assert multiset(Symbols(guess, r.positions)) == (g - s) - multiset{d};
      assert r.black + r.white == t.black + t.white + 1;
    } else {
      ConsumeNothing(g, s, d);
      assert r == t;
    }
  }

  lemma {:induction false} RunPool(guess: string, solution: string, n: nat)
    requires Comparable(guess, solution) && n <= CodeLength
    ensures multiset(Symbols(guess, Run(guess, solution, n).positions)) ==
            multiset(guess[..CodeLength]) - multiset(solution[..n])
    ensures Run(guess, solution, n).black + Run(guess, solution, n).white ==
            |multiset(solution[..n]) * multiset(guess[..CodeLength])|
  {
    if n == 0 {
      RunPoolStart(guess, solution);
    } else {
      RunPool(guess, solution, n - 1);
      var t := Run(guess, solution, n - 1);
      assert Run(guess, solution, n) == ScoreStep(guess, solution, n - 1, t);
      RunPoolStep(guess, solution, n, t);
    }
  }

  /** The total number of pegs is the number of symbols the two codes share,
      counted with multiplicity: only the black/white split depends on the
      scan order. */
  lemma PegTotal(guess: string, solution: string)
    requires Comparable(guess, solution)
    ensures Score(guess, solution).black + Score(guess, solution).white ==
            |multiset(solution[..CodeLength]) * multiset(guess[..CodeLength])|
  {
    RunPool(guess, solution, CodeLength);
  }

  /** Swapping guess and solution keeps the peg total. */
  lemma PegTotalSymmetric(guess: string, solution: string)
    requires Comparable(guess, solution)
    ensures Score(guess, solution).black + Score(guess, solution).white ==
            Score(solution, guess).black + Score(solution, guess).white
  {
    PegTotal(guess, solution);
    PegTotal(solution, guess);
    var a, b := multiset(solution[..CodeLength]), multiset(guess[..CodeLength]);
    assert a * b == b * a;
  }

  /** Codes with no symbol in common score `(0, 0)`. */
  lemma DisjointScoresNothing(guess: string, solution: string)
    requires Comparable(guess, solution)
    requires forall i, j :: 0 <= i < CodeLength && 0 <= j < CodeLength ==> guess[i] != solution[j]
    ensures Score(guess, solution) == Pegs(0, 0)
  {
    PegTotal(guess, solution);
    var a, b := multiset(solution[..CodeLength]), multiset(guess[..CodeLength]);
    forall x | x in a
      ensures x !in b
    {
      assert x in solution[..CodeLength];
    }
    assert a * b == multiset{};
  }

  lemma Trace1122Step0(guess: string, solution: string)
    requires guess == "1122" && solution == "1212"
    ensures ScoreStep(guess, solution, 0, Tally(0, 0, [0, 1, 2, 3])) == Tally(1, 0, [1, 2, 3])
  {
    var ps: seq<nat> := [0, 1, 2, 3];
    assert guess[0] == '1';
    assert FirstMatch(guess, ps, '1') == 0;
    assert IndexOf(ps, 0) == 0;
    assert Remove(ps, 0) == [1, 2, 3];
  }

  lemma Trace1122Step1(guess: string, solution: string)
    requires guess == "1122" && solution == "1212"
    ensures ScoreStep(guess, solution, 1, Tally(1, 0, [1, 2, 3])) == Tally(1, 1, [1, 3])
  {
    var ps: seq<nat> := [1, 2, 3];
    assert guess[1] != '2' && guess[2] == '2';
    assert FirstMatch(guess, [2, 3], '2') == 0;
    assert FirstMatch(guess, ps, '2') == 1;
    assert IndexOf(ps, 2) == 1;
    assert Remove(ps, 2) == [1, 3];
  }

  lemma Trace1122Step2(guess: string, solution: string)
    requires guess == "1122" && solution == "1212"
    ensures ScoreStep(guess, solution, 2, Tally(1, 1, [1, 3])) == Tally(1, 2, [3])
  {
    var ps: seq<nat> := [1, 3];
    assert guess[1] == '1';
    assert FirstMatch(guess, ps, '1') == 0;
    assert IndexOf(ps, 1) == 0;
    assert Remove(ps, 1) == [3];
  }

  lemma Trace1122Step3(guess: string, solution: string)
    requires guess == "1122" && solution == "1212"
    ensures ScoreStep(guess, solution, 3, Tally(1, 2, [3])) == Tally(2, 2, [])
  {
    var ps: seq<nat> := [3];
    assert guess[3] == '2';
    assert FirstMatch(guess, ps, '2') == 0;
    assert IndexOf(ps, 3) == 0;
    assert Remove(ps, 3) == [];
  }

  /** guess "1122" against solution "1212", one solution index at a time. */
  lemma Trace1122(guess: string, solution: string)
    requires guess == "1122" && solution == "1212"
    ensures Score(guess, solution) == Pegs(2, 2)
  {
    assert AllPositions() == [0, 1, 2, 3];
    Trace1122Step0(guess, solution);
    assert Run(guess, solution, 1) == Tally(1, 0, [1, 2, 3]);
    Trace1122Step1(guess, solution);
    assert Run(guess, solution, 2) == Tally(1, 1, [1, 3]);
    Trace1122Step2(guess, solution);
    assert Run(guess, solution, 3) == Tally(1, 2, [3]);
    Trace1122Step3(guess, solution);
    assert Run(guess, solution, 4) == Tally(2, 2, []);
  }

  lemma Trace1234Step0(guess: string, solution: string)
    requires guess == "1234" && solution == "4321"
    ensures ScoreStep(guess, solution, 0, Tally(0, 0, [0, 1, 2, 3])) == Tally(0, 1, [0, 1, 2])
  {
    var ps: seq<nat> := [0, 1, 2, 3];
    assert guess[0] != '4' && guess[1] != '4' && guess[2] != '4' && guess[3] == '4';
    assert FirstMatch(guess, [3], '4') == 0;
    assert FirstMatch(guess, [2, 3], '4') == 1;
    assert FirstMatch(guess, [1, 2, 3], '4') == 2;
    assert FirstMatch(guess, ps, '4') == 3;
    assert IndexOf(ps, 3) == 3;
    assert Remove(ps, 3) == [0, 1, 2];
  }

  lemma Trace1234Step1(guess: string, solution: string)
    requires guess == "1234" && solution == "4321"
    ensures ScoreStep(guess, solution, 1, Tally(0, 1, [0, 1, 2])) == Tally(0, 2, [0, 1])
  {
    var ps: seq<nat> := [0, 1, 2];
    assert guess[0] != '3' && guess[1] != '3' && guess[2] == '3';
    assert FirstMatch(guess, [2], '3') == 0;
    assert FirstMatch(guess, [1, 2], '3') == 1;
    assert FirstMatch(guess, ps, '3') == 2;
    assert IndexOf(ps, 2) == 2;
    assert Remove(ps, 2) == [0, 1];
  }

  lemma Trace1234Step2(guess: string, solution: string)
    requires guess == "1234" && solution == "4321"
    ensures ScoreStep(guess, solution, 2, Tally(0, 2, [0, 1])) == Tally(0, 3, [0])
  {
    var ps: seq<nat> := [0, 1];
    assert guess[0] != '2' && guess[1] == '2';
    assert FirstMatch(guess, [1], '2') == 0;
    assert FirstMatch(guess, ps, '2') == 1;
    assert IndexOf(ps, 1) == 1;
    assert Remove(ps, 1) == [0];
  }

  lemma Trace1234Step3(guess: string, solution: string)
    requires guess == "1234" && solution == "4321"
    ensures ScoreStep(guess, solution, 3, Tally(0, 3, [0])) == Tally(0, 4, [])
  {
    var ps: seq<nat> := [0];
    assert guess[0] == '1';
    assert FirstMatch(guess, ps, '1') == 0;
    assert IndexOf(ps, 0) == 0;
    assert Remove(ps, 0) == [];
  }

  /** guess "1234" against solution "4321", one solution index at a time. */
  lemma Trace1234(guess: string, solution: string)
    requires guess == "1234" && solution == "4321"
    ensures Score(guess, solution) == Pegs(0, 4)
  {
    assert AllPositions() == [0, 1, 2, 3];
    Trace1234Step0(guess, solution);
    assert Run(guess, solution, 1) == Tally(0, 1, [0, 1, 2]);
    Trace1234Step1(guess, solution);
    assert Run(guess, solution, 2) == Tally(0, 2, [0, 1]);
    Trace1234Step2(guess, solution);
    assert Run(guess, solution, 3) == Tally(0, 3, [0]);
    Trace1234Step3(guess, solution);
    assert Run(guess, solution, 4) == Tally(0, 4, []);
  }

  lemma Trace2145Step0(guess: string, solution: string)
    requires guess == "2145" && solution == "1123"
    ensures ScoreStep(guess, solution, 0, Tally(0, 0, [0, 1, 2, 3])) == Tally(0, 1, [0, 2, 3])
  {
    var ps: seq<nat> := [0, 1, 2, 3];
    assert guess[0] != '1' && guess[1] == '1';
    assert FirstMatch(guess, [1, 2, 3], '1') == 0;
    assert FirstMatch(guess, ps, '1') == 1;
    assert IndexOf(ps, 1) == 1;
    assert Remove(ps, 1) == [0, 2, 3];
  }

  lemma Trace2145Step1(guess: string, solution: string)
    requires guess == "2145" && solution == "1123"
    ensures ScoreStep(guess, solution, 1, Tally(0, 1, [0, 2, 3])) == Tally(0, 1, [0, 2, 3])
  {
    var ps: seq<nat> := [0, 2, 3];
    assert guess[0] != '1' && guess[2] != '1' && guess[3] != '1';
    assert FirstMatch(guess, [3], '1') == 1;
    assert FirstMatch(guess, [2, 3], '1') == 2;
    assert FirstMatch(guess, ps, '1') == 3;
  }

  lemma Trace2145Step2(guess: string, solution: string)
    requires guess == "2145" && solution == "1123"
    ensures ScoreStep(guess, solution, 2, Tally(0, 1, [0, 2, 3])) == Tally(0, 2, [2, 3])
  {
    var ps: seq<nat> := [0, 2, 3];
    assert guess[0] == '2';
    assert FirstMatch(guess, ps, '2') == 0;
    assert IndexOf(ps, 0) == 0;
    assert Remove(ps, 0) == [2, 3];
  }

  lemma Trace2145Step3(guess: string, solution: string)
    requires guess == "2145" && solution == "1123"
    ensures ScoreStep(guess, solution, 3, Tally(0, 2, [2, 3])) == Tally(0, 2, [2, 3])
  {
    var ps: seq<nat> := [2, 3];
    assert guess[2] != '3' && guess[3] != '3';
    assert FirstMatch(guess, [3], '3') == 1;
    assert FirstMatch(guess, ps, '3') == 2;
  }

  /** guess "2145" against solution "1123", one solution index at a time.
      The scan is not textbook scoring: the codes agree at index 1, yet no
      black peg is awarded, because solution index 0 consumes guess position
      1 as a white peg first. */
  lemma Trace2145(guess: string, solution: string)
    requires guess == "2145" && solution == "1123"
    ensures Score(guess, solution) == Pegs(0, 2)
    ensures ExactCount(guess, solution, CodeLength) == 1
  {
    assert ExactCount(guess, solution, 1) == 0;
    assert ExactCount(guess, solution, 2) == 1;
    assert ExactCount(guess, solution, 3) == 1;
    assert AllPositions() == [0, 1, 2, 3];
    Trace2145Step0(guess, solution);
    assert Run(guess, solution, 1) == Tally(0, 1, [0, 2, 3]);
    Trace2145Step1(guess, solution);
    assert Run(guess, solution, 2) == Tally(0, 1, [0, 2, 3]);
    Trace2145Step2(guess, solution);
    assert Run(guess, solution, 3) == Tally(0, 2, [2, 3]);
    Trace2145Step3(guess, solution);
    assert Run(guess, solution, 4) == Tally(0, 2, [2, 3]);
  }

  /** guess "0000" against solution "1111": no symbol in common. */
  lemma Trace0000(guess: string, solution: string)
    requires guess == "0000" && solution == "1111"
    ensures Score(guess, solution) == Pegs(0, 0)
  {
    DisjointScoresNothing(guess, solution);
  }
}
