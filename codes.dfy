/** Codes: what `get_code` accepts from a typed line, how it re-prompts until
    a line is accepted, and how the CPU builds a secret code from random
    digits. */
module Codes {
  import opened Base

  predicate IsDigitChar(c: char) {
    '0' <= c <= '9'
  }

  function DigitValue(c: char): (d: nat)
    requires IsDigitChar(c)
    ensures d <= 9
  {
    (c as int) - ('0' as int)
  }

  /** The character `str(d)` produces for a single digit `d`. */
  function DigitChar(d: nat): (c: char)
    requires d <= 9
    ensures IsDigitChar(c) && DigitValue(c) == d
  {
    (('0' as int) + d) as char
  }

  /** A symbol `get_code` accepts: `int(c)` succeeds and is at most MaxDigit. */
  predicate ValidSymbol(c: char) {
    IsDigitChar(c) && DigitValue(c) <= MaxDigit
  }

  /** A token `get_code` returns: exactly CodeLength accepted symbols. */
  predicate ValidCode(s: string) {
    |s| == CodeLength && forall i :: 0 <= i < |s| ==> ValidSymbol(s[i])
  }

  type Code = s: string | ValidCode(s) witness "0000"

  /** The ASCII characters Python's `str.split()` treats as separators. */
  predicate IsSpace(c: char) {
    c == ' ' || '\t' <= c <= '\r' || '\U{1C}' <= c <= '\U{1F}'
  }

  /** `s` with its leading separators dropped. */
  function SkipSpaces(s: string): (r: string)
    ensures |r| <= |s| && r == s[|s| - |r|..]
    ensures forall i :: 0 <= i < |s| - |r| ==> IsSpace(s[i])
    ensures r != [] ==> !IsSpace(r[0])
  {
    if s != [] && IsSpace(s[0]) then SkipSpaces(s[1..]) else s
  }

  /** The longest prefix of `s` that holds no separator. */
  function Word(s: string): (r: string)
    ensures |r| <= |s| && r == s[..|r|]
    ensures forall i :: 0 <= i < |r| ==> !IsSpace(r[i])
    ensures |r| < |s| ==> IsSpace(s[|r|])
  {
    if s == [] || IsSpace(s[0]) then [] else [s[0]] + Word(s[1..])
  }

  /** `line.split()[0]`, or "" when the line holds only separators (the
      bare `except` branch). */
  function FirstToken(line: string): (r: string)
    ensures var k := |line| - |SkipSpaces(line)|;
      k + |r| <= |line| && r == line[k..k + |r|] &&
      (forall i :: 0 <= i < k ==> IsSpace(line[i])) &&
      (k + |r| < |line| ==> IsSpace(line[k + |r|]))
    ensures forall i :: 0 <= i < |r| ==> !IsSpace(r[i])
    ensures r == [] <==> forall i :: 0 <= i < |line| ==> IsSpace(line[i])
  {
    var rest := SkipSpaces(line);
    Word(rest)
  }

  /** The per-character check of `get_code`: the length test first, then a
      scan that rejects at the first symbol that is not a digit up to
      MaxDigit. */
  method CheckCode(code: string) returns (ok: bool)
    ensures ok <==> ValidCode(code)
  {
    if |code| != CodeLength {
      return false;
    }
    for i := 0 to |code|
      invariant forall k :: 0 <= k < i ==> ValidSymbol(code[k])
    {
      if !ValidSymbol(code[i]) {
        return false;
      }
    }
    return true;
  }

  /** A code accepted by `get_code` and the index of the typed line it came from. */
  datatype Prompted = Prompted(code: Code, line: nat)

  /** A typed line `get_code` accepts: its first token is a valid code. */
  predicate Accepted(line: string) {
    ValidCode(FirstToken(line))
  }

  /** `get_code` re-prompting over the lines the player types: the first
      accepted line gives the code, with the index of that line. */
  function ReadCode(lines: seq<string>): (r: Option<Prompted>)
    ensures r.Some? ==> r.value.line < |lines|
  {
    if lines == [] then None
    else
      var token := FirstToken(lines[0]);
      if ValidCode(token) then Some(Prompted(token, 0))
      else match ReadCode(lines[1..])
        case None => None
        case Some(p) => Some(Prompted(p.code, p.line + 1))
  }

  /** Re-prompting stops at the first accepted line and gives its token. */
  lemma {:induction false} ReadCodeFirstAccepted(lines: seq<string>)
    ensures var r := ReadCode(lines);
            r.Some? ==> r.value.line < |lines| && Accepted(lines[r.value.line]) &&
                        r.value.code == FirstToken(lines[r.value.line]) &&
                        forall k :: 0 <= k < r.value.line ==> !Accepted(lines[k])
  {
    if lines != [] && !Accepted(lines[0]) {
      var rest := lines[1..];
      ReadCodeFirstAccepted(rest);
      if ReadCode(rest).Some? {
        var p := ReadCode(rest).value;
        assert ReadCode(lines) == Some(Prompted(p.code, p.line + 1));
        assert lines[p.line + 1] == rest[p.line];
        forall k | 0 <= k < p.line + 1
          ensures !Accepted(lines[k])
        {
          if k > 0 {
            assert lines[k] == rest[k - 1];
          }
        }
      }
    }
  }

  /** Re-prompting finds nothing exactly when no line is accepted. */
  lemma {:induction false} ReadCodeNoneIffNoneAccepted(lines: seq<string>)
    ensures ReadCode(lines).None? <==> forall k :: 0 <= k < |lines| ==> !Accepted(lines[k])
  {
    if lines != [] && !Accepted(lines[0]) {
      var rest := lines[1..];
      ReadCodeNoneIffNoneAccepted(rest);
      assert ReadCode(lines).None? <==> ReadCode(rest).None?;
      assert (forall k :: 0 <= k < |lines| ==> !Accepted(lines[k])) <==>
             (forall k :: 0 <= k < |rest| ==> !Accepted(rest[k])) by {
        assert forall k :: 0 < k < |lines| ==> lines[k] == rest[k - 1];
      }
    }
  }

  /** The random draws the CPU branch of `get_solution` may use: CodeLength
      values of `randrange(MaxDigit + 1)`. */
  predicate ValidDraws(draws: seq<nat>) {
    |draws| == CodeLength && forall i :: 0 <= i < |draws| ==> draws[i] <= MaxDigit
  }

  /** The code whose i-th symbol is `str(draws[i])`. */
  function DrawnCode(draws: seq<nat>): (s: Code)
    requires ValidDraws(draws)
    ensures forall i :: 0 <= i < CodeLength ==> DigitValue(s[i]) == draws[i]
  {
    var s := seq(CodeLength, i requires 0 <= i < CodeLength => DigitChar(draws[i]));
    assert ValidCode(s);
    s
  }

  /** The CPU branch of `get_solution`: appends one drawn digit per position. */
  method GenerateSolution(draws: seq<nat>) returns (solution: Code)
    requires ValidDraws(draws)
    ensures solution == DrawnCode(draws)
  {
    var s: string := "";
    for i := 0 to CodeLength
      invariant |s| == i
      invariant forall k :: 0 <= k < i ==> s[k] == DigitChar(draws[k])
    {
      s := s + [DigitChar(draws[i])];
    }
    assert s == DrawnCode(draws);
    solution := s;
  }
}
