/**
 Acceptance of a typed guess: which inputs become a guess to be scored, and
 what happens to the others.
 */
module GuessInput {

  /** What one line of input amounts to. */
  datatype Reading =
    | Accepted(digits: seq<int>)
    | ToggleDisplay
    | ExitRequested
    | Rejected(reason: Rejection)

  datatype Rejection = Empty | NotNumbers | OutOfRange | WrongLength

  /** The keyword whose (case-insensitive) fragments ask to leave the game. */
  const EXIT := "end"

  predicate IsDigit(ch: char)
  {
    '0' <= ch <= '9'
  }

  function DigitValue(ch: char): int
  {
    ch as int - '0' as int
  }

  function DigitChar(d: int): char
    requires 0 <= d <= 9
  {
    ('0' as int + d) as char
  }

  /** The input with every space taken out; the other characters keep their
      number (`RemoveSpacesCounts`) and their order (`RemoveSpacesAppend`). */
  function RemoveSpaces(s: string): (r: string)
    ensures |r| <= |s|
    ensures ' ' !in r
  {
    if s == [] then []
    else if s[0] == ' ' then RemoveSpaces(s[1..])
    else [s[0]] + RemoveSpaces(s[1..])
  }

  /** ASCII lower case. */
  function Lower(s: string): (r: string)
    ensures |r| == |s|
    ensures forall i :: 0 <= i < |r| ==> !('A' <= r[i] <= 'Z')
    ensures forall i :: 0 <= i < |s| && !('A' <= s[i] <= 'Z') ==> r[i] == s[i]
    ensures forall i :: 0 <= i < |s| && 'A' <= s[i] <= 'Z' ==> 'a' <= r[i] <= 'z' && r[i] as int - s[i] as int == 32
  {
    if s == [] then []
    else
      var ch := if 'A' <= s[0] <= 'Z' then (s[0] as int + 32) as char else s[0];
      [ch] + Lower(s[1..])
  }

  predicate IsPrefix(a: string, b: string)
  {
    |a| <= |b| && b[..|a|] == a
  }

  /** `a` occurs as a contiguous part of `b`. */
  predicate IsSubstring(a: string, b: string)
  {
    IsPrefix(a, b) || (b != [] && IsSubstring(a, b[1..]))
  }

  /** The digits an all-digit input stands for. */
  function Digits(s: string): (d: seq<int>)
    requires forall i :: 0 <= i < |s| ==> IsDigit(s[i])
    ensures |d| == |s| && forall i :: 0 <= i < |s| ==> d[i] == DigitValue(s[i])
  {
    if s == [] then [] else [DigitValue(s[0])] + Digits(s[1..])
  }

  /** The input a player types for the digits `d`. */
  function Render(d: seq<int>): (s: string)
    requires forall i :: 0 <= i < |d| ==> 0 <= d[i] <= 9
    ensures |s| == |d| && forall i :: 0 <= i < |d| ==> s[i] == DigitChar(d[i])
  {
    if d == [] then [] else [DigitChar(d[0])] + Render(d[1..])
  }

  predicate AllDigits(s: string)
  {
    forall i :: 0 <= i < |s| ==> IsDigit(s[i])
  }

  /** Some character is a zero or a digit above `limit`. */
  predicate OutsideRange(s: string, limit: int)
  {
    '0' in s || exists i :: 0 <= i < |s| && DigitValue(s[i]) > limit
  }

  /** A guess the game scores: the code's length, every digit in 1..limit.
      The code is never empty here, since no input passes for an empty one. */
  predicate ValidGuess(d: seq<int>, limit: int, codeLength: int): (b: bool)
    ensures b ==> d != [] && 1 <= d[0] <= limit
    ensures b ==> forall i :: 0 <= i < |d| ==> 0 <= d[i] <= 9
  {
    1 <= codeLength == |d| && forall i :: 0 <= i < |d| ==> 1 <= d[i] <= 9 && d[i] <= limit
  }

  /** Reads one input line; `hasHistory` says whether a guess was made before. */
  function ReadGuess(raw: string, hasHistory: bool, limit: int, codeLength: int): (r: Reading)
    ensures r.Accepted? ==> ValidGuess(r.digits, limit, codeLength)
    ensures r.Accepted? ==> Render(r.digits) == RemoveSpaces(raw)
  {
    var guess := RemoveSpaces(raw);
    if Lower(guess) == "r" && hasHistory then ToggleDisplay
    else if guess == [] then Rejected(Empty)
    else if IsSubstring(Lower(guess), EXIT) then ExitRequested
    else if !AllDigits(guess) then Rejected(NotNumbers)
    else if OutsideRange(guess, limit) then Rejected(OutOfRange)
    else if |guess| != codeLength then Rejected(WrongLength)
    else
      var d := Digits(guess);
      assert Render(d) == guess by {
        forall i | 0 <= i < |d| ensures Render(d)[i] == guess[i] {
          assert guess[i] != '0';
        }
      }
      Accepted(d)
  }

  /** A string that starts with a digit is no fragment of a keyword of letters. */
  lemma {:induction false} DigitsNotInWord(a: string, w: string)
    requires a != [] && IsDigit(a[0])
    requires forall i :: 0 <= i < |w| ==> !IsDigit(w[i])
    ensures !IsSubstring(a, w)
  {
    if w != [] {
      if |a| <= |w| {
        assert w[..|a|][0] == w[0];
      }
      DigitsNotInWord(a, w[1..]);
    }
  }

  /** Every valid guess, typed with or without spaces, is accepted as those digits. */
  lemma ValidGuessAccepted(raw: string, d: seq<int>, hasHistory: bool, limit: int, codeLength: int)
    requires ValidGuess(d, limit, codeLength)
    requires RemoveSpaces(raw) == Render(d)
    ensures ReadGuess(raw, hasHistory, limit, codeLength) == Accepted(d)
  {
    var guess := Render(d);
    forall i | 0 <= i < |guess| ensures IsDigit(guess[i]) && guess[i] != '0' && DigitValue(guess[i]) == d[i] {
      assert guess[i] == DigitChar(d[i]);
    }
    assert AllDigits(guess);
    DigitInputReading(raw, hasHistory, limit, codeLength);
    assert '0' !in guess;
    assert !OutsideRange(guess, limit);
    assert Digits(guess) == d;
  }

  /** With an empty code no input is ever accepted, so the prompt never ends. */
  lemma NothingAcceptedForEmptyCode(raw: string, hasHistory: bool, limit: int)
    ensures !ReadGuess(raw, hasHistory, limit, 0).Accepted?
  {
  }

  /** Inputs that are commands rather than guesses. Any fragment of the
      keyword counts, "N" and "d" as much as "End". */
  lemma ReadGuessCommands()
    ensures ReadGuess("R", true, 6, 4) == ToggleDisplay
    ensures ReadGuess("", true, 6, 4) == Rejected(Empty)
    ensures ReadGuess("End", false, 6, 4) == ExitRequested
    ensures ReadGuess("N", false, 6, 4) == ExitRequested
  {
    NoSpacesKept("R");
    NoSpacesKept("End");
    NoSpacesKept("N");
    assert Lower("R") == "r";
    assert Lower("End") == EXIT by {
      assert Lower("End")[0] == 'e';
    }
    assert Lower("N") == "n";
    assert IsPrefix("n", EXIT[1..]);
  }

  /** A letter among digits is rejected. */
  lemma ReadGuessNotNumbers()
    ensures ReadGuess("12a4", false, 6, 4) == Rejected(NotNumbers)
  {
    NoSpacesKept("12a4");
    assert !AllDigits("12a4") by {
      assert !IsDigit("12a4"[2]);
    }
    DigitsNotInWord("12a4", EXIT);
  }

  /** An input made of digits alone (spaces aside) is never a command: it is
      out of range, of the wrong length, or accepted, in that order of checks. */
  lemma DigitInputReading(raw: string, hasHistory: bool, limit: int, codeLength: int)
    requires RemoveSpaces(raw) != [] && AllDigits(RemoveSpaces(raw))
    ensures var guess := RemoveSpaces(raw);
      ReadGuess(raw, hasHistory, limit, codeLength)
         == if OutsideRange(guess, limit) then Rejected(OutOfRange)
            else if |guess| != codeLength then Rejected(WrongLength)
            else Accepted(Digits(guess))
  {
    var guess := RemoveSpaces(raw);
    LowerKeepsDigits(guess);
    assert guess != "r" by {
      assert IsDigit(guess[0]);
    }
    DigitsNotInWord(guess, EXIT);
  }

  lemma LowerKeepsDigits(s: string)
    requires AllDigits(s)
    ensures Lower(s) == s
  {
    var r := Lower(s);
    forall i | 0 <= i < |s| ensures r[i] == s[i] {
      assert IsDigit(s[i]);
    }
  }

  /** Every character other than a space is kept as often as it occurs. */
  lemma {:induction false} RemoveSpacesCounts(s: string)
    ensures multiset(RemoveSpaces(s)) == multiset(s)[' ' := 0]
  {
    if s != [] {
      assert s == [s[0]] + s[1..];
      RemoveSpacesCounts(s[1..]);
      if s[0] != ' ' {
        assert RemoveSpaces(s) == [s[0]] + RemoveSpaces(s[1..]);
      }
    }
  }

  /** Taking out spaces works piece by piece, so the characters that remain
      keep their order. */
  lemma {:induction false} RemoveSpacesAppend(a: string, b: string)
    ensures RemoveSpaces(a + b) == RemoveSpaces(a) + RemoveSpaces(b)
  {
    if a == [] {
      assert a + b == b;
    } else {
      assert (a + b)[0] == a[0];
      assert (a + b)[1..] == a[1..] + b;
      RemoveSpacesAppend(a[1..], b);
      if a[0] != ' ' {
        assert RemoveSpaces(a + b) == [a[0]] + (RemoveSpaces(a[1..]) + RemoveSpaces(b));
      }
    }
  }

  lemma {:induction false} NoSpacesKept(s: string)
    requires ' ' !in s
    ensures RemoveSpaces(s) == s
  {
    if s != [] {
      assert s == [s[0]] + s[1..];
      NoSpacesKept(s[1..]);
    }
  }

  /** A zero is rejected as out of range. */
  lemma ReadGuessZero()
    ensures ReadGuess("1074", false, 6, 4) == Rejected(OutOfRange)
  {
    NoSpacesKept("1074");
    DigitInputReading("1074", false, 6, 4);
  }

  /** A digit above the limit is rejected as out of range. */
  lemma ReadGuessAboveLimit()
    ensures ReadGuess("1274", false, 6, 4) == Rejected(OutOfRange)
  {
    NoSpacesKept("1274");
    DigitInputReading("1274", false, 6, 4);
    assert DigitValue("1274"[2]) > 6;
  }

  /** A guess of the wrong length is rejected only after its digits pass. */
  lemma ReadGuessWrongLength()
    ensures ReadGuess("123", false, 6, 4) == Rejected(WrongLength)
  {
    NoSpacesKept("123");
    DigitInputReading("123", false, 6, 4);
    assert !OutsideRange("123", 6);
  }
}
