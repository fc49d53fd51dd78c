/**
 The feedback evaluator: how many digits of a guess are right and in the right
 place ("exact"), and how many more are right but in the wrong place
 ("misplaced"), counting duplicates as a multiset intersection does.
 */
module Feedback {
  import opened Counting

  datatype Score = Score(exact: int, misplaced: int)

  /** Number of positions that the two sequences share (pairs formed by zipping). */
  function Paired(code: seq<int>, guess: seq<int>): nat
  {
    if |code| <= |guess| then |code| else |guess|
  }

  /** Indicator of agreement at position `i`. */
  function Agree(code: seq<int>, guess: seq<int>, i: nat): nat
    requires i < |code| && i < |guess|
  {
    if code[i] == guess[i] then 1 else 0
  }

  /** Number of positions below `n` at which code and guess agree. */
  function ExactUpTo(code: seq<int>, guess: seq<int>, n: nat): nat
    requires n <= |code| && n <= |guess|
  {
    if n == 0 then 0
    else ExactUpTo(code, guess, n - 1) + Agree(code, guess, n - 1)
  }

  /** The positions at which guess and code hold the same digit. */
  ghost function AgreeingPositions(code: seq<int>, guess: seq<int>, n: nat): set<nat>
  {
    set i: nat | i < n && i < |code| && i < |guess| && code[i] == guess[i]
  }

  /** Size of the multiset intersection of the two digit collections. */
  function TotalMatches(code: seq<int>, guess: seq<int>): nat
  {
    |multiset(code) * multiset(guess)|
  }

  /** Sum, over `keys`, of the smaller of the two occurrence counts. */
  function SumMinCounts(code: seq<int>, guess: seq<int>, keys: seq<int>): nat
  {
    if keys == [] then 0
    else
      var a, b := Count(code, keys[0]), Count(guess, keys[0]);
      (if a <= b then a else b) + SumMinCounts(code, guess, keys[1..])
  }

  /** Scores `guess` against `code`: the exact matches over the zipped
      positions, and the matches of the multiset intersection left over. */
  function Check(code: seq<int>, guess: seq<int>): (r: Score)
    ensures 0 <= r.exact && 0 <= r.misplaced
    ensures r.exact + r.misplaced <= |code| && r.exact + r.misplaced <= |guess|
  {
    var exact := ExactUpTo(code, guess, Paired(code, guess));
    ExactAtMostTotal(code, guess);
    TotalAtMostLengths(code, guess);
    Score(exact, TotalMatches(code, guess) - exact)
  }

  /** `exact` is the number of positions where guess and code agree. */
  lemma CheckExactIsAgreeingPositions(code: seq<int>, guess: seq<int>)
    ensures Check(code, guess).exact == |AgreeingPositions(code, guess, Paired(code, guess))|
  {
    ExactCountsAgreeingPositions(code, guess, Paired(code, guess));
  }

  /** `exact + misplaced` is the sum, over each distinct digit of the code,
      of the smaller of its counts in the code and in the guess. */
  lemma CheckTotalIsSumOfMinCounts(code: seq<int>, guess: seq<int>)
    ensures Check(code, guess).exact + Check(code, guess).misplaced
         == SumMinCounts(code, guess, Distinct(code))
  {
    TotalIsSumOfMinCounts(code, guess);
  }

  lemma {:induction false} ExactCountsAgreeingPositions(code: seq<int>, guess: seq<int>, n: nat)
    requires n <= |code| && n <= |guess|
    ensures ExactUpTo(code, guess, n) == |AgreeingPositions(code, guess, n)|
  {
    if n == 0 {
      assert AgreeingPositions(code, guess, n) == {};
    } else {
      ExactCountsAgreeingPositions(code, guess, n - 1);
      var prev := AgreeingPositions(code, guess, n - 1);
      if code[n - 1] == guess[n - 1] {
        assert AgreeingPositions(code, guess, n) == prev + {n - 1};
        assert n - 1 !in prev;
      } else {
        assert AgreeingPositions(code, guess, n) == prev;
      }
    }
  }

  /** Multiset intersection is the per-value minimum of counts, so its size is
      the sum of those minima over the distinct values of the code. */
  lemma TotalIsSumOfMinCounts(code: seq<int>, guess: seq<int>)
    ensures TotalMatches(code, guess) == SumMinCounts(code, guess, Distinct(code))
  {
    var common := multiset(code) * multiset(guess);
    var keys := Distinct(code);
    forall x | x in common ensures x in keys {
      assert x in multiset(code);
    }
    CardinalityIsSumOver(common, keys);
    SumOverIsSumMinCounts(code, guess, keys);
  }

  lemma {:induction false} SumOverIsSumMinCounts(code: seq<int>, guess: seq<int>, keys: seq<int>)
    ensures SumOver(multiset(code) * multiset(guess), keys) == SumMinCounts(code, guess, keys)
  {
    if keys != [] {
      CountIsMultiplicity(code, keys[0]);
      CountIsMultiplicity(guess, keys[0]);
      SumOverIsSumMinCounts(code, guess, keys[1..]);
    }
  }

  /** Every exact match is also a match of the multiset intersection. */
  lemma ExactAtMostTotal(code: seq<int>, guess: seq<int>)
    ensures ExactUpTo(code, guess, Paired(code, guess)) <= TotalMatches(code, guess)
  {
    var n := Paired(code, guess);
    ExactAtMostPrefixMatches(code, guess, n);
    var small := multiset(code[..n]) * multiset(guess[..n]);
    assert code == code[..n] + code[n..];
    assert guess == guess[..n] + guess[n..];
    assert small <= multiset(code) * multiset(guess);
    SubMultisetCardinality(small, multiset(code) * multiset(guess));
  }

  lemma {:induction false} ExactAtMostPrefixMatches(code: seq<int>, guess: seq<int>, n: nat)
    requires n <= |code| && n <= |guess|
    ensures ExactUpTo(code, guess, n) <= |multiset(code[..n]) * multiset(guess[..n])|
  {
    if n > 0 {
      ExactAtMostPrefixMatches(code, guess, n - 1);
      var a, b := multiset(code[..n - 1]), multiset(guess[..n - 1]);
      var x, y := code[n - 1], guess[n - 1];
      assert code[..n] == code[..n - 1] + [x];
      assert guess[..n] == guess[..n - 1] + [y];
      if x == y {
        assert (a + multiset{x}) * (b + multiset{x}) == a * b + multiset{x};
      } else {
        SubMultisetCardinality(a * b, (a + multiset{x}) * (b + multiset{y}));
      }
    }
  }

  lemma TotalAtMostLengths(code: seq<int>, guess: seq<int>)
    ensures TotalMatches(code, guess) <= |code| && TotalMatches(code, guess) <= |guess|
  {
    SubMultisetCardinality(multiset(code) * multiset(guess), multiset(code));
    SubMultisetCardinality(multiset(code) * multiset(guess), multiset(guess));
  }

  /** Scoring does not depend on which side is the code. */
  lemma CheckSymmetric(code: seq<int>, guess: seq<int>)
    ensures Check(code, guess) == Check(guess, code)
  {
    ExactSymmetric(code, guess, Paired(code, guess));
    assert multiset(code) * multiset(guess) == multiset(guess) * multiset(code);
  }

  lemma {:induction false} ExactSymmetric(code: seq<int>, guess: seq<int>, n: nat)
    requires n <= |code| && n <= |guess|
    ensures ExactUpTo(code, guess, n) == ExactUpTo(guess, code, n)
  {
    if n > 0 {
      ExactSymmetric(code, guess, n - 1);
    }
  }

  /** A guess equal to the code scores all exact and nothing misplaced. */
  lemma CheckSelf(s: seq<int>)
    ensures Check(s, s) == Score(|s|, 0)
  {
    AllAgree(s, |s|);
    assert multiset(s) * multiset(s) == multiset(s);
  }

  lemma {:induction false} AllAgree(s: seq<int>, n: nat)
    requires n <= |s|
    ensures ExactUpTo(s, s, n) == n
  {
    if n > 0 {
      AllAgree(s, n - 1);
    }
  }

  /** For equal lengths, every digit is exact exactly when the guess is the code. */
  lemma WinIffEqual(code: seq<int>, guess: seq<int>)
    requires |code| == |guess|
    ensures Check(code, guess).exact == |code| <==> guess == code
  {
    if guess == code {
      CheckSelf(code);
    } else {
      var i :| 0 <= i < |code| && code[i] != guess[i];
      ExactMissesOne(code, guess, |code|, i);
    }
  }

  lemma {:induction false} ExactMissesOne(code: seq<int>, guess: seq<int>, n: nat, i: nat)
    requires n <= |code| && n <= |guess|
    requires i < n && code[i] != guess[i]
    ensures ExactUpTo(code, guess, n) < n
  {
    if n - 1 == i {
      ExactAtMost(code, guess, n - 1);
    } else {
      ExactMissesOne(code, guess, n - 1, i);
    }
  }

  lemma {:induction false} ExactAtMost(code: seq<int>, guess: seq<int>, n: nat)
    requires n <= |code| && n <= |guess|
    ensures ExactUpTo(code, guess, n) <= n
  {
    if n > 0 {
      ExactAtMost(code, guess, n - 1);
    }
  }

  /** Scores a concrete pair of three or four digits whose common digits are
      given as `common`. */
  lemma ScoreOfShort(code: seq<int>, guess: seq<int>, common: seq<int>)
    requires |code| == |guess| && 3 <= |code| <= 4
    requires multiset(code) * multiset(guess) == multiset(common)
    ensures var exact := Agree(code, guess, 0) + Agree(code, guess, 1) + Agree(code, guess, 2)
                         + (if |code| == 4 then Agree(code, guess, 3) else 0);
      Check(code, guess) == Score(exact, |common| - exact)
  {
    assert ExactUpTo(code, guess, 1) == Agree(code, guess, 0);
    assert ExactUpTo(code, guess, 2) == ExactUpTo(code, guess, 1) + Agree(code, guess, 1);
    assert ExactUpTo(code, guess, 3) == ExactUpTo(code, guess, 2) + Agree(code, guess, 2);
    if |code| == 4 {
      assert ExactUpTo(code, guess, 4) == ExactUpTo(code, guess, 3) + Agree(code, guess, 3);
    }
    assert TotalMatches(code, guess) == |common|;
  }

  /** Asserted case: no digit in common. */
  lemma CheckNoCommonDigit()
    ensures Check([1, 1, 1], [0, 0, 0]) == Score(0, 0)
  {
    ScoreOfShort([1, 1, 1], [0, 0, 0], []);
  }

  /** Asserted case: a guess digit beyond the code's copies is not counted. */
  lemma CheckRepeatedGuessDigit()
    ensures Check([1, 1, 0], [1, 1, 1]) == Score(2, 0)
  {
    ScoreOfShort([1, 1, 0], [1, 1, 1], [1, 1]);
  }

  /** Asserted case: two pairs, every digit misplaced. */
  lemma CheckPairsAllMisplaced()
    ensures Check([1, 1, 0, 0], [0, 0, 1, 1]) == Score(0, 4)
  {
    ScoreOfShort([1, 1, 0, 0], [0, 0, 1, 1], [1, 1, 0, 0]);
  }

  /** Asserted case: two pairs, half exact and half misplaced. */
  lemma CheckPairsHalfExact()
    ensures Check([1, 1, 0, 0], [0, 1, 1, 0]) == Score(2, 2)
  {
    ScoreOfShort([1, 1, 0, 0], [0, 1, 1, 0], [1, 1, 0, 0]);
  }

  /** Asserted case: a code digit three times over, met once in place. */
  lemma CheckTripleOneExact()
    ensures Check([1, 2, 2, 2], [0, 2, 0, 0]) == Score(1, 0)
  {
    ScoreOfShort([1, 2, 2, 2], [0, 2, 0, 0], [2]);
  }

  /** Asserted case: a guess digit three times over, in the code once and in place. */
  lemma CheckTripleGuessedOnce()
    ensures Check([1, 2, 2, 2], [1, 1, 1, 0]) == Score(1, 0)
  {
    ScoreOfShort([1, 2, 2, 2], [1, 1, 1, 0], [1]);
  }

  /** Asserted case: a guess digit three times over, in the code once and out of place. */
  lemma CheckTripleGuessedMisplaced()
    ensures Check([1, 2, 2, 2], [0, 1, 1, 1]) == Score(0, 1)
  {
    ScoreOfShort([1, 2, 2, 2], [0, 1, 1, 1], [1]);
  }

  /** Swapping code and guess in the repeated-digit case gives the same score. */
  lemma CheckRepeatedCodeDigit()
    ensures Check([1, 1, 1], [1, 1, 0]) == Score(2, 0)
  {
    CheckRepeatedGuessDigit();
    CheckSymmetric([1, 1, 0], [1, 1, 1]);
  }

  /** A round against the code 6344, guess 1. */
  lemma CheckScenarioGuess1()
    ensures Check([6, 3, 4, 4], [4, 5, 2, 2]) == Score(0, 1)
  {
    ScoreOfShort([6, 3, 4, 4], [4, 5, 2, 2], [4]);
  }

  /** A round against the code 6344, guess 2. */
  lemma CheckScenarioGuess2()
    ensures Check([6, 3, 4, 4], [5, 3, 2, 2]) == Score(1, 0)
  {
    ScoreOfShort([6, 3, 4, 4], [5, 3, 2, 2], [3]);
  }

  /** A round against the code 6344, guess 3. */
  lemma CheckScenarioGuess3()
    ensures Check([6, 3, 4, 4], [6, 4, 2, 2]) == Score(1, 1)
  {
    ScoreOfShort([6, 3, 4, 4], [6, 4, 2, 2], [6, 4]);
  }

  /** A round against the code 6344, guess 4. */
  lemma CheckScenarioGuess4()
    ensures Check([6, 3, 4, 4], [6, 4, 4, 2]) == Score(2, 1)
  {
    ScoreOfShort([6, 3, 4, 4], [6, 4, 4, 2], [6, 4, 4]);
  }

  /** A round against the code 6344, guess 5. */
  lemma CheckScenarioGuess5()
    ensures Check([6, 3, 4, 4], [4, 4, 4, 4]) == Score(2, 0)
  {
    ScoreOfShort([6, 3, 4, 4], [4, 4, 4, 4], [4, 4]);
  }

  /** A round against the code 6344, guess 6. */
  lemma CheckScenarioGuess6()
    ensures Check([6, 3, 4, 4], [4, 4, 3, 6]) == Score(0, 4)
  {
    ScoreOfShort([6, 3, 4, 4], [4, 4, 3, 6], [6, 3, 4, 4]);
  }
}
