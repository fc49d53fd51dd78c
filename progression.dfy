/**
 The progression updater of the progressive game: after each round, the
 conditions of the next round.
 */
module Progression {
  import opened Mastermind

  /** The conditions after `roundNum`, the round counter as already advanced
      by the caller: an extra guess when it is even, then one step up in
      difficulty — a larger digit range below the maximum digit, otherwise a
      longer code (with two extra guesses), which below length 8 also resets
      the digit range to one more than the new length. */
  function ProgGameWon(c: Conditions, roundNum: int): (r: Conditions)
    ensures r.duplicates == c.duplicates
    ensures r.guesses >= c.guesses
    ensures r.length > c.length || (r.length == c.length && r.limit == c.limit + 1)
  {
    var guesses := if roundNum % 2 == 0 then c.guesses + 1 else c.guesses;
    if c.limit == MAX_LIMIT && c.length >= MAX_LIMIT - 1 then
      Conditions(guesses + 2, c.length + 1, c.limit, c.duplicates)
    else if c.limit == MAX_LIMIT then
      Conditions(guesses + 2, c.length + 1, c.length + 2, c.duplicates)
    else
      Conditions(guesses, c.length, c.limit + 1, c.duplicates)
  }

  /** The three escalation branches, which are mutually exclusive. */
  lemma ProgGameWonBranches(c: Conditions, roundNum: int)
    ensures var r := ProgGameWon(c, roundNum);
      && (c.limit != MAX_LIMIT ==> r.length == c.length && r.limit == c.limit + 1)
      && (c.limit == MAX_LIMIT && c.length >= MAX_LIMIT - 1 ==>
            r.length == c.length + 1 && r.limit == MAX_LIMIT)
      && (c.limit == MAX_LIMIT && c.length < MAX_LIMIT - 1 ==>
            r.length == c.length + 1 && r.limit == r.length + 1)
  {
  }

  /** Guesses grow by one on an even round, plus two when the digit range
      was already at its maximum. */
  lemma ProgGameWonGuesses(c: Conditions, roundNum: int)
    ensures ProgGameWon(c, roundNum).guesses
         == c.guesses + (if roundNum % 2 == 0 then 1 else 0) + (if c.limit == MAX_LIMIT then 2 else 0)
  {
  }

  /** What holds of the conditions of every progressive round: duplicates
      allowed, at least eight guesses, and either a digit range larger than
      the length up to the maximum digit, or the maximum digit with a code of
      length eight or more. */
  predicate ProgInvariant(c: Conditions)
  {
    && c.duplicates
    && c.guesses >= PROG_CONDITIONS.guesses
    && c.length >= PROG_CONDITIONS.length
    && ((c.length < c.limit <= MAX_LIMIT) || (c.limit == MAX_LIMIT && c.length >= MAX_LIMIT - 1))
  }

  lemma ProgInvariantHolds(c: Conditions, roundNum: int)
    requires ProgInvariant(c)
    ensures ProgInvariant(ProgGameWon(c, roundNum))
    ensures MIN_LIMIT < ProgGameWon(c, roundNum).limit <= MAX_LIMIT
  {
  }

  lemma ProgInvariantInitially()
    ensures ProgInvariant(PROG_CONDITIONS)
  {
  }

  /** The asserted transitions, the first two steps of the progressive game among them. */
  lemma ProgGameWonExamples()
    ensures ProgGameWon(Conditions(8, 8, 9, true), 1) == Conditions(10, 9, 9, true)
    ensures ProgGameWon(Conditions(8, 8, 9, true), 2) == Conditions(11, 9, 9, true)
    ensures ProgGameWon(Conditions(8, 9, 9, true), 1) == Conditions(10, 10, 9, true)
    ensures ProgGameWon(Conditions(8, 9, 9, true), 2) == Conditions(11, 10, 9, true)
    ensures ProgGameWon(Conditions(8, 4, 9, true), 1) == Conditions(10, 5, 6, true)
    ensures ProgGameWon(Conditions(8, 4, 9, true), 2) == Conditions(11, 5, 6, true)
    ensures ProgGameWon(Conditions(8, 4, 6, true), 1) == Conditions(8, 4, 7, true)
    ensures ProgGameWon(Conditions(8, 4, 6, true), 2) == Conditions(9, 4, 7, true)
  {
  }
}
