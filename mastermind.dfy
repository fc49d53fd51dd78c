/**
 Game settings of the Mastermind game: the conditions of one round and the
 configuration constants the logic depends on.
 */
module Mastermind {

  /** The conditions of one round: how many guesses the player gets, how many
      digits the code has, the largest digit, and whether a digit may repeat. */
  datatype Conditions = Conditions(guesses: int, length: int, limit: int, duplicates: bool)

  const MIN_GUESSES := 3
  const MAX_GUESSES := 99
  const MIN_LENGTH := 3
  const MAX_LENGTH := 9
  const MIN_LIMIT := 3
  const MAX_LIMIT := 9
  /** Lower bound on how often each digit is put into the duplicates pool. */
  const MIN_REPEATED := 2
  /** Default number of guesses of the preset levels. */
  const DR := 12
  /** Conditions of the first round of the progressive game. */
  const PROG_CONDITIONS := Conditions(8, 4, 6, true)

  /** The preset levels 1..9. */
  function Level(level: int): (c: Conditions)
    requires 1 <= level <= 9
    ensures c.guesses == DR
    ensures MIN_LENGTH <= c.length <= MAX_LENGTH && MIN_LIMIT <= c.limit <= MAX_LIMIT
    ensures !c.duplicates ==> c.length <= c.limit
  {
    match level
    case 1 => Conditions(DR, 3, 5, false)
    case 2 => Conditions(DR, 3, 5, true)
    case 3 => Conditions(DR, 4, 6, false)
    case 4 => Conditions(DR, 4, 6, true)
    case 5 => Conditions(DR, 4, 8, true)
    case 6 => Conditions(DR, 5, 6, true)
    case 7 => Conditions(DR, 5, 8, true)
    case 8 => Conditions(DR, 6, 8, true)
    case 9 => Conditions(DR, 7, 9, true)
  }

  /** What the custom-level prompts let through: every number within its
      range, and without duplicates a largest digit no smaller than the length.
      Either way at least three digits are in play, and a code without repeats
      never needs more digits than there are. */
  predicate CustomConditions(c: Conditions): (b: bool)
    ensures b ==> MIN_LIMIT <= c.limit && 1 <= c.guesses
    ensures b ==> c.duplicates || c.length <= c.limit
  {
    && MIN_GUESSES <= c.guesses <= MAX_GUESSES
    && MIN_LENGTH <= c.length <= MAX_LENGTH
    && (if c.duplicates then MIN_LIMIT else c.length) <= c.limit <= MAX_LIMIT
  }
}
