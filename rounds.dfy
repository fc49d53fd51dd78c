/**
 One round of play: guesses are scored one after another, each appended to a
 history, until the code is found or the guesses run out.
 */
module Rounds {
  import opened Mastermind
  import opened Feedback
  import opened GuessInput

  /** A scored guess, as kept in the history of a round. */
  datatype GuessRecord = GuessRecord(guess: seq<int>, exact: int, misplaced: int)

  /** The history entry for `guess`. */
  function Scored(code: seq<int>, guess: seq<int>): (g: GuessRecord)
    ensures g.guess == guess
    ensures 0 <= g.exact && 0 <= g.misplaced && g.exact + g.misplaced <= |code|
  {
    var s := Check(code, guess);
    GuessRecord(guess, s.exact, s.misplaced)
  }

  /** Plays one round against `code`. `guesses` are the guesses the player
      enters, in order, as the prompt accepts them; the round uses as many of
      them as it needs. Returns whether the code was found, after how many
      tries (0 when not), and the history of scored guesses. */
  method Gameplay(c: Conditions, code: seq<int>, guesses: seq<seq<int>>)
    returns (won: bool, tries: int, data: seq<GuessRecord>)
    requires |guesses| >= c.guesses
    requires forall i :: 0 <= i < |guesses| ==> ValidGuess(guesses[i], c.limit, |code|)
    ensures |data| <= |guesses| && |data| <= (if c.guesses < 0 then 0 else c.guesses)
    ensures forall i :: 0 <= i < |data| ==> data[i] == Scored(code, guesses[i])
    ensures won ==> 1 <= tries <= c.guesses && |data| == tries
    ensures won ==> data[tries - 1].exact == |code| && guesses[tries - 1] == code
    ensures won ==> forall i :: 0 <= i < tries - 1 ==> data[i].exact != |code| && guesses[i] != code
    ensures !won ==> tries == 0 && |data| == (if c.guesses < 0 then 0 else c.guesses)
    ensures !won ==> forall i :: 0 <= i < |data| ==> data[i].exact != |code| && guesses[i] != code
  {
    var remaining := c.guesses;
    data := [];
    while remaining > 0
      invariant c.guesses > 0 ==> 0 <= remaining <= c.guesses && |data| == c.guesses - remaining
      invariant c.guesses <= 0 ==> remaining == c.guesses && data == []
      invariant forall i :: 0 <= i < |data| ==> data[i] == Scored(code, guesses[i])
      invariant forall i :: 0 <= i < |data| ==> data[i].exact != |code| && guesses[i] != code
    {
      remaining := remaining - 1;
      var guess := guesses[|data|];
      var score := Check(code, guess);
      data := data + [GuessRecord(guess, score.exact, score.misplaced)];
      WinIffEqual(code, guess);
      if score.exact == |code| {
        return true, c.guesses - remaining, data;
      }
    }
    return false, 0, data;
  }
}
