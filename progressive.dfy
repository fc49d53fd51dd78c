/**
 The progressive game: rounds of rising difficulty, played until the first
 round that is lost.
 */
module Progressive {
  import opened Mastermind
  import opened Progression
  import opened CodeGen

  /** The conditions round `k` is played with: the starting conditions for
      round 1; after a win in round k - 1 the counter is advanced to k and the
      conditions are updated with it. */
  function RoundConditions(k: nat): (c: Conditions)
    requires k >= 1
    ensures ProgInvariant(c)
  {
    if k == 1 then
      ProgInvariantInitially();
      PROG_CONDITIONS
    else
      var prev := RoundConditions(k - 1);
      ProgInvariantHolds(prev, k);
      ProgGameWon(prev, k)
  }

  /** Number of codes cracked: the rounds won before the first loss. */
  function CodesCracked(results: seq<bool>): (n: nat)
    ensures n <= |results|
    ensures forall i :: 0 <= i < n ==> results[i]
    ensures false in results ==> n < |results| && !results[n]
  {
    if results == [] || !results[0] then 0
    else 1 + CodesCracked(results[1..])
  }

  /** Plays rounds whose outcomes are `results` in order (true for a win)
      until one is lost. Returns the count the game reports at the end, and
      the conditions of every round played. */
  method ProgressiveGame(results: seq<bool>) returns (reported: int, played: seq<Conditions>)
    requires false in results
    ensures reported == CodesCracked(results) + 1
    ensures |played| == reported
    ensures forall i :: 0 <= i < |played| ==> played[i] == RoundConditions(i + 1)
  {
    var progRound := 1;
    var won := true;
    var conditions := PROG_CONDITIONS;
    played := [];
    var n := CodesCracked(results);
    while won
      invariant progRound == |played| + 1 <= n + 2
      invariant conditions == RoundConditions(progRound)
      invariant forall i :: 0 <= i < |played| ==> played[i] == RoundConditions(i + 1)
      invariant won ==> |played| <= n
      invariant !won ==> |played| == n + 1
      decreases n + 1 - |played|
    {
      played := played + [conditions];
      won := results[progRound - 1];
      progRound := progRound + 1;
      conditions := ProgGameWon(conditions, progRound);
    }
    reported := progRound - 1;
  }

  /** Losing in the first round cracks no code, though one is reported. */
  lemma FirstRoundLossCracksNone()
    ensures CodesCracked([false]) == 0
  {
  }

  /** Every progressive round gets a code of its full length: its conditions
      satisfy the progressive invariant (see RoundConditions). */
  lemma ProgressiveCodesFullLength(c: Conditions, shuffled: seq<int>)
    requires ProgInvariant(c)
    requires IsShuffleOf(shuffled, Population(c))
    ensures GenCode(c, shuffled).Ok? && |GenCode(c, shuffled).value| == c.length
  {
    FullLengthCode(c, shuffled);
  }
}
