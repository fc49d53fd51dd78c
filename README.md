# Mastermind core, modelled in Dafny

This project models the logic of a terminal Mastermind game (`project.py`).
The player tries to break a secret code: a sequence of digits `1..limit` of a
given length, generated with or without repeated digits. Each guess is scored
as a pair. `exact` counts the digits that are right and in the right place.
`misplaced` counts the further digits that are right but elsewhere, with
duplicates counted as a multiset intersection does. A round ends when the code
is found or the guesses run out. In the progressive mode, each won round makes
the next one harder: more digits to choose from, or a longer code.

Modules, one per component of the program:

- `Mastermind` (`mastermind.dfy`): the conditions of a round
  `(guesses, length, limit, duplicates)`, the configuration constants, the
  preset levels, and what the custom-level prompts accept.
- `Feedback` (`feedback.dfy`): the evaluator `check`, modelled as `Check`. It is
  proved against two independent definitions: the set of agreeing positions,
  and the sum over distinct digits of the smaller occurrence count. Its bounds,
  symmetry and the asserted cases are also proved.
- `Progression` (`progression.dfy`): `prog_game_won`, modelled as
  `ProgGameWon`. It comes with its three escalation branches, the growth of
  guesses, and an invariant that every progressive round's conditions keep.
- `CodeGen` (`codegen.dfy`): `gen_code`, modelled as `GenCode`. The random
  shuffle or sample is a parameter, namely the population in the order the
  random source put it. The lemmas cover digits in range, the repeat cap, the
  code length, distinct digits without duplicates, and the error when the
  sample is too large.
- `GuessInput` (`guess.dfy`): what `get_guess` does with one input line. The
  line is accepted as a guess, taken as a command (display toggle, exit), or
  rejected for a stated reason.
- `Rounds` (`rounds.dfy`): the `gameplay` loop, as a method with a `while`
  loop over the guesses the player enters.
- `Progressive` (`progressive.dfy`): the `progressive_game` loop over the
  outcomes of the rounds, and the conditions each round is played with.
- `Counting`, `Wrappers`: occurrence counts, distinct values and multiset
  facts; a `Result` type.

Points where the code does something other than its docstrings, messages or
tests suggest; the model follows the code:

- `prog_game_won` documents `round_num` as the current round, but it receives
  the counter after it has been advanced, so it is the number of the next round. It is also called after the lost round;
  that result is then discarded. `Progressive.RoundConditions` states this
  sequencing.
- The escalation's last branch applies whenever `limit != 9`, including
  limits above 9, not only when `limit < 9`.
- `progressive_game` returns the number of the lost round, not the number of
  rounds won (see Findings).
- Two test assertions disagree with the code, and the model follows the code.
  First: `get_level` with `"p"` returns 99 (project.py:49), while
  test_project.py:7 expects 10; levels are not modelled beyond their table.
  Second: `gen_code` with limit 1 builds a pool of only `max(length // 2, 2)`
  ones (project.py:450-456), but test_project.py:44-49 expects `length` ones.
  `CodeGen.SingleDigitCodeIsShort` proves that a three-digit code comes out as
  `[1, 1]` in that case.

## Model

| member | source | states |
|---|---|---|
| `Feedback.Check` | project.py:533-545 | both counts are non-negative, and exact + misplaced is at most the length of the code and at most the length of the guess |
| `Feedback.CheckExactIsAgreeingPositions` | project.py:541 | exact is the number of zipped positions where guess and code hold the same digit |
| `Feedback.CheckTotalIsSumOfMinCounts` | project.py:542-543 | exact + misplaced is, summed over each distinct digit of the code, the smaller of its counts in code and guess |
| `Feedback.CheckSymmetric` | project.py:541-543 | swapping code and guess gives the same score |
| `Feedback.CheckSelf` | project.py:541-543 | a guess equal to the code scores (length, 0) |
| `Feedback.WinIffEqual` | project.py:485 | for a guess of the code's length, every digit is exact exactly when the guess is the code |
| `Feedback.CheckNoCommonDigit` | test_project.py:56 | [1,1,1] against [0,0,0] scores (0,0) |
| `Feedback.CheckRepeatedGuessDigit` | test_project.py:58 | [1,1,0] against [1,1,1] scores (2,0): the third 1 of the guess is not matched |
| `Feedback.CheckRepeatedCodeDigit` | test_project.py:59 | [1,1,1] against [1,1,0] scores (2,0), the swapped case |
| `Feedback.CheckPairsAllMisplaced` | test_project.py:60 | [1,1,0,0] against [0,0,1,1] scores (0,4) |
| `Feedback.CheckPairsHalfExact` | test_project.py:61 | [1,1,0,0] against [0,1,1,0] scores (2,2) |
| `Feedback.CheckTripleOneExact` | test_project.py:62 | [1,2,2,2] against [0,2,0,0] scores (1,0) |
| `Feedback.CheckTripleGuessedOnce` | test_project.py:63 | [1,2,2,2] against [1,1,1,0] scores (1,0) |
| `Feedback.CheckTripleGuessedMisplaced` | test_project.py:64 | [1,2,2,2] against [0,1,1,1] scores (0,1) |
| `Feedback.CheckScenarioGuess1` | project.py:277 | as the help table states and `check` (project.py:541-543) computes: code 6344, guess 4522 scores (0,1) |
| `Feedback.CheckScenarioGuess2` | project.py:279 | as the help table states and `check` (project.py:541-543) computes: code 6344, guess 5322 scores (1,0) |
| `Feedback.CheckScenarioGuess3` | project.py:281 | as the help table states and `check` (project.py:541-543) computes: code 6344, guess 6422 scores (1,1) |
| `Feedback.CheckScenarioGuess4` | project.py:283 | as the help table states and `check` (project.py:541-543) computes: code 6344, guess 6442 scores (2,1) |
| `Feedback.CheckScenarioGuess5` | project.py:285 | as the help table states and `check` (project.py:541-543) computes: code 6344, guess 4444 scores (2,0) |
| `Feedback.CheckScenarioGuess6` | project.py:287 | as the help table states and `check` (project.py:541-543) computes: code 6344, guess 4436 scores (0,4) |
| `Progression.ProgGameWon` | project.py:586-608 | duplicates carried through; guesses never decrease; the code gets longer, or it keeps its length and the digit range grows by one |
| `Progression.ProgGameWonBranches` | project.py:598-606 | limit not 9: only the limit grows by one; limit 9 and length at least 8: length grows by one and limit stays 9; limit 9 and length below 8: length grows by one and limit becomes the new length plus one |
| `Progression.ProgGameWonGuesses` | project.py:596-604 | guesses grow by 1 on an even round number, plus 2 when the limit was 9 |
| `Progression.ProgInvariantHolds` | project.py:586-608 | the progressive invariant (duplicates, at least 8 guesses, length at least 4, and length < limit <= 9 or limit 9 with length at least 8) is preserved, and the next limit lies in 4..9 |
| `Progression.ProgInvariantInitially` | project.py:30 | the starting conditions (8, 4, 6, true) satisfy the progressive invariant |
| `Progression.ProgGameWonExamples` | test_project.py:67-79 | the eight asserted transitions from (8,8,9), (8,9,9), (8,4,9) and (8,4,6) on rounds 1 and 2 |
| `Mastermind.CustomConditions` | project.py:306-357 | what the custom prompts accept has a limit of at least 3, at least one guess, and without duplicates no more code digits than available digits |
| `Mastermind.Level` | project.py:34-45 | every preset level has 12 guesses, length and limit in 3..9, and a length no larger than the limit when duplicates are off |
| `CodeGen.Half` | project.py:450 | the repeat count is half the length rounded down, or 2 if that is larger |
| `CodeGen.PoolMultiplicity` | project.py:450-452 | the pool holds each digit 1..limit exactly `half` times and nothing else |
| `CodeGen.PrefixSlice` | project.py:456 | Python's `numbers[:length]`: a prefix, of length `min(length, len)` for a non-negative bound and counted from the end for a negative one |
| `CodeGen.PopulationBounds` | project.py:449-460 | the population holds only digits 1..limit, each at most `half` times with duplicates and at most once without, and has `limit * half` or `limit` elements (none when the limit is below 1) |
| `CodeGen.GenCode` | project.py:440-460 | the code is a prefix of the shuffled population, with every digit in 1..limit. With duplicates it always succeeds and no digit occurs more than `half` times; for a non-negative length its length is the smaller of the length and the population size, which `CodeGen.PopulationBounds` gives as `limit * half` when the limit is at least 1 and 0 otherwise. Without duplicates it fails exactly when the length is negative or exceeds the number of digits; otherwise its digits are distinct and its length is exact |
| `CodeGen.FullLengthCode` | project.py:449-456 | with duplicates and a limit of at least 3, the code has the full requested length |
| `CodeGen.PlayableCodesFullLength` | project.py:440-460 | any limit of at least 3 (with length <= limit when duplicates are off) yields a full-length code |
| `CodeGen.LevelCodesFullLength` | project.py:34-45 | every preset level yields a code of its full length |
| `CodeGen.CustomCodesFullLength` | project.py:296-357 | every custom level the prompts accept yields a code of its full length |
| `CodeGen.SampleOfAllDigits` | project.py:459-460 | without duplicates and with length equal to the limit, the code is a rearrangement of 1..limit |
| `CodeGen.SingleDigitCodeIsShort` | project.py:449-456 | with limit 1 and length 3 the code is [1, 1], two digits long |
| `GuessInput.RemoveSpaces` | project.py:503 | the result holds no space and is no longer than the input |
| `GuessInput.RemoveSpacesCounts` | project.py:503 | every character other than a space occurs in the result as often as in the input |
| `GuessInput.RemoveSpacesAppend` | project.py:503 | removing spaces from a concatenation concatenates the results, so the kept characters stay in their order |
| `GuessInput.Lower` | project.py:504 | same length; no upper-case ASCII letter remains; an upper-case letter becomes its lower-case partner and every other character is kept |
| `GuessInput.ValidGuess` | project.py:514-522 | a guess that passes is non-empty, with digits 0..9 and a first digit in 1..limit, so the limit is at least 1 |
| `GuessInput.Digits` | project.py:478 | the digit values of an all-digit input, position by position |
| `GuessInput.ReadGuess` | project.py:501-523 | an accepted guess has the code's length, every digit in 1..limit, and is what was typed with the spaces removed |
| `GuessInput.ValidGuessAccepted` | project.py:514-523 | every valid guess, typed with or without spaces, is accepted as exactly its digits, so `ValidGuess` is exactly what the reader accepts |
| `GuessInput.DigitInputReading` | project.py:511-523 | an all-digit input is rejected as out of range (a 0 or a digit above the limit), else rejected for its length, else accepted |
| `GuessInput.NothingAcceptedForEmptyCode` | project.py:508-523 | no input is accepted for an empty code |
| `GuessInput.ReadGuessCommands` | project.py:504-513 | "R" after a guess toggles the display; an empty input is rejected; "End" and any fragment of it such as "N" ask to exit |
| `GuessInput.ReadGuessNotNumbers` | project.py:514-516 | an input with a letter among digits is rejected as not numbers |
| `GuessInput.ReadGuessZero` | project.py:517-519 | an input with a 0 is rejected as out of range |
| `GuessInput.ReadGuessAboveLimit` | project.py:517-519 | an input with a digit above the limit is rejected as out of range |
| `GuessInput.ReadGuessWrongLength` | project.py:520-522 | an input of in-range digits but the wrong length is rejected for its length |
| `Rounds.Scored` | project.py:480-482 | a history record keeps the guess, and its counts are non-negative with a sum at most the code length |
| `Rounds.Gameplay` | project.py:463-488 | at most `guesses` records, one per guess in order, each the guess with its score. On a win: 1 <= tries <= guesses, exactly `tries` records, the last guess is the code and no earlier guess is. Otherwise: tries is 0, there are exactly `guesses` records, and none found the code |
| `Progressive.RoundConditions` | project.py:386-396 | the conditions of every progressive round satisfy the progressive invariant |
| `Progressive.CodesCracked` | project.py:116-117 | the rounds won before the first loss: all of them are wins, and the next round is a loss |
| `Progressive.ProgressiveGame` | project.py:380-399 | plays rounds until the first loss; round i is played with `RoundConditions(i)`; the returned count is the number of codes cracked plus one |
| `Progressive.FirstRoundLossCracksNone` | project.py:116-117 | losing the first round cracks no code |
| `Progressive.ProgressiveCodesFullLength` | project.py:393 | conditions satisfying the progressive invariant, as every round's do, yield a code of full length |

## Left out

- Terminal input and output are not modelled: `main`, the title, menu, level and help screens, `clear_screen`, `ColoredText` and `display_table`. The same goes for the prompt loops of `get_level`, `custom_level` and `exit_game`. Only the preset level table (`Mastermind.Level`) and the ranges the custom prompts accept (`Mastermind.CustomConditions`) are kept.
- The display toggle `Mastermind.symbolic` / `flip_symbolic` is presentation-only state. The reader only reports `ToggleDisplay`.
- The exit confirmation is not modelled; the reader reports `ExitRequested`, and what follows is terminal behaviour.
- `random.shuffle` and `random.sample` are library calls. `GenCode` takes their output as a parameter: any rearrangement of the population. That a prefix of a rearrangement is what the sample returns is part of this modelling. The uniform distribution is not modelled.
- `KeyboardInterrupt`, `EOFError` and the `ValueError` handler of `get_guess` are runtime behaviour and are not modelled.
- Rounds.Gameplay: `guesses` must hold at least as many accepted guesses as the round allows, because running out of input ends the program, which is not modelled. The record keeps the guess as digits, not as the typed string.
- GuessInput.ReadGuess: digits, letter case and spaces are ASCII only. Python's `isdigit` and `lower` also accept other Unicode characters; those are not modelled.
- Progressive.ProgressiveGame: the round outcomes are a finite sequence that must hold a loss, since the loop ends only at the first lost round; a player who never loses keeps the source's loop running forever, which is not modelled.
- Progressive.ProgressiveGame: the outcome of each round is an input, instead of a round played through `both_games`. The secret code and the `won` flag that `progressive_game` also returns are not modelled. `regular_game` and `both_games` are glue between the generator and the round loop and are not modelled separately.

## Findings

| source | as written | input that shows it | evidently intended | confidence | as-written member | corrected member |
|---|---|---|---|---|---|---|
| project.py:395-399 | `progressive_game` returns `prog_round - 1`, the number of the round that was lost. `main` prints that number as the codes cracked (project.py:116-117) | losing the first round returns 1 and prints "You cracked 1 code" | the number of rounds won before the loss, one less | not executed; high | `Progressive.ProgressiveGame` | `Progressive.CodesCracked` |
