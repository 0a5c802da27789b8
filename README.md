# Bulls and Cows: the guess evaluator and its two front ends

A model, in Dafny, of the Bulls and Cows number-guessing game. The player guesses a secret of distinct decimal digits. Each guess is scored with "bulls" (right digit, right place) and "cows" (a digit of the secret, wrong place), and can optionally produce hints. The game exists twice: a console version (`bulls_and_cows.py`) and a PyQt6 window (`pqt6.py`). They share the evaluator logic but differ in small ways.

- `evaluator.dfy`, module `Evaluator`: the reference meaning of a score and of the hint list, written as recursive functions over the guess. Lemmas tie these to independent definitions (sets of positions, counts of common digits) and state what the round rules rely on: bulls + cows never exceeds the length; all bulls means the guess is the secret; hints follow guess order and their two kinds match bulls and cows one for one. The test suite's cases are restated as lemmas too.
- `bulls_and_cows.dfy`, module `BullsAndCows`: `get_secret_number` with its range check; `check_guess` as a counter loop that returns a `LengthMismatch` error for unequal lengths; `get_hints` as an appending loop; the length prompt loop; and the guess loop of `play_bulls_and_cows`, as the class `ConsoleGame`. The class holds the secret, the attempt history and the `game_stats` counters. Its invariant says every history record is the true score of an accepted guess, `total_attempts` equals the number of records, and the round is won exactly by its last record.
- `pqt6.dfy`, module `Pqt6`: `get_secret_number` with no range check (Python slicing semantics); `check_guess` with no length guard; and `BullsAndCowsGUI` reduced to the class `GameWindow`. Its fields are `secretNumber`, `attempts`, `timeLimit` (300), `startTime` and `running` (whether the one-second timer is active). The callbacks `start_game`, `update_timer`, `submit_guess` and `give_hints` are methods that return what their dialog or label would show. `end_game` is a function giving the minutes/seconds summary.

Randomness and the clock are parameters. The shuffled digit list is any permutation of 0..9. Each `time.time()` reading is a `real` number of seconds, and `int()` of a difference truncates toward zero. Keyboard input to the console becomes a sequence of entries.

## Model

| member | source | states |
|---|---|---|
| `Evaluator.CharSetSize` | bulls_and_cows.py:90 | `len(set(s)) <= len(s)`, with equality exactly when no character repeats |
| `Evaluator.Join` | bulls_and_cows.py:21 | joining digits gives one character per digit, the i-th being str of the i-th digit |
| `Evaluator.JoinedPrefixHasDistinctDigits` | bulls_and_cows.py:19-21 | any prefix of a shuffled digit list joins to decimal digits that are pairwise distinct |
| `Evaluator.BullsCountPositions` | bulls_and_cows.py:39-45 | bulls is the number of positions where guess and secret agree |
| `Evaluator.CowsCountPositions` | bulls_and_cows.py:39-45 | cows is the number of positions where guess and secret differ but the guess digit occurs in the secret |
| `Evaluator.ScoreBound` | bulls_and_cows.py:39-45 | bulls + cows <= len(guess) |
| `Evaluator.AllBullsIffPrefix` | pqt6.py:40-46 | for a guess no longer than the secret, every position is a bull exactly when the guess equals the secret's prefix of its length |
| `Evaluator.WinExactly` | bulls_and_cows.py:110 | for equal lengths, the win test `bulls == length` holds exactly when the guess is the secret |
| `Evaluator.SelfScore` | bulls_and_cows.py:39-45 | scoring the secret against itself gives (len(secret), 0) |
| `Evaluator.HintPositionsAscend` | bulls_and_cows.py:52-62 | the positions that earn a hint hold a digit of the secret and are listed in strictly ascending order |
| `Evaluator.HintPositionsComplete` | bulls_and_cows.py:52-62 | every guess position whose digit occurs in the secret earns a hint |
| `Evaluator.HintsFollowGuess` | bulls_and_cows.py:52-62 | there is one hint per such position, in that order, "in place" exactly when the guess digit equals the secret's digit at that position and "misplaced" otherwise |
| `Evaluator.HintKindsMatchScore` | bulls_and_cows.py:52-62 | the number of "in place" hints is bulls, the number of "misplaced" hints is cows, and there are bulls + cows hints |
| `Evaluator.NoHintsIff` | pqt6.py:183-193 | the hint list is empty exactly when no guess digit occurs in the secret |
| `Evaluator.ScoreCountsCommonDigits` | bulls_and_cows.py:39-45 | for a guess of distinct digits, bulls + cows is the number of digits guess and secret share |
| `Evaluator.ScoreExampleFourBulls` | tests/test_bulls_and_cows.py:14-16 | ("98765", "98760") scores (4, 0) |
| `Evaluator.ScoreExampleOneBull` | tests/test_bulls_and_cows.py:18-20 | ("98765", "12345") scores (1, 0) |
| `Evaluator.ScoreExamplesOneDigit` | tests/test_bulls_and_cows.py:40-47 | ("9", "9") scores (1, 0) and ("5", "3") scores (0, 0) |
| `Evaluator.ScoreExampleOnlyBulls` | tests/test_bulls_and_cows.py:73-76 | ("54321", "54321") scores (5, 0) |
| `Evaluator.HintExampleWithRequest` | tests/test_bulls_and_cows.py:79-84 | ("1234", "1245") gives exactly three hints: 1 and 2 in place, then 4 misplaced |
| `Evaluator.HintExampleMixed` | tests/test_bulls_and_cows.py:24-28 | the hints for ("12345", "12543") include "1 in place" and "5 misplaced" |
| `Evaluator.HintExampleAllPresent` | tests/test_bulls_and_cows.py:30-36 | ("98765", "56789") gives 5 and 6 misplaced, 7 in place, 8 and 9 misplaced |
| `Evaluator.LengthFiveTestExpectationFails` | tests/test_bulls_and_cows.py:18-20 | the test's "no bull" for ("98765", "12345") does not hold of check_guess |
| `Evaluator.MixedHintTestExpectationFails` | tests/test_bulls_and_cows.py:31-36 | the test's "7 misplaced" for ("98765", "56789") does not hold of get_hints |
| `BullsAndCows.GetSecretNumber` | bulls_and_cows.py:17-21 | ValueError exactly when length is outside [2, 10]; otherwise `length` distinct decimal digits, the i-th being the i-th shuffled digit |
| `BullsAndCows.CheckGuess` | bulls_and_cows.py:37-45 | an error exactly when the lengths differ; otherwise the reference scores (bulls, cows) |
| `BullsAndCows.GetHints` | bulls_and_cows.py:48-62 | no hints unless requested; otherwise the reference hint list |
| `BullsAndCows.ReadLength` | bulls_and_cows.py:68-77 | the first entry that is an integer in [2, 10] is taken, and every entry before it was rejected; if none comes, all entries are rejected |
| `BullsAndCows.GuessTestMeansDistinctDigits` | bulls_and_cows.py:87-91 | the guess test as written (length, `isdigit`, `len(set(guess)) == length`) passes exactly when the guess has the round's length, at least one character, only digits, and no digit twice |
| `BullsAndCows.ConsoleGame.constructor` | bulls_and_cows.py:79-82 | the round starts with the generated secret, an empty history, games_played 1 and total_attempts 0 |
| `BullsAndCows.ConsoleGame.Turn` | bulls_and_cows.py:87-110 | a rejected guess changes nothing; an accepted one returns its score and hints, appends exactly one (guess, bulls, cows) record (`RecordFor`) with the reference scores, adds exactly 1 to total_attempts, and ends the round exactly when bulls == length, that is, when the guess is the secret; the invariant (every record is the score of an accepted guess, only the last may be a win) is kept |
| `BullsAndCows.ConsoleGame.Play` | bulls_and_cows.py:84-123 | the history grows by one record per accepted entry (`Records`); the loop stops at the first entry equal to the secret, and runs through all entries when no entry equals it |
| `Pqt6.GetSecretNumber` | pqt6.py:25-27 | min(length, 10) distinct decimal digits for a non-negative length, and max(0, 10 + length) for a negative one (Python's slice); the i-th digit is the i-th shuffled digit |
| `Pqt6.SecretsAgree` | pqt6.py:25-27 | for lengths in [2, 10], both front ends derive the same secret from the same shuffle |
| `Pqt6.CheckGuess` | pqt6.py:40-46 | with no length guard (so the guess must not be longer than the secret), the same reference scores as the console version |
| `Pqt6.DecimalValue` | pqt6.py:118 | int(text) of a digit string: its last digit is the value's last decimal digit |
| `Pqt6.LengthFieldExamples` | pqt6.py:113 | "2", "07" and "10" are accepted lengths; "", "1", "11" and "4a" are not |
| `Pqt6.Truncate` | pqt6.py:139 | int() of a float truncates toward zero |
| `Pqt6.MinutesAndSeconds` | pqt6.py:168-170 | minutes * 60 + seconds == elapsed and 0 <= seconds < 60 |
| `Pqt6.SplitIsUnique` | pqt6.py:201-203 | that split is the only one with seconds in [0, 60) |
| `Pqt6.GameWindow.constructor` | pqt6.py:54-57 | the window starts with no secret, 0 attempts, a 300-second limit, start time 0 and the timer stopped |
| `Pqt6.GameWindow.EndGame` | pqt6.py:199-203 | the end-of-game summary splits the elapsed whole seconds into minutes and seconds |
| `Pqt6.GameWindow.UpdateTimer` | pqt6.py:136-151 | remaining = 300 - elapsed; the round times out, stopping the timer and revealing the secret, exactly when remaining <= 0; otherwise the label shows remaining |
| `Pqt6.GameWindow.StartGame` | pqt6.py:110-134 | a length text that is not all digits or not in [2, 10] changes nothing; otherwise the secret has that length, attempts is 0, the start time is the clock read at that point, and the first `update_timer`, with its own clock reading, shows 300 minus the whole seconds elapsed or times out at once when that is <= 0; when both readings coincide, the first tick shows 300 |
| `Pqt6.GameWindow.SubmitGuess` | pqt6.py:153-179 | a guess of the wrong length or with a non-digit changes nothing; otherwise attempts grows by exactly 1 and the round ends exactly when bulls == len(secret), that is, exactly when the guess is the secret |
| `Pqt6.GameWindow.GiveHints` | pqt6.py:181-193 | IndexError exactly when the field text is longer than the secret; otherwise the reference hint list, or the "no hints" message exactly when no digit of the text occurs in the secret |

## Left out

- Printing, the input prompts and the Russian message texts. Hints are a two-case datatype carrying the digit. The replies of the window's callbacks stand for the dialogs and labels.
- All widgets, layouts, visibility changes, the message boxes, the QTimer scheduling and `main()`. Modelling them would mean modelling the UI toolkit. `running` records only whether the timer is active.
- `random.shuffle`. The model takes the shuffled list as any permutation of 0..9.
- `time.time()`. Each clock reading is a `real` parameter, and floating-point rounding is not modelled.
- `str.isdigit` accepting non-ASCII Unicode digits. Only '0' to '9' count as digits.
- The console's `int()` parsing of the length text. Each entry is the parsed integer, or None when `int()` raises. The hints answer (`.lower() == "да"`) is a boolean.
- The two `while True` prompt loops end only by a valid entry or a win. `ReadLength` and `Play` also stop when their entries run out, since a finite sequence stands for the keyboard.
- The input-length caps of the two text fields (`setMaxLength`). They only narrow what a user can type, and the model accepts any text.
- `end_game` clearing the guess field. `GiveHints` takes the field text as a parameter.
- BullsAndCows.GetHints: requires len(guess) <= len(secret) when hints are requested. In that case the source also tolerates a longer guess whose extra digits are absent from the secret, and raises IndexError for the rest. Its only caller passes equal lengths. Without a request, any inputs give [].
- Pqt6.CheckGuess: requires len(guess) <= len(secret). A longer guess makes `secret[i]` raise IndexError. Its only caller checks the lengths first.
- BullsAndCows.ConsoleGame.Turn: requires that the round is not yet won, because the source leaves the guess loop after a win. The same holds for BullsAndCows.ConsoleGame.Play.
- The test comments at tests/test_bulls_and_cows.py:19 ("no bulls") and tests/test_bulls_and_cows.py:30 ("all digits in wrong places") state the expectations listed under Findings. The model follows the code.

## Findings

| source | as written | input that shows it | evidently intended | confidence | as-written member | corrected member |
|---|---|---|---|---|---|---|
| tests/test_bulls_and_cows.py:18-20 | expects `check_guess("98765", "12345")` to give 0 bulls | ("98765", "12345"): both strings have 5 at index 4, so check_guess gives (1, 0) | the expectation (1, 0) that the code computes | high, not executed | `Evaluator.LengthFiveTestExpectationFails` | `Evaluator.ScoreExampleOneBull` |
| tests/test_bulls_and_cows.py:31-36 | expects the hint "7 is present but misplaced" for `get_hints("98765", "56789", True)` | ("98765", "56789"): both strings have 7 at index 2, so the hint for 7 is "in place" | the hint list 5, 6 misplaced; 7 in place; 8, 9 misplaced | high, not executed | `Evaluator.MixedHintTestExpectationFails` | `Evaluator.HintExampleAllPresent` |
