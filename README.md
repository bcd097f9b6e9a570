# Lottery event: a verified model of the drawing logic

The lottery page draws one number from 1 to `maxNumber`. It reveals the number
as a row of binary boxes that flicker digit by digit before they settle. Each
completed draw is kept in a history log, newest first, with an editable memo,
and the log is persisted. This project models the `LotterySystem` class of
`src/script.js` without its page, its timers and its storage backend:

- **Selector** (`Selector.dfy`): `selectWinner`. The candidate list is
  `1..maxNumber` without the winners of `history.slice(-3)`. When that list is
  empty, the whole range is used instead. The random pick is an index `r`
  into the candidate list.
- **BinaryCode** (`BinaryCode.dfy`): the encoding used by
  `startBinaryAnimation`. It is `(winner - 1).toString(2)`, padded on the left
  with `'0'` to `max(7, length)` characters. The module also has the base-2
  reading of that string back to a number.
- **RevealEngine** (`RevealEngine.dfy`): the chain of timer callbacks formed
  by `startDigitAnimation` and `animateDigit`. It is a pure state machine over
  the displayed boxes and the one pending callback. `Tick` runs one callback.
  Each digit shows `count % 2` for `count = 0..19`. At `count == 20` it
  settles on its final bit. After the last digit, the completion branch runs.
- **History** (`History.dfy`): the log records, the memo edits, JavaScript's
  `String.prototype.trim` as the memo dialogs apply it, and the record mapping
  of `saveHistory` and `loadHistory`.
- **Lottery** (`Lottery.dfy`): the class `LotterySystem`. It holds
  `isAnimating`, `history`, `maxNumber`, `binaryAnimation`, the boxes on
  display, the pending timer callback, the disabled flags of the start and
  reset buttons, and the persisted copy of the log. Each user action and each
  timer callback is one method. Each method's effect on the reveal and on the
  log is tied to the functions of the modules above. The invariant `Valid()`
  says:
  - a callback is pending exactly while a draw runs;
  - a running reveal keeps the reveal invariant for its winner's bits;
  - the persisted copy loads back as the in-memory log.

Behaviour of the code worth knowing:

- The comments at src/script.js:225 and :235 speak of avoiding recent
  winners. But `history.slice(-3)` takes the last three array entries, and
  `addToHistory` prepends (`unshift`, line 391), so these are the three
  *oldest* draws. `OldestDrawsAreExcluded` shows the consequence: the number
  drawn last can be drawn again.
- An edit of a memo at an index with no record returns without changing
  anything (`if (!item) return;`).
- The reset button is disabled for the whole draw, so `resetLottery` only
  runs between draws.
- The memo is trimmed by the dialogs, not by `addMemoToLatest` itself. The
  new-memo dialog ignores text that is empty after trimming. The edit dialog
  stores it, so an empty edit clears the memo.

Inputs from outside the program are parameters:

- the result of `parseInt` on the maximum-number field (`None` for NaN);
- the random index `r`;
- the completion time `now`, in milliseconds;
- the records read from storage at page load.

## Model

| member | source | states |
|---|---|---|
| Selector.Winners | src/script.js:226 | the winners of the records, one per record, in the same order |
| Selector.RecentWinners | src/script.js:226 | at most three winners: those of the last three array entries, in array order |
| Selector.ExcludingSpec | src/script.js:227-233 | the loop's list holds exactly the numbers of [1, n] not excluded, each in [1, n], in strictly increasing order |
| Selector.FullRange | src/script.js:236 | the fallback list has maxNumber entries and entry k is k + 1 |
| Selector.Candidates | src/script.js:236 | every number the random index can reach lies in [1, maxNumber] |
| Selector.CandidatesSpec | src/script.js:226-236 | for maxNumber >= 1: the list is non-empty, in range and without duplicates (a uniform index is a uniform choice). It is the exclusion list when some number is not excluded, and the full range 1..maxNumber otherwise |
| Selector.SelectWinner | src/script.js:224-239 | the winner is the candidate at index r and lies in [1, maxNumber]. It is an excluded winner only when every number from 1 to maxNumber is excluded |
| Selector.NeverFallsBackFromFour | src/script.js:226-236 | from maxNumber >= 4 some number is never excluded, so the fallback is never taken |
| Selector.OneOfFourMissing | src/script.js:226-233 | three recent winners cannot cover all of 1..4: some x in 1..4 is not among them |
| Selector.OldestDrawsAreExcluded | src/script.js:226 | with winners 5, 1, 2, 3 (newest first, as line 391 prepends) the excluded winners are 1, 2, 3, and the last winner 5 is a candidate again |
| Selector.ExcludingOneToThree | src/script.js:229-233 | for maxNumber 10 with 1, 2, 3 excluded, the candidates are 4..10 |
| BinaryCode.ToBinary | src/script.js:245 | `toString(2)` of a non-negative integer is a non-empty bit string with no leading zero, and it is "0" exactly for 0 |
| BinaryCode.ToBinaryRoundTrip | src/script.js:245 | reading the binary form in base 2 gives back the number |
| BinaryCode.FromBinaryRoundTrip | src/script.js:245 | every bit string without leading zeros (or "0") is the binary form of its value |
| BinaryCode.ToBinaryLength | src/script.js:245-246 | the binary form's length is the bit length: n < 2^len, and 2^(len-1) <= n for n >= 1 |
| BinaryCode.Zeros | src/script.js:254 | the padding is exactly the requested number of '0' characters |
| BinaryCode.LeadingZerosValue | src/script.js:254 | left padding with '0' does not change the value |
| BinaryCode.WinnerBitsSpec | src/script.js:244-254 | the padded string has length max(7, bit length of winner - 1), holds only '0'/'1', reads as winner - 1, and decodes to the winner |
| BinaryCode.WinnerBitsInjective | src/script.js:244-254 | different winners give different box rows |
| BinaryCode.WinnerBitsOfFive | src/script.js:244-254 | winner 5 shows 0000100 (4 padded to seven boxes) |
| BinaryCode.WinnerBitsOfTwoHundred | src/script.js:244-254 | winner 200 shows 11000111: eight boxes, no padding |
| BinaryCode.WinnerBitsOfOne | src/script.js:244-254 | winner 1 shows seven zero boxes |
| BinaryCode.LeadingOnePositive | src/script.js:245 | a bit string starting with '1' has value at least 2^(len-1) |
| RevealEngine.HiddenBoxes | src/script.js:282-288 | one '?' box per digit |
| RevealEngine.SettledBoxes | src/script.js:331-334 | one box per bit, each settled on its bit |
| RevealEngine.AnimateDigitStep | src/script.js:305-341 | one animateDigit callback keeps the number of boxes |
| RevealEngine.StartDigitStep | src/script.js:290-303 | one startDigitAnimation callback keeps the number of boxes |
| RevealEngine.Tick | src/script.js:290-341 | a callback keeps one box per bit and schedules only digits that have a box |
| RevealEngine.Run | src/script.js:326-340 | a chain of callbacks keeps one box per bit |
| RevealEngine.StartInv | src/script.js:279-303 | the freshly drawn boxes satisfy the reveal invariant, with 21 steps per digit plus one to go: the synchronous startDigitAnimation(0) call, then 21 timer callbacks per digit |
| RevealEngine.TickKeepsInv | src/script.js:290-341 | every callback keeps the invariant and shortens the rest of the reveal by exactly one callback. The invariant: digits before the current one are settled on their bits, later ones show '?', a spinning digit shows (count - 1) % 2 with count in 1..20, and with nothing pending all boxes show the final bits |
| RevealEngine.TickKeepsSettled | src/script.js:330-340 | a callback changes at most the box of its own digit and never a settled box |
| RevealEngine.CompletesLast | src/script.js:291-298 | the completion branch is due exactly when one callback remains |
| RevealEngine.RunToEnd | src/script.js:290-341 | from any reveal state, the remaining callbacks end with every box settled on its bit and nothing pending, and the invariant holds all the way |
| RevealEngine.RevealOfWinner | src/script.js:242-341 | after 21 steps per digit plus one (the synchronous startDigitAnimation(0) call, then 21 timer callbacks per digit) the boxes show WinnerBits(winner), which decodes to the winner, and the completion branch runs exactly once, on the last callback |
| History.SetMemo | src/script.js:175-177 | the log keeps its length, winners and timestamps; only the memo at the given index changes; an index with no record changes nothing |
| History.SetMemoOverwrites | src/script.js:175-177 | the last memo written wins, and writing the same memo twice equals writing it once |
| History.SetMemoOutOfRange | src/script.js:136-138 | an index with no record leaves the log as it is |
| History.SetMemoAfterPrepend | src/script.js:383-391 | after a record is prepended, the record that was at i is at i + 1 |
| History.TrimStart | src/script.js:176 | removes exactly the leading whitespace, keeping a suffix of the text |
| History.TrimEnd | src/script.js:176 | removes exactly the trailing whitespace, keeping a prefix of the text |
| History.TrimIsCore | src/script.js:176 | the trimmed memo is a slice of the text with only whitespace outside it and no whitespace at its ends |
| History.TrimIdempotent | src/script.js:176 | trimming twice is trimming once |
| History.SaveRecords | src/script.js:437-441 | one stored record per record |
| History.LoadRecords | src/script.js:453-457 | one record per stored record |
| History.LoadSaveRoundTrip | src/script.js:437-457 | saving then loading gives back the same records in the same order |
| History.LoadRecordsAt | src/script.js:453-457 | each loaded record keeps winner and instant, and a missing memo becomes '' |
| History.SavedMemosPresent | src/script.js:437-441 | each saved record has winner, ISO instant and its memo, which is always present |
| History.LoadIsStable | src/script.js:448-457 | load, save and load again gives what the first load gave |
| Lottery.ResolveMaxNumber | src/script.js:56-58 | a NaN or 0 parse becomes 100 and any other parse is kept, so the result is never 0 and is positive exactly when the parse was NaN or non-negative |
| Lottery.LotterySystem.constructor | src/script.js:2-9 | page load: idle, both buttons enabled, maxNumber resolved, history loaded from storage (empty when nothing is stored) |
| Lottery.LotterySystem.LoadHistory | src/script.js:448-463 | the log becomes the loaded records when some are stored, and is left alone otherwise |
| Lottery.LotterySystem.SaveHistory | src/script.js:435-446 | the persisted copy becomes the mapped log and loads back as the log |
| Lottery.LotterySystem.UpdateMaxNumber | src/script.js:56-58 | maxNumber becomes the resolved parse; the invariant is kept |
| Lottery.LotterySystem.StartLottery | src/script.js:192-204 | changes nothing while animating or when maxNumber <= 0. Otherwise it sets isAnimating, disables both buttons, picks the candidate at r (in [1, maxNumber]), sets up the reveal for its bits and leaves the state one callback into the reveal. The history is unchanged |
| Lottery.LotterySystem.StartBinaryAnimation | src/script.js:242-262 | the reveal settings are the winner, its padded bits and their length, and the reveal invariant holds |
| Lottery.LotterySystem.AnimateDigit | src/script.js:305-342 | the boxes and the next callback are those of AnimateDigitStep |
| Lottery.LotterySystem.StartDigitAnimation | src/script.js:290-303 | the boxes and callback are those of StartDigitStep. Past the last digit, exactly one record {winner, now, ''} is prepended and persisted, both buttons are enabled and isAnimating is cleared |
| Lottery.LotterySystem.Step | src/script.js:290-341 | one timer callback follows Tick and keeps the invariant. Only the completion callback changes the log: one record in front, the older ones in order, and the reveal is over |
| Lottery.LotterySystem.AddToHistory | src/script.js:383-398 | the log becomes [new record with empty memo] + old log, and is persisted |
| Lottery.LotterySystem.AddMemoToLatest | src/script.js:128-134 | only the newest record's memo changes. An empty log is a no-op that does not persist |
| Lottery.LotterySystem.WriteMemo | src/script.js:130-132 | an existing record's memo is replaced, every other field and record is kept, and the persisted copy is the saved log |
| Lottery.LotterySystem.SaveLatestMemo | src/script.js:111-117 | the trimmed text, if not empty, becomes the newest record's memo and the log is persisted; an empty text or an empty log changes neither the log nor the persisted copy |
| Lottery.LotterySystem.EditMemo | src/script.js:136-181 | the memo at the index becomes the trimmed text and the log is persisted. An index with no record changes neither the log nor the persisted copy |
| Lottery.LotterySystem.ResetLottery | src/script.js:465-470 | clears the boxes, enables start, disables reset and clears isAnimating. History and storage are untouched |

## Left out

- The page itself is not modelled. This covers element lookup, event binding, the settings and memo dialogs, the box HTML, `showFinalResultInPlace`, `updateHistoryDisplay`, `toLocaleString` and the CSS classes. The boxes' flashing/final classes are modelled only as the `Flashing`/`Settled` box states.
- The initial disabled state of the buttons comes from the page markup. That markup is not part of this model; the constructor starts with both buttons enabled.
- `localStorage` and `JSON` are not modelled. The persisted value is a list of stored records, or `None` when absent or unreadable. A failed write (quota) is not modelled: every save succeeds.
- `Date` and `toISOString` are not modelled. An instant is an integer number of milliseconds, and the ISO text is the abstract `Iso(millis)`; its character format is not modelled.
- A stored memo that is a falsy non-string (0, false) is not modelled. The memo is an optional string.
- Stored records whose winner is not an integer are not modelled.
- `Math.random` is not modelled. It is replaced by the index `r` it would yield, so the rounding of `Math.floor(Math.random() * n)` is not modelled.
- Timing is not modelled: `setTimeout` delays, `timePerDigit` (`parseFloat * 1000`), the cubic ease-out, `baseInterval`, `nextDelay` and the 500 ms winner effect. They are floating point and timers; only the order of the callbacks is modelled.
- The `binaryAnimation` fields `currentDigit` (always 0), `timePerDigit` and `interval` are not modelled. No model step reads them.
- Lottery.LotterySystem.ResetLottery: a reset while a reveal runs is not modelled. That reset is reachable only through the debugging global, since the button is disabled for the whole draw. In the code, the reset clears the result display, so the old chain's next animateDigit finds no box and stops. The chain goes on in two cases. If the pending callback is the completion startDigitAnimation(maxDigits), it still appends to the history and re-enables both buttons. If a later draw has redrawn the boxes before the callback fires, the old chain runs over the new boxes with the new binaryAnimation.
- Lottery.LotterySystem.AnimateDigit: the `if (!box) return;` guard is not modelled. While a draw runs, every digit the chain visits has its box; only the reset above removes the boxes.
- Lottery.LotterySystem.EditMemo: opening the dialog and saving are one step here. In the code, the dialog holds the record object itself. A draw completing while the dialog is open shifts the indices (see `SetMemoAfterPrepend`) but not that object.
- `parseInt` itself is not modelled; its result is an input.
- `startAnimation`, `showCandidate`, `finishAnimation` and `showWinner` are not modelled. They are dead code.
- `BinaryCode.ToBinary`: JavaScript numbers are exact only below 2^53. The model uses unbounded integers.
