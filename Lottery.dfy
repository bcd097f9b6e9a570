/**
 * The lottery controller: the `isAnimating` lifecycle flag and its guards, the
 * start and reset buttons, the configured maximum number, the running reveal
 * and the history log with its persisted copy. Every user action and every
 * timer callback is one method call.
 */
module Lottery {
  import opened Wrappers
  import opened History
  import opened Selector
  import opened BinaryCode
  import opened RevealEngine

  /** The maximum number used when the field does not parse, or parses as 0. */
  const DefaultMaxNumber := 100

  /**
   * `parseInt(value) || 100`, given the parse result (None for NaN): never 0;
   * positive exactly when the input was NaN or not negative; otherwise the
   * parsed number itself.
   */
  function ResolveMaxNumber(parsed: Option<int>): (m: int)
    ensures m != 0
    ensures m > 0 <==> parsed.None? || parsed.value >= 0
    ensures parsed.Some? && parsed.value != 0 ==> m == parsed.value
    ensures parsed.None? || parsed.value == 0 ==> m == DefaultMaxNumber
  {
    if parsed.None? || parsed.value == 0 then DefaultMaxNumber else parsed.value
  }

  /** The settings of the running reveal (`this.binaryAnimation`). */
  datatype BinaryAnimation = BinaryAnimation(finalWinner: int, binaryString: string, maxDigits: nat)

  /** The reveal settings that startBinaryAnimation derives from a winner. */
  ghost predicate AnimationFor(a: BinaryAnimation) {
    a.finalWinner >= 1 && a.binaryString == WinnerBits(a.finalWinner) && a.maxDigits == |a.binaryString|
  }

  class LotterySystem {
    var isAnimating: bool
    var history: seq<Record>
    var maxNumber: int
    var binaryAnimation: Option<BinaryAnimation>
    /** The binary boxes on display (none outside a reveal's display). */
    var boxes: seq<Box>
    /** The timer callback scheduled by the reveal, if any. */
    var timer: Timer
    var startDisabled: bool
    var resetDisabled: bool
    /** The persisted history under the storage key (None: absent or unreadable). */
    var storage: Option<seq<StoredRecord>>

    /**
     * A timer callback is pending exactly while a draw runs; the start button
     * is disabled exactly then, and the reset button is disabled whenever a
     * draw runs; a running reveal
     * follows the reveal invariant for its winner's bits; and the persisted
     * copy, when there is one, loads back as the in-memory log.
     */
    ghost predicate Valid()
      reads this
    {
      && (isAnimating <==> !timer.NoTimer?)
      && (startDisabled <==> isAnimating)
      && (isAnimating ==> resetDisabled)
      && (isAnimating ==>
            && binaryAnimation.Some? && AnimationFor(binaryAnimation.value)
            && Inv(binaryAnimation.value.binaryString, Reveal(boxes, timer)))
      && (storage.Some? ==> LoadRecords(storage.value) == history)
      && (storage.None? ==> history == [])
    }

    /** Page load: `new LotterySystem()` followed by `init()`. */
    constructor (parsedMaxNumber: Option<int>, saved: Option<seq<StoredRecord>>)
      ensures Valid()
      ensures !isAnimating && !startDisabled && !resetDisabled
      ensures maxNumber == ResolveMaxNumber(parsedMaxNumber)
      ensures history == (if saved.Some? then LoadRecords(saved.value) else [])
      ensures storage == saved && boxes == [] && timer == NoTimer && binaryAnimation == None
    {
      isAnimating := false;
      history := [];
      maxNumber := ResolveMaxNumber(parsedMaxNumber);
      binaryAnimation := None;
      boxes := [];
      timer := NoTimer;
      startDisabled := false;
      resetDisabled := false;
      storage := saved;
      new;
      LoadHistory();
    }

    /** The history is replaced by the persisted records when there are any; otherwise it is left alone. */
    method LoadHistory()
      modifies this`history
      ensures history == if storage.Some? then LoadRecords(storage.value) else old(history)
    {
      if storage.Some? {
        history := LoadRecords(storage.value);
      }
    }

    /** The persisted copy becomes the current log, and it loads back as that log. */
    method SaveHistory()
      modifies this`storage
      ensures storage == Some(SaveRecords(history))
      ensures LoadRecords(storage.value) == history
    {
      storage := Some(SaveRecords(history));
      LoadSaveRoundTrip(history);
    }

    method UpdateMaxNumber(parsed: Option<int>)
      requires Valid()
      modifies this`maxNumber
      ensures Valid()
      ensures maxNumber == ResolveMaxNumber(parsed)
    {
      maxNumber := ResolveMaxNumber(parsed);
    }

    /**
     * Ignored while a draw runs or when maxNumber <= 0. Otherwise the draw
     * starts: the winner is the candidate at the random index `r`, the reveal
     * is set up for its bits, and the first digit starts spinning at once.
     */
    method StartLottery(r: nat)
      requires Valid()
      requires !isAnimating && maxNumber > 0 ==> r < |Candidates(maxNumber, RecentWinners(history))|
      modifies this
      ensures Valid()
      ensures old(isAnimating) || old(maxNumber) <= 0 ==> unchanged(this)
      ensures !old(isAnimating) && old(maxNumber) > 0 ==>
        var winner := Candidates(old(maxNumber), RecentWinners(old(history)))[r];
        var bits := WinnerBits(winner);
        && 1 <= winner <= maxNumber
        && isAnimating && startDisabled && resetDisabled
        && binaryAnimation == Some(BinaryAnimation(winner, bits, |bits|))
        && Reveal(boxes, timer) == Tick(bits, Start(bits))
        && history == old(history) && storage == old(storage) && maxNumber == old(maxNumber)
    {
      if isAnimating || maxNumber <= 0 {
        return;
      }
      isAnimating := true;
      startDisabled := true;
      resetDisabled := true;
      var finalWinner := SelectWinner(maxNumber, history, r);
      StartBinaryAnimation(finalWinner);
    }

    /**
     * The reveal settings for `finalWinner`, one '?' box per digit, and
     * startDigitAnimation(0), which, as there are at least seven digits, runs
     * animateDigit(0, 0) straight away.
     */
    method StartBinaryAnimation(finalWinner: int)
      requires finalWinner >= 1
      modifies this`binaryAnimation, this`boxes, this`timer
      ensures binaryAnimation == Some(BinaryAnimation(finalWinner, WinnerBits(finalWinner), |WinnerBits(finalWinner)|))
      ensures AnimationFor(binaryAnimation.value)
      ensures Reveal(boxes, timer) == Tick(WinnerBits(finalWinner), Start(WinnerBits(finalWinner)))
      ensures Inv(WinnerBits(finalWinner), Reveal(boxes, timer))
    {
      var binaryString := ToBinary(finalWinner - 1);
      var maxDigits := Max(MinDigits, |binaryString|);
      WinnerBitsSpec(finalWinner);
      binaryAnimation := Some(BinaryAnimation(finalWinner, PadStart(binaryString, maxDigits), maxDigits));
      boxes := HiddenBoxes(maxDigits);
      timer := StartDigitTimer(0);
      StartInv(WinnerBits(finalWinner));
      TickKeepsInv(WinnerBits(finalWinner), Start(WinnerBits(finalWinner)));
      AnimateDigit(0, 0);
    }

    /**
     * animateDigit(digit, count): box `digit` shows count % 2; below 20
     * switches the next switch is scheduled, at 20 the box settles on its
     * final bit and the next digit is scheduled.
     */
    method AnimateDigit(digit: nat, count: nat)
      requires binaryAnimation.Some? && digit < |boxes| == |binaryAnimation.value.binaryString|
      modifies this`boxes, this`timer
      ensures Reveal(boxes, timer) == AnimateDigitStep(binaryAnimation.value.binaryString, old(boxes), digit, count)
    {
      boxes := boxes[digit := Flashing(BitChar(count % 2))];
      if count < MaxCount {
        timer := AnimateDigitTimer(digit, count + 1);
      } else {
        boxes := boxes[digit := Settled(binaryAnimation.value.binaryString[digit])];
        timer := StartDigitTimer(digit + 1);
      }
    }

    /**
     * startDigitAnimation(digit): past the last digit the draw completes —
     * the winner is prepended to the history at time `now` with an empty
     * memo, both buttons are enabled and isAnimating is cleared; otherwise
     * the digit starts spinning.
     */
    method StartDigitAnimation(digit: nat, now: int)
      requires binaryAnimation.Some? && |boxes| == |binaryAnimation.value.binaryString|
      requires binaryAnimation.value.maxDigits == |binaryAnimation.value.binaryString|
      modifies this
      ensures binaryAnimation == old(binaryAnimation) && maxNumber == old(maxNumber)
      ensures Reveal(boxes, timer) == StartDigitStep(binaryAnimation.value.binaryString, old(boxes), digit)
      ensures digit >= binaryAnimation.value.maxDigits ==>
        && history == [Record(binaryAnimation.value.finalWinner, now, "")] + old(history)
        && storage == Some(SaveRecords(history)) && LoadRecords(storage.value) == history
        && !isAnimating && !startDisabled && !resetDisabled
      ensures digit < binaryAnimation.value.maxDigits ==>
        && history == old(history) && storage == old(storage) && isAnimating == old(isAnimating)
        && startDisabled == old(startDisabled) && resetDisabled == old(resetDisabled)
    {
      if digit >= binaryAnimation.value.maxDigits {
        AddToHistory(binaryAnimation.value.finalWinner, now);
        startDisabled := false;
        resetDisabled := false;
        isAnimating := false;
        timer := NoTimer;
        return;
      }
      AnimateDigit(digit, 0);
    }

    /**
     * The pending timer callback runs: the boxes and the next callback are as
     * `Tick` says, and only the completion callback touches the history, which
     * then gains exactly one record, in front, with an empty memo.
     */
    method Step(now: int)
      requires Valid() && isAnimating
      modifies this
      ensures Valid()
      ensures binaryAnimation == old(binaryAnimation) && maxNumber == old(maxNumber)
      ensures Reveal(boxes, timer) == Tick(binaryAnimation.value.binaryString, old(Reveal(boxes, timer)))
      ensures Completes(binaryAnimation.value.binaryString, old(Reveal(boxes, timer))) ==>
        && history == [Record(binaryAnimation.value.finalWinner, now, "")] + old(history)
        && storage == Some(SaveRecords(history))
        && !isAnimating && !startDisabled && !resetDisabled
      ensures !Completes(binaryAnimation.value.binaryString, old(Reveal(boxes, timer))) ==>
        && history == old(history) && storage == old(storage)
        && isAnimating && startDisabled && resetDisabled
    {
      TickKeepsInv(binaryAnimation.value.binaryString, Reveal(boxes, timer));
      if timer.StartDigitTimer? {
        StartDigitAnimation(timer.digit, now);
      } else {
        AnimateDigit(timer.digit, timer.count);
      }
    }

    /** The winner goes in front of the log with an empty memo, and the log is persisted. */
    method AddToHistory(winner: int, now: int)
      modifies this`history, this`storage
      ensures history == [Record(winner, now, "")] + old(history)
      ensures storage == Some(SaveRecords(history)) && LoadRecords(storage.value) == history
    {
      history := [Record(winner, now, "")] + history;
      SaveHistory();
    }

    /** The newest record's memo becomes `memoText`; with no records nothing happens. */
    method AddMemoToLatest(memoText: string)
      requires Valid()
      modifies this`history, this`storage
      ensures Valid()
      ensures history == SetMemo(old(history), 0, memoText)
      ensures old(history) == [] ==> storage == old(storage)
      ensures old(history) != [] ==> storage == Some(SaveRecords(history))
    {
      if |history| > 0 {
        WriteMemo(0, memoText);
      }
    }

    /** `item.memo = memoText` on an existing record, followed by `saveHistory()`. */
    method WriteMemo(index: int, memoText: string)
      requires Valid() && 0 <= index < |history|
      modifies this`history, this`storage
      ensures Valid()
      ensures history == SetMemo(old(history), index, memoText)
      ensures storage == Some(SaveRecords(history))
    {
      history := history[index := history[index].(memo := memoText)];
      SaveHistory();
    }

    /** The save button of the new-memo dialog: the trimmed text, when not empty, goes to the newest record. */
    method SaveLatestMemo(text: string)
      requires Valid()
      modifies this`history, this`storage
      ensures Valid()
      ensures history == if Trim(text) == "" then old(history) else SetMemo(old(history), 0, Trim(text))
      ensures Trim(text) == "" || old(history) == [] ==> storage == old(storage)
      ensures Trim(text) != "" && old(history) != [] ==> storage == Some(SaveRecords(history))
    {
      var memoText := Trim(text);
      if memoText != "" {
        AddMemoToLatest(memoText);
      }
    }

    /**
     * editMemo(index) with its save button pressed: an index with no record
     * does nothing; otherwise that record's memo becomes the trimmed text and
     * the log is persisted.
     */
    method EditMemo(index: int, text: string)
      requires Valid()
      modifies this`history, this`storage
      ensures Valid()
      ensures history == SetMemo(old(history), index, Trim(text))
      ensures !(0 <= index < |old(history)|) ==> storage == old(storage)
      ensures 0 <= index < |old(history)| ==> storage == Some(SaveRecords(history))
    {
      if !(0 <= index < |history|) {
        return;
      }
      WriteMemo(index, Trim(text));
    }

    /**
     * The reset button (enabled only outside a draw): the result display is
     * cleared, the start button enabled, the reset button disabled and
     * isAnimating cleared; the history is untouched.
     */
    method ResetLottery()
      requires Valid() && !resetDisabled
      modifies this`boxes, this`startDisabled, this`resetDisabled, this`isAnimating
      ensures Valid()
      ensures boxes == [] && !startDisabled && resetDisabled && !isAnimating
      ensures history == old(history) && storage == old(storage)
    {
      boxes := [];
      startDisabled := false;
      resetDisabled := true;
      isAnimating := false;
    }
  }
}
