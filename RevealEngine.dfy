/**
 * The digit-by-digit reveal. Each pending timer callback is one `Tick`:
 * startDigitAnimation(d) finishes the reveal when d reaches the number of
 * boxes and otherwise runs animateDigit(d, 0) at once; animateDigit(d, c)
 * shows c % 2 in box d and schedules animateDigit(d, c + 1) while c < 20,
 * and at c == 20 settles box d on its final bit and schedules
 * startDigitAnimation(d + 1). Delays are not modelled, only the order.
 */
module RevealEngine {
  import opened BinaryCode

  /** Switches shown per digit before it settles (maxCount). */
  const MaxCount := 20

  /** A binary box: '?' before its digit starts, flashing 0/1 while spinning, its final bit once settled. */
  datatype Box = Hidden | Flashing(shown: char) | Settled(shown: char)

  /** The timer callback waiting to run, if any. */
  datatype Timer = NoTimer | StartDigitTimer(digit: nat) | AnimateDigitTimer(digit: nat, count: nat)

  /** The displayed boxes and the pending callback. */
  datatype Reveal = Reveal(boxes: seq<Box>, timer: Timer)

  function HiddenBoxes(n: nat): (boxes: seq<Box>)
    ensures |boxes| == n && forall k :: 0 <= k < n ==> boxes[k] == Hidden
  {
    seq(n, _ => Hidden)
  }

  /** Boxes settled on `bits`, one per character. */
  function SettledBoxes(bits: string): (boxes: seq<Box>)
    ensures |boxes| == |bits| && forall k :: 0 <= k < |bits| ==> boxes[k] == Settled(bits[k])
  {
    seq(|bits|, k requires 0 <= k < |bits| => Settled(bits[k]))
  }

  /** The boxes just drawn, with startDigitAnimation(0) about to run. */
  function Start(bits: string): Reveal {
    Reveal(HiddenBoxes(|bits|), StartDigitTimer(0))
  }

  /** One box per bit, and a spinning digit has its box. */
  predicate Scheduled(bits: string, s: Reveal) {
    |s.boxes| == |bits| && (s.timer.AnimateDigitTimer? ==> s.timer.digit < |bits|)
  }

  /** What animateDigit(digit, count) does to the boxes and the pending callback. */
  function AnimateDigitStep(bits: string, boxes: seq<Box>, digit: nat, count: nat): (t: Reveal)
    requires digit < |boxes| == |bits|
    ensures |t.boxes| == |boxes|
  {
    var flashing := boxes[digit := Flashing(BitChar(count % 2))];
    if count < MaxCount then Reveal(flashing, AnimateDigitTimer(digit, count + 1))
    else Reveal(flashing[digit := Settled(bits[digit])], StartDigitTimer(digit + 1))
  }

  /** What startDigitAnimation(digit) does: done when every digit has been revealed. */
  function StartDigitStep(bits: string, boxes: seq<Box>, digit: nat): (t: Reveal)
    requires |boxes| == |bits|
    ensures |t.boxes| == |boxes|
  {
    if digit >= |bits| then Reveal(boxes, NoTimer) else AnimateDigitStep(bits, boxes, digit, 0)
  }

  /** Run the pending callback; with none pending nothing happens. */
  function Tick(bits: string, s: Reveal): (t: Reveal)
    requires Scheduled(bits, s)
    ensures Scheduled(bits, t)
  {
    match s.timer
    case NoTimer => s
    case StartDigitTimer(d) => StartDigitStep(bits, s.boxes, d)
    case AnimateDigitTimer(d, c) => AnimateDigitStep(bits, s.boxes, d, c)
  }

  /** The pending callback is the completion branch of startDigitAnimation. */
  predicate Completes(bits: string, s: Reveal) {
    s.timer.StartDigitTimer? && s.timer.digit >= |bits|
  }

  /** `k` callbacks in a row. */
  function Run(bits: string, s: Reveal, k: nat): (t: Reveal)
    requires Scheduled(bits, s)
    ensures Scheduled(bits, t)
    decreases k
  {
    if k == 0 then s else Run(bits, Tick(bits, s), k - 1)
  }

  // ---------------------------------------------------------------------------
  // The reveal invariant

  /** Boxes before `digit` show their final bits. */
  ghost predicate SettledBefore(bits: string, boxes: seq<Box>, digit: nat)
    requires digit <= |bits| == |boxes|
  {
    forall k :: 0 <= k < digit ==> boxes[k] == Settled(bits[k])
  }

  /** Boxes from `digit` on still show '?'. */
  ghost predicate HiddenFrom(boxes: seq<Box>, digit: nat) {
    forall k :: digit <= k < |boxes| ==> boxes[k] == Hidden
  }

  /**
   * Digits are revealed strictly left to right: everything before the current
   * digit is settled on its final bit, everything after it is still hidden, a
   * spinning digit whose next callback is animateDigit(d, c) shows (c - 1) % 2,
   * and once no callback is pending every box shows its final bit.
   */
  ghost predicate Inv(bits: string, s: Reveal) {
    && |s.boxes| == |bits|
    && match s.timer
       case NoTimer => s.boxes == SettledBoxes(bits)
       case StartDigitTimer(d) =>
         d <= |bits| && SettledBefore(bits, s.boxes, d) && HiddenFrom(s.boxes, d)
       case AnimateDigitTimer(d, c) =>
         && d < |bits| && 1 <= c <= MaxCount
         && SettledBefore(bits, s.boxes, d)
         && s.boxes[d] == Flashing(BitChar((c - 1) % 2))
         && HiddenFrom(s.boxes, d + 1)
  }

  /** Callbacks still to run before the reveal is over (the completion callback included). */
  ghost function Remaining(bits: string, s: Reveal): nat
    requires Inv(bits, s)
  {
    match s.timer
    case NoTimer => 0
    case StartDigitTimer(d) => (MaxCount + 1) * (|bits| - d) + 1
    case AnimateDigitTimer(d, c) => (MaxCount + 1) * (|bits| - d) - c + 1
  }

  /**
   * The boxes just drawn satisfy the invariant, with 21 steps per digit plus
   * one to go: the synchronous startDigitAnimation(0) call and then 21 timer
   * callbacks per digit.
   */
  lemma StartInv(bits: string)
    ensures Inv(bits, Start(bits))
    ensures Remaining(bits, Start(bits)) == (MaxCount + 1) * |bits| + 1
  {
  }

  /** Every callback keeps the invariant, and brings the end exactly one callback closer. */
  lemma TickKeepsInv(bits: string, s: Reveal)
    requires Inv(bits, s) && !s.timer.NoTimer?
    ensures Inv(bits, Tick(bits, s))
    ensures Remaining(bits, Tick(bits, s)) == Remaining(bits, s) - 1
  {
    var t := Tick(bits, s);
    match s.timer
    case StartDigitTimer(d) =>
      if d < |bits| {
        assert t.boxes == s.boxes[d := Flashing('0')];
        assert SettledBefore(bits, t.boxes, d);
      } else {
        assert t.boxes == SettledBoxes(bits);
      }
    case AnimateDigitTimer(d, c) =>
      if c < MaxCount {
        assert t.boxes == s.boxes[d := Flashing(BitChar(c % 2))];
        assert SettledBefore(bits, t.boxes, d);
      } else {
        assert t.boxes == s.boxes[d := Settled(bits[d])];
        assert SettledBefore(bits, t.boxes, d + 1);
      }
  }

  /**
   * One callback changes at most the box of the digit it is about, and never
   * a box that has settled: resolved digits stay as they are.
   */
  lemma TickKeepsSettled(bits: string, s: Reveal)
    requires Inv(bits, s)
    ensures forall k :: 0 <= k < |bits| && s.boxes[k].Settled? ==> Tick(bits, s).boxes[k] == s.boxes[k]
    ensures forall k :: 0 <= k < |bits| && (s.timer.NoTimer? || k != s.timer.digit) ==>
      Tick(bits, s).boxes[k] == s.boxes[k]
  {
  }

  /** The completion branch is due exactly when one callback remains. */
  lemma CompletesLast(bits: string, s: Reveal)
    requires Inv(bits, s)
    ensures Completes(bits, s) <==> Remaining(bits, s) == 1
  {
  }

  /**
   * From any state of a reveal, the remaining callbacks run it to the end:
   * every box then shows its final bit and nothing is pending, and along the
   * way the invariant holds and the count of remaining callbacks falls by one
   * per callback.
   */
  lemma {:induction false} RunToEnd(bits: string, s: Reveal)
    requires Inv(bits, s)
    ensures Run(bits, s, Remaining(bits, s)) == Reveal(SettledBoxes(bits), NoTimer)
    ensures forall k :: 0 <= k <= Remaining(bits, s) ==>
      Inv(bits, Run(bits, s, k)) && Remaining(bits, Run(bits, s, k)) == Remaining(bits, s) - k
    decreases Remaining(bits, s)
  {
    if !s.timer.NoTimer? {
      var t := Tick(bits, s);
      TickKeepsInv(bits, s);
      RunToEnd(bits, t);
      forall k | 1 <= k <= Remaining(bits, s)
        ensures Run(bits, s, k) == Run(bits, t, k - 1)
      {
      }
    }
  }

  /**
   * The whole reveal of `winner`: after 21 steps per digit plus one the boxes
   * show WinnerBits(winner), which reads back as the winner; the completion
   * branch runs once, on the last step. The first step is the synchronous
   * startDigitAnimation(0) call of startBinaryAnimation, so 21 timer callbacks
   * per digit follow it.
   */
  lemma RevealOfWinner(winner: int)
    requires winner >= 1
    ensures var bits := WinnerBits(winner);
      var total := (MaxCount + 1) * |bits| + 1;
      && Run(bits, Start(bits), total) == Reveal(SettledBoxes(bits), NoTimer)
      && DecodeWinner(bits) == winner
      && Completes(bits, Run(bits, Start(bits), total - 1))
      && forall k :: 0 <= k < total - 1 ==> !Completes(bits, Run(bits, Start(bits), k))
  {
    var bits := WinnerBits(winner);
    WinnerBitsSpec(winner);
    StartInv(bits);
    RunToEnd(bits, Start(bits));
    var total := (MaxCount + 1) * |bits| + 1;
    forall k | 0 <= k < total
      ensures Completes(bits, Run(bits, Start(bits), k)) <==> k == total - 1
    {
      CompletesLast(bits, Run(bits, Start(bits), k));
    }
  }
}
