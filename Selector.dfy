/**
 * Winner selection: every number from 1 to maxNumber except the winners of
 * the last three entries of the history array, falling back to the whole
 * range when that leaves nothing, and one of them picked by a random index.
 */
module Selector {
  import opened History

  /** The winners of a list of records, in the same order. */
  function Winners(records: seq<Record>): (ws: seq<int>)
    ensures |ws| == |records|
    ensures forall k :: 0 <= k < |records| ==> ws[k] == records[k].winner
  {
    if records == [] then [] else [records[0].winner] + Winners(records[1..])
  }

  /**
   * `history.slice(-3).map(item => item.winner)`: the winners of the last
   * three array entries. The log is newest first, so these are the three
   * OLDEST draws (see OldestDrawsAreExcluded).
   */
  function RecentWinners(history: seq<Record>): (recent: seq<int>)
    ensures |recent| == if |history| < 3 then |history| else 3
    ensures forall k :: 0 <= k < |recent| ==> recent[k] == history[|history| - |recent| + k].winner
  {
    Winners(if |history| <= 3 then history else history[|history| - 3..])
  }

  /** The numbers 1..n that are not in `excluded`, in increasing order. */
  function Excluding(n: int, excluded: seq<int>): seq<int>
    decreases n
  {
    if n < 1 then []
    else Excluding(n - 1, excluded) + (if n in excluded then [] else [n])
  }

  /**
   * Excluding(n, excluded) holds exactly the numbers of [1, n] outside
   * `excluded`, in strictly increasing order.
   */
  lemma {:induction false} ExcludingSpec(n: int, excluded: seq<int>)
    ensures forall x :: x in Excluding(n, excluded) <==> 1 <= x <= n && x !in excluded
    ensures forall k :: 0 <= k < |Excluding(n, excluded)| ==> 1 <= Excluding(n, excluded)[k] <= n
    ensures forall i, j :: 0 <= i < j < |Excluding(n, excluded)| ==>
      Excluding(n, excluded)[i] < Excluding(n, excluded)[j]
  {
    if n >= 1 {
      ExcludingSpec(n - 1, excluded);
    }
  }

  /** `Array.from({length: n}, (_, i) => i + 1)`. */
  function FullRange(n: int): (r: seq<int>)
    ensures |r| == if n < 0 then 0 else n
    ensures forall k :: 0 <= k < |r| ==> r[k] == k + 1
  {
    FullRangeIsIdentity(n);
    Excluding(n, [])
  }

  lemma {:induction false} FullRangeIsIdentity(n: int)
    ensures |Excluding(n, [])| == if n < 0 then 0 else n
    ensures forall k :: 0 <= k < |Excluding(n, [])| ==> Excluding(n, [])[k] == k + 1
  {
    if n >= 1 {
      FullRangeIsIdentity(n - 1);
    }
  }

  /** The list the random index is drawn from (`numbersToUse`). */
  function Candidates(maxNumber: int, recent: seq<int>): (c: seq<int>)
    ensures forall k :: 0 <= k < |c| ==> 1 <= c[k] <= maxNumber
  {
    ExcludingSpec(maxNumber, recent);
    var available := Excluding(maxNumber, recent);
    if |available| > 0 then available else FullRange(maxNumber)
  }

  /**
   * The candidate list: never empty for maxNumber >= 1, every entry in
   * [1, maxNumber], each entry exactly once (so a uniform index is a uniform
   * choice), recent winners left out whenever some number is not one of them,
   * and the whole range 1..maxNumber otherwise.
   */
  lemma CandidatesSpec(maxNumber: int, recent: seq<int>)
    requires maxNumber >= 1
    ensures 1 <= |Candidates(maxNumber, recent)| <= maxNumber
    ensures forall x :: x in Candidates(maxNumber, recent) ==> 1 <= x <= maxNumber
    ensures forall i, j :: 0 <= i < j < |Candidates(maxNumber, recent)| ==>
      Candidates(maxNumber, recent)[i] < Candidates(maxNumber, recent)[j]
    ensures (exists x :: 1 <= x <= maxNumber && x !in recent) ==>
      Candidates(maxNumber, recent) == Excluding(maxNumber, recent)
    ensures (forall x :: 1 <= x <= maxNumber ==> x in recent) ==>
      Candidates(maxNumber, recent) == FullRange(maxNumber)
  {
    var available := Excluding(maxNumber, recent);
    ExcludingSpec(maxNumber, recent);
    if |available| > 0 {
      SortedWithinRange(available, maxNumber);
      forall x | x in available ensures 1 <= x <= maxNumber { }
    } else {
      assert FullRange(maxNumber)[0] == 1;
    }
  }

  /** A strictly increasing list inside [1, n] has at most n entries. */
  lemma {:induction false} SortedWithinRange(s: seq<int>, n: int)
    requires forall i, j :: 0 <= i < j < |s| ==> s[i] < s[j]
    requires forall k :: 0 <= k < |s| ==> 1 <= s[k] <= n
    requires n >= 0
    ensures |s| <= n
  {
    if s != [] {
      var init := s[..|s| - 1];
      assert forall k :: 0 <= k < |init| ==> init[k] == s[k] < s[|s| - 1];
      SortedWithinRange(init, s[|s| - 1] - 1);
      assert s[|s| - 1] <= n;
    }
  }

  /**
   * selectWinner with `Math.random()` replaced by the index `r` it would
   * produce: the result is the candidate at `r`, lies in [1, maxNumber], and
   * is one of the excluded winners only when every number is excluded.
   */
  method SelectWinner(maxNumber: int, history: seq<Record>, r: nat) returns (winner: int)
    requires maxNumber >= 1
    requires r < |Candidates(maxNumber, RecentWinners(history))|
    ensures winner == Candidates(maxNumber, RecentWinners(history))[r]
    ensures 1 <= winner <= maxNumber
    ensures winner in RecentWinners(history) ==>
      forall x :: 1 <= x <= maxNumber ==> x in RecentWinners(history)
  {
    var recentWinners := RecentWinners(history);
    var available: seq<int> := [];
    var i := 1;
    while i <= maxNumber
      invariant 1 <= i <= maxNumber + 1
      invariant available == Excluding(i - 1, recentWinners)
    {
      if i !in recentWinners {
        available := available + [i];
      }
      i := i + 1;
    }
    var numbersToUse := if |available| > 0 then available else FullRange(maxNumber);
    winner := numbersToUse[r];
    CandidatesSpec(maxNumber, recentWinners);
    ExcludingSpec(maxNumber, recentWinners);
    assert winner in numbersToUse;
  }

  /**
   * At most three winners are excluded, so from four numbers on the exclusion
   * never empties the list and the fallback is never taken.
   */
  lemma NeverFallsBackFromFour(maxNumber: int, history: seq<Record>)
    requires maxNumber >= 4
    ensures exists x :: 1 <= x <= maxNumber && x !in RecentWinners(history)
    ensures Candidates(maxNumber, RecentWinners(history)) == Excluding(maxNumber, RecentWinners(history))
  {
    var recent := RecentWinners(history);
    var x := OneOfFourMissing(recent);
    ExcludingSpec(maxNumber, recent);
    assert x in Excluding(maxNumber, recent);
  }

  /** Three entries cannot hold all of 1, 2, 3 and 4. */
  lemma OneOfFourMissing(recent: seq<int>) returns (x: int)
    requires |recent| <= 3
    ensures 1 <= x <= 4 && x !in recent
  {
    var a := if |recent| > 0 then recent[0] else 0;
    var b := if |recent| > 1 then recent[1] else 0;
    var c := if |recent| > 2 then recent[2] else 0;
    x := if 1 != a && 1 != b && 1 != c then 1
      else if 2 != a && 2 != b && 2 != c then 2
      else if 3 != a && 3 != b && 3 != c then 3
      else 4;
    assert forall k :: 0 <= k < |recent| ==> recent[k] == a || recent[k] == b || recent[k] == c;
  }

  /**
   * Because the log is newest first, `slice(-3)` excludes the three oldest
   * draws: with winners 5, 1, 2, 3 (newest first) and maxNumber 10, the
   * candidates are 4..10, so the number 5 drawn last can be drawn again,
   * while 1, 2 and 3 cannot.
   */
  lemma OldestDrawsAreExcluded(history: seq<Record>)
    requires history == [Record(5, 4000, ""), Record(1, 3000, ""), Record(2, 2000, ""), Record(3, 1000, "")]
    ensures RecentWinners(history) == [1, 2, 3]
    ensures Candidates(10, RecentWinners(history)) == [4, 5, 6, 7, 8, 9, 10]
    ensures history[0].winner in Candidates(10, RecentWinners(history))
  {
    assert RecentWinners(history) == [1, 2, 3];
    ExcludingOneToThree();
  }

  lemma ExcludingOneToThree()
    ensures Excluding(10, [1, 2, 3]) == [4, 5, 6, 7, 8, 9, 10]
  {
    var e := [1, 2, 3];
    ExcludingUpToFive();
    assert Excluding(6, e) == Excluding(5, e) + [6];
    assert Excluding(7, e) == Excluding(6, e) + [7];
    assert Excluding(8, e) == Excluding(7, e) + [8];
    assert Excluding(9, e) == Excluding(8, e) + [9];
    assert Excluding(10, e) == Excluding(9, e) + [10];
  }

  lemma ExcludingUpToFive()
    ensures Excluding(5, [1, 2, 3]) == [4, 5]
  {
    var e := [1, 2, 3];
    assert Excluding(1, e) == [];
    assert Excluding(2, e) == Excluding(1, e);
    assert Excluding(3, e) == Excluding(2, e);
    assert Excluding(4, e) == Excluding(3, e) + [4];
    assert Excluding(5, e) == Excluding(4, e) + [5];
  }
}
