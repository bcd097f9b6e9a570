/**
 * The binary form of a winner shown by the reveal: `(winner - 1).toString(2)`
 * left-padded with '0' to `max(7, length)` characters, most significant bit
 * first.
 */
module BinaryCode {

  /** The fewest boxes a reveal shows. */
  const MinDigits := 7

  predicate IsBitString(s: string) {
    forall k :: 0 <= k < |s| ==> s[k] == '0' || s[k] == '1'
  }

  function BitChar(b: nat): char
    requires b < 2
  {
    if b == 0 then '0' else '1'
  }

  function BitValue(c: char): nat {
    if c == '1' then 1 else 0
  }

  function Pow2(k: nat): nat {
    if k == 0 then 1 else 2 * Pow2(k - 1)
  }

  function Max(a: int, b: int): int {
    if a >= b then a else b
  }

  /**
   * `Number.prototype.toString(2)` of a non-negative integer: a bit string
   * without leading zeros, "0" exactly for zero.
   */
  function ToBinary(n: nat): (s: string)
    ensures |s| >= 1 && IsBitString(s)
    ensures s == "0" <==> n == 0
    ensures s[0] == '1' || s == "0"
  {
    if n < 2 then [BitChar(n)] else ToBinary(n / 2) + [BitChar(n % 2)]
  }

  /** The value of a bit string read in base 2, most significant bit first. */
  function FromBinary(s: string): nat {
    if s == [] then 0 else 2 * FromBinary(s[..|s| - 1]) + BitValue(s[|s| - 1])
  }

  /** `count` copies of '0'. */
  function Zeros(count: nat): (z: string)
    ensures |z| == count
    ensures forall k :: 0 <= k < count ==> z[k] == '0'
  {
    if count == 0 then [] else Zeros(count - 1) + ['0']
  }

  /** `String.prototype.padStart(width, '0')`. */
  function PadStart(s: string, width: nat): string {
    if |s| >= width then s else Zeros(width - |s|) + s
  }

  /** The string the boxes settle on for `winner`. */
  function WinnerBits(winner: int): string
    requires winner >= 1
  {
    var binary := ToBinary(winner - 1);
    PadStart(binary, Max(MinDigits, |binary|))
  }

  /** The winner a settled row of boxes stands for. */
  function DecodeWinner(bits: string): int {
    FromBinary(bits) + 1
  }

  // ---------------------------------------------------------------------------
  // Properties

  /** Reading the binary form back gives the number. */
  lemma {:induction false} ToBinaryRoundTrip(n: nat)
    ensures FromBinary(ToBinary(n)) == n
  {
    if n >= 2 {
      var s := ToBinary(n);
      var front := ToBinary(n / 2);
      assert s[..|s| - 1] == front;
      ToBinaryRoundTrip(n / 2);
    }
  }

  /** A bit string starting with '1' is worth at least 2^(|s| - 1). */
  lemma {:induction false} LeadingOnePositive(s: string)
    requires |s| >= 1 && IsBitString(s) && s[0] == '1'
    ensures FromBinary(s) >= Pow2(|s| - 1)
  {
    if |s| > 1 {
      LeadingOnePositive(s[..|s| - 1]);
    }
  }

  /** A bit string without leading zeros (or "0") is the binary form of its value. */
  lemma {:induction false} FromBinaryRoundTrip(s: string)
    requires |s| >= 1 && IsBitString(s) && (s[0] == '1' || s == "0")
    ensures ToBinary(FromBinary(s)) == s
  {
    if |s| == 1 {
      assert s == "0" || s == "1";
    } else {
      var front := s[..|s| - 1];
      LeadingOnePositive(front);
      FromBinaryRoundTrip(front);
      assert s == front + [s[|s| - 1]];
    }
  }

  /** The binary form has exactly the bit length of n: 2^(len-1) <= n < 2^len for n >= 1. */
  lemma {:induction false} ToBinaryLength(n: nat)
    ensures n < Pow2(|ToBinary(n)|)
    ensures n >= 1 ==> Pow2(|ToBinary(n)| - 1) <= n
  {
    if n >= 2 {
      ToBinaryLength(n / 2);
    }
  }

  /** Leading zeros do not change the value. */
  lemma {:induction false} LeadingZerosValue(count: nat, s: string)
    ensures FromBinary(Zeros(count) + s) == FromBinary(s)
    decreases |s|, count
  {
    if s == [] {
      assert Zeros(count) + s == Zeros(count);
      if count > 0 {
        assert Zeros(count)[..count - 1] == Zeros(count - 1);
        LeadingZerosValue(count - 1, []);
        assert Zeros(count - 1) + [] == Zeros(count - 1);
      }
    } else {
      var front := s[..|s| - 1];
      assert (Zeros(count) + s)[..|Zeros(count) + s| - 1] == Zeros(count) + front;
      LeadingZerosValue(count, front);
    }
  }

  /**
   * The settled boxes: at least seven of them, exactly as many as the bit
   * length of winner - 1 when that is longer, all '0' or '1', and read in
   * base 2 they give back the winner.
   */
  lemma WinnerBitsSpec(winner: int)
    requires winner >= 1
    ensures |WinnerBits(winner)| == Max(MinDigits, |ToBinary(winner - 1)|)
    ensures IsBitString(WinnerBits(winner))
    ensures FromBinary(WinnerBits(winner)) == winner - 1
    ensures DecodeWinner(WinnerBits(winner)) == winner
  {
    var binary := ToBinary(winner - 1);
    ToBinaryRoundTrip(winner - 1);
    if |binary| < MinDigits {
      LeadingZerosValue(MinDigits - |binary|, binary);
    }
  }

  /** Different winners settle on different rows of boxes. */
  lemma WinnerBitsInjective(a: int, b: int)
    requires a >= 1 && b >= 1 && WinnerBits(a) == WinnerBits(b)
    ensures a == b
  {
    WinnerBitsSpec(a);
    WinnerBitsSpec(b);
  }

  /** Winner 5 shows 0000100 in seven boxes. */
  lemma WinnerBitsOfFive()
    ensures WinnerBits(5) == "0000100"
  {
    assert ToBinary(2) == "10";
    assert ToBinary(4) == "100";
  }

  /** Winner 200 shows 11000111: eight boxes, no padding. */
  lemma WinnerBitsOfTwoHundred()
    ensures WinnerBits(200) == "11000111"
  {
    BinaryOf24();
    assert ToBinary(49) == ToBinary(24) + ['1'];
    assert ToBinary(99) == ToBinary(49) + ['1'];
    assert ToBinary(199) == ToBinary(99) + ['1'];
    assert ToBinary(199) == "11000111";
  }

  lemma BinaryOf24()
    ensures ToBinary(24) == "11000"
  {
    assert ToBinary(3) == "11";
    assert ToBinary(6) == ToBinary(3) + ['0'];
    assert ToBinary(12) == ToBinary(6) + ['0'];
    assert ToBinary(24) == ToBinary(12) + ['0'];
  }

  /** Winner 1 shows seven zeros. */
  lemma WinnerBitsOfOne()
    ensures WinnerBits(1) == "0000000"
  {
    assert ToBinary(0) == "0";
  }
}
