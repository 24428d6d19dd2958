/** Counting and writing the decimal digits of unsigned numbers. */
module Decimals {
  import opened ByteValues
  import opened Numerals
  import opened Bits

  function PowersOfTen(t: nat): nat
    requires t < 20
  {
    if t == 0 then 0 else if t == 1 then 10
    else if t == 2 then 100
    else if t == 3 then 1000
    else if t == 4 then 10000
    else if t == 5 then 100000
    else if t == 6 then 1000000
    else if t == 7 then 10000000
    else if t == 8 then 100000000
    else if t == 9 then 1000000000
    else if t == 10 then 10000000000
    else if t == 11 then 100000000000
    else if t == 12 then 1000000000000
    else if t == 13 then 10000000000000
    else if t == 14 then 100000000000000
    else if t == 15 then 1000000000000000
    else if t == 16 then 10000000000000000
    else if t == 17 then 100000000000000000
    else if t == 18 then 1000000000000000000
    else 10000000000000000000
  }

  /** The significant bits of n, which is 64 less the leading zeros of a 64-bit n. */
  function BitLength(n: nat): nat
  {
    if n == 0 then 0 else 1 + BitLength(n / 2)
  }

  function CountLeadingZeros(n: nat, width: nat): nat
    requires BitLength(n) <= width
  {
    width - BitLength(n)
  }

  lemma {:induction false} BitLengthBounds(n: nat)
    requires n > 0
    ensures BitLength(n) > 0 && Pow2(BitLength(n) - 1) <= n < Pow2(BitLength(n))
    decreases n
  {
    if n > 1 { BitLengthBounds(n / 2); }
  }

  lemma {:induction false} BitLengthFits(n: nat, width: nat)
    requires n < Pow2(width)
    ensures BitLength(n) <= width
    decreases width
  {
    if n > 0 { BitLengthFits(n / 2, width - 1); }
  }

  lemma {:induction false} Pow2Monotone(j: nat, k: nat)
    requires j <= k
    ensures Pow2(j) <= Pow2(k)
    decreases k
  {
    if j < k { Pow2Monotone(j, k - 1); }
  }

  /** n | 1 */
  lemma OrOne(n: nat)
    ensures n <= Or(n, 1) <= n + 1
    ensures Or(n, 1) == if n % 2 == 1 then n else n + 1
  {
    if n > 0 {
      assert Or(n / 2, 0) == n / 2;
      assert Or(n, 1) == 2 * Or(n / 2, 0) + 1;
    }
  }

  lemma BitLengthOrOne(n: nat)
    ensures BitLength(Or(n, 1)) == if n == 0 then 1 else BitLength(n)
  {
    OrOne(n);
    assert BitLength(1) == 1 + BitLength(0);
  }

  /** The power of ten the bit length b is looked up at. */
  function Guess(b: nat): (t: nat)
    ensures b <= 64 ==> t < 20
  {
    b * 1233 / 4096
  }

  /** Numbers of bit length b have Guess(b) digits or one more. */
  predicate Between(b: nat)
    requires 1 <= b <= 64
  {
    var t := Guess(b);
    (t > 0 ==> PowersOfTen(t) <= 10 * Pow2(b - 1)) && (t < 19 ==> Pow2(b) <= PowersOfTen(t + 1))
  }

  /** Three lengths with one guess, from the power of two below them. */
  lemma ThreeBetween(t: nat, low: nat, below: nat, b: nat)
    requires t < 19 && 1 <= low <= 61 && Pow2(low - 1) == below
    requires 4096 * t <= low * 1233 && (low + 2) * 1233 < 4096 * (t + 1)
    requires (t > 0 ==> PowersOfTen(t) <= 10 * below) && 8 * below <= PowersOfTen(t + 1)
    ensures low <= b <= low + 2 ==> Between(b)
    ensures Pow2(low + 2) == 8 * below
  {
    assert Pow2(low) == 2 * below;
    assert Pow2(low + 1) == 4 * below;
    if low <= b <= low + 2 { assert Guess(b) == t; }
  }

  /** Four. */
  lemma FourBetween(t: nat, low: nat, below: nat, b: nat)
    requires t < 19 && 1 <= low <= 60 && Pow2(low - 1) == below
    requires 4096 * t <= low * 1233 && (low + 3) * 1233 < 4096 * (t + 1)
    requires (t > 0 ==> PowersOfTen(t) <= 10 * below) && 16 * below <= PowersOfTen(t + 1)
    ensures low <= b <= low + 3 ==> Between(b)
    ensures Pow2(low + 3) == 16 * below
  {
    assert Pow2(low) == 2 * below;
    assert Pow2(low + 1) == 4 * below;
    assert Pow2(low + 2) == 8 * below;
    if low <= b <= low + 3 { assert Guess(b) == t; }
  }

  lemma Between1To13(b: nat)
    ensures 1 <= b <= 13 ==> Between(b)
    ensures Pow2(13) == 8192
  {
    ThreeBetween(0, 1, 1, b);
    ThreeBetween(1, 4, 8, b);
    ThreeBetween(2, 7, 64, b);
    FourBetween(3, 10, 512, b);
  }

  lemma Between14To26(b: nat)
    ensures 14 <= b <= 26 ==> Between(b)
    ensures Pow2(26) == 67108864
  {
    Between1To13(b);
    ThreeBetween(4, 14, 8192, b);
    ThreeBetween(5, 17, 65536, b);
    FourBetween(6, 20, 524288, b);
    ThreeBetween(7, 24, 8388608, b);
  }

  lemma Between27To39(b: nat)
    ensures 27 <= b <= 39 ==> Between(b)
    ensures Pow2(39) == 549755813888
  {
    Between14To26(b);
    ThreeBetween(8, 27, 67108864, b);
    FourBetween(9, 30, 536870912, b);
    ThreeBetween(10, 34, 8589934592, b);
    ThreeBetween(11, 37, 68719476736, b);
  }

  lemma Between40To53(b: nat)
    ensures 40 <= b <= 53 ==> Between(b)
    ensures Pow2(53) == 9007199254740992
  {
    Between27To39(b);
    FourBetween(12, 40, 549755813888, b);
    ThreeBetween(13, 44, 8796093022208, b);
    ThreeBetween(14, 47, 70368744177664, b);
    FourBetween(15, 50, 562949953421312, b);
  }

  lemma Between54To64(b: nat)
    ensures 54 <= b <= 64 ==> Between(b)
  {
    Between40To53(b);
    ThreeBetween(16, 54, 9007199254740992, b);
    ThreeBetween(17, 57, 72057594037927936, b);
    FourBetween(18, 60, 576460752303423488, b);
    assert b == 64 ==> Guess(b) == 19;
  }

  lemma AllBetween(b: nat)
    requires 1 <= b <= 64
    ensures Between(b)
  {
    Between1To13(b);
    Between14To26(b);
    Between27To39(b);
    Between40To53(b);
    Between54To64(b);
  }

  lemma Pow2Square(k: nat, v: nat)
    requires Pow2(k) == v
    ensures Pow2(2 * k) == v * v
  {
    Pow2Add(k, k);
  }

  lemma WordRanges()
    ensures Pow2(32) == WORD32 && Pow2(64) == WORD64
  {
    Pow2Square(8, 256);
    Pow2Square(16, 0x1_0000);
    Pow2Square(32, WORD32);
  }

  predicate IsWord(n: nat, width: nat)
  {
    (width == 32 && n < WORD32) || (width == 64 && n < WORD64)
  }

  lemma SignificantBits(n: nat, width: nat)
    requires IsWord(n, width)
    ensures var b := BitLength(Or(n, 1));
            1 <= b <= width && n < Pow2(b) && (if n == 0 then b == 1 else Pow2(b - 1) <= n)
  {
    BitLengthOrOne(n);
    WordRanges();
    BitLengthFits(n, width);
    if n > 0 { BitLengthBounds(n); }
  }

  /** The count by the number of significant bits, in words of 32 and of 64 bits. The table of the
      32-bit form is the first ten entries. */
  function CountDigits(n: nat, width: nat): nat
    requires IsWord(n, width)
  {
    SignificantBits(n, width);
    var t := Guess(width - CountLeadingZeros(Or(n, 1), width));
    t - (if n < PowersOfTen(t) then 1 else 0) + 1
  }

  lemma TableIsPowers(t: nat)
    requires 0 < t < 20
    ensures PowersOfTen(t) == Power(10, t)
  {
    if t == 1 { assert Power(10, 0) == 1; }
    else {
      TableIsPowers(t - 1);
      assert PowersOfTen(t) == 10 * PowersOfTen(t - 1);
    }
  }

  lemma LengthByTable(n: nat, t: nat)
    requires 0 < t < 20
    ensures |Decimal(n)| <= t <==> n < PowersOfTen(t)
  {
    TableIsPowers(t);
    NumeralLength(n, 10, false, t);
  }

  lemma CountBetween(n: nat, t: nat)
    requires t < 20 && n < WORD64
    requires t > 0 ==> PowersOfTen(t) <= 10 * n
    requires t < 19 ==> n < PowersOfTen(t + 1)
    ensures |Decimal(n)| == t - (if n < PowersOfTen(t) then 1 else 0) + 1
  {
    if t > 0 { LengthByTable(n, t); }
    if t > 1 {
      assert PowersOfTen(t) == 10 * PowersOfTen(t - 1);
      LengthByTable(n, t - 1);
    }
    if t < 19 {
      LengthByTable(n, t + 1);
    } else {
      TableIsPowers(19);
      assert Power(10, 20) == 10 * Power(10, 19);
      NumeralLength(n, 10, false, 20);
    }
  }

  lemma BracketByGuess(n: nat, b: nat, t: nat)
    requires 1 <= b <= 64 && t == Guess(b)
    requires n < Pow2(b) && (if n == 0 then b == 1 else Pow2(b - 1) <= n)
    ensures t > 0 ==> PowersOfTen(t) <= 10 * n
    ensures t < 19 ==> n < PowersOfTen(t + 1)
  {
    AllBetween(b);
  }

  /** The table is looked up inside its bounds, and the count is the length of the numeral. */
  lemma CountDigitsExact(n: nat, width: nat)
    requires IsWord(n, width)
    ensures CountDigits(n, width) == |Decimal(n)|
    ensures BitLength(Or(n, 1)) <= width && (width == 32 ==> Guess(BitLength(Or(n, 1))) < 10)
  {
    var b := BitLength(Or(n, 1));
    SignificantBits(n, width);
    BracketByGuess(n, b, Guess(b));
    CountBetween(n, Guess(b));
  }

  lemma TenUnits(n: nat)
    requires n >= 10
    ensures |Decimal(n)| == |Decimal(n / 10)| + 1
  {
  }

  lemma FourUnits(n: nat)
    requires n >= 10
    ensures |Decimal(n)| == if n < 100 then 2 else if n < 1000 then 3 else if n < 10000 then 4
                            else |Decimal(n / 10000)| + 4
  {
    TenUnits(n);
    if n >= 100 {
      assert n / 10 / 10 == n / 100;
      TenUnits(n / 10);
    }
    if n >= 1000 {
      assert n / 100 / 10 == n / 1000;
      TenUnits(n / 100);
    }
    if n >= 10000 {
      assert n / 1000 / 10 == n / 10000;
      TenUnits(n / 1000);
    }
  }

  /** The form for compilers that cannot count leading zeros. */
  method CountDigitsByDivision(value: nat) returns (digits: nat)
    ensures digits == |Decimal(value)|
  {
    var n := value;
    var count := 1;
    while true
      invariant |Decimal(value)| == |Decimal(n)| + count - 1
      decreases n
    {
      if n < 10 { return count; }
      FourUnits(n);
      if n < 100 { return count + 1; }
      if n < 1000 { return count + 2; }
      if n < 10000 { return count + 3; }
      n := n / 10000;
      count := count + 4;
    }
  }

  /** The table of pairs of digits. */
  function PairDigit(index: nat): char
    requires index < 200
  {
    if index < 40 then "0001020304050607080910111213141516171819"[index]
    else if index < 80 then "2021222324252627282930313233343536373839"[index - 40]
    else if index < 120 then "4041424344454647484950515253545556575859"[index - 80]
    else if index < 160 then "6061626364656667686970717273747576777879"[index - 120]
    else "8081828384858687888990919293949596979899"[index - 160]
  }

  lemma DigitPair0(v: nat)
    requires 0 <= v < 20
    ensures PairDigit(2 * v) == DigitChar(v / 10, false) && PairDigit(2 * v + 1) == DigitChar(v % 10, false)
  {
  }

  lemma DigitPair1(v: nat)
    requires 20 <= v < 40
    ensures PairDigit(2 * v) == DigitChar(v / 10, false) && PairDigit(2 * v + 1) == DigitChar(v % 10, false)
  {
  }

  lemma DigitPair2(v: nat)
    requires 40 <= v < 60
    ensures PairDigit(2 * v) == DigitChar(v / 10, false) && PairDigit(2 * v + 1) == DigitChar(v % 10, false)
  {
  }

  lemma DigitPair3(v: nat)
    requires 60 <= v < 80
    ensures PairDigit(2 * v) == DigitChar(v / 10, false) && PairDigit(2 * v + 1) == DigitChar(v % 10, false)
  {
  }

  lemma DigitPair4(v: nat)
    requires 80 <= v < 100
    ensures PairDigit(2 * v) == DigitChar(v / 10, false) && PairDigit(2 * v + 1) == DigitChar(v % 10, false)
  {
  }

  lemma DigitPair(v: nat)
    requires v < 100
    ensures PairDigit(2 * v) == DigitChar(v / 10, false) && PairDigit(2 * v + 1) == DigitChar(v % 10, false)
  {
    if v < 20 { DigitPair0(v); }
    else if v < 40 { DigitPair1(v); }
    else if v < 60 { DigitPair2(v); }
    else if v < 80 { DigitPair3(v); }
    else { DigitPair4(v); }
  }

  lemma TwoDigits(v: nat)
    requires 10 <= v < 100
    ensures Decimal(v) == [DigitChar(v / 10, false), DigitChar(v % 10, false)]
  {
    OneDigit(v / 10, 10, false);
    NumeralAppend(v / 10, v % 10, 10, false);
  }

  lemma LastTwoDigits(w: nat, r: nat)
    requires w > 0 && r < 100
    ensures Decimal(100 * w + r) == Decimal(w) + [DigitChar(r / 10, false), DigitChar(r % 10, false)]
  {
    var a, b := r / 10, r % 10;
    NumeralAppend(w, a, 10, false);
    NumeralAppend(10 * w + a, b, 10, false);
    assert 10 * (10 * w + a) + b == 100 * w + r;
  }
}
