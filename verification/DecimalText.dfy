/** Writing decimal digits into buffers, two at a time. */
module DecimalText {
  import opened ByteValues
  import opened Numerals
  import opened Decimals
  import opened FormatBuffers

  function Pair(v: nat): string
    requires v < 100
  {
    [DigitChar(v / 10, false), DigitChar(v % 10, false)]
  }

  method PutPair(buffer: array<char>, at: nat, v: nat)
    requires v < 100 && at + 2 <= buffer.Length
    modifies buffer
    ensures buffer[..] == Spliced(old(buffer[..]), at, Pair(v))
  {
    var index := v * 2;
    DigitPair(v);
    buffer[at + 1] := PairDigit(index + 1);
    buffer[at] := PairDigit(index);
  }

  method PutDigit(buffer: array<char>, at: nat, v: nat)
    requires v < 10 && at < buffer.Length
    modifies buffer
    ensures buffer[..] == Spliced(old(buffer[..]), at, Decimal(v))
  {
    OneDigit(v, 10, false);
    buffer[at] := '0' + v as char;
  }

  /** The last two digits of v go to the places before those of the digits already written. */
  method PutLastPair(buffer: array<char>, start: nat, v: nat, num_digits: nat, ghost was: string, ghost done: string)
    returns (w: nat, ghost pair: string)
    requires v >= 100 && num_digits + 1 == |Decimal(v)| && start + |Decimal(v)| + |done| <= buffer.Length == |was|
    requires buffer[..] == Spliced(was, start + |Decimal(v)|, done)
    modifies buffer
    ensures w < v && |pair| == 2 && Decimal(v) == Decimal(w) + pair
    ensures buffer[..] == Spliced(was, start + |Decimal(w)|, pair + done)
  {
    var r := v % 100;
    w := v / 100;
    LastTwoDigits(w, r);
    pair := Pair(r);
    SplicedBefore(was, start + |Decimal(w)|, pair, done);
    PutPair(buffer, start + num_digits - 1, r);
  }

  method PutShort(buffer: array<char>, start: nat, v: nat) returns (end: nat)
    requires v < 100 && start + |Decimal(v)| <= buffer.Length
    modifies buffer
    ensures end == start + |Decimal(v)|
    ensures buffer[..] == Spliced(old(buffer[..]), start, Decimal(v))
  {
    if v < 10 {
      PutDigit(buffer, start, v);
      OneDigit(v, 10, false);
      end := start + 1;
    } else {
      TwoDigits(v);
      PutPair(buffer, start, v);
      end := start + 2;
    }
  }

  method PutFirst(buffer: array<char>, start: nat, v: nat, ghost was: string, ghost done: string)
    requires v < 100 && start + |Decimal(v)| + |done| <= buffer.Length == |was|
    requires buffer[..] == Spliced(was, start + |Decimal(v)|, done)
    modifies buffer
    ensures buffer[..] == Spliced(was, start, Decimal(v) + done)
  {
    SplicedBefore(was, start, Decimal(v), done);
    var end := PutShort(buffer, start, v);
  }

  /** Writes the digits of value in the num_digits places from start, and nothing else. */
  method FormatDecimal(buffer: array<char>, start: nat, value: nat, num_digits: nat)
    requires num_digits == |Decimal(value)| && start + num_digits <= buffer.Length
    modifies buffer
    ensures buffer[..] == Spliced(old(buffer[..]), start, Decimal(value))
  {
    var v, n := value, num_digits - 1;
    ghost var was, done := buffer[..], [];
    while v >= 100
      invariant Decimal(value) == Decimal(v) + done && |Decimal(v)| == n + 1
      invariant buffer[..] == Spliced(was, start + |Decimal(v)|, done)
    {
      ghost var pair;
      v, pair := PutLastPair(buffer, start, v, n, was, done);
      done := pair + done;
      n := n - 2;
    }
    PutFirst(buffer, start, v, was, done);
  }

  /** The digits of a 64-bit number fit in twenty places, of the least of them in nineteen. */
  lemma DecimalFits(n: nat)
    requires n < WORD64
    ensures |Decimal(n)| <= 20 && (2 * n <= WORD64 ==> |Decimal(n)| <= 19)
  {
    TableIsPowers(19);
    assert Power(10, 20) == 10 * Power(10, 19);
    NumeralLength(n, 10, false, 20);
    NumeralLength(n, 10, false, 19);
  }

  function Negative(n: nat): nat
    requires n < WORD64
  {
    if n == 0 then 0 else WORD64 - n
  }

  /** A signed 64-bit number as an unsigned one. */
  function Unsigned(value: int): (n: nat)
    requires -WORD64 <= 2 * value < WORD64
    ensures n < WORD64
  {
    if value < 0 then value + WORD64 else value
  }

  function SignedDecimal(value: int): string
  {
    if value < 0 then ['-'] + Decimal(-value) else Decimal(value)
  }

  /** The number a text with an optional minus denotes. */
  function SignedValue(s: string): int
    requires s != [] && AllDigits(if s[0] == '-' then s[1..] else s, 10)
  {
    if s[0] == '-' then -(Value(s[1..], 10) as int) else Value(s, 10)
  }

  lemma MinusValue(d: string)
    requires AllDigits(d, 10)
    ensures var s := ['-'] + d;
            AllDigits(s[1..], 10) && SignedValue(s) == -(Value(d, 10) as int)
  {
    assert (['-'] + d)[1..] == d;
  }

  lemma PlainValue(d: string)
    requires d != [] && AllDigits(d, 10)
    ensures d[0] != '-' && SignedValue(d) == Value(d, 10)
  {
    assert IsDigit(d[0], 10);
  }

  lemma SignedDecimalDenotes(value: int)
    ensures var s := SignedDecimal(value);
            AllDigits(if s[0] == '-' then s[1..] else s, 10) && SignedValue(s) == value
  {
    var n: nat := if value < 0 then -value else value;
    var d := Decimal(n);
    NumeralDenotes(n, 10, false);
    if value < 0 { MinusValue(d); } else { PlainValue(d); }
  }

  method DigitsOf(n: nat, width: nat) returns (num_digits: nat)
    requires IsWord(n, width)
    ensures num_digits == |Decimal(n)|
  {
    num_digits := CountDigits(n, width);
    CountDigitsExact(n, width);
  }

  method FormatMagnitude(buffer: array<char>, start: nat, abs_value: nat) returns (end: nat)
    requires abs_value < WORD64 && start + |Decimal(abs_value)| <= buffer.Length
    modifies buffer
    ensures end == start + |Decimal(abs_value)|
    ensures buffer[..] == Spliced(old(buffer[..]), start, Decimal(abs_value))
  {
    if abs_value < 100 {
      end := PutShort(buffer, start, abs_value);
    } else {
      var num_digits := DigitsOf(abs_value, 64);
      FormatDecimal(buffer, start, abs_value, num_digits);
      end := start + num_digits;
    }
  }

  /** Writes a signed or an unsigned number at start and gives the end of its text. */
  method FormatDecimalSigned(buffer: array<char>, start: nat, value: int) returns (end: nat)
    requires -WORD64 <= 2 * value && value < WORD64
    requires start + |SignedDecimal(value)| <= buffer.Length
    modifies buffer
    ensures end == start + |SignedDecimal(value)|
    ensures buffer[..] == Spliced(old(buffer[..]), start, SignedDecimal(value))
  {
    if value < 0 {
      var abs_value := Negative(Unsigned(value));
      SplicedAfter(buffer[..], start, ['-'], Decimal(abs_value));
      buffer[start] := '-';
      assert buffer[..] == Spliced(old(buffer[..]), start, ['-']);
      end := FormatMagnitude(buffer, start + 1, abs_value);
    } else {
      end := FormatMagnitude(buffer, start, value);
    }
  }

  const BUFFER_SIZE := 22

  class FormatInt {
    const buffer_: array<char>
    var str_: nat

    ghost predicate Valid()
      reads this
    {
      buffer_.Length == BUFFER_SIZE && str_ < BUFFER_SIZE
    }

    /** str(), the size() characters from data(). */
    ghost function Text(): string
      reads this, buffer_
      requires Valid()
    {
      buffer_[str_..BUFFER_SIZE - 1]
    }

    constructor Signed(value: int)
      requires -WORD64 <= 2 * value < WORD64
      ensures Valid() && fresh(buffer_) && Text() == SignedDecimal(value)
    {
      buffer_ := new char[BUFFER_SIZE];
      str_ := 0;
      new;
      FormatSigned(value);
    }

    constructor (value: nat)
      requires value < WORD64
      ensures Valid() && fresh(buffer_) && Text() == Decimal(value)
    {
      buffer_ := new char[BUFFER_SIZE];
      str_ := 0;
      new;
      str_ := FormatReversed(value);
    }

    method PutPairBefore(end: nat, v: nat) returns (buffer_end: nat)
      requires Valid() && v < 100 && 2 <= end < BUFFER_SIZE
      modifies buffer_
      ensures buffer_end == end - 2
      ensures buffer_[buffer_end..BUFFER_SIZE - 1] == Pair(v) + old(buffer_[end..BUFFER_SIZE - 1])
    {
      DigitPair(v);
      buffer_[end - 1] := PairDigit(2 * v + 1);
      buffer_[end - 2] := PairDigit(2 * v);
      buffer_end := end - 2;
    }

    method PutBefore(end: nat, c: char) returns (buffer_end: nat)
      requires Valid() && 1 <= end < BUFFER_SIZE
      modifies buffer_
      ensures buffer_end == end - 1
      ensures buffer_[buffer_end..BUFFER_SIZE - 1] == [c] + old(buffer_[end..BUFFER_SIZE - 1])
    {
      buffer_end := end - 1;
      buffer_[buffer_end] := c;
    }

    /** Writes the digits from the end of the buffer backwards. */
    method FormatReversed(value: nat) returns (buffer_end: nat)
      requires Valid() && value < WORD64
      modifies buffer_
      ensures buffer_end == BUFFER_SIZE - 1 - |Decimal(value)|
      ensures buffer_[buffer_end..BUFFER_SIZE - 1] == Decimal(value)
    {
      var v := value;
      buffer_end := BUFFER_SIZE - 1;
      DecimalFits(value);
      ghost var done := [];
      while v >= 100
        invariant Decimal(value) == Decimal(v) + done && buffer_end + |done| == BUFFER_SIZE - 1
        invariant buffer_[buffer_end..BUFFER_SIZE - 1] == done
      {
        var r := v % 100;
        LastTwoDigits(v / 100, r);
        v := v / 100;
        buffer_end := PutPairBefore(buffer_end, r);
        done := Pair(r) + done;
      }
      if v < 10 {
        OneDigit(v, 10, false);
        buffer_end := PutBefore(buffer_end, '0' + v as char);
      } else {
        TwoDigits(v);
        buffer_end := PutPairBefore(buffer_end, v);
      }
    }

    method FormatSigned(value: int)
      requires Valid() && -WORD64 <= 2 * value < WORD64
      modifies this`str_, buffer_
      ensures Valid() && Text() == SignedDecimal(value)
    {
      var abs_value := Unsigned(value);
      var negative := value < 0;
      if negative { abs_value := Negative(abs_value); }
      DecimalFits(abs_value);
      str_ := FormatReversed(abs_value);
      if negative { str_ := PutBefore(str_, '-'); }
    }
  }
}
