/** Numerals: texts of digits and the numbers they denote. */
module Numerals {
  /** The bases in use. Products and quotients by them are written so as to keep arithmetic linear. */
  type Base = b: nat | b == 2 || b == 8 || b == 10 || b == 16 witness 10

  function Times(n: nat, b: Base): nat
  {
    if b == 2 then 2 * n else if b == 8 then 8 * n else if b == 10 then 10 * n else 16 * n
  }

  function Quotient(n: nat, b: Base): nat
  {
    if b == 2 then n / 2 else if b == 8 then n / 8 else if b == 10 then n / 10 else n / 16
  }

  function Remainder(n: nat, b: Base): (r: nat)
    ensures r < b
  {
    if b == 2 then n % 2 else if b == 8 then n % 8 else if b == 10 then n % 10 else n % 16
  }

  function DigitChar(d: nat, upper: bool): char
    requires d < 16
  {
    if d < 10 then '0' + d as char else (if upper then 'A' else 'a') + (d - 10) as char
  }

  /** The digit c stands for, in either case of letters, or -1. */
  function DigitOf(c: char): int
  {
    if '0' <= c <= '9' then c as int - '0' as int
    else if 'a' <= c <= 'f' then c as int - 'a' as int + 10
    else if 'A' <= c <= 'F' then c as int - 'A' as int + 10
    else -1
  }

  predicate IsDigit(c: char, base: Base)
  {
    0 <= DigitOf(c) < base
  }

  predicate AllDigits(s: string, base: Base)
  {
    forall i :: 0 <= i < |s| ==> IsDigit(s[i], base)
  }

  /** The number s denotes. */
  function Value(s: string, base: Base): nat
    requires AllDigits(s, base)
  {
    if s == [] then 0 else Times(Value(s[..|s| - 1], base), base) + DigitOf(s[|s| - 1])
  }

  /** The shortest text denoting n. */
  function Numeral(n: nat, base: Base, upper: bool): (s: string)
    ensures s != []
    decreases n
  {
    (if n < base then [] else Numeral(Quotient(n, base), base, upper)) + [DigitChar(Remainder(n, base), upper)]
  }

  function Decimal(n: nat): string
  {
    Numeral(n, 10, false)
  }

  function Power(b: Base, k: nat): nat
  {
    if k == 0 then 1 else Times(Power(b, k - 1), b)
  }

  lemma DigitOfChar(d: nat, upper: bool)
    requires d < 16
    ensures DigitOf(DigitChar(d, upper)) == d
  {
  }

  lemma ValueAppend(s: string, c: char, base: Base)
    requires AllDigits(s, base) && IsDigit(c, base)
    ensures AllDigits(s + [c], base) && Value(s + [c], base) == Times(Value(s, base), base) + DigitOf(c)
  {
    assert (s + [c])[..|s|] == s;
  }

  lemma Divided(m: nat, d: nat, base: Base)
    requires d < base
    ensures Quotient(Times(m, base) + d, base) == m && Remainder(Times(m, base) + d, base) == d
    ensures m > 0 ==> Times(m, base) >= base
  {
  }

  lemma Divide(n: nat, base: Base) returns (q: nat, d: nat)
    requires n >= base
    ensures 0 < q < n && d < base && n == Times(q, base) + d
  {
    q, d := Quotient(n, base), Remainder(n, base);
  }

  lemma NumeralAppend(m: nat, d: nat, base: Base, upper: bool)
    requires m > 0 && d < base
    ensures Numeral(Times(m, base) + d, base, upper) == Numeral(m, base, upper) + [DigitChar(d, upper)]
  {
    Divided(m, d, base);
  }

  lemma OneDigit(d: nat, base: Base, upper: bool)
    requires d < base
    ensures Numeral(d, base, upper) == [DigitChar(d, upper)]
    ensures AllDigits([DigitChar(d, upper)], base) && Value([DigitChar(d, upper)], base) == d
  {
    DigitOfChar(d, upper);
    Divided(0, d, base);
    ValueAppend([], DigitChar(d, upper), base);
    assert [] + [DigitChar(d, upper)] == [DigitChar(d, upper)];
  }

  lemma {:induction false} NumeralDenotes(n: nat, base: Base, upper: bool)
    ensures AllDigits(Numeral(n, base, upper), base) && Value(Numeral(n, base, upper), base) == n
    ensures n > 0 ==> DigitOf(Numeral(n, base, upper)[0]) > 0
    decreases n
  {
    if n < base {
      OneDigit(n, base, upper);
    } else {
      var q, d := Divide(n, base);
      NumeralDenotes(q, base, upper);
      DenotesAppend(q, d, base, upper);
    }
  }

  lemma DenotesAppend(q: nat, d: nat, base: Base, upper: bool)
    requires q > 0 && d < base
    requires AllDigits(Numeral(q, base, upper), base) && Value(Numeral(q, base, upper), base) == q
    ensures AllDigits(Numeral(Times(q, base) + d, base, upper), base)
    ensures Value(Numeral(Times(q, base) + d, base, upper), base) == Times(q, base) + d
    ensures Numeral(Times(q, base) + d, base, upper)[0] == Numeral(q, base, upper)[0]
  {
    NumeralAppend(q, d, base, upper);
    DigitOfChar(d, upper);
    ValueAppend(Numeral(q, base, upper), DigitChar(d, upper), base);
  }

  /** c is what DigitChar gives for some digit of the base. */
  predicate IsPlain(c: char, base: Base)
  {
    IsDigit(c, base) && DigitChar(DigitOf(c), false) == c
  }

  predicate AllPlain(s: string, base: Base)
  {
    forall i :: 0 <= i < |s| ==> IsPlain(s[i], base)
  }

  lemma PlainParts(s: string, c: char, base: Base)
    requires AllPlain(s + [c], base)
    ensures AllPlain(s, base) && IsPlain(c, base) && AllDigits(s, base)
  {
    assert forall i :: 0 <= i < |s| ==> s[i] == (s + [c])[i];
    assert (s + [c])[|s|] == c;
  }

  lemma OnePlain(c: char, base: Base)
    requires IsPlain(c, base)
    ensures AllDigits([c], base) && Numeral(Value([c], base), base, false) == [c]
  {
    OneDigit(DigitOf(c), base, false);
  }

  lemma PlainPositive(c: char, base: Base)
    requires IsPlain(c, base) && c != '0'
    ensures DigitOf(c) > 0
  {
  }

  /** A numeral without needless leading zeros is the one Numeral gives. */
  lemma {:induction false} NumeralUnique(s: string, base: Base)
    requires s != [] && AllPlain(s, base) && (|s| == 1 || s[0] != '0')
    ensures AllDigits(s, base) && Numeral(Value(s, base), base, false) == s
    decreases |s|
  {
    var t, c := s[..|s| - 1], s[|s| - 1];
    assert s == t + [c];
    PlainParts(t, c, base);
    if t == [] {
      OnePlain(c, base);
    } else {
      NumeralUnique(t, base);
      PlainPositive(s[0], base);
      ValuePositive(t, base);
      UniqueAppend(t, c, base);
    }
  }

  lemma UniqueAppend(t: string, c: char, base: Base)
    requires AllDigits(t, base) && IsPlain(c, base) && Value(t, base) > 0
    requires Numeral(Value(t, base), base, false) == t
    ensures AllDigits(t + [c], base) && Numeral(Value(t + [c], base), base, false) == t + [c]
  {
    ValueAppend(t, c, base);
    NumeralAppend(Value(t, base), DigitOf(c), base, false);
  }

  lemma {:induction false} ValuePositive(s: string, base: Base)
    requires s != [] && AllDigits(s, base) && DigitOf(s[0]) > 0
    ensures Value(s, base) > 0
    decreases |s|
  {
    if |s| > 1 { ValuePositive(s[..|s| - 1], base); }
  }

  lemma {:induction false} PowerMonotone(b: Base, j: nat, k: nat)
    requires j <= k
    ensures 0 < Power(b, j) <= Power(b, k)
    decreases k
  {
    if j < k { PowerMonotone(b, j, k - 1); }
    else if j > 0 { PowerMonotone(b, j - 1, k - 1); }
  }

  /** The length of a numeral: k digits write just the numbers below the k-th power of the base. */
  lemma {:induction false} NumeralLength(n: nat, base: Base, upper: bool, k: nat)
    requires k > 0
    ensures |Numeral(n, base, upper)| <= k <==> n < Power(base, k)
    decreases k
  {
    if n < base {
      PowerMonotone(base, 1, k);
      assert Power(base, 1) == base;
    } else {
      var q, d := Divide(n, base);
      NumeralAppend(q, d, base, upper);
      if k > 1 { NumeralLength(q, base, upper, k - 1); }
      else { assert Power(base, 1) == base; }
    }
  }

  /** Digits more to the left count for more. */
  lemma {:induction false} ValueConcat(s: string, t: string, base: Base)
    requires AllDigits(s, base) && AllDigits(t, base)
    ensures AllDigits(s + t, base) && Value(s + t, base) == Value(s, base) * Power(base, |t|) + Value(t, base)
    decreases |t|
  {
    if t == [] {
      assert s + t == s;
    } else {
      var u, c := t[..|t| - 1], t[|t| - 1];
      assert t == u + [c] && s + t == (s + u) + [c];
      ValueConcat(s, u, base);
      ValueAppend(s + u, c, base);
      ValueAppend(u, c, base);
      Distribute(Value(s, base), Power(base, |u|), Value(u, base), base);
    }
  }

  lemma Distribute(v: nat, p: nat, u: nat, b: Base)
    ensures Times(v * p + u, b) == v * Times(p, b) + Times(u, b)
  {
  }
}
