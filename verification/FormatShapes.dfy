/** What texts for integers and strings look like. */
module FormatShapes {
  import opened Numerals
  import opened FormatBuffers
  import opened FormatSpecs

  // Digits.

  /** Arithmetic in the bases is arithmetic. */
  lemma BaseArithmetic(n: nat, base: Base)
    ensures Quotient(n, base) == n / base && Remainder(n, base) == n % base && Times(n, base) == n * base
  {
  }

  /** The digits are those of the source's tables. */
  lemma DigitTables(d: nat)
    requires d < 16
    ensures DigitChar(d, false) == "0123456789abcdef"[d] && DigitChar(d, true) == "0123456789ABCDEF"[d]
    ensures DigitOf("0123456789abcdef"[d]) == d == DigitOf("0123456789ABCDEF"[d])
  {
    DigitOfChar(d, false);
    DigitOfChar(d, true);
  }

  lemma DigitsDenote(value: int, typ: char, base: Base)
    requires base == BaseOf(typ)
    ensures var d := Digits(value, typ);
            AllDigits(d, base) && Value(d, base) == Magnitude(value) && (value != 0 ==> DigitOf(d[0]) > 0)
  {
    NumeralDenotes(Magnitude(value), base, typ == 'X');
  }

  /** The bases of the types, in which the digits denote the magnitude without a needless zero. */
  lemma TypeBases(value: int, typ: char)
    requires IsIntType(typ)
    ensures var d, n := Digits(value, typ), if value < 0 then -value else value;
            && (typ == NO_TYPE || typ == 'd' ==> AllDigits(d, 10) && Value(d, 10) == n)
            && (typ == 'x' || typ == 'X' ==> AllDigits(d, 16) && Value(d, 16) == n)
            && (typ == 'b' || typ == 'B' ==> AllDigits(d, 2) && Value(d, 2) == n)
            && (typ == 'o' ==> AllDigits(d, 8) && Value(d, 8) == n)
            && (value != 0 ==> DigitOf(d[0]) > 0) && (value == 0 ==> |d| == 1)
  {
    DigitsDenote(value, typ, BaseOf(typ));
    if value == 0 { OneDigit(0, BaseOf(typ), typ == 'X'); }
  }

  predicate LowerCase(s: string)
  {
    forall i :: 0 <= i < |s| ==> !('A' <= s[i] <= 'Z')
  }

  predicate UpperCase(s: string)
  {
    forall i :: 0 <= i < |s| ==> !('a' <= s[i] <= 'z')
  }

  lemma {:induction false} NumeralCase(n: nat, base: Base, upper: bool)
    ensures if upper then UpperCase(Numeral(n, base, upper)) else LowerCase(Numeral(n, base, upper))
    decreases n
  {
    if n >= base {
      var q, d := Divide(n, base);
      NumeralCase(q, base, upper);
      NumeralAppend(q, d, base, upper);
    } else {
      OneDigit(n, base, upper);
    }
  }

  /** The letters of X are upper case, and those of x lower case. */
  lemma TypeCases(value: int, typ: char)
    ensures if typ == 'X' then UpperCase(Digits(value, typ)) else LowerCase(Digits(value, typ))
  {
    NumeralCase(Magnitude(value), BaseOf(typ), typ == 'X');
  }

  // Prefixes.

  /** The sign, and what shows the base. */
  lemma Prefixes(value: int, spec: FormatSpec)
    requires IsIntType(spec.typ)
    ensures var sign := if value < 0 then "-" else if SIGN_FLAG !in spec.flags then "" else if PLUS_FLAG in spec.flags then "+" else " ";
            var base := if HASH_FLAG !in spec.flags then "" else if spec.typ == 'x' then "0x" else if spec.typ == 'X' then "0X"
                        else if spec.typ == 'b' then "0b" else if spec.typ == 'B' then "0B" else if spec.typ == 'o' then "0" else "";
            Prefix(value, spec) == sign + base
  {
  }

  // Sides.

  /** s starts with a and is filled up with c to the width, or longer than it. */
  predicate FilledRight(s: string, a: string, c: char, width: nat)
  {
    |a| <= |s| && s[..|a|] == a && (forall i :: |a| <= i < |s| ==> s[i] == c) && |s| == if |a| < width then width else |a|
  }

  predicate FilledLeft(s: string, a: string, c: char, width: nat)
  {
    |a| <= |s| && s[|s| - |a|..] == a && (forall i :: 0 <= i < |s| - |a| ==> s[i] == c) && |s| == if |a| < width then width else |a|
  }

  /** a stands in s, with c before it and after it, and with one more after it if the fill is odd. */
  predicate FilledAround(s: string, a: string, c: char, width: nat)
  {
    var k := if |a| < width then (width - |a|) / 2 else 0;
    k + |a| <= |s| && s[k..k + |a|] == a && (forall i :: 0 <= i < |s| && !(k <= i < k + |a|) ==> s[i] == c)
    && |s| == if |a| < width then width else |a|
  }

  /** A string goes to the left unless it is aligned to the right or to the center. */
  lemma StringSides(s: string, spec: FormatSpec)
    ensures var text := StrText(s, spec);
            && (spec.align.ALIGN_RIGHT? ==> FilledLeft(text, s, spec.fill, spec.width))
            && (spec.align.ALIGN_CENTER? ==> FilledAround(text, s, spec.fill, spec.width))
            && (spec.align.ALIGN_LEFT? || spec.align.ALIGN_DEFAULT? || spec.align.ALIGN_NUMERIC? ==>
                  FilledRight(text, s, spec.fill, spec.width))
  {
  }

  lemma NumberLeft(value: int, spec: FormatSpec)
    requires spec.precision <= |Digits(value, spec.typ)| && spec.align.ALIGN_LEFT?
    ensures FilledRight(IntText(value, spec), Prefix(value, spec) + Digits(value, spec.typ), spec.fill, spec.width)
  {
  }

  lemma NumberRight(value: int, spec: FormatSpec)
    requires spec.precision <= |Digits(value, spec.typ)| && (spec.align.ALIGN_RIGHT? || spec.align.ALIGN_DEFAULT?)
    ensures FilledLeft(IntText(value, spec), Prefix(value, spec) + Digits(value, spec.typ), spec.fill, spec.width)
  {
  }

  lemma NumberCentered(value: int, spec: FormatSpec)
    requires spec.precision <= |Digits(value, spec.typ)| && spec.align.ALIGN_CENTER?
    ensures FilledAround(IntText(value, spec), Prefix(value, spec) + Digits(value, spec.typ), spec.fill, spec.width)
  {
  }

  /** s is prefix, fill and digits, to the width. */
  predicate FilledBetween(s: string, prefix: string, digits: string, c: char, width: nat)
  {
    var n := |prefix| + |digits|;
    n <= |s| && s[..|prefix|] == prefix && s[|s| - |digits|..] == digits
    && (forall i :: |prefix| <= i < |s| - |digits| ==> s[i] == c) && |s| == if n < width then width else n
  }

  lemma NumberNumeric(value: int, spec: FormatSpec)
    requires spec.precision <= |Digits(value, spec.typ)| && spec.align.ALIGN_NUMERIC?
    ensures FilledBetween(IntText(value, spec), Prefix(value, spec), Digits(value, spec.typ), spec.fill, spec.width)
  {
  }

  /** A number goes to the right unless it is aligned to the left or to the center; numeric alignment fills
      between its prefix and its digits. */
  lemma NumberSides(value: int, spec: FormatSpec)
    requires spec.precision <= |Digits(value, spec.typ)|
    ensures var text, prefix, digits := IntText(value, spec), Prefix(value, spec), Digits(value, spec.typ);
            match spec.align
            case ALIGN_LEFT => FilledRight(text, prefix + digits, spec.fill, spec.width)
            case ALIGN_CENTER => FilledAround(text, prefix + digits, spec.fill, spec.width)
            case ALIGN_NUMERIC => FilledBetween(text, prefix, digits, spec.fill, spec.width)
            case ALIGN_RIGHT => FilledLeft(text, prefix + digits, spec.fill, spec.width)
            case ALIGN_DEFAULT => FilledLeft(text, prefix + digits, spec.fill, spec.width)
  {
    match spec.align
    case ALIGN_LEFT => NumberLeft(value, spec);
    case ALIGN_CENTER => NumberCentered(value, spec);
    case ALIGN_NUMERIC => NumberNumeric(value, spec);
    case _ => NumberRight(value, spec);
  }

  lemma FilledOut(a: string, c: char, width: nat)
    ensures var fill := Repeat(c, Excess(width, |a|)); FilledRight(a + fill, a, c, width) && FilledLeft(fill + a, a, c, width)
  {
  }

  lemma PreciseText(value: int, spec: FormatSpec, short: string, zeros: string, digits: string)
    requires digits == Digits(value, spec.typ) && spec.precision > |digits| && short == ShortPrefix(Prefix(value, spec))
    requires zeros == Repeat('0', spec.precision - |digits|)
    ensures var number := short + (zeros + digits);
            var fill := Repeat(spec.fill, Excess(spec.width, |number|));
            IntText(value, spec) == if spec.align.ALIGN_LEFT? then number + fill else fill + number
  {
    var number := short + (zeros + digits);
    var fill := Repeat(spec.fill, Excess(spec.width, |number|));
    if spec.align.ALIGN_LEFT? {
      assert IntLeft(|digits|, spec, Prefix(value, spec)) == short + zeros;
      assert IntRight(|digits|, spec, Prefix(value, spec)) == fill;
    } else {
      assert IntLeft(|digits|, spec, Prefix(value, spec)) == fill + short + zeros;
      assert IntRight(|digits|, spec, Prefix(value, spec)) == [];
    }
  }

  /** A precision puts zeros before the digits, for which the octal prefix counts, and fills outside of them:
      on the right for left alignment, and else on the left. */
  lemma PrecisionSides(value: int, spec: FormatSpec)
    requires IsIntType(spec.typ) && spec.precision > |Digits(value, spec.typ)|
    ensures var text, digits := IntText(value, spec), Digits(value, spec.typ);
            var prefix := Prefix(value, if spec.typ == 'o' then spec.(flags := spec.flags - {HASH_FLAG}) else spec);
            var number := prefix + (Repeat('0', spec.precision - |digits|) + digits);
            if spec.align.ALIGN_LEFT? then FilledRight(text, number, spec.fill, spec.width)
            else FilledLeft(text, number, spec.fill, spec.width)
  {
    ShortPrefixIs(value, spec);
    var digits, short := Digits(value, spec.typ), ShortPrefix(Prefix(value, spec));
    var zeros := Repeat('0', spec.precision - |digits|);
    PreciseText(value, spec, short, zeros, digits);
    FilledOut(short + (zeros + digits), spec.fill, spec.width);
  }

  lemma ShortPrefixIs(value: int, spec: FormatSpec)
    requires IsIntType(spec.typ)
    ensures ShortPrefix(Prefix(value, spec))
            == Prefix(value, if spec.typ == 'o' then spec.(flags := spec.flags - {HASH_FLAG}) else spec)
  {
  }
}
