/** Format specifications and the texts they call for. */
module FormatSpecs {
  import StringUtils
  import opened Numerals
  import opened FormatBuffers

  datatype Alignment = ALIGN_DEFAULT | ALIGN_LEFT | ALIGN_RIGHT | ALIGN_CENTER | ALIGN_NUMERIC

  datatype Flag = SIGN_FLAG | PLUS_FLAG | MINUS_FLAG | HASH_FLAG | CHAR_FLAG

  datatype FormatSpec = FormatSpec(width: nat, fill: char, align: Alignment, flags: set<Flag>, precision: int, typ: char)

  const INT_MAX := 0x7FFF_FFFF
  const UINT_MAX := 0xFFFF_FFFF

  /** The type of a specification that names none. */
  const NO_TYPE := '\0'

  /** FormatSpec() */
  const DEFAULT_SPEC := FormatSpec(0, ' ', ALIGN_DEFAULT, {}, -1, NO_TYPE)

  predicate IsIntType(typ: char)
  {
    typ == NO_TYPE || typ == 'd' || typ == 'x' || typ == 'X' || typ == 'b' || typ == 'B' || typ == 'o'
  }

  function BaseOf(typ: char): Base
  {
    if typ == 'x' || typ == 'X' then 16 else if typ == 'b' || typ == 'B' then 2 else if typ == 'o' then 8 else 10
  }

  function Magnitude(value: int): nat
  {
    if value < 0 then -value else value
  }

  function Sign(value: int, flags: set<Flag>): string
  {
    if value < 0 then ['-'] else if SIGN_FLAG in flags then (if PLUS_FLAG in flags then ['+'] else [' ']) else []
  }

  function BasePrefix(spec: FormatSpec): (s: string)
  {
    if HASH_FLAG !in spec.flags || BaseOf(spec.typ) == 10 then []
    else if spec.typ == 'o' then ['0'] else ['0', spec.typ]
  }

  function Prefix(value: int, spec: FormatSpec): string
  {
    Sign(value, spec.flags) + BasePrefix(spec)
  }

  function Digits(value: int, typ: char): string
  {
    Numeral(Magnitude(value), BaseOf(typ), typ == 'X')
  }

  function Excess(width: nat, size: nat): nat
  {
    if width > size then width - size else 0
  }

  /** A precision takes the place of an octal prefix. */
  function ShortPrefix(prefix: string): string
  {
    if prefix != [] && prefix[|prefix| - 1] == '0' then prefix[..|prefix| - 1] else prefix
  }

  /** What goes before n digits. */
  function IntLeft(n: nat, spec: FormatSpec, prefix: string): string
  {
    if spec.precision > n then
      var p := ShortPrefix(prefix);
      var pad := Repeat(spec.fill, Excess(spec.width, |p| + spec.precision));
      (if spec.align.ALIGN_LEFT? then [] else pad) + p + Repeat('0', spec.precision - n)
    else
      var pad := Excess(spec.width, |prefix| + n);
      match spec.align
      case ALIGN_LEFT => prefix
      case ALIGN_CENTER => Repeat(spec.fill, pad / 2) + prefix
      case ALIGN_NUMERIC => prefix + Repeat(spec.fill, pad)
      case _ => Repeat(spec.fill, pad) + prefix
  }

  /** What goes after them. */
  function IntRight(n: nat, spec: FormatSpec, prefix: string): string
  {
    if spec.precision > n then
      Repeat(spec.fill, if spec.align.ALIGN_LEFT? then Excess(spec.width, |ShortPrefix(prefix)| + spec.precision) else 0)
    else
      var pad := Excess(spec.width, |prefix| + n);
      Repeat(spec.fill, if spec.align.ALIGN_LEFT? then pad else if spec.align.ALIGN_CENTER? then pad - pad / 2 else 0)
  }

  /** The text for an integer. */
  function IntText(value: int, spec: FormatSpec): string
  {
    var prefix, digits := Prefix(value, spec), Digits(value, spec.typ);
    IntLeft(|digits|, spec, prefix) + digits + IntRight(|digits|, spec, prefix)
  }

  /** How much of the padding of a string goes before it. */
  function PadBefore(pad: nat, align: Alignment): (left: nat)
    ensures left <= pad
  {
    if align.ALIGN_RIGHT? then pad else if align.ALIGN_CENTER? then pad / 2 else 0
  }

  /** The text for a string or character. */
  function StrText(s: string, spec: FormatSpec): string
  {
    var pad := Excess(spec.width, |s|);
    var left := PadBefore(pad, spec.align);
    Repeat(spec.fill, left) + s + Repeat(spec.fill, pad - left)
  }

  /** Padding brings a text to its width and never cuts it. */
  lemma IntTextLength(value: int, spec: FormatSpec)
    ensures var prefix, digits := Prefix(value, spec), Digits(value, spec.typ);
            var size := if spec.precision > |digits| then |ShortPrefix(prefix)| + spec.precision else |prefix| + |digits|;
            |IntText(value, spec)| == if spec.width > size then spec.width else size
  {
  }

  // Reading an integer back.

  function SkipFill(s: string, fill: char): string
  {
    if s != [] && s[0] == fill then SkipFill(s[1..], fill) else s
  }

  /** The digits s starts with. */
  function LeadingDigits(s: string, base: Base): (r: string)
    ensures AllDigits(r, base)
  {
    if s != [] && IsDigit(s[0], base) then [s[0]] + LeadingDigits(s[1..], base) else []
  }

  /** Reads past fill, a sign, a base prefix and more fill. */
  function ReadInt(s: string, spec: FormatSpec): int
  {
    var t := if spec.fill == '0' then s else SkipFill(s, spec.fill);
    var n := ReadMagnitude(if IsSigned(t) then StringUtils.Drop(t, 1) else t, spec);
    if t != [] && t[0] == '-' then -(n as int) else n
  }

  function ReadMagnitude(s: string, spec: FormatSpec): nat
  {
    ReadDigits(StringUtils.Drop(s, |BasePrefix(spec)|), spec)
  }

  function ReadDigits(s: string, spec: FormatSpec): nat
  {
    Value(LeadingDigits(SkipFill(s, spec.fill), BaseOf(spec.typ)), BaseOf(spec.typ))
  }

  predicate IsSigned(t: string)
  {
    t != [] && (t[0] == '-' || t[0] == '+' || t[0] == ' ')
  }

  /** The fill cannot be mistaken for a digit or a minus, or is zeros after the sign. */
  predicate Readable(spec: FormatSpec)
  {
    if spec.fill == '0' then spec.align.ALIGN_NUMERIC? && spec.precision < 0
    else spec.fill != '-' && !IsDigit(spec.fill, BaseOf(spec.typ))
  }

  lemma {:induction false} SkipRepeat(c: char, n: nat, s: string)
    ensures SkipFill(Repeat(c, n) + s, c) == SkipFill(s, c)
    decreases n
  {
    if n == 0 {
      assert Repeat(c, 0) + s == s;
    } else {
      assert (Repeat(c, n) + s)[1..] == Repeat(c, n - 1) + s;
      SkipRepeat(c, n - 1, s);
    }
  }

  lemma {:induction false} SkipTwice(s: string, c: char)
    ensures SkipFill(SkipFill(s, c), c) == SkipFill(s, c)
    ensures SkipFill(s, c) != [] ==> SkipFill(s, c)[0] != c
    decreases |s|
  {
    if s != [] && s[0] == c { SkipTwice(s[1..], c); }
  }

  lemma {:induction false} LeadingConcat(s: string, t: string, base: Base)
    requires AllDigits(s, base) && (t == [] || !IsDigit(t[0], base))
    ensures LeadingDigits(s + t, base) == s
    decreases |s|
  {
    if s == [] {
      assert s + t == t;
    } else {
      assert (s + t)[1..] == s[1..] + t;
      LeadingConcat(s[1..], t, base);
    }
  }

  lemma {:induction false} ZerosValue(n: nat, base: Base)
    ensures AllDigits(Repeat('0', n), base) && Value(Repeat('0', n), base) == 0
    decreases n
  {
    if n > 0 {
      ZerosValue(n - 1, base);
      assert Repeat('0', n) == Repeat('0', n - 1) + ['0'];
      ValueAppend(Repeat('0', n - 1), '0', base);
    }
  }

  lemma ZerosBefore(n: nat, s: string, base: Base)
    requires AllDigits(s, base)
    ensures AllDigits(Repeat('0', n) + s, base) && Value(Repeat('0', n) + s, base) == Value(s, base)
  {
    ZerosValue(n, base);
    ValueConcat(Repeat('0', n), s, base);
  }

  /** The digits of value, after m of c and before r of fill. */
  function Tail(c: char, m: nat, value: int, spec: FormatSpec, r: nat): string
  {
    Repeat(c, m) + (Digits(value, spec.typ) + Repeat(spec.fill, r))
  }

  lemma DigitsStart(value: int, typ: char)
    ensures var d := Digits(value, typ);
            AllDigits(d, BaseOf(typ)) && Value(d, BaseOf(typ)) == Magnitude(value)
            && IsDigit(d[0], BaseOf(typ)) && (d == ['0'] || d[0] != '0')
  {
    NumeralDenotes(Magnitude(value), BaseOf(typ), typ == 'X');
    if value == 0 { OneDigit(0, BaseOf(typ), typ == 'X'); }
  }

  /** Zeros of a precision, which are not skipped. */
  lemma ReadZeros(m: nat, d: string, right: string, spec: FormatSpec, value: nat)
    requires spec.fill != '0' && !IsDigit(spec.fill, BaseOf(spec.typ)) && d != [] && AllDigits(d, BaseOf(spec.typ))
    requires Value(d, BaseOf(spec.typ)) == value && (right == [] || !IsDigit(right[0], BaseOf(spec.typ)))
    ensures ReadDigits(Repeat('0', m) + (d + right), spec) == value
  {
    var zeros := Repeat('0', m) + d;
    ZerosBefore(m, d, BaseOf(spec.typ));
    LeadingConcat(zeros, right, BaseOf(spec.typ));
    var s := Repeat('0', m) + (d + right);
    assert s == zeros + right && s[0] == zeros[0];
    assert SkipFill(s, spec.fill) == s;
  }

  /** What is left once the fill in front of the digits is skipped has the value. */
  lemma ReadTail(c: char, m: nat, value: int, spec: FormatSpec, r: nat)
    requires Readable(spec) && (c == spec.fill || c == '0') && (spec.fill == '0' ==> r == 0)
    ensures ReadDigits(Tail(c, m, value, spec, r), spec) == Magnitude(value)
  {
    var base, d, right := BaseOf(spec.typ), Digits(value, spec.typ), Repeat(spec.fill, r);
    DigitsStart(value, spec.typ);
    LeadingConcat(d, right, base);
    if c == spec.fill {
      SkipRepeat(c, m, d + right);
      if d[0] == c {
        assert d + right == Repeat('0', 1) + right;
        SkipRepeat(c, 1, right);
      }
    } else {
      ReadZeros(m, d, right, spec, Magnitude(value));
    }
  }

  predicate HasParts(s: string, value: int, spec: FormatSpec, k: nat, c: char, m: nat, r: nat)
  {
    s == Repeat(spec.fill, k) + (Sign(value, spec.flags) + (BasePrefix(spec) + Tail(c, m, value, spec, r)))
    && (c == spec.fill || c == '0') && (spec.fill == '0' ==> k == 0 && r == 0)
  }

  /** The octal prefix counts as one of the zeros of the precision. */
  lemma ShortSplit(value: int, spec: FormatSpec, m: nat) returns (z: nat)
    requires IsIntType(spec.typ) && m > 0
    ensures ShortPrefix(Prefix(value, spec)) + Repeat('0', m) == Sign(value, spec.flags) + (BasePrefix(spec) + Repeat('0', z))
  {
    var sign, base, prefix := Sign(value, spec.flags), BasePrefix(spec), Prefix(value, spec);
    if spec.typ == 'o' && HASH_FLAG in spec.flags {
      assert prefix[|prefix| - 1] == '0' && ShortPrefix(prefix) == sign;
      z := m - 1;
      assert Repeat('0', m) == base + Repeat('0', z);
    } else {
      assert ShortPrefix(prefix) == prefix;
      z := m;
    }
  }

  lemma Regroup(fill: string, p: string, zeros: string, sign: string, base: string, less: string, digits: string, right: string)
    requires p + zeros == sign + (base + less)
    ensures fill + p + zeros + digits + right == fill + (sign + (base + (less + (digits + right))))
  {
    assert fill + p + zeros + digits + right == fill + (p + zeros) + digits + right;
  }

  lemma PrecisionParts(value: int, spec: FormatSpec) returns (k: nat, m: nat, r: nat)
    requires spec.fill != '0' && IsIntType(spec.typ) && spec.precision > |Digits(value, spec.typ)|
    ensures HasParts(IntText(value, spec), value, spec, k, '0', m, r)
  {
    var digits, p := Digits(value, spec.typ), ShortPrefix(Prefix(value, spec));
    var pad, zeros := Excess(spec.width, |p| + spec.precision), Repeat('0', spec.precision - |digits|);
    k, r := if spec.align.ALIGN_LEFT? then 0 else pad, if spec.align.ALIGN_LEFT? then pad else 0;
    m := ShortSplit(value, spec, |zeros|);
    Regroup(Repeat(spec.fill, k), p, zeros, Sign(value, spec.flags), BasePrefix(spec), Repeat('0', m), digits, Repeat(spec.fill, r));
    assert IntLeft(|digits|, spec, Prefix(value, spec)) == Repeat(spec.fill, k) + p + zeros;
    assert IntRight(|digits|, spec, Prefix(value, spec)) == Repeat(spec.fill, r);
  }

  /** Without a precision there is fill before the prefix, before the digits or after them. */
  lemma PlainText(value: int, spec: FormatSpec) returns (k: nat, m: nat, r: nat)
    requires spec.precision <= |Digits(value, spec.typ)|
    ensures IntText(value, spec)
            == Repeat(spec.fill, k) + Prefix(value, spec) + Repeat(spec.fill, m) + Digits(value, spec.typ) + Repeat(spec.fill, r)
    ensures spec.align.ALIGN_NUMERIC? ==> k == 0 && r == 0
  {
    var digits, prefix := Digits(value, spec.typ), Prefix(value, spec);
    var pad := Excess(spec.width, |prefix| + |digits|);
    k, m, r := 0, 0, 0;
    match spec.align
    case ALIGN_LEFT => r := pad;
    case ALIGN_CENTER => k, r := pad / 2, pad - pad / 2;
    case ALIGN_NUMERIC => m := pad;
    case _ => k := pad;
    assert IntLeft(|digits|, spec, prefix) == Repeat(spec.fill, k) + prefix + Repeat(spec.fill, m);
    assert IntRight(|digits|, spec, prefix) == Repeat(spec.fill, r);
  }

  lemma PlainParts(value: int, spec: FormatSpec) returns (k: nat, m: nat, r: nat)
    requires spec.precision <= |Digits(value, spec.typ)| && (spec.fill == '0' ==> spec.align.ALIGN_NUMERIC?)
    ensures HasParts(IntText(value, spec), value, spec, k, spec.fill, m, r)
  {
    k, m, r := PlainText(value, spec);
    var sign, base, middle := Sign(value, spec.flags), BasePrefix(spec), Repeat(spec.fill, m);
    assert sign + base + middle == sign + (base + middle);
    Regroup(Repeat(spec.fill, k), sign + base, middle, sign, base, middle, Digits(value, spec.typ), Repeat(spec.fill, r));
  }

  lemma ReadBase(spec: FormatSpec, tail: string)
    requires Readable(spec)
    ensures ReadMagnitude(BasePrefix(spec) + tail, spec) == ReadDigits(tail, spec)
  {
    assert StringUtils.Drop(BasePrefix(spec) + tail, |BasePrefix(spec)|) == tail;
  }

  /** A tail starts with fill or a digit; skipping the fill uncovers no sign. */
  lemma TailStart(c: char, m: nat, value: int, spec: FormatSpec, r: nat)
    requires Readable(spec) && (c == spec.fill || c == '0') && (spec.fill == '0' ==> r == 0)
    ensures spec.fill != '0' ==> !IsSigned(SkipFill(Tail(c, m, value, spec, r), spec.fill))
    ensures spec.fill == '0' ==> !IsSigned(Tail(c, m, value, spec, r))
  {
    var d, right := Digits(value, spec.typ), Repeat(spec.fill, r);
    DigitsStart(value, spec.typ);
    if m == 0 { assert Tail(c, m, value, spec, r) == d + right; }
    if c == spec.fill { SkipRepeat(c, m, d + right); }
  }

  /** Unsigned text: the base prefix and the tail, or without a prefix the tail with its fill skipped. */
  lemma ReadUnsigned(spec: FormatSpec, tail: string)
    requires Readable(spec)
    requires spec.fill != '0' ==> !IsSigned(SkipFill(tail, spec.fill))
    requires spec.fill == '0' ==> !IsSigned(tail)
    ensures ReadInt(BasePrefix(spec) + tail, spec) == ReadDigits(tail, spec)
  {
    var s := BasePrefix(spec) + tail;
    if BasePrefix(spec) == [] {
      assert s == tail;
      SkipTwice(tail, spec.fill);
      assert StringUtils.Drop(tail, 0) == tail && StringUtils.Drop(SkipFill(tail, spec.fill), 0) == SkipFill(tail, spec.fill);
    } else {
      assert s[0] == '0';
      ReadBase(spec, tail);
    }
  }

  lemma ReadSigned(spec: FormatSpec, g: char, body: string)
    requires Readable(spec) && (g == '-' || g == '+' || g == ' ') && g != spec.fill
    ensures ReadInt([g] + body, spec) == if g == '-' then -(ReadMagnitude(body, spec) as int) else ReadMagnitude(body, spec)
  {
    assert StringUtils.Drop([g] + body, 1) == body;
  }

  lemma ReadFill(k: nat, s: string, spec: FormatSpec)
    requires spec.fill == '0' ==> k == 0
    ensures ReadInt(Repeat(spec.fill, k) + s, spec) == ReadInt(s, spec)
  {
    SkipRepeat(spec.fill, k, s);
    if k == 0 { assert Repeat(spec.fill, 0) + s == s; }
  }

  lemma ReadSign(value: int, spec: FormatSpec, body: string)
    requires Readable(spec)
    requires ReadInt(body, spec) == ReadMagnitude(body, spec) == Magnitude(value)
    ensures ReadInt(Sign(value, spec.flags) + body, spec) == value
  {
    var sign := Sign(value, spec.flags);
    if sign == [] {
      assert sign + body == body;
    } else if sign[0] == spec.fill {
      assert sign == Repeat(spec.fill, 1);
      ReadFill(1, body, spec);
    } else {
      ReadSigned(spec, sign[0], body);
    }
  }

  /** Reading gives back the integer that was written, in every base, sign, prefix, width, precision and alignment. */
  lemma ReadBack(value: int, spec: FormatSpec)
    requires Readable(spec) && IsIntType(spec.typ)
    ensures ReadInt(IntText(value, spec), spec) == value
  {
    var n := |Digits(value, spec.typ)|;
    var k, m, r;
    var c := if spec.precision > n then '0' else spec.fill;
    if spec.precision > n { k, m, r := PrecisionParts(value, spec); }
    else { k, m, r := PlainParts(value, spec); }
    var tail := Tail(c, m, value, spec, r);
    ReadTail(c, m, value, spec, r);
    TailStart(c, m, value, spec, r);
    ReadUnsigned(spec, tail);
    ReadBase(spec, tail);
    ReadSign(value, spec, BasePrefix(spec) + tail);
    ReadFill(k, Sign(value, spec.flags) + (BasePrefix(spec) + tail), spec);
  }

  // Fills that mislead.

  lemma {:induction false} NumeralPlain(n: nat, base: Base)
    ensures AllPlain(Numeral(n, base, false), base)
    decreases n
  {
    var d := Remainder(n, base);
    DigitOfChar(d, false);
    if n >= base { NumeralPlain(Quotient(n, base), base); }
  }

  /** No sign, base prefix or precision. */
  predicate Bare(spec: FormatSpec)
  {
    spec.precision <= 0 && SIGN_FLAG !in spec.flags && BasePrefix(spec) == [] && spec.typ != 'X'
  }

  lemma BareText(value: nat, spec: FormatSpec)
    requires Bare(spec)
    ensures var d := Digits(value, spec.typ);
            var pad := Repeat(spec.fill, Excess(spec.width, |d|));
            (spec.align.ALIGN_LEFT? ==> IntText(value, spec) == d + pad)
            && (spec.align.ALIGN_RIGHT? || spec.align.ALIGN_DEFAULT? ==> IntText(value, spec) == pad + d)
  {
  }

  /** A numeral as wide as the width is the text of its number. */
  lemma FullText(s: string, spec: FormatSpec)
    requires Bare(spec) && !spec.align.ALIGN_CENTER? && !spec.align.ALIGN_NUMERIC?
    requires AllPlain(s, BaseOf(spec.typ)) && s != [] && s[0] != '0' && |s| == spec.width
    ensures AllDigits(s, BaseOf(spec.typ))
    ensures var value := Value(s, BaseOf(spec.typ)); Digits(value, spec.typ) == s && IntText(value, spec) == s
  {
    NumeralUnique(s, BaseOf(spec.typ));
    BareText(Value(s, BaseOf(spec.typ)), spec);
    assert s + Repeat(spec.fill, 0) == s == Repeat(spec.fill, 0) + s;
  }

  /** Digits on one side of a numeral make another numeral. */
  lemma JoinedPlain(d: string, c: char, n: nat, base: Base)
    requires d != [] && AllPlain(d, base) && IsPlain(c, base) && n > 0
    ensures AllPlain(d + Repeat(c, n), base) && (d + Repeat(c, n))[0] == d[0]
    ensures AllPlain(Repeat(c, n) + d, base) && (Repeat(c, n) + d)[0] == c
  {
  }

  /** The fill is digits, and does not put zeros first. */
  predicate FilledByDigits(value: nat, spec: FormatSpec)
  {
    Bare(spec) && IsPlain(spec.fill, BaseOf(spec.typ)) && |Digits(value, spec.typ)| < spec.width
    && if spec.align.ALIGN_LEFT? then value > 0 else spec.fill != '0' && (spec.align.ALIGN_RIGHT? || spec.align.ALIGN_DEFAULT?)
  }

  lemma FilledPlain(value: nat, spec: FormatSpec)
    requires FilledByDigits(value, spec)
    ensures var s := IntText(value, spec); AllPlain(s, BaseOf(spec.typ)) && |s| == spec.width && s[0] != '0'
  {
    var base, d := BaseOf(spec.typ), Digits(value, spec.typ);
    NumeralPlain(value, base);
    NumeralDenotes(value, base, false);
    JoinedPlain(d, spec.fill, spec.width - |d|, base);
    BareText(value, spec);
  }

  /** A number narrower than the width looks like another if digits fill it up, other than zeros before it. */
  lemma DigitsMislead(value: nat, spec: FormatSpec)
    requires FilledByDigits(value, spec)
    ensures var s := IntText(value, spec);
            AllDigits(s, BaseOf(spec.typ))
            && var other := Value(s, BaseOf(spec.typ)); other != value && IntText(other, spec) == s
  {
    FilledPlain(value, spec);
    FullText(IntText(value, spec), spec);
  }

  /** A minus in front may be fill. */
  lemma MinusMisleads(value: int, spec: FormatSpec)
    requires value > 0 && spec.fill == '-' && (spec.align.ALIGN_RIGHT? || spec.align.ALIGN_DEFAULT?)
    requires spec.precision <= 0 && SIGN_FLAG !in spec.flags && |BasePrefix(spec)| + |Digits(value, spec.typ)| < spec.width
    ensures IntText(-value, spec) == IntText(value, spec)
  {
    var k := spec.width - |BasePrefix(spec)| - |Digits(value, spec.typ)|;
    var rest := BasePrefix(spec) + Digits(value, spec.typ);
    assert IntText(value, spec) == Repeat('-', k) + rest;
    assert IntText(-value, spec) == Repeat('-', k - 1) + (['-'] + rest);
    assert Repeat('-', k - 1) + ['-'] == Repeat('-', k);
  }
}
