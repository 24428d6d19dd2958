/** Specifications written out and read back. */
module FormatRoundTrip {
  import opened Numerals
  import opened FormatSpecs
  import opened Writers
  import opened ArgLists
  import opened FormatGrammar

  /** t stands in fmt at s. */
  predicate Has(fmt: string, s: nat, t: string)
  {
    s + |t| <= |fmt| && fmt[s..s + |t|] == t
  }

  lemma HasBoth(fmt: string, s: nat, t: string, u: string)
    requires Has(fmt, s, t + u)
    ensures Has(fmt, s, t) && Has(fmt, s + |t|, u)
    ensures t != [] ==> At(fmt, s) == t[0]
    ensures u != [] ==> At(fmt, s + |t|) == u[0]
  {
    var v := fmt[s..s + |t + u|];
    assert v[..|t|] == t && v[|t|..] == u;
    assert t != [] ==> v[0] == t[0];
    assert u != [] ==> v[|t|] == u[0];
  }

  /** The parts of a specification as they are written: an alignment, perhaps after a fill, a sign, a hash, the
      zero flag, a width, a precision and a type. */
  datatype Writing = Writing(fill: string, align: Alignment, sign: string, hash: bool, zero: bool, width: nat,
                             precision: int, typ: char)

  /** Nothing is written. */
  const NOTHING := Writing([], ALIGN_DEFAULT, [], false, false, 0, -1, NO_TYPE)

  function AlignChar(align: Alignment): char
  {
    match align
    case ALIGN_LEFT => '<'
    case ALIGN_RIGHT => '>'
    case ALIGN_CENTER => '^'
    case _ => '='
  }

  function FillText(w: Writing): string
  {
    if w.align.ALIGN_DEFAULT? then [] else w.fill + [AlignChar(w.align)]
  }

  function HashText(hash: bool): string
  {
    if hash then ['#'] else []
  }

  function WidthText(w: Writing): string
  {
    (if w.zero then ['0'] else []) + (if w.width == 0 then [] else Decimal(w.width))
  }

  function PrecisionText(precision: int): string
  {
    if precision < 0 then [] else ['.'] + Decimal(precision)
  }

  function TypeText(typ: char): string
  {
    if typ == NO_TYPE then [] else [typ]
  }

  // What follows each part, up to the closing brace.

  function AfterPrecision(w: Writing): (s: string)
    ensures s != []
  {
    TypeText(w.typ) + ['}']
  }

  function AfterWidth(w: Writing): string
  {
    PrecisionText(w.precision) + AfterPrecision(w)
  }

  function AfterHash(w: Writing): string
  {
    WidthText(w) + AfterWidth(w)
  }

  function AfterSign(w: Writing): string
  {
    HashText(w.hash) + AfterHash(w)
  }

  function AfterFill(w: Writing): string
  {
    w.sign + AfterSign(w)
  }

  /** What is written after the argument's index. A colon by itself does not count, as what is read then depends
      on what follows the brace. */
  function SpecText(w: Writing): string
  {
    if w == NOTHING then ['}'] else [':'] + (FillText(w) + AfterFill(w))
  }

  function FlagsOf(sign: string, hash: bool): set<Flag>
  {
    (if sign == "+" then {SIGN_FLAG, PLUS_FLAG} else if sign == "-" then {MINUS_FLAG} else if sign == " " then {SIGN_FLAG} else {})
    + (if hash then {HASH_FLAG} else {})
  }

  /** The specification that is meant. The zero flag stands for numeric alignment with zeros. */
  function Meant(w: Writing): FormatSpec
  {
    FormatSpec(w.width, if w.zero then '0' else if w.fill == [] then ' ' else w.fill[0],
               if w.zero then ALIGN_NUMERIC else w.align, FlagsOf(w.sign, w.hash), w.precision, w.typ)
  }

  predicate IsSign(c: char)
  {
    c == '+' || c == '-' || c == ' '
  }

  /** Not an alignment, and not the end. */
  predicate IsPlain(c: char)
  {
    AlignOf(c).ALIGN_DEFAULT? && c != '\0'
  }

  /** Not to be taken for an earlier part. */
  predicate IsTypeChar(c: char)
  {
    c == NO_TYPE || (IsPlain(c) && !IsSign(c) && c != '#' && !IsDecimal(c) && c != '.' && c != '}')
  }

  predicate Writable(w: Writing)
  {
    && |w.fill| <= 1 && (w.align.ALIGN_DEFAULT? ==> w.fill == [])
    && (w.fill != [] ==> w.fill[0] != '{' && w.fill[0] != '}' && w.fill[0] != '\0')
    && (w.sign == "" || w.sign == "+" || w.sign == "-" || w.sign == " ")
    && w.width <= INT_MAX && -1 <= w.precision <= INT_MAX && IsTypeChar(w.typ)
  }

  // What suits an argument: signs are for signed numbers, numeric alignment and other flags for numbers, and
  // precisions for floating point.

  predicate FillSuits(w: Writing, arg: Arg)
  {
    w.align.ALIGN_NUMERIC? ==> IsNumeric(arg)
  }

  predicate SignSuits(w: Writing, arg: Arg)
  {
    w.sign != "" ==> IsNumeric(arg) && !IsUnsigned(arg)
  }

  predicate HashSuits(w: Writing, arg: Arg)
  {
    w.hash ==> IsNumeric(arg)
  }

  predicate ZeroSuits(w: Writing, arg: Arg)
  {
    w.zero ==> IsNumeric(arg)
  }

  predicate PrecisionSuits(w: Writing, arg: Arg)
  {
    w.precision >= 0 ==> arg.DoubleArg? || arg.LongDoubleArg?
  }

  predicate Suits(w: Writing, arg: Arg)
  {
    FillSuits(w, arg) && SignSuits(w, arg) && HashSuits(w, arg) && ZeroSuits(w, arg) && PrecisionSuits(w, arg)
  }

  predicate AllPlain(s: string)
  {
    forall i :: 0 <= i < |s| ==> IsPlain(s[i])
  }

  predicate AllDecimal(s: string)
  {
    forall i :: 0 <= i < |s| ==> IsDecimal(s[i])
  }

  lemma DigitsPlain(d: string)
    requires AllDigits(d, 10)
    ensures AllDecimal(d) && AllPlain(d)
  {
    forall i | 0 <= i < |d|
      ensures IsDecimal(d[i]) && IsPlain(d[i])
    {
      assert IsDigit(d[i], 10);
    }
  }

  lemma DecimalStart(n: nat)
    ensures var d := Decimal(n);
            d != [] && (n > 0 ==> d[0] != '0') && AllDecimal(d) && AllDigits(d, 10) && AllPlain(d) && Value(d, 10) == n
  {
    NumeralDenotes(n, 10, false);
    DigitsPlain(Decimal(n));
  }

  /** The digits of the width, with the zero flag as one of them. */
  lemma WidthStart(w: Writing)
    ensures var d := WidthText(w);
            AllPlain(d) && AllDecimal(d) && AllDigits(d, 10) && Value(d, 10) == w.width
            && (d == [] <==> w.width == 0 && !w.zero) && (d != [] ==> (d[0] == '0' <==> w.zero))
  {
    var d := if w.width == 0 then [] else Decimal(w.width);
    if w.width > 0 { DecimalStart(w.width); }
    if w.zero { LeadingZero(d); } else { assert WidthText(w) == d; }
  }

  lemma LeadingZero(d: string)
    requires AllDigits(d, 10)
    ensures AllDigits(['0'] + d, 10) && Value(['0'] + d, 10) == Value(d, 10)
  {
    OneDigit(0, 10, false);
    ValueConcat(['0'], d, 10);
  }

  lemma BothPlain(s: string, t: string)
    requires AllPlain(s) && AllPlain(t)
    ensures AllPlain(s + t)
  {
  }

  /** Starts neither a sign nor a hash. */
  predicate Late(s: string)
  {
    s != [] && !IsSign(s[0]) && s[0] != '#'
  }

  lemma TypePlain(w: Writing)
    requires IsTypeChar(w.typ)
    ensures var s := AfterPrecision(w); AllPlain(s) && Late(s) && !IsDecimal(s[0]) && s[0] != '.'
  {
  }

  lemma PrecisionPlain(w: Writing)
    requires IsTypeChar(w.typ)
    ensures var s := AfterWidth(w); AllPlain(s) && Late(s) && !IsDecimal(s[0])
  {
    TypePlain(w);
    if w.precision >= 0 {
      DecimalStart(w.precision);
      BothPlain(['.'], Decimal(w.precision));
      BothPlain(PrecisionText(w.precision), AfterPrecision(w));
    }
  }

  lemma WidthPlain(w: Writing)
    requires IsTypeChar(w.typ)
    ensures AllPlain(AfterHash(w)) && Late(AfterHash(w))
  {
    PrecisionPlain(w);
    WidthStart(w);
    BothPlain(WidthText(w), AfterWidth(w));
  }

  lemma SignPlain(w: Writing)
    requires Writable(w)
    ensures AllPlain(AfterFill(w)) && AfterSign(w) != [] && !IsSign(AfterSign(w)[0])
  {
    WidthPlain(w);
    BothPlain(HashText(w.hash), AfterHash(w));
    BothPlain(w.sign, AfterSign(w));
  }

  /** Without alignment, only where nothing is written is there nothing before the brace. */
  lemma RestLong(w: Writing)
    requires Writable(w) && w != NOTHING && w.align.ALIGN_DEFAULT?
    ensures |AfterFill(w)| > 1
  {
    if w.sign == [] && !w.hash && WidthText(w) == [] && w.precision < 0 {
      WidthStart(w);
    } else if w.precision >= 0 {
      DecimalStart(w.precision);
    }
  }

  lemma NoFillParsed(fmt: string, f: Field, w: Writing, arg: Arg)
    requires Writable(w) && w != NOTHING && w.align.ALIGN_DEFAULT? && Has(fmt, f.k.s, AfterFill(w))
    ensures Inside(f, fmt) && ParseFill(fmt, f, arg) == Ok(f)
  {
    SignPlain(w);
    RestLong(w);
    assert fmt[f.k.s] == AfterFill(w)[0] && fmt[f.k.s + 1] == AfterFill(w)[1];
  }

  /** An alignment by itself. */
  lemma AlignParsed(fmt: string, f: Field, w: Writing, arg: Arg)
    requires Writable(w) && !w.align.ALIGN_DEFAULT? && w.fill == [] && FillSuits(w, arg)
    requires Has(fmt, f.k.s, FillText(w) + AfterFill(w))
    ensures Inside(f, fmt) && ParseFill(fmt, f, arg) == Ok(f.(spec := f.spec.(align := w.align)).Skip(1))
  {
    HasBoth(fmt, f.k.s, FillText(w), AfterFill(w));
    SignPlain(w);
    assert AfterFill(w) != [];
  }

  lemma SomeFillParsed(fmt: string, f: Field, w: Writing, arg: Arg)
    requires Writable(w) && w.fill != [] && FillSuits(w, arg) && Has(fmt, f.k.s, FillText(w))
    ensures Inside(f, fmt)
    ensures ParseFill(fmt, f, arg) == Ok(f.(spec := f.spec.(align := w.align, fill := w.fill[0])).Skip(2))
  {
    assert fmt[f.k.s] == FillText(w)[0] == w.fill[0] && fmt[f.k.s + 1] == FillText(w)[1];
  }

  /** The fill and alignment that are written. */
  function Filled(w: Writing): FormatSpec
  {
    DEFAULT_SPEC.(align := w.align, fill := if w.fill == [] then ' ' else w.fill[0])
  }

  lemma FillParsed(fmt: string, f: Field, w: Writing, arg: Arg)
    requires Writable(w) && w != NOTHING && FillSuits(w, arg) && f.spec == DEFAULT_SPEC
    requires Has(fmt, f.k.s, FillText(w) + AfterFill(w))
    ensures Inside(f, fmt) && ParseFill(fmt, f, arg) == Ok(Field(Filled(w), f.k.(s := f.k.s + |FillText(w)|)))
  {
    HasBoth(fmt, f.k.s, FillText(w), AfterFill(w));
    var g := Field(Filled(w), f.k.(s := f.k.s + |FillText(w)|));
    if w.align.ALIGN_DEFAULT? {
      assert g == f;
      NoFillParsed(fmt, f, w, arg);
    } else if w.fill == [] {
      assert g == f.(spec := f.spec.(align := w.align)).Skip(1);
      AlignParsed(fmt, f, w, arg);
    } else {
      assert g == f.(spec := f.spec.(align := w.align, fill := w.fill[0])).Skip(2);
      SomeFillParsed(fmt, f, w, arg);
    }
  }

  lemma SignParsed(fmt: string, f: Field, w: Writing, arg: Arg)
    requires Writable(w) && SignSuits(w, arg) && Has(fmt, f.k.s, AfterFill(w)) && f.spec.flags == {}
    ensures Inside(f, fmt)
    ensures ParseSign(fmt, f, arg) == Ok(f.(spec := f.spec.(flags := FlagsOf(w.sign, false))).Skip(|w.sign|))
  {
    HasBoth(fmt, f.k.s, w.sign, AfterSign(w));
    SignPlain(w);
    assert {} + FlagsOf(w.sign, false) == FlagsOf(w.sign, false) == SignFlags(At(fmt, f.k.s));
  }

  lemma HashParsed(fmt: string, f: Field, w: Writing, arg: Arg)
    requires Writable(w) && HashSuits(w, arg) && Has(fmt, f.k.s, AfterSign(w)) && f.spec.flags == FlagsOf(w.sign, false)
    ensures Inside(f, fmt)
    ensures ParseHash(fmt, f, arg) == Ok(f.(spec := f.spec.(flags := FlagsOf(w.sign, w.hash))).Skip(|HashText(w.hash)|))
  {
    HasBoth(fmt, f.k.s, HashText(w.hash), AfterHash(w));
    WidthPlain(w);
    assert FlagsOf(w.sign, false) + {HASH_FLAG} == FlagsOf(w.sign, true);
  }

  lemma {:induction false} RunEndHas(fmt: string, s: nat, ds: string)
    requires Has(fmt, s, ds) && AllDecimal(ds) && !IsDecimal(At(fmt, s + |ds|))
    ensures RunEnd(fmt, s) == s + |ds|
    decreases |ds|
  {
    if ds != [] {
      assert fmt[s] == ds[0];
      assert fmt[s + 1..s + |ds|] == ds[1..];
      RunEndHas(fmt, s + 1, ds[1..]);
    }
  }

  lemma NumberParsed(fmt: string, s: nat, ds: string)
    requires ds != [] && AllDecimal(ds) && AllDigits(ds, 10) && Value(ds, 10) <= INT_MAX
    requires Has(fmt, s, ds) && !IsDecimal(At(fmt, s + |ds|))
    ensures ParseNumber(fmt, s) == Ok(Value(ds, 10)) && RunEnd(fmt, s) == s + |ds|
    ensures IsDecimal(At(fmt, s)) && At(fmt, s) == ds[0]
  {
    RunEndHas(fmt, s, ds);
    ParsedIntExact(ds);
    assert fmt[s] == ds[0];
  }

  lemma WidthNone(fmt: string, f: Field, arg: Arg)
    requires Inside(f, fmt) && !IsDecimal(At(fmt, f.k.s))
    ensures ParseWidth(fmt, f, arg) == Ok(f)
  {
  }

  /** With a zero for its first digit a width is a flag as well. */
  lemma WidthSome(fmt: string, f: Field, arg: Arg, n: nat, size: nat, zero: bool)
    requires Inside(f, fmt) && IsDecimal(At(fmt, f.k.s)) && zero == (At(fmt, f.k.s) == '0') && (zero ==> IsNumeric(arg))
    requires ParseNumber(fmt, f.k.s) == Ok(n) && RunEnd(fmt, f.k.s) == f.k.s + size
    ensures var spec := if zero then f.spec.(align := ALIGN_NUMERIC, fill := '0') else f.spec;
            ParseWidth(fmt, f, arg) == Ok(f.(spec := spec.(width := n)).Skip(size))
  {
  }

  lemma WidthParsed(fmt: string, f: Field, w: Writing, arg: Arg)
    requires Writable(w) && ZeroSuits(w, arg) && Has(fmt, f.k.s, AfterHash(w)) && f.spec.width == 0
    ensures Inside(f, fmt)
    ensures var spec := if w.zero then f.spec.(align := ALIGN_NUMERIC, fill := '0') else f.spec;
            ParseWidth(fmt, f, arg) == Ok(f.(spec := spec.(width := w.width)).Skip(|WidthText(w)|))
  {
    var ds := WidthText(w);
    HasBoth(fmt, f.k.s, ds, AfterWidth(w));
    PrecisionPlain(w);
    WidthStart(w);
    if ds == [] {
      WidthNone(fmt, f, arg);
    } else {
      NumberParsed(fmt, f.k.s, ds);
      WidthSome(fmt, f, arg, w.width, |ds|, w.zero);
    }
  }

  lemma GivenDigits(fmt: string, f: Field, args: ArgList, n: nat, g: Field)
    requires Inside(f, fmt) && args.Valid() && IsDecimal(At(fmt, f.k.s))
    requires ParseNumber(fmt, f.k.s) == Ok(n)
    requires g.spec == f.spec.(precision := n) && g.k == f.k.(s := RunEnd(fmt, f.k.s))
    ensures ParseGiven(fmt, f, args) == Ok(g)
  {
  }

  lemma PrecisionGiven(fmt: string, f: Field, f1: Field, arg: Arg, args: ArgList, g: Field)
    requires f.k.s < |fmt| && args.Valid() && At(fmt, f.k.s) == '.' && f1 == f.Skip(1) && ParseGiven(fmt, f1, args) == Ok(g)
    ensures ParsePrecision(fmt, f, arg, args)
            == if arg.DoubleArg? || arg.LongDoubleArg? then Ok(g) else Err(PrecisionRequiresFloat)
  {
  }

  lemma PrecisionNone(fmt: string, f: Field, arg: Arg, args: ArgList)
    requires Inside(f, fmt) && args.Valid() && At(fmt, f.k.s) != '.'
    ensures ParsePrecision(fmt, f, arg, args) == Ok(f)
  {
  }

  lemma PrecisionDigits(fmt: string, f: Field, n: nat, ds: string, arg: Arg, args: ArgList, g: Field)
    requires args.Valid() && n <= INT_MAX && ds == Decimal(n)
    requires Has(fmt, f.k.s, ['.'] + ds) && !IsDecimal(At(fmt, f.k.s + 1 + |ds|))
    requires g.spec == f.spec.(precision := n) && g.k == f.k.(s := f.k.s + 1 + |ds|)
    ensures ParsePrecision(fmt, f, arg, args)
            == if arg.DoubleArg? || arg.LongDoubleArg? then Ok(g) else Err(PrecisionRequiresFloat)
  {
    var f1 := f.Skip(1);
    DecimalStart(n);
    HasBoth(fmt, f.k.s, ['.'], ds);
    NumberParsed(fmt, f1.k.s, ds);
    GivenDigits(fmt, f1, args, n, g);
    PrecisionGiven(fmt, f, f1, arg, args, g);
  }

  lemma PrecisionParsed(fmt: string, f: Field, w: Writing, arg: Arg, args: ArgList)
    requires Writable(w) && PrecisionSuits(w, arg) && args.Valid() && Has(fmt, f.k.s, AfterWidth(w)) && f.spec.precision == -1
    ensures Inside(f, fmt)
    ensures ParsePrecision(fmt, f, arg, args)
            == Ok(f.(spec := f.spec.(precision := w.precision)).Skip(|PrecisionText(w.precision)|))
  {
    HasBoth(fmt, f.k.s, PrecisionText(w.precision), AfterPrecision(w));
    TypePlain(w);
    if w.precision < 0 {
      PrecisionNone(fmt, f, arg, args);
    } else {
      var g := f.(spec := f.spec.(precision := w.precision)).Skip(|PrecisionText(w.precision)|);
      PrecisionDigits(fmt, f, w.precision, Decimal(w.precision), arg, args, g);
    }
  }

  lemma TypeParsed(fmt: string, f: Field, w: Writing, g: Field)
    requires IsTypeChar(w.typ) && Has(fmt, f.k.s, AfterPrecision(w)) && f.spec.typ == NO_TYPE
    requires g.spec == f.spec.(typ := w.typ) && g.k == f.k.(s := f.k.s + |TypeText(w.typ)|)
    ensures Inside(f, fmt) && ParseType(fmt, f) == g && At(fmt, g.k.s) == '}'
  {
    HasBoth(fmt, f.k.s, TypeText(w.typ), ['}']);
  }

  lemma FillStep(fmt: string, f: Field, w: Writing, arg: Arg) returns (f1: Field)
    requires Writable(w) && w != NOTHING && FillSuits(w, arg) && f.spec == DEFAULT_SPEC
    requires Has(fmt, f.k.s, FillText(w) + AfterFill(w))
    ensures Inside(f, fmt) && ParseFill(fmt, f, arg) == Ok(f1) && f1.spec == Filled(w)
    ensures f1.k == f.k.(s := f.k.s + |FillText(w)|) && Has(fmt, f1.k.s, AfterFill(w))
  {
    FillParsed(fmt, f, w, arg);
    HasBoth(fmt, f.k.s, FillText(w), AfterFill(w));
    f1 := ParseFill(fmt, f, arg).value;
  }

  lemma SignStep(fmt: string, f: Field, w: Writing, arg: Arg) returns (f2: Field)
    requires Writable(w) && SignSuits(w, arg) && Has(fmt, f.k.s, AfterFill(w)) && f.spec.flags == {}
    ensures Inside(f, fmt) && ParseSign(fmt, f, arg) == Ok(f2) && f2.spec == f.spec.(flags := FlagsOf(w.sign, false))
    ensures f2.k == f.k.(s := f.k.s + |w.sign|) && Has(fmt, f2.k.s, AfterSign(w))
  {
    SignParsed(fmt, f, w, arg);
    HasBoth(fmt, f.k.s, w.sign, AfterSign(w));
    f2 := ParseSign(fmt, f, arg).value;
  }

  lemma HashStep(fmt: string, f: Field, w: Writing, arg: Arg) returns (f3: Field)
    requires Writable(w) && HashSuits(w, arg) && Has(fmt, f.k.s, AfterSign(w)) && f.spec.flags == FlagsOf(w.sign, false)
    ensures Inside(f, fmt) && ParseHash(fmt, f, arg) == Ok(f3) && f3.spec == f.spec.(flags := FlagsOf(w.sign, w.hash))
    ensures f3.k == f.k.(s := f.k.s + |HashText(w.hash)|) && Has(fmt, f3.k.s, AfterHash(w))
  {
    HashParsed(fmt, f, w, arg);
    HasBoth(fmt, f.k.s, HashText(w.hash), AfterHash(w));
    f3 := ParseHash(fmt, f, arg).value;
  }

  /** The parts up to the hash. */
  lemma HashedParsed(fmt: string, f: Field, w: Writing, arg: Arg) returns (f1: Field, f2: Field, f3: Field)
    requires Writable(w) && w != NOTHING && FillSuits(w, arg) && SignSuits(w, arg) && HashSuits(w, arg) && f.spec == DEFAULT_SPEC
    requires Has(fmt, f.k.s, FillText(w) + AfterFill(w))
    ensures Inside(f, fmt) && ParseFill(fmt, f, arg) == Ok(f1) && ParseSign(fmt, f1, arg) == Ok(f2)
    ensures ParseHash(fmt, f2, arg) == Ok(f3) && Has(fmt, f3.k.s, AfterHash(w))
    ensures f3 == Field(Filled(w).(flags := FlagsOf(w.sign, w.hash)),
                        f.k.(s := f.k.s + |FillText(w)| + |w.sign| + |HashText(w.hash)|))
  {
    f1 := FillStep(fmt, f, w, arg);
    f2 := SignStep(fmt, f1, w, arg);
    f3 := HashStep(fmt, f2, w, arg);
  }

  lemma WidthStep(fmt: string, f: Field, w: Writing, arg: Arg) returns (f4: Field)
    requires Writable(w) && ZeroSuits(w, arg) && Has(fmt, f.k.s, AfterHash(w)) && f.spec.width == 0
    ensures Inside(f, fmt) && ParseWidth(fmt, f, arg) == Ok(f4)
    ensures f4.k == f.k.(s := f.k.s + |WidthText(w)|) && Has(fmt, f4.k.s, AfterWidth(w))
    ensures f4.spec == (if w.zero then f.spec.(align := ALIGN_NUMERIC, fill := '0') else f.spec).(width := w.width)
  {
    WidthParsed(fmt, f, w, arg);
    HasBoth(fmt, f.k.s, WidthText(w), AfterWidth(w));
    f4 := ParseWidth(fmt, f, arg).value;
  }

  lemma PrecisionStep(fmt: string, f: Field, w: Writing, arg: Arg, args: ArgList) returns (f5: Field)
    requires Writable(w) && PrecisionSuits(w, arg) && args.Valid() && Has(fmt, f.k.s, AfterWidth(w)) && f.spec.precision == -1
    ensures Inside(f, fmt) && ParsePrecision(fmt, f, arg, args) == Ok(f5)
    ensures f5.k == f.k.(s := f.k.s + |PrecisionText(w.precision)|) && Has(fmt, f5.k.s, AfterPrecision(w))
    ensures f5.spec == f.spec.(precision := w.precision)
  {
    PrecisionParsed(fmt, f, w, arg, args);
    HasBoth(fmt, f.k.s, PrecisionText(w.precision), AfterPrecision(w));
    f5 := ParsePrecision(fmt, f, arg, args).value;
  }

  /** All that is meant but the type. */
  lemma MeantParts(w: Writing, front: FormatSpec, spec: FormatSpec)
    requires front == Filled(w).(flags := FlagsOf(w.sign, w.hash))
    requires spec == (if w.zero then front.(align := ALIGN_NUMERIC, fill := '0') else front)
                       .(width := w.width).(precision := w.precision)
    ensures Meant(w) == spec.(typ := w.typ)
  {
  }

  lemma AfterHashLength(w: Writing)
    ensures |AfterHash(w)| == |WidthText(w)| + |PrecisionText(w.precision)| + |TypeText(w.typ)| + 1
  {
  }

  /** The width and the precision. */
  lemma SizesParsed(fmt: string, f: Field, w: Writing, arg: Arg, args: ArgList) returns (f4: Field, f5: Field)
    requires Writable(w) && ZeroSuits(w, arg) && PrecisionSuits(w, arg) && args.Valid() && Has(fmt, f.k.s, AfterHash(w))
    requires f.spec == Filled(w).(flags := FlagsOf(w.sign, w.hash))
    ensures Inside(f, fmt) && ParseWidth(fmt, f, arg) == Ok(f4) && ParsePrecision(fmt, f4, arg, args) == Ok(f5)
    ensures f5.k == f.k.(s := f.k.s + |WidthText(w)| + |PrecisionText(w.precision)|) && Has(fmt, f5.k.s, AfterPrecision(w))
    ensures f5.spec.typ == NO_TYPE && Meant(w) == f5.spec.(typ := w.typ)
  {
    f4 := WidthStep(fmt, f, w, arg);
    f5 := PrecisionStep(fmt, f4, w, arg, args);
    MeantParts(w, f.spec, f5.spec);
  }

  /** The width, the precision and the type. */
  lemma BackParsed(fmt: string, f: Field, w: Writing, arg: Arg, args: ArgList, g: Field) returns (f4: Field, f5: Field)
    requires Writable(w) && Suits(w, arg) && args.Valid() && Has(fmt, f.k.s, AfterHash(w))
    requires f.spec == Filled(w).(flags := FlagsOf(w.sign, w.hash)) && IsMeant(g, w, f.k, |AfterHash(w)| - 1)
    ensures Inside(f, fmt) && ParseWidth(fmt, f, arg) == Ok(f4) && ParsePrecision(fmt, f4, arg, args) == Ok(f5)
    ensures ParseType(fmt, f5) == g && At(fmt, g.k.s) == '}'
  {
    AfterHashLength(w);
    f4, f5 := SizesParsed(fmt, f, w, arg, args);
    TypeParsed(fmt, f5, w, g);
  }

  lemma AfterFillLength(w: Writing)
    ensures |AfterFill(w)| == |w.sign| + |HashText(w.hash)| + |AfterHash(w)|
  {
  }

  /** g is what is meant, and where it ends. */
  predicate IsMeant(g: Field, w: Writing, k: Cursor, n: nat)
  {
    g.spec == Meant(w) && g.k == k.(s := k.s + n)
  }

  lemma SpecParsed(fmt: string, f: Field, w: Writing, arg: Arg, args: ArgList, g: Field)
    requires Writable(w) && w != NOTHING && Suits(w, arg) && args.Valid() && f.spec == DEFAULT_SPEC
    requires Has(fmt, f.k.s, FillText(w) + AfterFill(w)) && IsMeant(g, w, f.k, |FillText(w)| + |AfterFill(w)| - 1)
    ensures Inside(f, fmt) && ParseSpec(fmt, f, arg, args) == Ok(g) && At(fmt, g.k.s) == '}'
  {
    AfterFillLength(w);
    var f1, f2, f3 := HashedParsed(fmt, f, w, arg);
    assert IsMeant(g, w, f3.k, |AfterHash(w)| - 1);
    var f4, f5 := BackParsed(fmt, f3, w, arg, args, g);
    ParsedParts(fmt, f, f1, f2, f3, f4, f5, g, arg, args);
  }

  lemma ParsedParts(fmt: string, f: Field, f1: Field, f2: Field, f3: Field, f4: Field, f5: Field, g: Field,
                    arg: Arg, args: ArgList)
    requires Inside(f, fmt) && args.Valid() && ParseFill(fmt, f, arg) == Ok(f1) && ParseSign(fmt, f1, arg) == Ok(f2)
    requires ParseHash(fmt, f2, arg) == Ok(f3) && ParseWidth(fmt, f3, arg) == Ok(f4)
    requires ParsePrecision(fmt, f4, arg, args) == Ok(f5) && ParseType(fmt, f5) == g
    ensures ParseSpec(fmt, f, arg, args) == Ok(g)
  {
  }

  lemma FieldParsed(fmt: string, k: Cursor, f: Field, arg: Arg, args: ArgList, g: Field)
    requires k.s < |fmt| && args.Valid() && At(fmt, k.s) == ':' && f == Field(DEFAULT_SPEC, k.(s := k.s + 1))
    requires ParseSpec(fmt, f, arg, args) == Ok(g) && At(fmt, g.k.s) == '}'
    ensures ParseField(fmt, k, arg, args) == Ok(g.Skip(1))
  {
  }

  lemma DefaultParsed(fmt: string, k: Cursor, arg: Arg, args: ArgList)
    requires args.Valid() && Has(fmt, k.s, ['}'])
    ensures k.s < |fmt| && ParseField(fmt, k, arg, args) == Ok(Field(DEFAULT_SPEC, k.(s := k.s + 1)))
  {
    assert At(fmt, k.s) == '}';
  }

  lemma ColonParsed(fmt: string, k: Cursor, w: Writing, arg: Arg, args: ArgList, rest: string, g: Field)
    requires Writable(w) && w != NOTHING && Suits(w, arg) && args.Valid()
    requires rest == FillText(w) + AfterFill(w) && Has(fmt, k.s, [':'] + rest) && IsMeant(g, w, k, |rest|)
    ensures k.s < |fmt| && ParseField(fmt, k, arg, args) == Ok(g.Skip(1))
  {
    HasBoth(fmt, k.s, [':'], rest);
    var f := Field(DEFAULT_SPEC, k.(s := k.s + 1));
    assert IsMeant(g, w, f.k, |FillText(w)| + |AfterFill(w)| - 1);
    SpecParsed(fmt, f, w, arg, args, g);
    FieldParsed(fmt, k, f, arg, args, g);
  }

  lemma NothingMeant()
    ensures Meant(NOTHING) == DEFAULT_SPEC
  {
    assert FlagsOf([], false) == {};
  }

  /** Whatever way a specification is written, the parser reads what is meant, up to and with the closing brace. */
  lemma SpecRoundTrip(fmt: string, k: Cursor, w: Writing, arg: Arg, args: ArgList)
    requires Writable(w) && Suits(w, arg) && args.Valid() && Has(fmt, k.s, SpecText(w))
    ensures k.s <= |fmt| && ParseField(fmt, k, arg, args) == Ok(Field(Meant(w), k.(s := k.s + |SpecText(w)|)))
  {
    if w == NOTHING {
      NothingMeant();
      DefaultParsed(fmt, k, arg, args);
    } else {
      var rest := FillText(w) + AfterFill(w);
      var g := Field(Meant(w), k.(s := k.s + |rest|));
      assert g.Skip(1) == Field(Meant(w), k.(s := k.s + |SpecText(w)|));
      ColonParsed(fmt, k, w, arg, args, rest, g);
    }
  }

  /** Every specification whose flags are a sign's and perhaps a hash, and with a fill only if it is aligned, can
      be written. */
  lemma CanBeWritten(spec: FormatSpec, sign: string) returns (w: Writing)
    requires sign == "" || sign == "+" || sign == "-" || sign == " "
    requires spec.flags == FlagsOf(sign, HASH_FLAG in spec.flags) && (spec.align.ALIGN_DEFAULT? ==> spec.fill == ' ')
    requires spec.fill != '{' && spec.fill != '}' && spec.fill != '\0'
    requires spec.width <= INT_MAX && -1 <= spec.precision <= INT_MAX && IsTypeChar(spec.typ)
    ensures Writable(w) && Meant(w) == spec
  {
    var fill := if spec.align.ALIGN_DEFAULT? then [] else [spec.fill];
    w := Writing(fill, spec.align, sign, HASH_FLAG in spec.flags, false, spec.width, spec.precision, spec.typ);
  }

  /** An empty specification after a colon takes the alignment that the character beyond the brace stands for. */
  lemma EmptySpecParsed(fmt: string, k: Cursor, arg: Arg, args: ArgList)
    requires args.Valid() && Has(fmt, k.s, [':', '}'])
    ensures k.s + 2 <= |fmt|
    ensures ParseField(fmt, k, arg, args) == Ok(Field(DEFAULT_SPEC.(align := AlignOf(At(fmt, k.s + 2))), k.(s := k.s + 2)))
  {
    HasBoth(fmt, k.s, [':'], ['}']);
    assert [':'] + ['}'] == [':', '}'];
    var f := Field(DEFAULT_SPEC, k.(s := k.s + 1));
    var g := f.(spec := DEFAULT_SPEC.(align := AlignOf(At(fmt, k.s + 2))));
    assert ParseFill(fmt, f, arg) == Ok(g);
    assert ParseSign(fmt, g, arg) == Ok(g) && ParseHash(fmt, g, arg) == Ok(g) && ParseWidth(fmt, g, arg) == Ok(g);
    assert ParsePrecision(fmt, g, arg, args) == Ok(g) && ParseType(fmt, g) == g;
    FieldParsed(fmt, k, f, arg, args, g);
  }

  /** It is read as the default specification if and only if that character stands for none. */
  lemma EmptySpecRight(fmt: string, k: Cursor, arg: Arg, args: ArgList)
    requires args.Valid() && Has(fmt, k.s, [':', '}'])
    ensures k.s + 2 <= |fmt|
    ensures ParseField(fmt, k, arg, args) == Ok(Field(DEFAULT_SPEC, k.(s := k.s + 2)))
            <==> At(fmt, k.s + 2) !in ['<', '>', '=', '^']
  {
    EmptySpecParsed(fmt, k, arg, args);
  }

  predicate Holds(arg: Arg, value: int)
  {
    arg == IntArg(value) || arg == LongLongArg(value)
    || (value >= 0 && (arg == UIntArg(value) || arg == ULongLongArg(value)))
  }

  lemma FirstTaken(fmt: string, args: ArgList)
    requires args.Valid() && args.values != [] && fmt != [] && !IsDecimal(At(fmt, 1))
    ensures TakeArg(fmt, Cursor(1, 0, []), args) == Ok((args.values[0], Cursor(1, 1, [Automatic(0)])))
  {
    args.AtIsValue(0);
    assert args.values[0].Valid();
    assert [] + [Automatic(0)] == [Automatic(0)];
  }

  /** An integer, formatted by a specification that was written out: the text for that integer. */
  lemma FormattedInteger(value: int, w: Writing, args: ArgList, others: Others)
    requires args.Valid() && args.values != [] && Holds(args.values[0], value)
    requires Writable(w) && Suits(w, args.values[0]) && IsIntType(w.typ)
    ensures Formatted(['{'] + SpecText(w), args, others) == Ok(Output(IntText(value, Meant(w)), [Automatic(0)]))
  {
    FieldShown(w, args, others);
  }

  /** Whatever the argument, it is shown by the specification that is meant. */
  lemma FieldShown(w: Writing, args: ArgList, others: Others)
    requires args.Valid() && args.values != [] && Writable(w) && Suits(w, args.values[0])
    ensures var r := Show(args.values[0], Meant(w), others);
            Formatted(['{'] + SpecText(w), args, others) == if r.Ok? then Ok(Output(r.value, [Automatic(0)])) else Err(r.error)
  {
    var fmt, k1 := ['{'] + SpecText(w), Cursor(1, 1, [Automatic(0)]);
    var f := Field(Meant(w), k1.(s := |fmt|));
    FieldOpens(fmt, w);
    FirstTaken(fmt, args);
    SpecRoundTrip(fmt, k1, w, args.values[0], args);
    assert f == Field(Meant(w), k1.(s := k1.s + |SpecText(w)|));
    OneField(fmt, args, others, k1, f);
  }

  lemma FieldOpens(fmt: string, w: Writing)
    requires fmt == ['{'] + SpecText(w)
    ensures Has(fmt, 1, SpecText(w)) && |fmt| == |SpecText(w)| + 1 > 1 && fmt[0] == '{' && fmt[1] != '{'
  {
    var s := SpecText(w);
    SpecStart(w, s);
    assert fmt[0] == '{' && fmt[1] == s[0] && fmt[1..] == s;
  }

  lemma SpecStart(w: Writing, s: string)
    requires s == SpecText(w)
    ensures s != [] && (s[0] == ':' || s[0] == '}')
  {
  }

  /** A string that is one field. */
  lemma OneField(fmt: string, args: ArgList, others: Others, k1: Cursor, f: Field)
    requires |fmt| > 1 && args.Valid() && args.values != [] && fmt[0] == '{' && fmt[1] != '{' && f.k.s == |fmt|
    requires k1.s <= |fmt| && TakeArg(fmt, Cursor(1, 0, []), args) == Ok((args.values[0], k1))
    requires ParseField(fmt, k1, args.values[0], args) == Ok(f)
    ensures var r := Show(args.values[0], f.spec, others);
            Formatted(fmt, args, others) == if r.Ok? then Ok(Output(r.value, f.k.uses)) else Err(r.error)
  {
    var r := Show(args.values[0], f.spec, others);
    FieldTextIs(fmt, Cursor(1, 0, []), args, others, k1, f);
    if r.Ok? {
      assert Meaning(fmt, f.k, args, others) == Ok(Output([], f.k.uses));
      assert r.value + [] == r.value;
    }
  }

  lemma FieldTextIs(fmt: string, k: Cursor, args: ArgList, others: Others, k1: Cursor, f: Field)
    requires k.s <= |fmt| && args.Valid() && args.values != [] && k1.s <= |fmt|
    requires TakeArg(fmt, k, args) == Ok((args.values[0], k1)) && ParseField(fmt, k1, args.values[0], args) == Ok(f)
    ensures var r := Show(args.values[0], f.spec, others);
            FieldText(fmt, k, args, others) == if r.Ok? then Ok((r.value, f.k)) else Err(r.error)
  {
  }

  /** And from that text the integer can be read again. */
  lemma FormattedIntegerReadsBack(value: int, w: Writing, args: ArgList, others: Others)
    requires args.Valid() && args.values != [] && Holds(args.values[0], value)
    requires Writable(w) && Suits(w, args.values[0]) && IsIntType(w.typ) && Readable(Meant(w))
    ensures var r := Formatted(['{'] + SpecText(w), args, others); r.Ok? && ReadInt(r.value.text, Meant(w)) == value
  {
    FormattedInteger(value, w, args, others);
    ReadBack(value, Meant(w));
  }
}
