/** What single fields come to, for all arguments and all that may be asked of them. */
module FormatResults {
  import opened Numerals
  import opened FormatBuffers
  import opened FormatSpecs
  import opened FormatShapes
  import opened Writers
  import opened ArgLists
  import opened FormatGrammar
  import opened FormatRoundTrip

  /** The numbers: the integers, characters and floating-point arguments. */
  lemma NumericArgs(arg: Arg)
    requires arg.Valid()
    ensures IsNumeric(arg) <==> arg.NoArg? || arg.IntArg? || arg.UIntArg? || arg.LongLongArg? || arg.ULongLongArg?
                                || arg.CharArg? || arg.DoubleArg? || arg.LongDoubleArg?
  {
  }

  // What does not suit the argument is refused.

  lemma FillRefused(fmt: string, f: Field, w: Writing, arg: Arg)
    requires Writable(w) && !FillSuits(w, arg) && Has(fmt, f.k.s, FillText(w) + AfterFill(w))
    ensures Inside(f, fmt) && ParseFill(fmt, f, arg) == Err(RequiresNumeric)
  {
    HasBoth(fmt, f.k.s, FillText(w), AfterFill(w));
    if w.fill == [] {
      SignPlain(w);
      assert At(fmt, f.k.s) == '=' && AlignOf(At(fmt, f.k.s + 1)).ALIGN_DEFAULT?;
    } else {
      assert fmt[f.k.s] == FillText(w)[0] == w.fill[0] && fmt[f.k.s + 1] == FillText(w)[1] == '=';
    }
  }

  lemma SignRefused(fmt: string, f: Field, w: Writing, arg: Arg)
    requires Writable(w) && !SignSuits(w, arg) && Has(fmt, f.k.s, AfterFill(w))
    ensures Inside(f, fmt) && ParseSign(fmt, f, arg) == Err(if IsNumeric(arg) then RequiresSigned else RequiresNumeric)
  {
    HasBoth(fmt, f.k.s, w.sign, AfterSign(w));
  }

  lemma HashRefused(fmt: string, f: Field, w: Writing, arg: Arg)
    requires Writable(w) && !HashSuits(w, arg) && Has(fmt, f.k.s, AfterSign(w))
    ensures Inside(f, fmt) && ParseHash(fmt, f, arg) == Err(RequiresNumeric)
  {
    HasBoth(fmt, f.k.s, HashText(w.hash), AfterHash(w));
  }

  lemma ZeroRefused(fmt: string, f: Field, w: Writing, arg: Arg)
    requires Writable(w) && !ZeroSuits(w, arg) && Has(fmt, f.k.s, AfterHash(w))
    ensures Inside(f, fmt) && ParseWidth(fmt, f, arg) == Err(RequiresNumeric)
  {
    WidthStart(w);
    HasBoth(fmt, f.k.s, WidthText(w), AfterWidth(w));
  }

  lemma PrecisionRefused(fmt: string, f: Field, w: Writing, arg: Arg, args: ArgList)
    requires Writable(w) && !PrecisionSuits(w, arg) && args.Valid() && Has(fmt, f.k.s, AfterWidth(w))
    ensures Inside(f, fmt) && ParsePrecision(fmt, f, arg, args) == Err(PrecisionRequiresFloat)
  {
    var text := PrecisionText(w.precision);
    HasBoth(fmt, f.k.s, text, AfterPrecision(w));
    TypePlain(w);
    var g := f.(spec := f.spec.(precision := w.precision)).Skip(|text|);
    PrecisionDigits(fmt, f, w.precision, Decimal(w.precision), arg, args, g);
  }

  /** The error that is reported: what is for numbers comes first, then what is for signed ones. */
  function Refusal(w: Writing, arg: Arg): FormatError
  {
    if (w.align.ALIGN_NUMERIC? || w.sign != "" || w.hash || w.zero) && !IsNumeric(arg) then RequiresNumeric
    else if w.sign != "" && IsUnsigned(arg) then RequiresSigned else PrecisionRequiresFloat
  }

  lemma FrontRefused(fmt: string, f: Field, w: Writing, arg: Arg, args: ArgList)
    requires Writable(w) && w != NOTHING && args.Valid() && f.spec == DEFAULT_SPEC
    requires !FillSuits(w, arg) || !SignSuits(w, arg) || !HashSuits(w, arg)
    requires Has(fmt, f.k.s, FillText(w) + AfterFill(w))
    ensures Inside(f, fmt) && ParseSpec(fmt, f, arg, args) == Err(Refusal(w, arg))
  {
    if !FillSuits(w, arg) { FillRefused(fmt, f, w, arg); return; }
    var f1 := FillStep(fmt, f, w, arg);
    if !SignSuits(w, arg) { SignRefused(fmt, f1, w, arg); return; }
    var f2 := SignStep(fmt, f1, w, arg);
    HashRefused(fmt, f2, w, arg);
  }

  lemma BackRefused(fmt: string, f: Field, w: Writing, arg: Arg, args: ArgList)
    requires Writable(w) && w != NOTHING && args.Valid() && f.spec == DEFAULT_SPEC
    requires FillSuits(w, arg) && SignSuits(w, arg) && HashSuits(w, arg) && (!ZeroSuits(w, arg) || !PrecisionSuits(w, arg))
    requires Has(fmt, f.k.s, FillText(w) + AfterFill(w))
    ensures Inside(f, fmt) && ParseSpec(fmt, f, arg, args) == Err(Refusal(w, arg))
  {
    var f1, f2, f3 := HashedParsed(fmt, f, w, arg);
    if !ZeroSuits(w, arg) { ZeroRefused(fmt, f3, w, arg); return; }
    var f4 := WidthStep(fmt, f3, w, arg);
    PrecisionRefused(fmt, f4, w, arg, args);
  }

  lemma SpecRefused(fmt: string, f: Field, w: Writing, arg: Arg, args: ArgList)
    requires Writable(w) && w != NOTHING && !Suits(w, arg) && args.Valid() && f.spec == DEFAULT_SPEC
    requires Has(fmt, f.k.s, FillText(w) + AfterFill(w))
    ensures Inside(f, fmt) && ParseSpec(fmt, f, arg, args) == Err(Refusal(w, arg))
  {
    if FillSuits(w, arg) && SignSuits(w, arg) && HashSuits(w, arg) {
      BackRefused(fmt, f, w, arg, args);
    } else {
      FrontRefused(fmt, f, w, arg, args);
    }
  }

  lemma ParsedError(fmt: string, k: Cursor, f: Field, arg: Arg, args: ArgList, e: FormatError)
    requires k.s < |fmt| && args.Valid() && At(fmt, k.s) == ':' && f == Field(DEFAULT_SPEC, k.(s := k.s + 1))
    requires ParseSpec(fmt, f, arg, args) == Err(e)
    ensures ParseField(fmt, k, arg, args) == Err(e)
  {
    assert Field(DEFAULT_SPEC, k).Skip(1) == f;
  }

  lemma FieldRefused(fmt: string, k: Cursor, w: Writing, arg: Arg, args: ArgList, rest: string)
    requires Writable(w) && w != NOTHING && !Suits(w, arg) && args.Valid()
    requires rest == FillText(w) + AfterFill(w) && Has(fmt, k.s, [':'] + rest)
    ensures k.s < |fmt| && ParseField(fmt, k, arg, args) == Err(Refusal(w, arg))
  {
    HasBoth(fmt, k.s, [':'], rest);
    var f := Field(DEFAULT_SPEC, k.(s := k.s + 1));
    SpecRefused(fmt, f, w, arg, args);
    ParsedError(fmt, k, f, arg, args, Refusal(w, arg));
  }

  lemma FieldError(fmt: string, k1: Cursor, args: ArgList, others: Others, e: FormatError)
    requires args.Valid() && args.values != [] && fmt != [] && fmt[0] == '{' && At(fmt, 1) != '{' && k1.s <= |fmt|
    requires TakeArg(fmt, Cursor(1, 0, []), args) == Ok((args.values[0], k1))
    requires ParseField(fmt, k1, args.values[0], args) == Err(e)
    ensures Formatted(fmt, args, others) == Err(e)
  {
    assert FieldText(fmt, Cursor(1, 0, []), args, others) == Err(e);
  }

  lemma RefusedText(w: Writing, arg: Arg, rest: string)
    requires Writable(w) && !Suits(w, arg) && rest == FillText(w) + AfterFill(w)
    ensures var fmt := ['{'] + SpecText(w);
            w != NOTHING && fmt[0] == '{' && fmt[1] == ':' && Has(fmt, 1, [':'] + rest)
  {
    assert w != NOTHING;
    assert SpecText(w) == [':'] + rest;
    var fmt := ['{'] + SpecText(w);
    assert fmt[1..1 + |SpecText(w)|] == SpecText(w);
  }

  /** A field that asks of its argument what does not suit it is refused. */
  lemma Refused(w: Writing, args: ArgList, others: Others)
    requires args.Valid() && args.values != [] && Writable(w) && !Suits(w, args.values[0])
    ensures Formatted(['{'] + SpecText(w), args, others) == Err(Refusal(w, args.values[0]))
  {
    var fmt, arg, rest := ['{'] + SpecText(w), args.values[0], FillText(w) + AfterFill(w);
    var k1 := Cursor(1, 1, [Automatic(0)]);
    RefusedText(w, args.values[0], rest);
    FirstTaken(fmt, args);
    FieldRefused(fmt, k1, w, arg, args, rest);
    FieldError(fmt, k1, args, others, Refusal(w, arg));
  }

  // Integers.

  /** The sign of value, when sign is what is written to ask for one. */
  function SignText(value: int, sign: string): string
  {
    if value < 0 then "-" else if sign == "+" || sign == " " then sign else ""
  }

  /** What a hash puts in front of the digits. */
  function BaseText(typ: char, hash: bool): string
  {
    if !hash then "" else if typ == 'x' then "0x" else if typ == 'X' then "0X" else if typ == 'b' then "0b"
    else if typ == 'B' then "0B" else if typ == 'o' then "0" else ""
  }

  /** d denotes n in the base of the type, without a needless zero and in its case. */
  predicate AreDigits(d: string, n: nat, typ: char)
  {
    && (typ == NO_TYPE || typ == 'd' ==> AllDigits(d, 10) && Value(d, 10) == n)
    && (typ == 'x' || typ == 'X' ==> AllDigits(d, 16) && Value(d, 16) == n)
    && (typ == 'b' || typ == 'B' ==> AllDigits(d, 2) && Value(d, 2) == n)
    && (typ == 'o' ==> AllDigits(d, 8) && Value(d, 8) == n)
    && d != [] && (|d| > 1 ==> d[0] != '0') && (if typ == 'X' then UpperCase(d) else LowerCase(d))
  }

  function FillOf(w: Writing): char
  {
    if w.fill == [] then ' ' else w.fill[0]
  }

  /** front and digits, filled to the width as written: between them for the zero flag and for numeric alignment,
      and otherwise to the left of them unless the alignment is another. */
  predicate IsNumberText(text: string, front: string, digits: string, w: Writing)
  {
    if w.zero then FilledBetween(text, front, digits, '0', w.width)
    else match w.align
         case ALIGN_LEFT => FilledRight(text, front + digits, FillOf(w), w.width)
         case ALIGN_CENTER => FilledAround(text, front + digits, FillOf(w), w.width)
         case ALIGN_NUMERIC => FilledBetween(text, front, digits, FillOf(w), w.width)
         case ALIGN_RIGHT => FilledLeft(text, front + digits, FillOf(w), w.width)
         case ALIGN_DEFAULT => FilledLeft(text, front + digits, FillOf(w), w.width)
  }

  lemma DigitsRight(value: int, typ: char)
    requires IsIntType(typ)
    ensures AreDigits(Digits(value, typ), if value < 0 then -value else value, typ)
  {
    TypeBases(value, typ);
    TypeCases(value, typ);
  }

  lemma PrefixRight(value: int, w: Writing)
    requires Writable(w) && IsIntType(w.typ)
    ensures Prefix(value, Meant(w)) == SignText(value, w.sign) + BaseText(w.typ, w.hash)
  {
    Prefixes(value, Meant(w));
  }

  /** Any integer in any writing: sign, base prefix and digits, filled to the width. */
  lemma IntegerField(value: int, w: Writing, args: ArgList, others: Others) returns (text: string, digits: string)
    requires args.Valid() && args.values != [] && Holds(args.values[0], value)
    requires Writable(w) && Suits(w, args.values[0]) && IsIntType(w.typ)
    ensures Formatted(['{'] + SpecText(w), args, others) == Ok(Output(text, [Automatic(0)]))
    ensures AreDigits(digits, if value < 0 then -value else value, w.typ)
    ensures IsNumberText(text, SignText(value, w.sign) + BaseText(w.typ, w.hash), digits, w)
  {
    digits, text := Digits(value, w.typ), IntText(value, Meant(w));
    FormattedInteger(value, w, args, others);
    DigitsRight(value, w.typ);
    PrefixRight(value, w);
    NumberSides(value, Meant(w));
  }

  lemma ZeroWritten(w: Writing, width: nat)
    requires w == NOTHING.(zero := true, width := width) && width > 0
    ensures ['{'] + SpecText(w) == "{:0" + Decimal(width) + "}"
  {
    assert SpecText(w) == ":0" + Decimal(width) + "}";
  }

  lemma ZeroMeant(w: Writing, width: nat)
    requires w == NOTHING.(zero := true, width := width)
    ensures Meant(w) == DEFAULT_SPEC.(align := ALIGN_NUMERIC, fill := '0', width := width)
  {
    assert FlagsOf([], false) == {};
  }

  /** A zero flag and a width: sign, zeros and the decimal digits. */
  lemma ZeroPadded(value: int, width: nat, args: ArgList, others: Others)
    requires args.Valid() && args.values != [] && Holds(args.values[0], value) && 0 < width <= INT_MAX
    ensures var sign, digits := if value < 0 then "-" else "", Decimal(if value < 0 then -value else value);
            var text := sign + Repeat('0', Excess(width, |sign| + |digits|)) + digits;
            Formatted("{:0" + Decimal(width) + "}", args, others) == Ok(Output(text, [Automatic(0)]))
  {
    var w := NOTHING.(zero := true, width := width);
    ZeroWritten(w, width);
    ZeroMeant(w, width);
    ZeroText(value, Meant(w));
    FormattedInteger(value, w, args, others);
  }

  lemma ZeroText(value: int, spec: FormatSpec)
    requires spec == DEFAULT_SPEC.(align := ALIGN_NUMERIC, fill := '0', width := spec.width)
    ensures var sign, digits := if value < 0 then "-" else "", Decimal(if value < 0 then -value else value);
            IntText(value, spec) == sign + Repeat('0', Excess(spec.width, |sign| + |digits|)) + digits
  {
    assert Prefix(value, spec) == if value < 0 then "-" else "";
  }

  // Strings and characters.

  /** s, filled to the width: on its right unless the alignment is another. */
  predicate IsStringText(text: string, s: string, w: Writing)
  {
    match w.align
    case ALIGN_RIGHT => FilledLeft(text, s, FillOf(w), w.width)
    case ALIGN_CENTER => FilledAround(text, s, FillOf(w), w.width)
    case _ => FilledRight(text, s, FillOf(w), w.width)
  }

  lemma StringShown(s: string, w: Writing)
    requires Writable(w) && !w.zero
    ensures IsStringText(StrText(s, Meant(w)), s, w)
  {
    StringSides(s, Meant(w));
  }

  /** Any string in any writing. */
  lemma StringField(s: string, w: Writing, args: ArgList, others: Others) returns (text: string)
    requires args.Valid() && args.values != [] && args.values[0] == StringArg(s)
    requires Writable(w) && Suits(w, args.values[0])
    ensures if w.typ == NO_TYPE || w.typ == 's'
            then Formatted(['{'] + SpecText(w), args, others) == Ok(Output(text, [Automatic(0)])) && IsStringText(text, s, w)
            else Formatted(['{'] + SpecText(w), args, others) == Err(UnknownTypeCode)
  {
    text := StrText(s, Meant(w));
    FieldShown(w, args, others);
    StringShown(s, w);
  }

  function Mark(align: Alignment): string
  {
    match align
    case ALIGN_DEFAULT => ""
    case ALIGN_LEFT => "<"
    case ALIGN_RIGHT => ">"
    case ALIGN_CENTER => "^"
    case ALIGN_NUMERIC => "="
  }

  lemma AlignedWritten(w: Writing, width: nat)
    requires w == NOTHING.(align := w.align, width := width) && width > 0
    ensures ['{'] + SpecText(w) == "{:" + Mark(w.align) + Decimal(width) + "}"
  {
    assert SpecText(w) == ":" + Mark(w.align) + Decimal(width) + "}";
  }

  /** Just an alignment and a width: the string, and blanks to the width on its right, or on its left for '>'. */
  lemma StringPadded(s: string, align: Alignment, width: nat, args: ArgList, others: Others)
    requires args.Valid() && args.values != [] && args.values[0] == StringArg(s) && 0 < width <= INT_MAX
    requires !align.ALIGN_CENTER? && !align.ALIGN_NUMERIC?
    ensures var blanks := Repeat(' ', Excess(width, |s|));
            Formatted("{:" + Mark(align) + Decimal(width) + "}", args, others)
            == Ok(Output(if align.ALIGN_RIGHT? then blanks + s else s + blanks, [Automatic(0)]))
  {
    var w := NOTHING.(align := align, width := width);
    AlignedWritten(w, width);
    PaddedOn(s, w, args, others);
  }

  lemma PaddedOn(s: string, w: Writing, args: ArgList, others: Others)
    requires args.Valid() && args.values != [] && args.values[0] == StringArg(s) && w.width <= INT_MAX
    requires w == NOTHING.(align := w.align, width := w.width) && !w.align.ALIGN_CENTER? && !w.align.ALIGN_NUMERIC?
    ensures var blanks := Repeat(' ', Excess(w.width, |s|));
            var text := if w.align.ALIGN_RIGHT? then blanks + s else s + blanks;
            Formatted(['{'] + SpecText(w), args, others) == Ok(Output(text, [Automatic(0)]))
  {
    var text := StringField(s, w, args, others);
    if w.align.ALIGN_RIGHT? { LeftFilled(text, s, w.width); } else { RightFilled(text, s, w.width); }
  }

  lemma LeftFilled(text: string, s: string, width: nat)
    requires FilledLeft(text, s, ' ', width)
    ensures text == Repeat(' ', Excess(width, |s|)) + s
  {
  }

  lemma RightFilled(text: string, s: string, width: nat)
    requires FilledRight(text, s, ' ', width)
    ensures text == s + Repeat(' ', Excess(width, |s|))
  {
  }

  /** A character of an integer type is shown as the integer. */
  lemma CharNumber(value: int, w: Writing, args: ArgList, others: Others) returns (text: string, digits: string)
    requires args.Valid() && args.values != [] && args.values[0] == CharArg(value)
    requires Writable(w) && Suits(w, args.values[0]) && w.typ != NO_TYPE && w.typ != 'c'
    ensures var r := Formatted(['{'] + SpecText(w), args, others);
            if IsIntType(w.typ)
            then r == Ok(Output(text, [Automatic(0)])) && AreDigits(digits, if value < 0 then -value else value, w.typ)
                 && IsNumberText(text, SignText(value, w.sign) + BaseText(w.typ, w.hash), digits, w)
            else r == Err(UnknownTypeCode)
  {
    digits, text := Digits(value, w.typ), IntText(value, Meant(w));
    FieldShown(w, args, others);
    CharFlagUnused(value, Meant(w), Meant(w).flags + {CHAR_FLAG});
    if IsIntType(w.typ) {
      DigitsRight(value, w.typ);
      PrefixRight(value, w);
      NumberSides(value, Meant(w));
    }
  }

  lemma FlagsBare(w: Writing)
    requires Writable(w)
    ensures Meant(w).flags == {} <==> w.sign == "" && !w.hash
  {
  }

  /** And otherwise as one character, for which flags and numeric alignment are refused. */
  lemma CharText(value: int, w: Writing, args: ArgList, others: Others) returns (text: string)
    requires args.Valid() && args.values != [] && args.values[0] == CharArg(value)
    requires Writable(w) && Suits(w, args.values[0]) && (w.typ == NO_TYPE || w.typ == 'c')
    ensures var r := Formatted(['{'] + SpecText(w), args, others);
            if w.zero || w.align.ALIGN_NUMERIC? || w.sign != "" || w.hash then r == Err(InvalidCharSpec)
            else r == Ok(Output(text, [Automatic(0)])) && IsStringText(text, [(value % 256) as char], w)
  {
    text := StrText([(value % 256) as char], Meant(w));
    FlagsBare(w);
    FieldShown(w, args, others);
    if !w.zero { StringShown([(value % 256) as char], w); }
  }

  lemma CharFlagUnused(value: int, spec: FormatSpec, flags: set<Flag>)
    requires flags == spec.flags + {CHAR_FLAG}
    ensures IntText(value, spec.(flags := flags)) == IntText(value, spec)
  {
    var other, n := spec.(flags := flags), |Digits(value, spec.typ)|;
    assert Prefix(value, other) == Prefix(value, spec);
    SameSides(n, other, spec, Prefix(value, spec));
  }

  lemma SameSides(n: nat, spec: FormatSpec, other: FormatSpec, prefix: string)
    requires spec == other.(flags := spec.flags)
    ensures IntLeft(n, spec, prefix) == IntLeft(n, other, prefix) && IntRight(n, spec, prefix) == IntRight(n, other, prefix)
  {
  }

  // Precision and indices.

  /** A floating-point argument is shown, by a function that is given, under the specification that is meant. */
  lemma FloatField(w: Writing, args: ArgList, others: Others)
    requires args.Valid() && args.values != [] && (args.values[0].DoubleArg? || args.values[0].LongDoubleArg?)
    requires Writable(w)
    ensures var r := others(args.values[0], Meant(w));
            Formatted(['{'] + SpecText(w), args, others) == if r.Ok? then Ok(Output(r.value, [Automatic(0)])) else Err(r.error)
  {
    FieldShown(w, args, others);
  }

  /** An index in decimal takes that argument. */
  lemma IndexTaken(fmt: string, k: Cursor, index: nat, args: ArgList)
    requires args.Valid() && index <= INT_MAX && k.next <= 0
    requires Has(fmt, k.s, Decimal(index)) && At(fmt, k.s + |Decimal(index)|) == '}'
    ensures k.s <= |fmt|
    ensures TakeArg(fmt, k, args)
            == if index < |args.values|
               then Ok((args.values[index], Cursor(k.s + |Decimal(index)|, -1, k.uses + [Explicit(index)])))
               else Err(IndexOutOfRange)
  {
    DecimalStart(index);
    NumberParsed(fmt, k.s, Decimal(index));
    args.AtIsValue(index);
    if index < |args.values| { assert args.values[index].Valid(); }
  }

  /** A field with just an index shows that argument, if there is one. */
  lemma IndexField(index: nat, args: ArgList, others: Others)
    requires args.Valid() && index <= INT_MAX
    ensures var r := if index < |args.values| then Show(args.values[index], DEFAULT_SPEC, others) else Err(IndexOutOfRange);
            Formatted("{" + Decimal(index) + "}", args, others)
            == if r.Ok? then Ok(Output(r.value, [Explicit(index)])) else Err(r.error)
  {
    var d := Decimal(index);
    var fmt := "{" + d + "}";
    DecimalStart(index);
    assert fmt[1..1 + |d|] == d && fmt[1] == d[0] && IsDecimal(d[0]);
    IndexTaken(fmt, Cursor(1, 0, []), index, args);
    IndexShown(fmt, |d|, index, args, others);
  }

  lemma IndexShown(fmt: string, n: nat, index: nat, args: ArgList, others: Others)
    requires args.Valid() && |fmt| == n + 2 > 2 && fmt[0] == '{' && fmt[1] != '{' && fmt[n + 1] == '}'
    requires TakeArg(fmt, Cursor(1, 0, []), args)
             == if index < |args.values| then Ok((args.values[index], Cursor(1 + n, -1, [] + [Explicit(index)])))
                else Err(IndexOutOfRange)
    ensures var r := if index < |args.values| then Show(args.values[index], DEFAULT_SPEC, others) else Err(IndexOutOfRange);
            Formatted(fmt, args, others) == if r.Ok? then Ok(Output(r.value, [Explicit(index)])) else Err(r.error)
  {
    if index < |args.values| {
      var k1 := Cursor(1 + n, -1, [Explicit(index)]);
      assert [] + [Explicit(index)] == [Explicit(index)];
      var f := Field(DEFAULT_SPEC, k1.(s := n + 2));
      assert ParseField(fmt, k1, args.values[index], args) == Ok(f);
      var r := Show(args.values[index], DEFAULT_SPEC, others);
      if r.Ok? {
        assert Meaning(fmt, f.k, args, others) == Ok(Output([], f.k.uses));
        assert r.value + [] == r.value;
      }
    }
  }

  // Precisions that arguments give.

  /** The precision an argument gives, if it is an integer that is not negative and fits an int. */
  function GivenBy(arg: Arg): Result<nat>
  {
    match arg
    case IntArg(v) => if v < 0 then Err(NegativePrecision) else Ok(v as nat)
    case LongLongArg(v) => if v < 0 then Err(NegativePrecision) else if v > 2147483647 then Err(NumberTooBig) else Ok(v as nat)
    case UIntArg(v) => if v > 2147483647 then Err(NumberTooBig) else Ok(v)
    case ULongLongArg(v) => if v > 2147483647 then Err(NumberTooBig) else Ok(v)
    case _ => Err(PrecisionNotInteger)
  }

  lemma GivenRight(arg: Arg)
    requires arg.Valid()
    ensures PrecisionValue(arg) == GivenBy(arg)
  {
  }

  lemma NestedGiven(fmt: string, f: Field, args: ArgList, arg: Arg, g: Field)
    requires args.Valid() && f.k.s + 2 <= |fmt| && fmt[f.k.s] == '{' && fmt[f.k.s + 1] == '}'
    requires 0 <= f.k.next < |args.values| && arg == args.values[f.k.next]
    requires GivenBy(arg).Ok? ==> g.spec == f.spec.(precision := GivenBy(arg).value)
    requires g.k == Cursor(f.k.s + 2, f.k.next + 1, f.k.uses + [Automatic(f.k.next)])
    ensures ParseGiven(fmt, f, args) == if GivenBy(arg).Ok? then Ok(g) else Err(GivenBy(arg).error)
  {
    args.AtIsValue(f.k.next);
    assert arg.Valid();
    GivenRight(arg);
    var k := f.k.(s := f.k.s + 1);
    assert TakeArg(fmt, k, args) == Ok((arg, g.k.(s := f.k.s + 1)));
  }

  lemma NestedSpec(fmt: string, f: Field, arg: Arg, args: ArgList, r: Result<Field>)
    requires args.Valid() && Has(fmt, f.k.s, ".{}}") && f.spec == DEFAULT_SPEC && (arg.DoubleArg? || arg.LongDoubleArg?)
    requires ParseGiven(fmt, f.Skip(1), args) == r && (r.Ok? ==> r.value.k.s == f.k.s + 3)
    ensures ParseSpec(fmt, f, arg, args) == r
  {
    assert fmt[f.k.s..f.k.s + 4][0] == '.' && fmt[f.k.s..f.k.s + 4][1] == '{' && fmt[f.k.s..f.k.s + 4][3] == '}';
    assert ParseFill(fmt, f, arg) == ParseSign(fmt, f, arg) == ParseHash(fmt, f, arg) == ParseWidth(fmt, f, arg) == Ok(f);
    assert ParsePrecision(fmt, f, arg, args) == r;
    if r.Ok? { assert ParseType(fmt, r.value) == r.value; }
  }

  lemma NestedParsed(fmt: string, k1: Cursor, args: ArgList, g: Field, h: Field)
    requires args.Valid() && |args.values| > 1 && (args.values[0].DoubleArg? || args.values[0].LongDoubleArg?)
    requires fmt == "{:.{}}" && k1 == Cursor(1, 1, [Automatic(0)])
    requires GivenBy(args.values[1]).Ok? ==> g.spec == DEFAULT_SPEC.(precision := GivenBy(args.values[1]).value)
    requires g.k == Cursor(5, 2, [Automatic(0), Automatic(1)]) && h == g.Skip(1)
    ensures var p := GivenBy(args.values[1]);
            ParseField(fmt, k1, args.values[0], args) == if p.Ok? then Ok(h) else Err(p.error)
  {
    var arg, p := args.values[0], GivenBy(args.values[1]);
    var f, f1 := Field(DEFAULT_SPEC, k1.(s := 2)), Field(DEFAULT_SPEC, k1.(s := 3));
    assert [Automatic(0)] + [Automatic(1)] == [Automatic(0), Automatic(1)] && fmt[2..6] == ".{}}";
    NestedGiven(fmt, f1, args, args.values[1], g);
    if p.Ok? {
      NestedSpec(fmt, f, arg, args, Ok(g));
      FieldParsed(fmt, k1, f, arg, args, g);
    } else {
      NestedSpec(fmt, f, arg, args, Err(p.error));
      ParsedError(fmt, k1, f, arg, args, p.error);
    }
  }

  /** A precision given by the next argument. */
  lemma NestedPrecision(fmt: string, args: ArgList, others: Others)
    requires fmt == "{:.{}}"
    requires args.Valid() && |args.values| > 1 && (args.values[0].DoubleArg? || args.values[0].LongDoubleArg?)
    ensures var p := GivenBy(args.values[1]);
            Formatted(fmt, args, others)
            == if p.Err? then Err(p.error) else
                 var r := others(args.values[0], DEFAULT_SPEC.(precision := p.value));
                 if r.Ok? then Ok(Output(r.value, [Automatic(0), Automatic(1)])) else Err(r.error)
  {
    var p, k1, k2 := GivenBy(args.values[1]), Cursor(1, 1, [Automatic(0)]), Cursor(5, 2, [Automatic(0), Automatic(1)]);
    var spec := DEFAULT_SPEC.(precision := if p.Ok? then p.value else 0);
    var h := Field(spec, k2.(s := 6));
    assert Show(args.values[0], spec, others) == others(args.values[0], spec);
    FirstTaken(fmt, args);
    NestedParsed(fmt, k1, args, Field(spec, k2), h);
    FieldOrError(fmt, k1, args, others, h, p);
  }

  /** One field that is parsed, or refused with the error of p. */
  lemma FieldOrError(fmt: string, k1: Cursor, args: ArgList, others: Others, f: Field, p: Result<nat>)
    requires |fmt| > 1 && args.Valid() && args.values != [] && fmt[0] == '{' && fmt[1] != '{' && f.k.s == |fmt| && k1.s <= |fmt|
    requires TakeArg(fmt, Cursor(1, 0, []), args) == Ok((args.values[0], k1))
    requires ParseField(fmt, k1, args.values[0], args) == if p.Ok? then Ok(f) else Err(p.error)
    ensures Formatted(fmt, args, others)
            == if p.Err? then Err(p.error) else
                 var r := Show(args.values[0], f.spec, others);
                 if r.Ok? then Ok(Output(r.value, f.k.uses)) else Err(r.error)
  {
    if p.Ok? { OneField(fmt, args, others, k1, f); } else { FieldError(fmt, k1, args, others, p.error); }
  }

  // Indices of both kinds.

  /** After an automatic index an explicit one is refused. */
  lemma AutomaticThenExplicit(fmt: string, k: Cursor, index: nat, args: ArgList)
    requires args.Valid() && k.next > 0 && index <= INT_MAX
    requires Has(fmt, k.s, Decimal(index)) && At(fmt, k.s + |Decimal(index)|) == '}'
    ensures k.s <= |fmt| && TakeArg(fmt, k, args) == Err(AutomaticToManual)
  {
    DecimalStart(index);
    NumberParsed(fmt, k.s, Decimal(index));
  }

  /** And the other way round. */
  lemma ExplicitThenAutomatic(fmt: string, k: Cursor, args: ArgList)
    requires args.Valid() && k.next < 0 && k.s < |fmt| && fmt[k.s] == '}'
    ensures TakeArg(fmt, k, args) == Err(ManualToAutomatic)
  {
  }

  // Fields that are not well formed.

  /** Whatever comes after its index, a field without its closing brace is an error. */
  lemma NeverClosed(c: char, rest: string, args: ArgList, others: Others)
    requires args.Valid() && args.values != [] && c != '}' && c != ':' && c != '{' && !IsDecimal(c)
    ensures Formatted("{", args, others) == Formatted("{" + [c] + rest, args, others) == Err(MissingBrace)
  {
    var k1, fmt := Cursor(1, 1, [Automatic(0)]), "{" + [c] + rest;
    FirstTaken("{", args);
    FieldError("{", k1, args, others, MissingBrace);
    assert fmt[1] == c;
    FirstTaken(fmt, args);
    FieldError(fmt, k1, args, others, MissingBrace);
  }

  /** A field that asks for an argument that is not there, closed or not. */
  lemma NoArgument(args: ArgList, others: Others)
    requires args.Valid() && args.values == []
    ensures Formatted("{}", args, others) == Err(IndexOutOfRange) && Formatted("{", args, others) == Err(InvalidFormatString)
  {
    args.AtIsValue(0);
    assert TakeArg("{}", Cursor(1, 0, []), args) == Err(IndexOutOfRange);
    assert TakeArg("{", Cursor(1, 0, []), args) == Err(InvalidFormatString);
  }

  /** A brace is no fill. */
  lemma BraceFill(align: Alignment, rest: string, args: ArgList, others: Others)
    requires args.Valid() && args.values != [] && !align.ALIGN_DEFAULT?
    ensures Formatted("{:{" + [AlignChar(align)] + rest, args, others) == Err(InvalidFill)
  {
    var k1, fmt := Cursor(1, 1, [Automatic(0)]), "{:{" + [AlignChar(align)] + rest;
    var f := Field(DEFAULT_SPEC, k1.(s := 2));
    assert fmt[1] == ':' && fmt[2] == '{' && fmt[3] == AlignChar(align);
    FirstTaken(fmt, args);
    assert ParseSpec(fmt, f, args.values[0], args) == Err(InvalidFill);
    ParsedError(fmt, k1, f, args.values[0], args, InvalidFill);
    FieldError(fmt, k1, args, others, InvalidFill);
  }

  /** A point needs a precision. */
  lemma PointAlone(args: ArgList, others: Others)
    requires args.Valid() && args.values != []
    ensures Formatted("{:.}", args, others) == Err(MissingPrecision)
  {
    var k1, fmt := Cursor(1, 1, [Automatic(0)]), "{:.}";
    var f, arg := Field(DEFAULT_SPEC, k1.(s := 2)), args.values[0];
    FirstTaken(fmt, args);
    assert ParseFill(fmt, f, arg) == ParseSign(fmt, f, arg) == ParseHash(fmt, f, arg) == ParseWidth(fmt, f, arg) == Ok(f);
    assert ParsePrecision(fmt, f, arg, args) == Err(MissingPrecision);
    assert ParseSpec(fmt, f, arg, args) == Err(MissingPrecision);
    ParsedError(fmt, k1, f, arg, args, MissingPrecision);
    FieldError(fmt, k1, args, others, MissingPrecision);
  }

  /** A width or an index has to fit an int. */
  lemma TooBig(ds: string, rest: string, args: ArgList, others: Others)
    requires args.Valid() && args.values != [] && ds != [] && AllDigits(ds, 10) && ParsedInt(ds).Err? && ds[0] != '0'
    requires rest == [] || !IsDecimal(rest[0])
    ensures Formatted("{" + (ds + rest), args, others) == Formatted("{:" + (ds + rest), args, others) == Err(NumberTooBig)
  {
    var fmt, fmt1, k, k1 := "{" + (ds + rest), "{:" + (ds + rest), Cursor(1, 0, []), Cursor(1, 1, [Automatic(0)]);
    BigNumber(fmt, 1, ds, rest);
    assert FieldText(fmt, k, args, others) == Err(NumberTooBig);
    BigNumber(fmt1, 2, ds, rest);
    FirstTaken(fmt1, args);
    var f, arg := Field(DEFAULT_SPEC, k1.(s := 2)), args.values[0];
    BigWidth(fmt1, f, arg, args);
    ParsedError(fmt1, k1, f, arg, args, NumberTooBig);
    FieldError(fmt1, k1, args, others, NumberTooBig);
  }

  lemma OneDigitFits(ds: string)
    requires ds != [] && AllDigits(ds, 10) && ParsedInt(ds).Err?
    ensures |ds| > 1
  {
    if |ds| == 1 {
      var none: string := [];
      assert ds == none + ds && ds[..0] == none && Value(none, 10) == 0;
      assert Value(ds, 10) < 10;
      ParsedIntExact(ds);
    }
  }

  lemma BigNumber(fmt: string, s: nat, ds: string, rest: string)
    requires ds != [] && AllDigits(ds, 10) && ParsedInt(ds).Err? && ds[0] != '0' && (rest == [] || !IsDecimal(rest[0]))
    requires |fmt| == s + |ds| + |rest| && fmt[s..] == ds + rest
    ensures IsDecimal(At(fmt, s)) && At(fmt, s) != '0' && ParseNumber(fmt, s) == Err(NumberTooBig)
    ensures IsDecimal(At(fmt, s + 1))
  {
    OneDigitFits(ds);
    DigitsPlain(ds);
    assert fmt[s..][0] == ds[0] && fmt[s..s + |ds|] == ds;
    assert At(fmt, s + |ds|) == if rest == [] then '\0' else rest[0];
    RunEndHas(fmt, s, ds);
    assert fmt[s..][1] == ds[1];
  }

  lemma BigWidth(fmt: string, f: Field, arg: Arg, args: ArgList)
    requires Inside(f, fmt) && args.Valid() && f.k.s + 1 <= |fmt| && IsDecimal(At(fmt, f.k.s)) && At(fmt, f.k.s) != '0'
    requires ParseNumber(fmt, f.k.s) == Err(NumberTooBig) && AlignOf(At(fmt, f.k.s + 1)).ALIGN_DEFAULT?
    ensures ParseSpec(fmt, f, arg, args) == Err(NumberTooBig)
  {
    assert ParseFill(fmt, f, arg) == ParseSign(fmt, f, arg) == ParseHash(fmt, f, arg) == Ok(f);
    assert ParseWidth(fmt, f, arg) == Err(NumberTooBig);
  }
}
