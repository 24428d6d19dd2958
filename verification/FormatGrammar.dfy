/** What a format string means. Positions are offsets into the text, which ends as at a NUL. */
module FormatGrammar {
  import opened ByteValues
  import opened Numerals
  import opened Decimals
  import opened FormatBuffers
  import opened FormatSpecs
  import opened Writers
  import opened ArgLists

  /** *s, at any place up to the terminator. */
  function At(fmt: string, s: nat): char
    requires s <= |fmt|
  {
    if s < |fmt| then fmt[s] else '\0'
  }

  // Numbers.

  predicate IsDecimal(c: char)
  {
    '0' <= c <= '9'
  }

  /** The end of the digits that start at s. */
  function RunEnd(fmt: string, s: nat): (end: nat)
    requires s <= |fmt|
    ensures s <= end <= |fmt| && !IsDecimal(At(fmt, end))
    ensures forall i :: s <= i < end ==> IsDecimal(At(fmt, i))
    decreases |fmt| - s
  {
    if IsDecimal(At(fmt, s)) then RunEnd(fmt, s + 1) else s
  }

  /** The number ds denotes, in a 32-bit word. */
  function Residue(ds: string): nat
    requires AllDigits(ds, 10)
  {
    Value(ds, 10) % WORD32
  }

  /** Somewhere in ds a further digit makes the word smaller, which is how wrapping is noticed. */
  predicate Falls(ds: string)
    requires AllDigits(ds, 10)
  {
    ds != [] && (Falls(ds[..|ds| - 1]) || Residue(ds) < Residue(ds[..|ds| - 1]))
  }

  function ParsedInt(ds: string): (r: Result<nat>)
    requires AllDigits(ds, 10)
  {
    if Falls(ds) || Residue(ds) > INT_MAX then Err(NumberTooBig) else Ok(Residue(ds))
  }

  lemma {:induction false} NothingFalls(ds: string)
    requires AllDigits(ds, 10) && Value(ds, 10) <= UINT_MAX
    ensures !Falls(ds)
    decreases |ds|
  {
    if ds != [] { NothingFalls(ds[..|ds| - 1]); }
  }

  /** Numbers up to INT_MAX are read exactly, and those up to UINT_MAX are refused. */
  lemma ParsedIntExact(ds: string)
    requires AllDigits(ds, 10) && Value(ds, 10) <= UINT_MAX
    ensures ParsedInt(ds) == if Value(ds, 10) <= INT_MAX then Ok(Value(ds, 10)) else Err(NumberTooBig)
  {
    NothingFalls(ds);
    assert Residue(ds) == Value(ds, 10);
  }

  /** Reading inverts decimal printing. */
  lemma DecimalParsed(n: nat)
    requires n <= UINT_MAX
    ensures AllDigits(Decimal(n), 10)
    ensures ParsedInt(Decimal(n)) == if n <= INT_MAX then Ok(n) else Err(NumberTooBig)
  {
    NumeralDenotes(n, 10, false);
    ParsedIntExact(Decimal(n));
  }

  lemma ResidueAppend(v: nat, d: nat)
    ensures (10 * v + d) % WORD32 == (10 * (v % WORD32) + d) % WORD32
  {
    var q, r := v / WORD32, v % WORD32;
    assert 10 * v + d == (10 * r + d) + WORD32 * (10 * q);
    WholeTurns(10 * r + d, 10 * q);
  }

  lemma {:induction false} WholeTurns(x: nat, q: nat)
    ensures (x + WORD32 * q) % WORD32 == x % WORD32
    decreases q
  {
    if q > 0 { WholeTurns(x, q - 1); }
  }

  lemma FallsAppend(ds: string, c: char)
    requires AllDigits(ds + [c], 10) && AllDigits(ds, 10)
    ensures Falls(ds + [c]) <==> Falls(ds) || Residue(ds + [c]) < Residue(ds)
  {
    assert (ds + [c])[..|ds|] == ds;
  }

  /** Taking the digit d makes the word w smaller: the turns taken off outweigh what is put on. */
  predicate Drops(w: nat, d: nat)
  {
    9 * w + d < WORD32 * ((10 * w + d) / WORD32)
  }

  lemma DropsIs(w: nat, d: nat)
    ensures (10 * w + d) % WORD32 < w <==> Drops(w, d)
  {
  }

  lemma ResidueStep(ds: string, c: char)
    requires AllDigits(ds, 10) && IsDigit(c, 10)
    ensures AllDigits(ds + [c], 10) && Residue(ds + [c]) == (10 * Residue(ds) + DigitOf(c)) % WORD32
    ensures Falls(ds + [c]) <==> Falls(ds) || Drops(Residue(ds), DigitOf(c))
  {
    ValueAppend(ds, c, 10);
    FallsAppend(ds, c);
    ResidueAppend(Value(ds, 10), DigitOf(c));
    DropsIs(Residue(ds), DigitOf(c));
  }

  /** The digit at j makes the word of the digits before it smaller. */
  predicate DropsAt(ds: string, j: nat)
    requires AllDigits(ds, 10) && j < |ds|
  {
    Drops(Value(ds[..j], 10) % WORD32, DigitOf(ds[j]))
  }

  lemma {:induction false} FallsWhere(ds: string)
    requires AllDigits(ds, 10)
    ensures Falls(ds) <==> exists j: nat :: j < |ds| && DropsAt(ds, j)
    decreases |ds|
  {
    if ds != [] {
      var front, n := ds[..|ds| - 1], |ds| - 1;
      assert ds == front + [ds[n]];
      ResidueStep(front, ds[n]);
      FallsWhere(front);
      assert DropsAt(ds, n) <==> Drops(Residue(front), DigitOf(ds[n]));
      forall j: nat | j < n
        ensures DropsAt(front, j) <==> DropsAt(ds, j)
      {
        assert front[..j] == ds[..j];
      }
    }
  }

  /** Over all runs of digits, a number is read right, which is exactly or not at all, if and only if it
      fits, or its word at the end does not, or one of its digits makes the word before it smaller. */
  lemma ParsedIntRight(ds: string)
    requires AllDigits(ds, 10)
    ensures (ParsedInt(ds).Ok? ==> ParsedInt(ds).value == Value(ds, 10))
            <==> (Value(ds, 10) <= INT_MAX || Value(ds, 10) % WORD32 > INT_MAX
                  || exists j: nat :: j < |ds| && DropsAt(ds, j))
  {
    FallsWhere(ds);
    assert Residue(ds) == Value(ds, 10) % WORD32;
    if Value(ds, 10) <= INT_MAX { NothingFalls(ds); }
  }

  lemma ParsedOk(ds: string)
    requires AllDigits(ds, 10)
    ensures ParsedInt(ds).Ok? <==> !Falls(ds) && Residue(ds) <= INT_MAX
  {
  }

  lemma SmallResidue(ds: string)
    requires AllDigits(ds, 10) && Value(ds, 10) <= UINT_MAX
    ensures !Falls(ds) && Residue(ds) == Value(ds, 10)
  {
    NothingFalls(ds);
  }

  lemma ShortStep(front: string, c: char, w: nat, d: nat)
    requires AllDigits(front, 10) && IsDigit(c, 10) && w == Value(front, 10) <= UINT_MAX && d == DigitOf(c)
    ensures AllDigits(front + [c], 10)
    ensures ParsedInt(front + [c]).Ok? <==> (10 * w + d) % WORD32 <= INT_MAX && !Drops(w, d)
  {
    SmallResidue(front);
    ResidueStep(front, c);
    ParsedOk(front + [c]);
  }

  lemma TenParts(v: nat, w: nat, d: nat)
    requires v == 10 * w + d && d < 10
    ensures v / 10 == w && v % 10 == d
    ensures Drops(w, d) <==> 9 * (v / 10) + v % 10 < WORD32 * (v / WORD32)
  {
  }

  /** For a value v up to which only the last digit can wrap, that is a matter of v alone. */
  lemma {:induction false} ParsedIntShort(ds: string)
    requires AllDigits(ds, 10) && Value(ds, 10) / 10 <= UINT_MAX
    ensures var v := Value(ds, 10);
            ParsedInt(ds).Ok? <==>
              v % WORD32 <= INT_MAX && 9 * (v / 10) + v % 10 >= WORD32 * (v / WORD32)
  {
    if ds == [] {
      ParsedIntExact(ds);
    } else {
      var front, c := ds[..|ds| - 1], ds[|ds| - 1];
      assert ds == front + [c];
      var w, d := Value(front, 10), DigitOf(c);
      ValueAppend(front, c, 10);
      TenParts(Value(ds, 10), w, d);
      ShortStep(front, c, w, d);
    }
  }

  /** Of the numbers of up to ten digits, just those in two intervals are read as other numbers. */
  lemma ParsedIntMisread(ds: string)
    requires AllDigits(ds, 10) && Value(ds, 10) <= 9999999999
    ensures var v := Value(ds, 10);
            (ParsedInt(ds).Ok? && ParsedInt(ds).value != v) <==> (4772185884 <= v <= 6442450943 || 9544371768 <= v)
  {
    ParsedIntShort(ds);
  }

  lemma PowerOfTen(n: nat)
    requires 0 < n < 20
    ensures AllDigits(['1'] + Repeat('0', n), 10) && Value(['1'] + Repeat('0', n), 10) == PowersOfTen(n)
  {
    OneDigit(1, 10, false);
    ZerosValue(n, 10);
    ValueConcat(['1'], Repeat('0', n), 10);
    TableIsPowers(n);
  }

  /** So 10000000000, whose digits never make the word smaller, is read as another number. */
  lemma ParsedIntWrong()
    ensures var ds := ['1'] + Repeat('0', 10);
            AllDigits(ds, 10) && Value(ds, 10) == 10000000000 && ParsedInt(ds) == Ok(1410065408)
  {
    var ds := ['1'] + Repeat('0', 9);
    PowerOfTen(9);
    NothingFalls(ds);
    ValueAppend(ds, '0', 10);
    FallsAppend(ds, '0');
    assert ['1'] + Repeat('0', 10) == ds + ['0'];
  }

  lemma RunDigits(fmt: string, s: nat)
    requires s <= |fmt|
    ensures RunEnd(fmt, s) <= |fmt| && AllDigits(fmt[s..RunEnd(fmt, s)], 10)
  {
    var ds := fmt[s..RunEnd(fmt, s)];
    forall i | 0 <= i < |ds|
      ensures IsDigit(ds[i], 10)
    {
      assert IsDecimal(At(fmt, s + i));
    }
  }

  /** parse_nonnegative_int */
  function ParseNumber(fmt: string, s: nat): Result<nat>
    requires s <= |fmt|
  {
    RunDigits(fmt, s);
    ParsedInt(fmt[s..RunEnd(fmt, s)])
  }

  // Arguments.

  datatype Use = Automatic(index: nat) | Explicit(index: nat)

  /** A place in the format string, the index of the next automatic argument, or -1 once one was given
      explicitly, and the arguments taken so far. */
  datatype Cursor = Cursor(s: nat, next: int, uses: seq<Use>)

  function NextArg(k: Cursor, args: ArgList): Result<(Arg, Cursor)>
    requires args.Valid()
  {
    if k.next >= 0 then
      var arg := args.At(k.next);
      if arg.NoArg? then Err(IndexOutOfRange)
      else Ok((arg, k.(next := k.next + 1, uses := k.uses + [Automatic(k.next)])))
    else Err(ManualToAutomatic)
  }

  function GetArg(k: Cursor, index: nat, args: ArgList): Result<(Arg, Cursor)>
    requires args.Valid()
  {
    if k.next <= 0 then
      var arg := args.At(index);
      if arg.NoArg? then Err(IndexOutOfRange)
      else Ok((arg, k.(next := -1, uses := k.uses + [Explicit(index)])))
    else Err(AutomaticToManual)
  }

  /** An error about an argument is reported only where its reference ends properly. */
  function Reported<T>(r: Result<T>, c: char): Result<T>
  {
    if r.Err? && c != '}' && c != ':' then Err(InvalidFormatString) else r
  }

  /** parse_arg_index */
  function TakeArg(fmt: string, k: Cursor, args: ArgList): (r: Result<(Arg, Cursor)>)
    requires k.s <= |fmt| && args.Valid()
    ensures r.Ok? ==> k.s <= r.value.1.s <= |fmt| && !r.value.0.NoArg? && r.value.0.Valid()
  {
    if IsDecimal(At(fmt, k.s)) then
      var index :- ParseNumber(fmt, k.s);
      var end := RunEnd(fmt, k.s);
      RunDigits(fmt, k.s);
      Reported(GetArg(k.(s := end), index, args), At(fmt, end))
    else
      Reported(NextArg(k, args), At(fmt, k.s))
  }

  // Specifications.

  /** A specification, and where the text goes on. */
  datatype Field = Field(spec: FormatSpec, k: Cursor)
  {
    function Skip(n: nat): Field
    {
      this.(k := k.(s := k.s + n))
    }
  }

  predicate IsNumeric(arg: Arg)
  {
    arg.Code() <= LAST_NUMERIC_TYPE
  }

  predicate IsUnsigned(arg: Arg)
  {
    arg.UIntArg? || arg.ULongLongArg?
  }

  function AlignOf(c: char): Alignment
  {
    if c == '<' then ALIGN_LEFT else if c == '>' then ALIGN_RIGHT
    else if c == '=' then ALIGN_NUMERIC else if c == '^' then ALIGN_CENTER else ALIGN_DEFAULT
  }

  predicate Inside(f: Field, fmt: string)
  {
    f.k.s <= |fmt|
  }

  function ParseFill(fmt: string, f: Field, arg: Arg): (r: Result<Field>)
    requires Inside(f, fmt)
    ensures r.Ok? ==> Inside(r.value, fmt) && f.k.s <= r.value.k.s && r.value.k == f.k.(s := r.value.k.s)
  {
    var s := f.k.s;
    var c := At(fmt, s);
    if c == '\0' then Ok(f)
    else
      var second := AlignOf(At(fmt, s + 1));
      if !second.ALIGN_DEFAULT? then
        if c == '}' then Ok(f.(spec := f.spec.(align := second)))
        else if c == '{' then Err(InvalidFill)
        else if second.ALIGN_NUMERIC? && !IsNumeric(arg) then Err(RequiresNumeric)
        else Ok(f.(spec := f.spec.(align := second, fill := c)).Skip(2))
      else
        var first := AlignOf(c);
        if first.ALIGN_DEFAULT? then Ok(f)
        else if first.ALIGN_NUMERIC? && !IsNumeric(arg) then Err(RequiresNumeric)
        else Ok(f.(spec := f.spec.(align := first)).Skip(1))
  }

  function SignFlags(c: char): set<Flag>
  {
    if c == '+' then {SIGN_FLAG, PLUS_FLAG} else if c == '-' then {MINUS_FLAG} else if c == ' ' then {SIGN_FLAG} else {}
  }

  function ParseSign(fmt: string, f: Field, arg: Arg): (r: Result<Field>)
    requires Inside(f, fmt)
    ensures r.Ok? ==> Inside(r.value, fmt) && f.k.s <= r.value.k.s && r.value.k == f.k.(s := r.value.k.s)
  {
    var flags := SignFlags(At(fmt, f.k.s));
    if flags == {} then Ok(f)
    else if !IsNumeric(arg) then Err(RequiresNumeric)
    else if IsUnsigned(arg) then Err(RequiresSigned)
    else Ok(f.(spec := f.spec.(flags := f.spec.flags + flags)).Skip(1))
  }

  function ParseHash(fmt: string, f: Field, arg: Arg): (r: Result<Field>)
    requires Inside(f, fmt)
    ensures r.Ok? ==> Inside(r.value, fmt) && f.k.s <= r.value.k.s && r.value.k == f.k.(s := r.value.k.s)
  {
    if At(fmt, f.k.s) != '#' then Ok(f)
    else if !IsNumeric(arg) then Err(RequiresNumeric)
    else Ok(f.(spec := f.spec.(flags := f.spec.flags + {HASH_FLAG})).Skip(1))
  }

  /** A zero first is a flag and is read again as part of the width. */
  function ParseWidth(fmt: string, f: Field, arg: Arg): (r: Result<Field>)
    requires Inside(f, fmt)
    ensures r.Ok? ==> Inside(r.value, fmt) && f.k.s <= r.value.k.s && r.value.k == f.k.(s := r.value.k.s)
  {
    var c := At(fmt, f.k.s);
    if !IsDecimal(c) then Ok(f)
    else if c == '0' && !IsNumeric(arg) then Err(RequiresNumeric)
    else
      var spec := if c == '0' then f.spec.(align := ALIGN_NUMERIC, fill := '0') else f.spec;
      var width :- ParseNumber(fmt, f.k.s);
      RunDigits(fmt, f.k.s);
      Ok(Field(spec.(width := width), f.k.(s := RunEnd(fmt, f.k.s))))
  }

  function PrecisionValue(arg: Arg): Result<nat>
  {
    var v :- match arg
      case IntArg(v) => if v < 0 then Err(NegativePrecision) else Ok(v as nat)
      case UIntArg(v) => Ok(v)
      case LongLongArg(v) => if v < 0 then Err(NegativePrecision) else Ok(v as nat)
      case ULongLongArg(v) => Ok(v)
      case _ => Err(PrecisionNotInteger);
    if v > INT_MAX then Err(NumberTooBig) else Ok(v)
  }

  /** A precision, given in digits or by another argument. */
  function ParseGiven(fmt: string, f: Field, args: ArgList): (r: Result<Field>)
    requires Inside(f, fmt) && args.Valid()
    ensures r.Ok? ==> Inside(r.value, fmt) && f.k.s <= r.value.k.s
  {
    if IsDecimal(At(fmt, f.k.s)) then
      var precision :- ParseNumber(fmt, f.k.s);
      RunDigits(fmt, f.k.s);
      Ok(Field(f.spec.(precision := precision), f.k.(s := RunEnd(fmt, f.k.s))))
    else if At(fmt, f.k.s) == '{' then
      var taken :- TakeArg(fmt, f.k.(s := f.k.s + 1), args);
      var (arg, k) := taken;
      if At(fmt, k.s) != '}' then Err(InvalidFormatString)
      else
        var precision :- PrecisionValue(arg);
        Ok(Field(f.spec.(precision := precision), k.(s := k.s + 1)))
    else Err(MissingPrecision)
  }

  function ParsePrecision(fmt: string, f: Field, arg: Arg, args: ArgList): (r: Result<Field>)
    requires Inside(f, fmt) && args.Valid()
    ensures r.Ok? ==> Inside(r.value, fmt) && f.k.s <= r.value.k.s
  {
    if At(fmt, f.k.s) != '.' then Ok(f)
    else
      var given :- ParseGiven(fmt, f.Skip(1), args);
      if !arg.DoubleArg? && !arg.LongDoubleArg? then Err(PrecisionRequiresFloat) else Ok(given)
  }

  function ParseType(fmt: string, f: Field): (r: Field)
    requires Inside(f, fmt)
    ensures Inside(r, fmt) && f.k.s <= r.k.s
  {
    var c := At(fmt, f.k.s);
    if c != '}' && c != '\0' then f.(spec := f.spec.(typ := c)).Skip(1) else f
  }

  /** What follows the colon. */
  function ParseSpec(fmt: string, f: Field, arg: Arg, args: ArgList): (r: Result<Field>)
    requires Inside(f, fmt) && args.Valid()
    ensures r.Ok? ==> Inside(r.value, fmt) && f.k.s <= r.value.k.s
  {
    var f :- ParseFill(fmt, f, arg);
    var f :- ParseSign(fmt, f, arg);
    var f :- ParseHash(fmt, f, arg);
    var f :- ParseWidth(fmt, f, arg);
    var f :- ParsePrecision(fmt, f, arg, args);
    Ok(ParseType(fmt, f))
  }

  /** A replacement field from after its argument index to after its closing brace. */
  function ParseField(fmt: string, k: Cursor, arg: Arg, args: ArgList): (r: Result<Field>)
    requires k.s <= |fmt| && args.Valid()
    ensures r.Ok? ==> k.s < r.value.k.s <= |fmt|
  {
    var f := Field(DEFAULT_SPEC, k);
    var f :- if At(fmt, k.s) == ':' then ParseSpec(fmt, f.Skip(1), arg, args) else Ok(f);
    if At(fmt, f.k.s) != '}' then Err(MissingBrace) else Ok(f.Skip(1))
  }

  // Arguments as text.

  /** How arguments that are neither integers, characters nor strings are shown. */
  type Others = (Arg, FormatSpec) -> Result<string>

  function ShowInt(value: int, spec: FormatSpec): Result<string>
  {
    if IsIntType(spec.typ) then Ok(IntText(value, spec)) else Err(UnknownTypeCode)
  }

  function ShowChar(value: int, spec: FormatSpec): Result<string>
  {
    if spec.typ != NO_TYPE && spec.typ != 'c' then ShowInt(value, spec.(flags := spec.flags + {CHAR_FLAG}))
    else if spec.align.ALIGN_NUMERIC? || spec.flags != {} then Err(InvalidCharSpec)
    else Ok(StrText([(value % 256) as char], spec))
  }

  function ShowStr(s: string, spec: FormatSpec): Result<string>
  {
    if spec.typ != NO_TYPE && spec.typ != 's' then Err(UnknownTypeCode) else Ok(StrText(s, spec))
  }

  function Show(arg: Arg, spec: FormatSpec, others: Others): Result<string>
  {
    match arg
    case IntArg(v) => ShowInt(v, spec)
    case UIntArg(v) => ShowInt(v, spec)
    case LongLongArg(v) => ShowInt(v, spec)
    case ULongLongArg(v) => ShowInt(v, spec)
    case CharArg(v) => ShowChar(v, spec)
    case StringArg(s) => ShowStr(s, spec)
    case _ => others(arg, spec)
  }

  // Format strings.

  datatype Output = Output(text: string, uses: seq<Use>)

  function Before(text: string, r: Result<Output>): Result<Output>
  {
    if r.Ok? then Ok(r.value.(text := text + r.value.text)) else r
  }

  lemma BeforeNothing(r: Result<Output>)
    ensures Before([], r) == r
  {
    if r.Ok? { assert [] + r.value.text == r.value.text; }
  }

  lemma BeforeTwice(a: string, b: string, r: Result<Output>)
    ensures Before(a, Before(b, r)) == Before(a + b, r)
  {
    if r.Ok? { assert a + (b + r.value.text) == (a + b) + r.value.text; }
  }

  /** A replacement field from after its opening brace: its text, and where it ends. */
  function FieldText(fmt: string, k: Cursor, args: ArgList, others: Others): (r: Result<(string, Cursor)>)
    requires k.s <= |fmt| && args.Valid()
    ensures r.Ok? ==> k.s < r.value.1.s <= |fmt|
  {
    var taken :- TakeArg(fmt, k, args);
    var (arg, k) := taken;
    var f :- ParseField(fmt, k, arg, args);
    var text :- Show(arg, f.spec, others);
    Ok((text, f.k))
  }

  /** The text that the rest of fmt stands for, and all the arguments taken. */
  function Meaning(fmt: string, k: Cursor, args: ArgList, others: Others): Result<Output>
    requires k.s <= |fmt| && args.Valid()
    decreases |fmt| - k.s
  {
    var c := At(fmt, k.s);
    if c == '\0' then Ok(Output([], k.uses))
    else if c != '{' && c != '}' then Before([c], Meaning(fmt, k.(s := k.s + 1), args, others))
    else if At(fmt, k.s + 1) == c then Before([c], Meaning(fmt, k.(s := k.s + 2), args, others))
    else if c == '}' then Err(UnmatchedBrace)
    else
      var shown :- FieldText(fmt, k.(s := k.s + 1), args, others);
      Before(shown.0, Meaning(fmt, shown.1, args, others))
  }

  /** What an opening brace means is what its field shows, and what is meant after it. */
  lemma MeaningOfField(fmt: string, k: Cursor, args: ArgList, others: Others)
    requires k.s < |fmt| && args.Valid() && At(fmt, k.s) == '{' && At(fmt, k.s + 1) != '{'
    ensures var r := FieldText(fmt, k.(s := k.s + 1), args, others);
            Meaning(fmt, k, args, others)
            == if r.Ok? then Before(r.value.0, Meaning(fmt, r.value.1, args, others)) else Err(r.error)
  {
  }

  const START := Cursor(0, 0, [])

  function Formatted(fmt: string, args: ArgList, others: Others): Result<Output>
    requires args.Valid()
  {
    Meaning(fmt, START, args, others)
  }
}
