/** The formatter: parsing a format string and writing what it asks for. */
module Formatters {
  import opened ByteValues
  import opened Numerals
  import opened FormatBuffers
  import opened FormatSpecs
  import opened Writers
  import opened ArgLists
  import opened FormatGrammar

  // Numbers.

  lemma {:induction false} FallsBefore(ds: string, more: string)
    requires AllDigits(ds + more, 10) && AllDigits(ds, 10) && Falls(ds)
    ensures Falls(ds + more)
    decreases |more|
  {
    if more == [] {
      assert ds + more == ds;
    } else {
      var front := more[..|more| - 1];
      assert (ds + more)[..|ds + more| - 1] == ds + front;
      FallsBefore(ds, front);
    }
  }

  lemma RunEndStep(fmt: string, s: nat)
    requires s < |fmt| && IsDecimal(At(fmt, s))
    ensures RunEnd(fmt, s) == RunEnd(fmt, s + 1)
  {
  }

  function DecimalDigit(c: char): (d: nat)
    requires IsDecimal(c)
    ensures d < 10 && IsDigit(c, 10) && DigitOf(c) == d
  {
    (c - '0') as nat
  }

  /** One more digit. */
  lemma DigitRead(fmt: string, s: nat, p: nat)
    requires s <= p < |fmt| && AllDigits(fmt[s..p], 10) && IsDecimal(fmt[p])
    ensures AllDigits(fmt[s..p + 1], 10)
    ensures Residue(fmt[s..p + 1]) == (10 * Residue(fmt[s..p]) + DecimalDigit(fmt[p])) % WORD32
    ensures Falls(fmt[s..p + 1]) <==> Falls(fmt[s..p]) || Residue(fmt[s..p + 1]) < Residue(fmt[s..p])
  {
    var ds, d := fmt[s..p], DecimalDigit(fmt[p]);
    assert fmt[s..p + 1] == ds + [fmt[p]];
    ValueAppend(ds, fmt[p], 10);
    FallsAppend(ds, fmt[p]);
    ResidueAppend(Value(ds, 10), d);
  }

  /** A number in which the word falls is too big, whatever follows. */
  lemma FallenNumber(fmt: string, start: nat, s: nat)
    requires start <= |fmt| && start <= s <= RunEnd(fmt, start) && AllDigits(fmt[start..s], 10) && Falls(fmt[start..s])
    ensures ParseNumber(fmt, start) == Err(NumberTooBig)
  {
    var end := RunEnd(fmt, start);
    RunDigits(fmt, start);
    assert fmt[start..s] + fmt[s..end] == fmt[start..end];
    FallsBefore(fmt[start..s], fmt[s..end]);
  }

  method ParseNonnegativeInt(fmt: string, start: nat) returns (r: Result<nat>, s: nat)
    requires start <= |fmt| && IsDecimal(At(fmt, start))
    ensures r == ParseNumber(fmt, start)
    ensures r.Ok? ==> s == RunEnd(fmt, start)
  {
    s := start;
    var value := 0;
    RunDigits(fmt, start);
    ghost var end := RunEnd(fmt, start);
    while true
      invariant start <= s < |fmt| && IsDecimal(At(fmt, s)) && RunEnd(fmt, s) == end <= |fmt|
      invariant AllDigits(fmt[start..s], 10) && value == Residue(fmt[start..s]) && !Falls(fmt[start..s])
      decreases |fmt| - s
    {
      DigitRead(fmt, start, s);
      RunEndStep(fmt, s);
      var new_value := (value * 10 + DecimalDigit(fmt[s])) % WORD32;
      s := s + 1;
      if new_value < value {
        value := UINT_MAX;
        FallenNumber(fmt, start, s);
        break;
      }
      value := new_value;
      if !IsDecimal(At(fmt, s)) { break; }
    }
    r := if value > INT_MAX then Err(NumberTooBig) else Ok(value);
  }

  // Parts of specifications.

  /** What was read is what r says. */
  ghost predicate Agrees(r: Result<Field>, status: Status, spec: FormatSpec, k: Cursor)
  {
    match r
    case Ok(f) => status.Written? && f == Field(spec, k)
    case Err(e) => status == Failed(e)
  }

  method ScanFill(fmt: string, start: nat, was: FormatSpec, arg: Arg, ghost k: Cursor)
    returns (status: Status, spec: FormatSpec, s: nat)
    requires start <= |fmt| && k.s == start && was.align.ALIGN_DEFAULT?
    ensures Agrees(ParseFill(fmt, Field(was, k), arg), status, spec, k.(s := s))
  {
    status, spec, s := Written, was, start;
    var c := At(fmt, s);
    if c != '\0' {
      var p := s + 1;
      while true
        invariant s <= p <= s + 1 && s == start && status.Written? && spec == was
        invariant p == s ==> AlignOf(At(fmt, s + 1)).ALIGN_DEFAULT?
        decreases p
      {
        spec := spec.(align := AlignOf(At(fmt, p)));
        if !spec.align.ALIGN_DEFAULT? {
          if p != s {
            if c == '}' { break; }
            if c == '{' { return Failed(InvalidFill), spec, s; }
            s := s + 2;
            spec := spec.(fill := c);
          } else {
            s := s + 1;
          }
          if spec.align.ALIGN_NUMERIC? && !IsNumeric(arg) { status := Failed(RequiresNumeric); }
          break;
        }
        if p == s { break; }
        p := p - 1;
      }
    }
  }

  method ScanSign(fmt: string, start: nat, was: FormatSpec, arg: Arg, ghost k: Cursor)
    returns (status: Status, spec: FormatSpec, s: nat)
    requires start <= |fmt| && k.s == start
    ensures Agrees(ParseSign(fmt, Field(was, k), arg), status, spec, k.(s := s))
  {
    status, spec, s := Written, was, start;
    var flags := SignFlags(At(fmt, s));
    if flags != {} {
      if !IsNumeric(arg) { status := Failed(RequiresNumeric); return; }
      if IsUnsigned(arg) { status := Failed(RequiresSigned); return; }
      s := s + 1;
      spec := spec.(flags := spec.flags + flags);
    }
  }

  method ScanHash(fmt: string, start: nat, was: FormatSpec, arg: Arg, ghost k: Cursor)
    returns (status: Status, spec: FormatSpec, s: nat)
    requires start <= |fmt| && k.s == start
    ensures Agrees(ParseHash(fmt, Field(was, k), arg), status, spec, k.(s := s))
  {
    status, spec, s := Written, was, start;
    if At(fmt, s) == '#' {
      if !IsNumeric(arg) { status := Failed(RequiresNumeric); return; }
      spec := spec.(flags := spec.flags + {HASH_FLAG});
      s := s + 1;
    }
  }

  method ScanWidth(fmt: string, start: nat, was: FormatSpec, arg: Arg, ghost k: Cursor)
    returns (status: Status, spec: FormatSpec, s: nat)
    requires start <= |fmt| && k.s == start
    ensures Agrees(ParseWidth(fmt, Field(was, k), arg), status, spec, k.(s := s))
  {
    status, spec, s := Written, was, start;
    if IsDecimal(At(fmt, s)) {
      if At(fmt, s) == '0' {
        if !IsNumeric(arg) { status := Failed(RequiresNumeric); return; }
        spec := spec.(align := ALIGN_NUMERIC, fill := '0');
      }
      var width;
      width, s := ParseNonnegativeInt(fmt, s);
      if width.Err? { status := Failed(width.error); return; }
      spec := spec.(width := width.value);
    }
  }

  /** A specification for an integer has no precision. */
  lemma NoPrecision(fmt: string, k: Cursor, arg: Arg, args: ArgList)
    requires k.s <= |fmt| && args.Valid() && !arg.DoubleArg? && !arg.LongDoubleArg?
    ensures var r := ParseField(fmt, k, arg, args); r.Ok? ==> r.value.spec.precision == -1
  {
    if At(fmt, k.s) == ':' && ParseField(fmt, k, arg, args).Ok? {
      SpecNoPrecision(fmt, Field(DEFAULT_SPEC, k).Skip(1), arg, args);
    }
  }

  lemma SpecNoPrecision(fmt: string, f: Field, arg: Arg, args: ArgList)
    requires Inside(f, fmt) && f.spec.precision == -1 && args.Valid() && !arg.DoubleArg? && !arg.LongDoubleArg?
    ensures var r := ParseSpec(fmt, f, arg, args); r.Ok? ==> r.value.spec.precision == -1
  {
    if ParseSpec(fmt, f, arg, args).Ok? {
      var f1 := ParseFill(fmt, f, arg).value;
      var f2 := ParseSign(fmt, f1, arg).value;
      var f3 := ParseHash(fmt, f2, arg).value;
      var f4 := ParseWidth(fmt, f3, arg).value;
      assert f4.spec.precision == -1;
      assert ParsePrecision(fmt, f4, arg, args) == Ok(f4);
    }
  }

  class BasicFormatter {
    const writer_: BasicWriter
    const others_: Others
    var args_: ArgList
    var next_arg_index_: int
    var start_: nat
    var uses: seq<Use>

    constructor (w: BasicWriter, others: Others)
      ensures writer_ == w && others_ == others && args_.Valid()
    {
      writer_, others_ := w, others;
      args_, next_arg_index_, start_, uses := ArgList(MakeType([]), []), 0, 0, [];
      assert Codes([]) == [];
    }

    /** The state of the argument indices, at s. */
    ghost function Place(s: nat): Cursor
      reads this
    {
      Cursor(s, next_arg_index_, uses)
    }

    /** The buffer still has its storage or has new storage. */
    twostate predicate SameStorage(ptr: array<char>)
      reads writer_.buffer_
    {
      writer_.buffer_.ptr_ == ptr || fresh(writer_.buffer_.ptr_)
    }

    method NextArg() returns (r: Result<Arg>)
      requires args_.Valid()
      modifies this`next_arg_index_, this`uses
      ensures forall s :: Taken(FormatGrammar.NextArg(old(Place(s)), args_), r, Place(s))
    {
      if next_arg_index_ < 0 { return Err(ManualToAutomatic); }
      var arg := args_.At(next_arg_index_);
      uses := uses + [Automatic(next_arg_index_)];
      next_arg_index_ := next_arg_index_ + 1;
      r := if arg.NoArg? then Err(IndexOutOfRange) else Ok(arg);
    }

    method GetArg(arg_index: nat) returns (r: Result<Arg>)
      requires args_.Valid()
      modifies this`next_arg_index_, this`uses
      ensures forall s :: Taken(FormatGrammar.GetArg(old(Place(s)), arg_index, args_), r, Place(s))
    {
      if next_arg_index_ > 0 { return Err(AutomaticToManual); }
      next_arg_index_ := -1;
      uses := uses + [Explicit(arg_index)];
      var arg := args_.At(arg_index);
      r := if arg.NoArg? then Err(IndexOutOfRange) else Ok(arg);
    }

    method ParseArgIndex(fmt: string, start: nat) returns (r: Result<Arg>, s: nat)
      requires start <= |fmt| && args_.Valid()
      modifies this`next_arg_index_, this`uses
      ensures Taken(TakeArg(fmt, old(Place(start)), args_), r, Place(s))
    {
      s := start;
      if IsDecimal(At(fmt, s)) {
        var index;
        index, s := ParseNonnegativeInt(fmt, s);
        if index.Err? { return Err(index.error), s; }
        r := GetArg(index.value);
      } else {
        r := NextArg();
      }
      if r.Err? && At(fmt, s) != '}' && At(fmt, s) != ':' { r := Err(InvalidFormatString); }
    }

    /** What follows a full stop. */
    method ScanGiven(fmt: string, start: nat, was: FormatSpec) returns (status: Status, spec: FormatSpec, s: nat)
      requires start <= |fmt| && args_.Valid()
      modifies this`next_arg_index_, this`uses
      ensures Agrees(ParseGiven(fmt, Field(was, old(Place(start))), args_), status, spec, Place(s))
    {
      status, spec, s := Written, was, start;
      if IsDecimal(At(fmt, s)) {
        var precision;
        precision, s := ParseNonnegativeInt(fmt, s);
        if precision.Err? { status := Failed(precision.error); return; }
        spec := spec.(precision := precision.value);
      } else if At(fmt, s) == '{' {
        var arg;
        arg, s := ParseArgIndex(fmt, s + 1);
        if arg.Err? { status := Failed(arg.error); return; }
        if At(fmt, s) != '}' { status := Failed(InvalidFormatString); return; }
        s := s + 1;
        var precision := PrecisionValue(arg.value);
        if precision.Err? { status := Failed(precision.error); return; }
        spec := spec.(precision := precision.value);
      } else {
        status := Failed(MissingPrecision);
      }
    }

    method ScanPrecision(fmt: string, start: nat, was: FormatSpec, arg: Arg) returns (status: Status, spec: FormatSpec, s: nat)
      requires start <= |fmt| && args_.Valid()
      modifies this`next_arg_index_, this`uses
      ensures Agrees(ParsePrecision(fmt, Field(was, old(Place(start))), arg, args_), status, spec, Place(s))
    {
      status, spec, s := Written, was, start;
      if At(fmt, s) == '.' {
        ghost var f := Field(was, Place(start));
        status, spec, s := ScanGiven(fmt, s + 1, spec);
        GivenScanned(fmt, f, arg, args_, status, spec, Place(s));
        if status.Written? && !arg.DoubleArg? && !arg.LongDoubleArg? { status := Failed(PrecisionRequiresFloat); }
      }
    }

    method ScanSpec(fmt: string, start: nat, arg: Arg) returns (status: Status, spec: FormatSpec, s: nat)
      requires start <= |fmt| && args_.Valid()
      modifies this`next_arg_index_, this`uses
      ensures Agrees(ParseSpec(fmt, Field(DEFAULT_SPEC, old(Place(start))), arg, args_), status, spec, Place(s))
    {
      ghost var k := Place(start);
      status, spec, s := ScanFill(fmt, start, DEFAULT_SPEC, arg, k);
      if status.Failed? { return; }
      status, spec, s := ScanSign(fmt, s, spec, arg, k.(s := s));
      if status.Failed? { return; }
      status, spec, s := ScanHash(fmt, s, spec, arg, k.(s := s));
      if status.Failed? { return; }
      status, spec, s := ScanWidth(fmt, s, spec, arg, k.(s := s));
      if status.Failed? { return; }
      status, spec, s := ScanPrecision(fmt, s, spec, arg);
      if status.Failed? { return; }
      if At(fmt, s) != '}' && At(fmt, s) != '\0' {
        spec := spec.(typ := At(fmt, s));
        s := s + 1;
      }
    }

    method ScanField(fmt: string, start: nat, arg: Arg) returns (status: Status, spec: FormatSpec, s: nat)
      requires start <= |fmt| && args_.Valid()
      modifies this`next_arg_index_, this`uses
      ensures Agrees(ParseField(fmt, old(Place(start)), arg, args_), status, spec, Place(s))
    {
      ghost var k := Place(start);
      status, spec, s := Written, DEFAULT_SPEC, start;
      if At(fmt, s) == ':' {
        status, spec, s := ScanSpec(fmt, s + 1, arg);
        SpecScanned(fmt, k, arg, args_, status, spec, Place(s));
        if status.Failed? { return; }
      }
      if At(fmt, s) != '}' { status := Failed(MissingBrace); }
      s := s + 1;
    }

    /** Writes one argument. */
    method Visit(arg: Arg, spec: FormatSpec) returns (status: Status)
      requires writer_.Valid() && arg.Valid()
      requires IsNumeric(arg) && !arg.DoubleArg? && !arg.LongDoubleArg? ==> spec.precision == -1
      modifies writer_.buffer_, writer_.buffer_.ptr_
      ensures SameStorage(old(writer_.buffer_.ptr_))
      ensures writer_.Valid()
      ensures match Show(arg, spec, others_)
              case Ok(t) => status.Written? && writer_.Contents() == old(writer_.Contents()) + t
              case Err(e) => status == Failed(e) && old(writer_.Contents()) <= writer_.Contents()
    {
      match arg
      case IntArg(v) => status := VisitInt(v, 32, spec);
      case UIntArg(v) => status := VisitInt(v, 32, spec);
      case LongLongArg(v) => status := VisitInt(v, 64, spec);
      case ULongLongArg(v) => status := VisitInt(v, 64, spec);
      case CharArg(v) =>
        if spec.typ != NO_TYPE && spec.typ != 'c' {
          status := VisitInt(v, 32, spec.(flags := spec.flags + {CHAR_FLAG}));
        } else if spec.align.ALIGN_NUMERIC? || spec.flags != {} {
          status := Failed(InvalidCharSpec);
        } else {
          var out := writer_.WriteStr([(v % 256) as char], spec);
          status := Written;
        }
      case StringArg(s) =>
        if spec.typ != NO_TYPE && spec.typ != 's' {
          status := Failed(UnknownTypeCode);
        } else {
          var out := writer_.WriteStr(s, spec);
          status := Written;
        }
      case _ =>
        var text := others_(arg, spec);
        if text.Err? {
          status := Failed(text.error);
        } else {
          writer_.buffer_.Append(text.value);
          status := Written;
        }
    }

    method VisitInt(value: int, bits: nat, spec: FormatSpec) returns (status: Status)
      requires writer_.Valid() && IsInteger(value, bits) && spec.precision == -1
      modifies writer_.buffer_, writer_.buffer_.ptr_
      ensures SameStorage(old(writer_.buffer_.ptr_))
      ensures writer_.Valid()
      ensures match ShowInt(value, spec)
              case Ok(t) => status.Written? && writer_.Contents() == old(writer_.Contents()) + t
              case Err(e) => status == Failed(e) && writer_.Contents() == old(writer_.Contents())
    {
      NeverStale(writer_.buffer_.size_, writer_.buffer_.capacity_, |Digits(value, spec.typ)|, spec, Prefix(value, spec));
      status := writer_.WriteInt(value, bits, spec);
    }

    /** Replaces the field whose opening brace is before start. */
    method Replace(fmt: string, start: nat) returns (status: Status, s: nat)
      requires writer_.Valid() && args_.Valid() && start <= |fmt|
      modifies this`next_arg_index_, this`uses, this`start_, writer_.buffer_, writer_.buffer_.ptr_
      ensures writer_.Valid() && SameStorage(old(writer_.buffer_.ptr_))
      ensures match FieldText(fmt, old(Place(start)), args_, others_)
              case Ok(t) => status.Written? && start_ == s && t.1 == Place(s)
                            && writer_.Contents() == old(writer_.Contents()) + t.0
              case Err(e) => status == Failed(e) && old(writer_.Contents()) <= writer_.Contents()
    {
      var arg;
      arg, s := ParseArgIndex(fmt, start);
      if arg.Err? { status := Failed(arg.error); return; }
      ghost var k := Place(s);
      var spec;
      status, spec, s := ScanField(fmt, s, arg.value);
      if status.Failed? { return; }
      start_ := s;
      if !arg.value.DoubleArg? && !arg.value.LongDoubleArg? { NoPrecision(fmt, k, arg.value, args_); }
      status := Visit(arg.value, spec);
    }

    /** Of goal, before + text is written, the characters from start_ are still to be written, and
        what the rest of fmt means comes after them. */
    ghost predicate Progress(fmt: string, s: nat, before: string, text: string, goal: Result<Output>)
      reads this, writer_, writer_.buffer_, writer_.buffer_.ptr_
    {
      writer_.Valid() && args_.Valid() && start_ <= s <= |fmt| && writer_.Contents() == before + text
      && goal == Before(text + fmt[start_..s], Meaning(fmt, Place(s), args_, others_))
    }

    /** A character that is not a brace. */
    lemma PassChar(fmt: string, s: nat, before: string, text: string, goal: Result<Output>)
      requires Progress(fmt, s, before, text, goal)
      requires At(fmt, s) != '\0' && At(fmt, s) != '{' && At(fmt, s) != '}'
      ensures Progress(fmt, s + 1, before, text, goal)
    {
      var done := text + fmt[start_..s];
      PlainMeaning(fmt, Place(s), args_, others_, done, goal);
      assert text + fmt[start_..s + 1] == done + [fmt[s]];
    }

    /** All is written, and nothing is waiting. */
    lemma Arrive(fmt: string, s: nat, before: string, done: string, more: string, goal: Result<Output>)
      requires writer_.Valid() && args_.Valid() && start_ == s <= |fmt| && writer_.Contents() == (before + done) + more
      requires goal == Before(done + more, Meaning(fmt, Place(s), args_, others_))
      ensures Progress(fmt, s, before, done + more, goal)
    {
      assert (done + more) + fmt[start_..s] == done + more;
      assert (before + done) + more == before + (done + more);
    }

    method PassDoubled(fmt: string, s: nat, ghost before: string, ghost text: string, ghost goal: Result<Output>)
      returns (ghost more: string)
      requires Progress(fmt, s, before, text, goal)
      requires (At(fmt, s) == '{' || At(fmt, s) == '}') && At(fmt, s + 1) == At(fmt, s)
      modifies this`start_, writer_.buffer_, writer_.buffer_.ptr_
      ensures Progress(fmt, s + 2, before, more, goal) && SameStorage(old(writer_.buffer_.ptr_))
    {
      ghost var part := fmt[start_..s + 1];
      DoubledMeaning(fmt, Place(s), args_, others_, text + fmt[start_..s], goal);
      more := text + part;
      assert part == fmt[start_..s] + [fmt[s]];
      assert more == text + fmt[start_..s] + [fmt[s]];
      writer_.WriteLiteral(fmt, start_, s + 1);
      start_ := s + 2;
      Arrive(fmt, s + 2, before, text, part, goal);
    }

    /** Replaces the field that begins at start, of a goal of which done comes before it. */
    method ReplaceToward(fmt: string, start: nat, ghost done: string, ghost goal: Result<Output>)
      returns (status: Status, s: nat, ghost more: string)
      requires writer_.Valid() && args_.Valid() && start < |fmt| && At(fmt, start) == '{' && At(fmt, start + 1) != '{'
      requires goal == Before(done, Meaning(fmt, Place(start), args_, others_))
      modifies this`next_arg_index_, this`uses, this`start_, writer_.buffer_, writer_.buffer_.ptr_
      ensures writer_.Valid() && SameStorage(old(writer_.buffer_.ptr_)) && old(writer_.Contents()) <= writer_.Contents()
      ensures if status.Failed? then goal == Err(status.error)
              else start_ == s && start < s <= |fmt| && writer_.Contents() == old(writer_.Contents()) + more
                   && goal == Before(done + more, Meaning(fmt, Place(s), args_, others_))
    {
      FieldMeaning(fmt, Place(start), args_, others_, done, goal);
      ghost var r := FieldText(fmt, Place(start + 1), args_, others_);
      more := if r.Ok? then r.value.0 else [];
      status, s := Replace(fmt, start + 1);
    }

    method PassField(fmt: string, start: nat, ghost before: string, ghost text: string, ghost goal: Result<Output>)
      returns (status: Status, s: nat, ghost more: string)
      requires Progress(fmt, start, before, text, goal)
      requires At(fmt, start) == '{' && At(fmt, start + 1) != '{'
      modifies this`next_arg_index_, this`uses, this`start_, writer_.buffer_, writer_.buffer_.ptr_
      ensures writer_.Valid() && SameStorage(old(writer_.buffer_.ptr_)) && old(writer_.Contents()) <= writer_.Contents()
      ensures if status.Written? then start < s && Progress(fmt, s, before, more, goal) else goal == Err(status.error)
    {
      ghost var done, field := text + fmt[start_..start], [];
      Associate(before, text, fmt[start_..start]);
      writer_.WriteLiteral(fmt, start_, start);
      status, s, field := ReplaceToward(fmt, start, done, goal);
      more := done + field;
      if status.Written? { Arrive(fmt, s, before, done, field, goal); }
    }

    method Finish(fmt: string, s: nat, ghost before: string, ghost text: string, ghost goal: Result<Output>)
      requires Progress(fmt, s, before, text, goal) && At(fmt, s) == '\0'
      modifies writer_.buffer_, writer_.buffer_.ptr_
      ensures writer_.Valid() && goal.Ok? && goal.value.uses == uses && writer_.Contents() == before + goal.value.text
    {
      Associate(before, text, fmt[start_..s]);
      assert goal == Before(text + fmt[start_..s], Ok(Output([], uses)));
      assert text + fmt[start_..s] + [] == text + fmt[start_..s];
      writer_.WriteLiteral(fmt, start_, s);
    }

    /** Writes what fmt and args mean. An error leaves the text before it in place. */
    method Format(fmt: string, args: ArgList) returns (status: Status)
      requires writer_.Valid() && args.Valid()
      modifies this, writer_.buffer_, writer_.buffer_.ptr_
      ensures writer_.Valid()
      ensures match Formatted(fmt, args, others_)
              case Ok(out) => status.Written? && uses == out.uses && writer_.Contents() == old(writer_.Contents()) + out.text
              case Err(e) => status == Failed(e) && old(writer_.Contents()) <= writer_.Contents()
    {
      args_, next_arg_index_, uses := args, 0, [];
      start_ := 0;
      var s := 0;
      ghost var before, text, goal := writer_.Contents(), [], Formatted(fmt, args, others_);
      BeforeNothing(goal);
      assert text + fmt[0..0] == [];
      while At(fmt, s) != '\0'
        invariant Progress(fmt, s, before, text, goal) && SameStorage(old(writer_.buffer_.ptr_))
        invariant before <= writer_.Contents()
        decreases |fmt| - s
      {
        var c := fmt[s];
        if c != '{' && c != '}' {
          PassChar(fmt, s, before, text, goal);
          s := s + 1;
        } else if At(fmt, s + 1) == c {
          text := PassDoubled(fmt, s, before, text, goal);
          s := s + 2;
        } else if c == '}' {
          LoneMeaning(fmt, Place(s), args_, others_, text + fmt[start_..s], goal);
          return Failed(UnmatchedBrace);
        } else {
          status, s, text := PassField(fmt, s, before, text, goal);
          if status.Failed? { return; }
        }
      }
      Finish(fmt, s, before, text, goal);
      status := Written;
    }
  }

  /** A precision that was scanned, for an argument that may have none. */
  lemma GivenScanned(fmt: string, f: Field, arg: Arg, args: ArgList, status: Status, spec: FormatSpec, end: Cursor)
    requires Inside(f, fmt) && args.Valid() && At(fmt, f.k.s) == '.'
    requires Agrees(ParseGiven(fmt, f.Skip(1), args), status, spec, end)
    ensures ParsePrecision(fmt, f, arg, args)
            == if status.Failed? then Err(status.error)
               else if !arg.DoubleArg? && !arg.LongDoubleArg? then Err(PrecisionRequiresFloat) else Ok(Field(spec, end))
  {
  }

  /** A field with a specification that was scanned. */
  lemma SpecScanned(fmt: string, k: Cursor, arg: Arg, args: ArgList, status: Status, spec: FormatSpec, end: Cursor)
    requires k.s < |fmt| && args.Valid() && At(fmt, k.s) == ':'
    requires Agrees(ParseSpec(fmt, Field(DEFAULT_SPEC, k).Skip(1), arg, args), status, spec, end)
    ensures var r := ParseField(fmt, k, arg, args);
            if status.Failed? then r == Err(status.error)
            else end.s <= |fmt|
                 && r == if At(fmt, end.s) != '}' then Err(MissingBrace) else Ok(Field(spec, end.(s := end.s + 1)))
  {
  }

  lemma PlainMeaning(fmt: string, k: Cursor, args: ArgList, others: Others, done: string, goal: Result<Output>)
    requires k.s < |fmt| && args.Valid() && At(fmt, k.s) != '\0' && At(fmt, k.s) != '{' && At(fmt, k.s) != '}'
    requires goal == Before(done, Meaning(fmt, k, args, others))
    ensures goal == Before(done + [fmt[k.s]], Meaning(fmt, k.(s := k.s + 1), args, others))
  {
    BeforeTwice(done, [fmt[k.s]], Meaning(fmt, k.(s := k.s + 1), args, others));
  }

  lemma DoubledMeaning(fmt: string, k: Cursor, args: ArgList, others: Others, done: string, goal: Result<Output>)
    requires k.s + 1 < |fmt| && args.Valid()
    requires (At(fmt, k.s) == '{' || At(fmt, k.s) == '}') && At(fmt, k.s + 1) == At(fmt, k.s)
    requires goal == Before(done, Meaning(fmt, k, args, others))
    ensures goal == Before(done + [fmt[k.s]], Meaning(fmt, k.(s := k.s + 2), args, others))
  {
    BeforeTwice(done, [fmt[k.s]], Meaning(fmt, k.(s := k.s + 2), args, others));
  }

  lemma LoneMeaning(fmt: string, k: Cursor, args: ArgList, others: Others, done: string, goal: Result<Output>)
    requires k.s < |fmt| && args.Valid() && At(fmt, k.s) == '}' && At(fmt, k.s + 1) != '}'
    requires goal == Before(done, Meaning(fmt, k, args, others))
    ensures goal == Err(UnmatchedBrace)
  {
  }

  lemma FieldMeaning(fmt: string, k: Cursor, args: ArgList, others: Others, done: string, goal: Result<Output>)
    requires k.s < |fmt| && args.Valid() && At(fmt, k.s) == '{' && At(fmt, k.s + 1) != '{'
    requires goal == Before(done, Meaning(fmt, k, args, others))
    ensures var r := FieldText(fmt, k.(s := k.s + 1), args, others);
            if r.Ok? then goal == Before(done + r.value.0, Meaning(fmt, r.value.1, args, others)) else goal == Err(r.error)
  {
    MeaningOfField(fmt, k, args, others);
    var r := FieldText(fmt, k.(s := k.s + 1), args, others);
    if r.Ok? { BeforeTwice(done, r.value.0, Meaning(fmt, r.value.1, args, others)); }
  }

  ghost predicate Taken(expected: Result<(Arg, Cursor)>, r: Result<Arg>, k: Cursor)
  {
    match expected
    case Ok(t) => r == Ok(t.0) && t.1 == k
    case Err(e) => r == Err(e)
  }
}
