/** The writer of formatted integers and strings. */
module Writers {
  import opened ByteValues
  import opened Numerals
  import opened Decimals
  import opened DecimalText
  import opened FormatBuffers
  import opened FormatSpecs

  datatype FormatError =
    | UnknownTypeCode | InvalidFormatString | NumberTooBig | IndexOutOfRange | ManualToAutomatic | AutomaticToManual
    | RequiresNumeric | RequiresSigned | InvalidFill | NegativePrecision | PrecisionNotInteger | MissingPrecision
    | PrecisionRequiresFloat | MissingBrace | UnmatchedBrace | InvalidCharSpec

  datatype Result<T> = Ok(value: T) | Err(error: FormatError)
  {
    predicate IsFailure()
    {
      Err?
    }

    function PropagateFailure<U>(): Result<U>
      requires Err?
    {
      Err(error)
    }

    function Extract(): T
      requires Ok?
    {
      value
    }
  }

  datatype Status = Written | Failed(error: FormatError)

  /** A place in some buffer, which may have been replaced since. */
  datatype CharPtr = CharPtr(a: array<char>, at: nat)

  /** s is before, left, n characters and right. */
  predicate Framed(s: string, before: string, left: string, n: nat, right: string)
  {
    |s| == |before| + |left| + n + |right|
    && s[..|before| + |left|] == before + left
    && s[|before| + |left| + n..] == right
  }

  /** What stands around n characters, put into s from at. */
  function Around(s: string, at: nat, left: string, n: nat, right: string): (r: string)
    requires at + |left| + n + |right| <= |s|
    ensures |r| == |s|
  {
    Spliced(Spliced(s, at, left), at + |left| + n, right)
  }

  lemma AroundFrames(s: string, before: string, left: string, n: nat, right: string)
    requires |before| + |left| + n + |right| <= |s| && s[..|before|] == before
    ensures Framed(Around(s, |before|, left, n, right)[..|before| + |left| + n + |right|], before, left, n, right)
  {
  }

  /** Padding on both sides, then the prefix. */
  lemma AroundCenter(s: string, at: nat, l: string, prefix: string, n: nat, right: string)
    requires at + |l| + |prefix| + n + |right| <= |s|
    ensures Spliced(Around(s, at, l, |prefix| + n, right), at + |l|, prefix) == Around(s, at, l + prefix, n, right)
  {
  }

  lemma AroundNothing(s: string, at: nat, left: string, n: nat)
    requires at + |left| + n <= |s|
    ensures Around(s, at, left, n, []) == Spliced(s, at, left)
  {
  }

  lemma FillFrame(s: string, before: string, left: string, digits: string, right: string)
    requires Framed(s, before, left, |digits|, right)
    ensures Spliced(s, |before| + |left|, digits) == before + (left + digits + right)
  {
  }

  lemma SplicedPrefix(s: string, at: nat, t: string, n: nat)
    requires at + |t| <= n <= |s|
    ensures Spliced(s, at, t)[..n] == Spliced(s[..n], at, t)
  {
  }

  /** The pointer to the digits is out of date when it is returned: a precision under left alignment,
      and padding after it that the buffer had no room for. */
  predicate Stale(size: nat, capacity: nat, n: nat, spec: FormatSpec, prefix: string)
  {
    var number_size := |ShortPrefix(prefix)| + spec.precision;
    spec.precision > n && spec.align.ALIGN_LEFT? && number_size < spec.width
    && CapacityFor(size + number_size, CapacityFor(spec.width, capacity)) < size + spec.width
  }

  // Writing around the place of the digits.

  /** A number narrower than its width, and room for that. */
  predicate IsPadded(a: array<char>, p: nat, n: nat, spec: FormatSpec, prefix: string)
  {
    spec.precision <= n && |prefix| + n < spec.width && p + spec.width <= a.Length
  }

  method PutAlignedLeft(a: array<char>, p: nat, n: nat, spec: FormatSpec, prefix: string)
    requires IsPadded(a, p, n, spec, prefix) && spec.align.ALIGN_LEFT?
    modifies a
    ensures a[..] == Around(old(a[..]), p, IntLeft(n, spec, prefix), n, IntRight(n, spec, prefix))
  {
    CopyTo(a, p, prefix);
    Fill(a, p + |prefix| + n, spec.width - |prefix| - n, spec.fill);
  }

  method PadAround(a: array<char>, p: nat, l: nat, n: nat, r: nat, fill: char)
    requires p + l + n + r <= a.Length
    modifies a
    ensures a[..] == Around(old(a[..]), p, Repeat(fill, l), n, Repeat(fill, r))
  {
    Fill(a, p, l, fill);
    Fill(a, p + l + n, r, fill);
  }

  /** Pads around a content of content_size characters, and gives its place. */
  method FillPadding(a: array<char>, p: nat, total_size: nat, content_size: nat, fill: char) returns (content: nat)
    requires content_size <= total_size && p + total_size <= a.Length
    modifies a
    ensures var pad := total_size - content_size;
            content == p + pad / 2
            && a[..] == Around(old(a[..]), p, Repeat(fill, pad / 2), content_size, Repeat(fill, pad - pad / 2))
  {
    var padding := total_size - content_size;
    var left_padding := padding / 2;
    PadAround(a, p, left_padding, content_size, padding - left_padding, fill);
    content := p + left_padding;
  }

  lemma CenterAround(s: string, p: nat, n: nat, spec: FormatSpec, prefix: string)
    requires spec.precision <= n && |prefix| + n < spec.width && p + spec.width <= |s| && spec.align.ALIGN_CENTER?
    ensures var pad, fill := spec.width - |prefix| - n, spec.fill;
            |IntLeft(n, spec, prefix)| == pad / 2 + |prefix|
            && Spliced(Around(s, p, Repeat(fill, pad / 2), |prefix| + n, Repeat(fill, pad - pad / 2)), p + pad / 2, prefix)
               == Around(s, p, IntLeft(n, spec, prefix), n, IntRight(n, spec, prefix))
  {
    var pad, fill := spec.width - |prefix| - n, spec.fill;
    var half := pad / 2;
    assert IntLeft(n, spec, prefix) == Repeat(fill, half) + prefix;
    assert IntRight(n, spec, prefix) == Repeat(fill, pad - half);
    AroundCenter(s, p, Repeat(fill, half), prefix, n, Repeat(fill, pad - half));
  }

  method PutInside(a: array<char>, p: nat, n: nat, width: nat, fill: char, prefix: string) returns (end: nat)
    requires |prefix| + n <= width && p + width <= a.Length
    modifies a
    ensures var pad := width - |prefix| - n;
            end == p + pad / 2 + |prefix| + n
            && a[..] == Spliced(Around(old(a[..]), p, Repeat(fill, pad / 2), |prefix| + n, Repeat(fill, pad - pad / 2)),
                                p + pad / 2, prefix)
  {
    ghost var half := (width - |prefix| - n) / 2;
    var content := FillPadding(a, p, width, |prefix| + n, fill);
    assert content == p + half;
    CopyTo(a, content, prefix);
    end := content + |prefix| + n;
  }

  method PutCentered(a: array<char>, p: nat, n: nat, spec: FormatSpec, prefix: string) returns (end: nat)
    requires IsPadded(a, p, n, spec, prefix) && spec.align.ALIGN_CENTER?
    modifies a
    ensures a[..] == Around(old(a[..]), p, IntLeft(n, spec, prefix), n, IntRight(n, spec, prefix))
    ensures end == p + |IntLeft(n, spec, prefix)| + n
  {
    CenterAround(a[..], p, n, spec, prefix);
    end := PutInside(a, p, n, spec.width, spec.fill, prefix);
  }

  lemma SidesAround(s: string, p: nat, n: nat, spec: FormatSpec, prefix: string)
    requires spec.precision <= n && |prefix| + n < spec.width && p + spec.width <= |s|
    requires !spec.align.ALIGN_LEFT? && !spec.align.ALIGN_CENTER?
    ensures var fill := Repeat(spec.fill, spec.width - |prefix| - n);
            Around(s, p, IntLeft(n, spec, prefix), n, IntRight(n, spec, prefix)) ==
              if spec.align.ALIGN_NUMERIC? then Spliced(Spliced(s, p, prefix), p + |prefix|, fill)
              else Spliced(Spliced(s, p + |fill|, prefix), p, fill)
  {
    var fill := Repeat(spec.fill, spec.width - |prefix| - n);
    var left := IntLeft(n, spec, prefix);
    assert IntRight(n, spec, prefix) == [];
    AroundNothing(s, p, left, n);
    if spec.align.ALIGN_NUMERIC? {
      assert left == prefix + fill;
      SplicedAfter(s, p, prefix, fill);
    } else {
      assert left == fill + prefix;
      SplicedBefore(s, p, fill, prefix);
    }
  }

  method PutNumeric(a: array<char>, p: nat, n: nat, spec: FormatSpec, prefix: string)
    requires IsPadded(a, p, n, spec, prefix) && spec.align.ALIGN_NUMERIC?
    modifies a
    ensures a[..] == Around(old(a[..]), p, IntLeft(n, spec, prefix), n, IntRight(n, spec, prefix))
  {
    SidesAround(a[..], p, n, spec, prefix);
    CopyTo(a, p, prefix);
    Fill(a, p + |prefix|, spec.width - |prefix| - n, spec.fill);
  }

  method PutAlignedRight(a: array<char>, p: nat, n: nat, spec: FormatSpec, prefix: string)
    requires IsPadded(a, p, n, spec, prefix) && (spec.align.ALIGN_RIGHT? || spec.align.ALIGN_DEFAULT?)
    modifies a
    ensures a[..] == Around(old(a[..]), p, IntLeft(n, spec, prefix), n, IntRight(n, spec, prefix))
  {
    SidesAround(a[..], p, n, spec, prefix);
    var size := spec.width - |prefix| - n;
    CopyTo(a, p + size, prefix);
    Fill(a, p, size, spec.fill);
  }

  /** Pads around a string of size characters and gives its place. */
  method PadContent(a: array<char>, p: nat, size: nat, spec: FormatSpec) returns (content: nat)
    requires size < spec.width && p + spec.width <= a.Length
    modifies a
    ensures var pad := spec.width - size;
            var left := PadBefore(pad, spec.align);
            content == p + left
            && a[..] == Around(old(a[..]), p, Repeat(spec.fill, left), size, Repeat(spec.fill, pad - left))
  {
    var pad := spec.width - size;
    content := p;
    if spec.align.ALIGN_RIGHT? {
      PadAround(a, p, pad, size, 0, spec.fill);
      content := content + pad;
    } else if spec.align.ALIGN_CENTER? {
      content := FillPadding(a, p, spec.width, size, spec.fill);
    } else {
      PadAround(a, p, 0, size, pad, spec.fill);
    }
  }

  method PutPaddedStr(a: array<char>, p: nat, ghost before: string, s: string, spec: FormatSpec) returns (content: nat)
    requires |s| < spec.width && p + spec.width <= a.Length && a[..p] == before
    modifies a
    ensures content == p + PadBefore(spec.width - |s|, spec.align)
    ensures a[..p + spec.width] == before + StrText(s, spec)
  {
    assert a[..][..p] == before;
    StrAround(a[..], before, s, spec);
    content := PadContent(a, p, |s|, spec);
    CopyTo(a, content, s);
    assert a[..p + spec.width] == a[..][..p + spec.width];
  }

  // Digits in bases that are powers of two.

  lemma NumeralSplit(n: nat, base: Base, upper: bool)
    ensures var q, d := Quotient(n, base), DigitChar(Remainder(n, base), upper);
            (q == 0 <==> n < base) && Numeral(n, base, upper) == (if q == 0 then [] else Numeral(q, base, upper)) + [d]
  {
  }

  method CountByBase(value: nat, base: Base, ghost upper: bool) returns (num_digits: nat)
    ensures num_digits == |Numeral(value, base, upper)|
  {
    var n: nat := value;
    num_digits := 0;
    while true
      invariant num_digits + |Numeral(n, base, upper)| == |Numeral(value, base, upper)|
      decreases n
    {
      NumeralSplit(n, base, upper);
      num_digits := num_digits + 1;
      n := Quotient(n, base);
      if n == 0 { break; }
    }
  }

  lemma QuotientLess(n: nat, base: Base)
    ensures Quotient(n, base) < n || Quotient(n, base) == 0 == n
  {
  }

  lemma NumeralMore(whole: string, n: nat, done: string, base: Base, upper: bool)
    requires whole == Numeral(n, base, upper) + done
    ensures var q, c := Quotient(n, base), DigitChar(Remainder(n, base), upper);
            (q < n || q == 0 == n) && whole == (if q == 0 then [] else Numeral(q, base, upper)) + ([c] + done)
  {
    QuotientLess(n, base);
    NumeralSplit(n, base, upper);
    var q := Quotient(n, base);
    var head: string := if q == 0 then [] else Numeral(q, base, upper);
    Associate(head, [DigitChar(Remainder(n, base), upper)], done);
  }

  method PutBefore(a: array<char>, p: nat, c: char, ghost was: string, ghost done: string)
    requires p + 1 + |done| <= a.Length == |was| && a[..] == Spliced(was, p + 1, done)
    modifies a
    ensures a[..] == Spliced(was, p, [c] + done)
  {
    SplicedBefore(was, p, [c], done);
    a[p] := c;
    assert a[..] == Spliced(Spliced(was, p + 1, done), p, [c]);
  }

  /** Writes the digits of value backwards from their last place. */
  method PutByBase(a: array<char>, at: nat, value: nat, base: Base, upper: bool)
    requires at < a.Length && |Numeral(value, base, upper)| <= at + 1
    modifies a
    ensures a[..] == Spliced(old(a[..]), at + 1 - |Numeral(value, base, upper)|, Numeral(value, base, upper))
  {
    var n: nat, p := value, at as int;
    ghost var was, done := a[..], [];
    while true
      invariant Numeral(value, base, upper) == Numeral(n, base, upper) + done
      invariant p + |done| == at
      invariant a[..] == Spliced(was, p + 1, done)
      decreases n
    {
      NumeralMore(Numeral(value, base, upper), n, done, base, upper);
      ghost var c := DigitChar(Remainder(n, base), upper);
      PutBefore(a, p, DigitChar(Remainder(n, base), upper), was, done);
      p := p - 1;
      n := Quotient(n, base);
      done := [c] + done;
      if n == 0 { break; }
    }
    assert Numeral(value, base, upper) == done;
  }

  lemma PlainSize(n: nat, spec: FormatSpec, prefix: string)
    requires spec.precision <= n
    ensures |IntLeft(n, spec, prefix)| + n + |IntRight(n, spec, prefix)|
            == if spec.width <= |prefix| + n then |prefix| + n else spec.width
  {
  }

  /** Puts a prefix and padding around the place of n digits and gives the end of that place. */
  method PutPadded(a: array<char>, p: nat, n: nat, spec: FormatSpec, prefix: string) returns (end: nat)
    requires IsPadded(a, p, n, spec, prefix)
    modifies a
    ensures a[..] == Around(old(a[..]), p, IntLeft(n, spec, prefix), n, IntRight(n, spec, prefix))
    ensures end == p + |IntLeft(n, spec, prefix)| + n
  {
    PlainSize(n, spec, prefix);
    if spec.align.ALIGN_LEFT? {
      PutAlignedLeft(a, p, n, spec, prefix);
      end := p + |prefix| + n;
    } else if spec.align.ALIGN_CENTER? {
      end := PutCentered(a, p, n, spec, prefix);
    } else {
      if spec.align.ALIGN_NUMERIC? { PutNumeric(a, p, n, spec, prefix); }
      else { PutAlignedRight(a, p, n, spec, prefix); }
      end := p + spec.width;
    }
  }

  method PutPlain(a: array<char>, p: nat, n: nat, spec: FormatSpec, prefix: string) returns (end: nat)
    requires spec.precision <= n && p + |prefix| + n <= a.Length && p + spec.width <= a.Length
    requires p + |IntLeft(n, spec, prefix)| + n + |IntRight(n, spec, prefix)| <= a.Length
    modifies a
    ensures a[..] == Around(old(a[..]), p, IntLeft(n, spec, prefix), n, IntRight(n, spec, prefix))
    ensures end == p + |IntLeft(n, spec, prefix)| + n
  {
    if spec.width <= |prefix| + n {
      assert IntLeft(n, spec, prefix) == prefix && IntRight(n, spec, prefix) == [];
      AroundNothing(a[..], p, prefix, n);
      CopyTo(a, p, prefix);
      end := p + |prefix| + n;
    } else {
      end := PutPadded(a, p, n, spec, prefix);
    }
  }

  method SignAndMagnitude(value: int, bits: nat, spec: FormatSpec) returns (prefix: string, abs_value: nat)
    requires IsInteger(value, bits)
    ensures prefix == Sign(value, spec.flags) && abs_value == Magnitude(value) && IsWord(abs_value, bits)
  {
    prefix := [];
    abs_value := Wrapped(value, bits);
    WrappedIs(value, bits);
    if value < 0 {
      prefix := ['-'];
      WrappedIs(-(abs_value as int), bits);
      abs_value := Wrapped(-(abs_value as int), bits);
    } else if SIGN_FLAG in spec.flags {
      prefix := if PLUS_FLAG in spec.flags then ['+'] else [' '];
    }
  }

  class BasicWriter {
    const buffer_: MemoryBuffer

    ghost predicate Valid()
      reads this, buffer_
    {
      buffer_.Valid()
    }

    ghost function Contents(): string
      reads this, buffer_, buffer_.ptr_
      requires Valid()
    {
      buffer_.Contents()
    }

    constructor ()
      ensures Valid() && fresh(buffer_) && fresh(buffer_.ptr_) && Contents() == []
    {
      buffer_ := new MemoryBuffer();
    }

    /** Makes n more characters of contents and gives the place of the first. */
    method GrowBuffer(n: nat) returns (p: CharPtr)
      requires Valid()
      modifies buffer_
      ensures Valid() && p == CharPtr(buffer_.ptr_, old(buffer_.size_)) && buffer_.size_ == p.at + n
      ensures Contents()[..p.at] == old(Contents())
      ensures buffer_.capacity_ == CapacityFor(p.at + n, old(buffer_.capacity_))
      ensures if buffer_.capacity_ == old(buffer_.capacity_) then buffer_.ptr_ == old(buffer_.ptr_) else fresh(buffer_.ptr_)
    {
      var size := buffer_.size_;
      buffer_.Resize(size + n);
      p := CharPtr(buffer_.ptr_, size);
    }

    /** The part of prepare_int_buffer for numbers without a precision. */
    method PreparePlain(n: nat, spec: FormatSpec, prefix: string) returns (result: CharPtr)
      requires Valid() && n > 0 && spec.precision <= n
      modifies buffer_, buffer_.ptr_
      ensures Valid() && Framed(Contents(), old(Contents()), IntLeft(n, spec, prefix), n, IntRight(n, spec, prefix))
      ensures result == CharPtr(buffer_.ptr_, old(buffer_.size_) + |IntLeft(n, spec, prefix)| + n - 1)
      ensures buffer_.capacity_ == CapacityFor(buffer_.size_, old(buffer_.capacity_))
      ensures if buffer_.capacity_ == old(buffer_.capacity_) then buffer_.ptr_ == old(buffer_.ptr_) else fresh(buffer_.ptr_)
    {
      ghost var before := Contents();
      var size := |prefix| + n;
      var p := GrowBuffer(if spec.width <= size then size else spec.width);
      ghost var s, left, right := p.a[..], IntLeft(n, spec, prefix), IntRight(n, spec, prefix);
      assert s[..p.at] == before;
      PlainSize(n, spec, prefix);
      AroundFrames(s, before, left, n, right);
      var end := PutPlain(p.a, p.at, n, spec, prefix);
      result := CharPtr(p.a, end - 1);
    }

    method AppendFill(n: nat, fill: char)
      requires Valid()
      modifies buffer_, buffer_.ptr_
      ensures Valid() && Contents() == old(Contents()) + Repeat(fill, n)
      ensures buffer_.capacity_ == CapacityFor(buffer_.size_, old(buffer_.capacity_))
      ensures if buffer_.capacity_ == old(buffer_.capacity_) then buffer_.ptr_ == old(buffer_.ptr_) else fresh(buffer_.ptr_)
    {
      var p := GrowBuffer(n);
      Fill(p.a, p.at, n, fill);
    }

    /** A prefix, zeros up to the precision, and the place of the digits. */
    method PrepareZeros(n: nat, precision: nat, prefix: string) returns (result: CharPtr)
      requires Valid() && n > 0 && precision > n
      modifies buffer_, buffer_.ptr_
      ensures Valid() && Framed(Contents(), old(Contents()), prefix + Repeat('0', precision - n), n, [])
      ensures result == CharPtr(buffer_.ptr_, old(buffer_.size_) + |prefix| + precision - 1)
      ensures buffer_.capacity_ == CapacityFor(buffer_.size_, old(buffer_.capacity_))
      ensures if buffer_.capacity_ == old(buffer_.capacity_) then buffer_.ptr_ == old(buffer_.ptr_) else fresh(buffer_.ptr_)
    {
      var subspec := FormatSpec(|prefix| + precision, '0', ALIGN_NUMERIC, {}, -1, NO_TYPE);
      assert IntLeft(n, subspec, prefix) == prefix + Repeat('0', precision - n) && IntRight(n, subspec, prefix) == [];
      result := PreparePlain(n, subspec, prefix);
    }

    /** The same, with fill after it, for which the buffer may have to be replaced. */
    method PrepareFilled(n: nat, precision: nat, prefix: string, fill_size: nat, fill: char) returns (result: CharPtr)
      requires Valid() && n > 0 && precision > n && fill_size > 0
      modifies buffer_, buffer_.ptr_
      ensures Valid() && Framed(Contents(), old(Contents()), prefix + Repeat('0', precision - n), n, Repeat(fill, fill_size))
      ensures result.at == old(buffer_.size_) + |prefix| + precision - 1 < result.a.Length
      ensures var number_end := old(buffer_.size_) + |prefix| + precision;
              result.a == buffer_.ptr_ <==> number_end + fill_size <= CapacityFor(number_end, old(buffer_.capacity_))
      ensures result.a == old(buffer_.ptr_) || fresh(result.a)
      ensures buffer_.ptr_ == old(buffer_.ptr_) || fresh(buffer_.ptr_)
    {
      ghost var before := Contents();
      result := PrepareZeros(n, precision, prefix);
      FramedAppend(Contents(), before, prefix + Repeat('0', precision - n), n, Repeat(fill, fill_size));
      AppendFill(fill_size, fill);
    }

    method FillPrepared(n: nat, precision: nat, prefix: string, fill_size: nat, fill: char) returns (result: CharPtr)
      requires Valid() && n > 0 && precision > n
      modifies buffer_, buffer_.ptr_
      ensures Valid() && Framed(Contents(), old(Contents()), Repeat(fill, fill_size) + (prefix + Repeat('0', precision - n)), n, [])
      ensures result == CharPtr(buffer_.ptr_, old(buffer_.size_) + fill_size + |prefix| + precision - 1)
      ensures buffer_.ptr_ == old(buffer_.ptr_) || fresh(buffer_.ptr_)
    {
      ghost var before := Contents();
      AppendFill(fill_size, fill);
      result := PrepareZeros(n, precision, prefix);
      FramedBefore(Contents(), before, Repeat(fill, fill_size), prefix + Repeat('0', precision - n), n);
    }

    method PrepareLeft(n: nat, spec: FormatSpec, prefix: string) returns (result: CharPtr)
      requires Valid() && n > 0 && spec.precision > n
      requires spec.align.ALIGN_LEFT? && |ShortPrefix(prefix)| + spec.precision < spec.width
      modifies buffer_, buffer_.ptr_
      ensures Valid() && Framed(Contents(), old(Contents()), IntLeft(n, spec, prefix), n, IntRight(n, spec, prefix))
      ensures result.at == old(buffer_.size_) + |IntLeft(n, spec, prefix)| + n - 1 < result.a.Length
      ensures result.a == buffer_.ptr_ <==> !Stale(old(buffer_.size_), old(buffer_.capacity_), n, spec, prefix)
      ensures result.a == old(buffer_.ptr_) || fresh(result.a)
      ensures buffer_.ptr_ == old(buffer_.ptr_) || fresh(buffer_.ptr_)
    {
      PreciseAround(n, spec, prefix);
      var short := ShortPrefix(prefix);
      var number_size := |short| + spec.precision;
      buffer_.Reserve(spec.width);
      result := PrepareFilled(n, spec.precision, short, spec.width - number_size, spec.fill);
    }

    method PrepareBare(n: nat, spec: FormatSpec, prefix: string) returns (result: CharPtr)
      requires Valid() && n > 0 && spec.precision > n && |ShortPrefix(prefix)| + spec.precision >= spec.width
      modifies buffer_, buffer_.ptr_
      ensures Valid() && Framed(Contents(), old(Contents()), IntLeft(n, spec, prefix), n, IntRight(n, spec, prefix))
      ensures result.at == old(buffer_.size_) + |IntLeft(n, spec, prefix)| + n - 1 < result.a.Length
      ensures result.a == buffer_.ptr_ && (buffer_.ptr_ == old(buffer_.ptr_) || fresh(buffer_.ptr_))
    {
      PreciseAround(n, spec, prefix);
      result := PrepareZeros(n, spec.precision, ShortPrefix(prefix));
    }

    method PrepareRight(n: nat, spec: FormatSpec, prefix: string) returns (result: CharPtr)
      requires Valid() && n > 0 && spec.precision > n
      requires !spec.align.ALIGN_LEFT? && |ShortPrefix(prefix)| + spec.precision < spec.width
      modifies buffer_, buffer_.ptr_
      ensures Valid() && Framed(Contents(), old(Contents()), IntLeft(n, spec, prefix), n, IntRight(n, spec, prefix))
      ensures result.at == old(buffer_.size_) + |IntLeft(n, spec, prefix)| + n - 1 < result.a.Length
      ensures result.a == buffer_.ptr_ && (buffer_.ptr_ == old(buffer_.ptr_) || fresh(buffer_.ptr_))
    {
      PreciseAround(n, spec, prefix);
      var short := ShortPrefix(prefix);
      buffer_.Reserve(spec.width);
      result := FillPrepared(n, spec.precision, short, spec.width - |short| - spec.precision, spec.fill);
    }

    /** A precision widens the number with zeros; the width is then filled on one side. */
    method PreparePrecise(n: nat, spec: FormatSpec, prefix: string) returns (result: CharPtr)
      requires Valid() && n > 0 && spec.precision > n
      modifies buffer_, buffer_.ptr_
      ensures Valid() && Framed(Contents(), old(Contents()), IntLeft(n, spec, prefix), n, IntRight(n, spec, prefix))
      ensures result.at == old(buffer_.size_) + |IntLeft(n, spec, prefix)| + n - 1 < result.a.Length
      ensures result.a == buffer_.ptr_ <==> !Stale(old(buffer_.size_), old(buffer_.capacity_), n, spec, prefix)
      ensures result.a == old(buffer_.ptr_) || fresh(result.a)
      ensures buffer_.ptr_ == old(buffer_.ptr_) || fresh(buffer_.ptr_)
    {
      if |ShortPrefix(prefix)| + spec.precision >= spec.width {
        result := PrepareBare(n, spec, prefix);
      } else if spec.align.ALIGN_LEFT? {
        result := PrepareLeft(n, spec, prefix);
      } else {
        result := PrepareRight(n, spec, prefix);
      }
    }

    /** Makes place for n digits at the end of the buffer and gives the place of the last. */
    method PrepareIntBuffer(n: nat, spec: FormatSpec, prefix: string) returns (result: CharPtr)
      requires Valid() && n > 0
      modifies buffer_, buffer_.ptr_
      ensures Valid() && Framed(Contents(), old(Contents()), IntLeft(n, spec, prefix), n, IntRight(n, spec, prefix))
      ensures result.at == old(buffer_.size_) + |IntLeft(n, spec, prefix)| + n - 1 < result.a.Length
      ensures result.a == buffer_.ptr_ <==> !Stale(old(buffer_.size_), old(buffer_.capacity_), n, spec, prefix)
      ensures result.a == old(buffer_.ptr_) || fresh(result.a)
      ensures buffer_.ptr_ == old(buffer_.ptr_) || fresh(buffer_.ptr_)
    {
      if spec.precision > n {
        result := PreparePrecise(n, spec, prefix);
      } else {
        result := PreparePlain(n, spec, prefix);
      }
    }

    /** A finished integer: the digits are where they belong if the place given for them was in the current
        storage. */
    ghost predicate IntWritten(before: string, value: int, spec: FormatSpec, stale: bool)
      reads this, buffer_, buffer_.ptr_
      requires Valid()
    {
      var prefix, n := Prefix(value, spec), |Digits(value, spec.typ)|;
      if stale then Framed(Contents(), before, IntLeft(n, spec, prefix), n, IntRight(n, spec, prefix))
      else Contents() == before + IntText(value, spec)
    }

    method FinishDecimal(p: CharPtr, ghost before: string, value: int, abs_value: nat, num_digits: nat, spec: FormatSpec)
      requires Valid() && BaseOf(spec.typ) == 10 && abs_value == Magnitude(value) && num_digits == |Decimal(abs_value)|
      requires var prefix, n := Prefix(value, spec), |Digits(value, spec.typ)|;
               Framed(Contents(), before, IntLeft(n, spec, prefix), n, IntRight(n, spec, prefix))
               && p.at + 1 == |before| + |IntLeft(n, spec, prefix)| + n <= p.a.Length
      modifies p.a
      ensures Valid() && IntWritten(before, value, spec, p.a != buffer_.ptr_)
    {
      ghost var was, made := p.a[..], Contents();
      if p.a == buffer_.ptr_ { IntFinished(was, buffer_.size_, before, value, spec); }
      FormatDecimal(p.a, p.at + 1 - num_digits, abs_value, num_digits);
      assert p.a != buffer_.ptr_ ==> Contents() == made;
      assert p.a == buffer_.ptr_ ==> Contents() == before + IntText(value, spec);
    }

    method WriteDecimal(value: int, abs_value: nat, bits: nat, spec: FormatSpec, prefix: string)
      requires Valid() && BaseOf(spec.typ) == 10 && prefix == Prefix(value, spec)
      requires IsWord(abs_value, bits) && abs_value == Magnitude(value)
      modifies buffer_, buffer_.ptr_
      ensures buffer_.ptr_ == old(buffer_.ptr_) || fresh(buffer_.ptr_)
      ensures Valid()
      ensures IntWritten(old(Contents()), value, spec,
                         Stale(old(buffer_.size_), old(buffer_.capacity_), |Digits(value, spec.typ)|, spec, prefix))
    {
      ghost var before := Contents();
      var num_digits := DigitsOf(abs_value, bits);
      var p := PrepareIntBuffer(num_digits, spec, prefix);
      FinishDecimal(p, before, value, abs_value, num_digits, spec);
    }

    method FinishByBase(p: CharPtr, ghost before: string, value: int, abs_value: nat, spec: FormatSpec)
      requires Valid() && BaseOf(spec.typ) != 10 && abs_value == Magnitude(value)
      requires var prefix, n := Prefix(value, spec), |Digits(value, spec.typ)|;
               Framed(Contents(), before, IntLeft(n, spec, prefix), n, IntRight(n, spec, prefix))
               && p.at + 1 == |before| + |IntLeft(n, spec, prefix)| + n <= p.a.Length
      modifies p.a
      ensures Valid() && IntWritten(before, value, spec, p.a != buffer_.ptr_)
    {
      ghost var was, made := p.a[..], Contents();
      if p.a == buffer_.ptr_ { IntFinished(was, buffer_.size_, before, value, spec); }
      PutByBase(p.a, p.at, abs_value, BaseOf(spec.typ), spec.typ == 'X');
      assert p.a != buffer_.ptr_ ==> Contents() == made;
      assert p.a == buffer_.ptr_ ==> Contents() == before + IntText(value, spec);
    }

    method WriteByBase(value: int, abs_value: nat, spec: FormatSpec, prefix: string)
      requires Valid() && BaseOf(spec.typ) != 10 && prefix == Prefix(value, spec)
      requires abs_value == Magnitude(value)
      modifies buffer_, buffer_.ptr_
      ensures buffer_.ptr_ == old(buffer_.ptr_) || fresh(buffer_.ptr_)
      ensures Valid()
      ensures IntWritten(old(Contents()), value, spec,
                         Stale(old(buffer_.size_), old(buffer_.capacity_), |Digits(value, spec.typ)|, spec, prefix))
    {
      ghost var before := Contents();
      var num_digits := CountByBase(abs_value, BaseOf(spec.typ), spec.typ == 'X');
      var p := PrepareIntBuffer(num_digits, spec, prefix);
      FinishByBase(p, before, value, abs_value, spec);
    }

    /** Writes an integer of 32 or 64 bits. */
    method WriteInt(value: int, bits: nat, spec: FormatSpec) returns (status: Status)
      requires Valid() && IsInteger(value, bits)
      modifies buffer_, buffer_.ptr_
      ensures buffer_.ptr_ == old(buffer_.ptr_) || fresh(buffer_.ptr_)
      ensures Valid()
      ensures IsIntType(spec.typ) ==> status.Written?
      ensures IsIntType(spec.typ) ==>
        IntWritten(old(Contents()), value, spec,
                   Stale(old(buffer_.size_), old(buffer_.capacity_), |Digits(value, spec.typ)|, spec, Prefix(value, spec)))
      ensures !IsIntType(spec.typ) ==> status == Failed(UnknownTypeCode) && Contents() == old(Contents())
    {
      var prefix, abs_value := SignAndMagnitude(value, bits, spec);
      status := Written;
      if spec.typ == NO_TYPE || spec.typ == 'd' {
        WriteDecimal(value, abs_value, bits, spec, prefix);
      } else if spec.typ == 'x' || spec.typ == 'X' || spec.typ == 'b' || spec.typ == 'B' {
        if HASH_FLAG in spec.flags { prefix := prefix + ['0', spec.typ]; }
        WriteByBase(value, abs_value, spec, prefix);
      } else if spec.typ == 'o' {
        if HASH_FLAG in spec.flags { prefix := prefix + ['0']; }
        WriteByBase(value, abs_value, spec, prefix);
      } else {
        status := Failed(UnknownTypeCode);
      }
    }

    /** The characters of s between two places of it. */
    method WriteLiteral(s: string, start: nat, end: nat)
      requires Valid() && start <= end <= |s|
      modifies buffer_, buffer_.ptr_
      ensures Valid() && Contents() == old(Contents()) + s[start..end]
      ensures buffer_.ptr_ == old(buffer_.ptr_) || fresh(buffer_.ptr_)
    {
      if start != end { buffer_.Append(s[start..end]); }
    }

    method WritePadded(s: string, spec: FormatSpec) returns (out: CharPtr)
      requires Valid() && |s| < spec.width
      modifies buffer_, buffer_.ptr_
      ensures buffer_.ptr_ == old(buffer_.ptr_) || fresh(buffer_.ptr_)
      ensures Valid() && Contents() == old(Contents()) + StrText(s, spec)
      ensures out == CharPtr(buffer_.ptr_, old(buffer_.size_) + PadBefore(spec.width - |s|, spec.align))
    {
      ghost var before := Contents();
      out := GrowBuffer(spec.width);
      var content := PutPaddedStr(out.a, out.at, before, s, spec);
      out := CharPtr(out.a, content);
    }

    /** Writes a string, padded to the width. */
    method WriteStr(s: string, spec: FormatSpec) returns (out: CharPtr)
      requires Valid()
      modifies buffer_, buffer_.ptr_
      ensures buffer_.ptr_ == old(buffer_.ptr_) || fresh(buffer_.ptr_)
      ensures Valid() && Contents() == old(Contents()) + StrText(s, spec)
      ensures out == CharPtr(buffer_.ptr_, old(buffer_.size_) + PadBefore(Excess(spec.width, |s|), spec.align))
    {
      if spec.width > |s| {
        out := WritePadded(s, spec);
      } else {
        out := GrowBuffer(|s|);
        CopyTo(out.a, out.at, s);
      }
    }
  }

  /** The digits put into their place make the text. */
  lemma IntFinished(s: string, size: nat, before: string, value: int, spec: FormatSpec)
    requires var prefix, n := Prefix(value, spec), |Digits(value, spec.typ)|;
             size <= |s| && Framed(s[..size], before, IntLeft(n, spec, prefix), n, IntRight(n, spec, prefix))
    ensures var at := |before| + |IntLeft(|Digits(value, spec.typ)|, spec, Prefix(value, spec))|;
            Spliced(s, at, Digits(value, spec.typ))[..size] == before + IntText(value, spec)
  {
    var prefix, digits := Prefix(value, spec), Digits(value, spec.typ);
    var left, right := IntLeft(|digits|, spec, prefix), IntRight(|digits|, spec, prefix);
    FillFrame(s[..size], before, left, digits, right);
    SplicedPrefix(s, |before| + |left|, digits, size);
  }

  /** The value of an unsigned word that x is assigned to. */
  function Wrapped(x: int, bits: nat): (n: nat)
    requires bits == 32 || bits == 64
    ensures bits == 32 ==> n < WORD32
    ensures bits == 64 ==> n < WORD64
  {
    if bits == 32 then x % WORD32 else x % WORD64
  }

  lemma WrappedIs(x: int, bits: nat)
    requires (bits == 32 && -WORD32 <= x < WORD32) || (bits == 64 && -WORD64 <= x < WORD64)
    ensures Wrapped(x, bits) == if x >= 0 then x else if bits == 32 then x + WORD32 else x + WORD64
  {
  }

  /** An integer of a signed or an unsigned type of at most bits bits. */
  predicate IsInteger(value: int, bits: nat)
  {
    (bits == 32 && -WORD32 <= 2 * value && value < WORD32)
    || (bits == 64 && -WORD64 <= 2 * value && value < WORD64)
  }

  lemma StrAround(s: string, before: string, t: string, spec: FormatSpec)
    requires |t| < spec.width && |before| + spec.width <= |s| && s[..|before|] == before
    ensures var pad := spec.width - |t|;
            var left := PadBefore(pad, spec.align);
            var around := Around(s, |before|, Repeat(spec.fill, left), |t|, Repeat(spec.fill, pad - left));
            Spliced(around, |before| + left, t)[..|before| + spec.width] == before + StrText(t, spec)
  {
    var pad := spec.width - |t|;
    var left := PadBefore(pad, spec.align);
    var l, r := Repeat(spec.fill, left), Repeat(spec.fill, pad - left);
    var around := Around(s, |before|, l, |t|, r);
    AroundFrames(s, before, l, |t|, r);
    FillFrame(around[..|before| + spec.width], before, l, t, r);
    SplicedPrefix(around, |before| + left, t, |before| + spec.width);
  }

  /** No pointer is out of date without a precision, without left alignment, or with room for the width. */
  lemma NeverStale(size: nat, capacity: nat, n: nat, spec: FormatSpec, prefix: string)
    requires spec.precision <= n || !spec.align.ALIGN_LEFT? || size + spec.width <= capacity
    ensures !Stale(size, capacity, n, spec, prefix)
  {
  }

  /** Some are: ten more characters than an inline buffer holds, under "%-20.10d". */
  lemma SomeStale()
    ensures Stale(490, INLINE_BUFFER_SIZE, 1, FormatSpec(20, ' ', ALIGN_LEFT, {}, 10, 'd'), Prefix(7, DEFAULT_SPEC))
  {
  }

  lemma PreciseAround(n: nat, spec: FormatSpec, prefix: string)
    requires spec.precision > n
    ensures var short := ShortPrefix(prefix);
            var left, pad := short + Repeat('0', spec.precision - n), Excess(spec.width, |short| + spec.precision);
            var none: string := [];
            IntLeft(n, spec, prefix) == (if pad == 0 || spec.align.ALIGN_LEFT? then left else Repeat(spec.fill, pad) + left)
            && IntRight(n, spec, prefix) == (if pad == 0 || !spec.align.ALIGN_LEFT? then none else Repeat(spec.fill, pad))
  {
    var none: string := [];
    assert Repeat(spec.fill, 0) == none;
  }

  lemma FramedAppend(s: string, before: string, left: string, n: nat, right: string)
    requires Framed(s, before, left, n, [])
    ensures Framed(s + right, before, left, n, right)
  {
  }

  lemma FramedBefore(s: string, before: string, fill: string, left: string, n: nat)
    requires Framed(s, before + fill, left, n, [])
    ensures Framed(s, before, fill + left, n, [])
  {
  }
}
