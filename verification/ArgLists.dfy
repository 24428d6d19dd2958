/** Argument lists, whose types are packed four bits each into one word. */
module ArgLists {
  import opened ByteValues
  import opened Bits
  import opened Decimals

  datatype Arg =
    | NoArg
    | IntArg(int_value: int)
    | UIntArg(uint_value: nat)
    | LongLongArg(long_long_value: int)
    | ULongLongArg(ulong_long_value: nat)
    | CharArg(char_value: int)
    | DoubleArg
    | LongDoubleArg
    | StringArg(text: string)
    | OtherArg(code: nat)
  {
    /** What the types of the language hold. The codes left over are those of C strings, wide strings,
        pointers and arguments of custom types. */
    predicate Valid()
    {
      match this
      case IntArg(v) => -WORD32 <= 2 * v < WORD32
      case UIntArg(v) => v < WORD32
      case LongLongArg(v) => -WORD64 <= 2 * v < WORD64
      case ULongLongArg(v) => v < WORD64
      case CharArg(v) => -128 <= v < 256
      case OtherArg(c) => c == 8 || 10 <= c <= 12
      case _ => true
    }

    /** Arg::Type */
    function Code(): nat
    {
      match this
      case NoArg => 0
      case IntArg(_) => 1
      case UIntArg(_) => 2
      case LongLongArg(_) => 3
      case ULongLongArg(_) => 4
      case CharArg(_) => 5
      case DoubleArg => 6
      case LongDoubleArg => 7
      case StringArg(_) => 9
      case OtherArg(c) => c
    }
  }

  const MAX_ARGS := 16
  const LAST_NUMERIC_TYPE := 7

  /** make_type */
  function MakeType(codes: seq<nat>): nat
  {
    if codes == [] then 0 else Or(codes[0], Shl(MakeType(codes[1..]), 4) % WORD64)
  }

  /** The type code ArgList::operator[] finds. */
  function TypeAt(types: nat, index: nat): nat
  {
    if index >= MAX_ARGS then 0
    else var shift := index * 4; Shr(And(types, Shl(0xF, shift)), shift)
  }

  /** x >> k */
  function Shr(x: nat, k: nat): nat
  {
    if k == 0 then x else Shr(x / 2, k - 1)
  }

  lemma {:induction false} ShrShl(x: nat, k: nat)
    ensures Shr(Shl(x, k), k) == x
    decreases k
  {
    if k > 0 { ShrShl(x, k - 1); }
  }

  lemma ShlFour(q: nat, k: nat)
    ensures Shl(q, k + 4) == 16 * Shl(q, k)
  {
    assert Shl(q, k + 2) == 4 * Shl(q, k);
    assert Shl(q, k + 4) == 4 * Shl(q, k + 2);
  }

  /** The codes as the digits of a number in base sixteen. */
  function Packed(codes: seq<nat>): nat
  {
    if codes == [] then 0 else codes[0] + 16 * Packed(codes[1..])
  }

  predicate AreCodes(codes: seq<nat>)
  {
    forall i :: 0 <= i < |codes| ==> codes[i] < 16
  }

  lemma OrShifted(c: nat, t: nat)
    requires c < 16
    ensures Or(c, 16 * t) == c + 16 * t
  {
    var c1 := c / 2;
    var c2 := c1 / 2;
    assert Or(c2 / 2, 2 * t) == c2 / 2 + 2 * t by {
      assert Or(c2 / 2 / 2, t) == t;
    }
    assert Or(c2, 4 * t) == c2 + 4 * t;
    assert Or(c1, 8 * t) == c1 + 8 * t;
  }

  lemma {:induction false} PackedBound(codes: seq<nat>)
    requires AreCodes(codes)
    ensures Packed(codes) < Pow2(4 * |codes|)
    decreases |codes|
  {
    if codes != [] {
      PackedBound(codes[1..]);
      Pow2Add(4, 4 * |codes[1..]|);
    }
  }

  lemma ShiftFits(t: nat, n: nat)
    requires t < Pow2(4 * n) && n < MAX_ARGS
    ensures Shl(t, 4) % WORD64 == 16 * t
  {
    ShlFour(t, 0);
    var k := 4 * n;
    assert Pow2(k + 2) == 4 * Pow2(k);
    assert Pow2(k + 4) == 4 * Pow2(k + 2);
    Pow2Monotone(k + 4, 64);
    WordRanges();
  }

  lemma {:induction false} MakeTypePacks(codes: seq<nat>)
    requires AreCodes(codes) && |codes| <= MAX_ARGS
    ensures MakeType(codes) == Packed(codes)
    decreases |codes|
  {
    if codes != [] {
      MakeTypePacks(codes[1..]);
      PackedBound(codes[1..]);
      var t := Packed(codes[1..]);
      ShiftFits(t, |codes[1..]|);
      OrShifted(codes[0], t);
      assert MakeType(codes) == Or(codes[0], 16 * t);
    }
  }

  lemma AndTwice(x: nat, n: nat, m: nat)
    requires n == 2 * m
    ensures And(x, n) == 2 * And(x / 2, m)
  {
    assert n / 2 == m && n % 2 == 0;
  }

  lemma AndQuarter(x: nat, n: nat, m: nat)
    requires n == 4 * m
    ensures And(x, n) == 4 * And(x / 4, m)
  {
    AndTwice(x, n, 2 * m);
    AndTwice(x / 2, 2 * m, m);
    assert x / 2 / 2 == x / 4;
  }

  lemma AndShifted(x: nat, m: nat)
    ensures And(x, 16 * m) == 16 * And(x / 16, m)
  {
    AndQuarter(x, 16 * m, 4 * m);
    AndQuarter(x / 4, 4 * m, m);
    assert x / 4 / 4 == x / 16;
  }

  lemma {:induction false} MaskedDigit(codes: seq<nat>, index: nat)
    requires AreCodes(codes)
    ensures And(Packed(codes), Shl(0xF, 4 * index)) == Shl(if index < |codes| then codes[index] else 0, 4 * index)
    decreases index
  {
    if index == 0 {
      AndMask(Packed(codes), 4);
      assert Pow2(4) == 16;
    } else {
      var rest := if codes == [] then [] else codes[1..];
      MaskedDigit(rest, index - 1);
      assert Packed(codes) / 16 == Packed(rest);
      var k := 4 * (index - 1);
      ShlFour(0xF, k);
      ShlFour(if index < |codes| then codes[index] else 0, k);
      AndShifted(Packed(codes), Shl(0xF, k));
    }
  }

  /** Packing and then looking up gives back each code, and none past the last. */
  lemma TypeAtPacked(codes: seq<nat>, index: nat)
    requires AreCodes(codes) && |codes| <= MAX_ARGS
    ensures TypeAt(MakeType(codes), index) == if index < |codes| then codes[index] else 0
  {
    if index < MAX_ARGS {
      MakeTypePacks(codes);
      MaskedDigit(codes, index);
      ShrShl(if index < |codes| then codes[index] else 0, 4 * index);
    }
  }

  function Codes(args: seq<Arg>): (codes: seq<nat>)
    ensures |codes| == |args|
  {
    seq(|args|, i requires 0 <= i < |args| => args[i].Code())
  }

  predicate ValidArgs(args: seq<Arg>)
  {
    |args| <= MAX_ARGS && forall i :: 0 <= i < |args| ==> args[i].Valid() && !args[i].NoArg?
  }

  /** A list of arguments, as the variadic functions make it. */
  datatype ArgList = ArgList(types: nat, values: seq<Arg>)
  {
    ghost predicate Valid()
    {
      ValidArgs(values) && types == MakeType(Codes(values))
    }

    /** operator[], the one use of the packed types. */
    function At(index: nat): (arg: Arg)
      requires Valid()
      ensures arg.Valid()
    {
      if TypeAt(types, index) == 0 then NoArg
      else assert index < |values| by { TypeAtPacked(Codes(values), index); }
           values[index]
    }

    lemma AtIsValue(index: nat)
      requires Valid()
      ensures At(index) == if index < |values| then values[index] else NoArg
    {
      TypeAtPacked(Codes(values), index);
      if index < |values| { assert values[index].Valid(); }
    }
  }
}
