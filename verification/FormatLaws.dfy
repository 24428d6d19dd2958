/** Laws of format strings. */
module FormatLaws {
  import opened FormatSpecs
  import opened Writers
  import opened ArgLists
  import opened FormatGrammar

  // Automatic and explicit argument indices do not mix.

  predicate AllAutomatic(uses: seq<Use>)
  {
    forall i :: 0 <= i < |uses| ==> uses[i] == Automatic(i)
  }

  predicate AllExplicit(uses: seq<Use>)
  {
    forall i :: 0 <= i < |uses| ==> uses[i].Explicit?
  }

  predicate Indexed(k: Cursor)
  {
    if k.next == -1 then AllExplicit(k.uses) else k.next == |k.uses| && AllAutomatic(k.uses)
  }

  lemma TakeArgIndexed(fmt: string, k: Cursor, args: ArgList)
    requires k.s <= |fmt| && args.Valid() && Indexed(k)
    ensures var r := TakeArg(fmt, k, args); r.Ok? ==>
              Indexed(r.value.1) && |r.value.1.uses| == |k.uses| + 1
              && args.At(r.value.1.uses[|k.uses|].index) == r.value.0
  {
  }

  lemma GivenIndexed(fmt: string, f: Field, args: ArgList)
    requires Inside(f, fmt) && args.Valid() && Indexed(f.k)
    ensures var r := ParseGiven(fmt, f, args); r.Ok? ==> Indexed(r.value.k)
  {
    if At(fmt, f.k.s) == '{' { TakeArgIndexed(fmt, f.k.(s := f.k.s + 1), args); }
  }

  lemma PrecisionIndexed(fmt: string, f: Field, arg: Arg, args: ArgList)
    requires Inside(f, fmt) && args.Valid() && Indexed(f.k)
    ensures var r := ParsePrecision(fmt, f, arg, args); r.Ok? ==> Indexed(r.value.k)
  {
    if At(fmt, f.k.s) == '.' { GivenIndexed(fmt, f.Skip(1), args); }
  }

  lemma SpecIndexed(fmt: string, f: Field, arg: Arg, args: ArgList)
    requires Inside(f, fmt) && args.Valid() && Indexed(f.k)
    ensures var r := ParseSpec(fmt, f, arg, args); r.Ok? ==> Indexed(r.value.k)
  {
    if ParseSpec(fmt, f, arg, args).Ok? {
      var f1 := ParseFill(fmt, f, arg).value;
      var f2 := ParseSign(fmt, f1, arg).value;
      var f3 := ParseHash(fmt, f2, arg).value;
      var f4 := ParseWidth(fmt, f3, arg).value;
      PrecisionIndexed(fmt, f4, arg, args);
    }
  }

  lemma FieldIndexed(fmt: string, k: Cursor, args: ArgList, others: Others)
    requires k.s <= |fmt| && args.Valid() && Indexed(k)
    ensures var r := FieldText(fmt, k, args, others); r.Ok? ==> Indexed(r.value.1)
  {
    if FieldText(fmt, k, args, others).Ok? {
      TakeArgIndexed(fmt, k, args);
      var (arg, k1) := TakeArg(fmt, k, args).value;
      if At(fmt, k1.s) == ':' { SpecIndexed(fmt, Field(DEFAULT_SPEC, k1).Skip(1), arg, args); }
    }
  }

  lemma {:induction false} MeaningIndexed(fmt: string, k: Cursor, args: ArgList, others: Others)
    requires k.s <= |fmt| && args.Valid() && Indexed(k)
    ensures var r := Meaning(fmt, k, args, others);
            r.Ok? ==> AllAutomatic(r.value.uses) || AllExplicit(r.value.uses)
    decreases |fmt| - k.s
  {
    var c := At(fmt, k.s);
    if c == '\0' {
    } else if c != '{' && c != '}' {
      MeaningIndexed(fmt, k.(s := k.s + 1), args, others);
    } else if At(fmt, k.s + 1) == c {
      MeaningIndexed(fmt, k.(s := k.s + 2), args, others);
    } else if c == '{' {
      var r := FieldText(fmt, k.(s := k.s + 1), args, others);
      FieldIndexed(fmt, k.(s := k.s + 1), args, others);
      if r.Ok? { MeaningIndexed(fmt, r.value.1, args, others); }
    }
  }

  /** Where formatting succeeds, either the k-th argument taken is the k-th of the list throughout,
      nested precisions included, or every index was given explicitly. */
  lemma UniformIndexing(fmt: string, args: ArgList, others: Others)
    requires args.Valid() && Formatted(fmt, args, others).Ok?
    ensures var uses := Formatted(fmt, args, others).value.uses; AllAutomatic(uses) || AllExplicit(uses)
  {
    MeaningIndexed(fmt, START, args, others);
  }

  // Doubled braces.

  function Doubled(text: string): string
  {
    if text == [] then []
    else (if text[0] == '{' || text[0] == '}' then [text[0], text[0]] else [text[0]]) + Doubled(text[1..])
  }

  /** Text with its braces doubled stands for itself, whatever comes after it. */
  lemma {:induction false} DoubledThen(fmt: string, text: string, tail: string, k: Cursor, args: ArgList, others: Others)
    requires '\0' !in text && args.Valid() && k.s + |Doubled(text)| + |tail| == |fmt| && fmt[k.s..] == Doubled(text) + tail
    ensures Meaning(fmt, k, args, others)
            == Before(text, Meaning(fmt, k.(s := k.s + |Doubled(text)|), args, others))
    decreases |text|
  {
    if text == [] {
      assert k.(s := k.s + 0) == k;
      BeforeNothing(Meaning(fmt, k, args, others));
    } else {
      var c, later := text[0], text[1..];
      var n := if c == '{' || c == '}' then 2 else 1;
      assert fmt[k.s..][0] == c && (n == 2 ==> fmt[k.s..][1] == c);
      assert fmt[k.s + n..] == fmt[k.s..][n..] == Doubled(later) + tail;
      var k1 := k.(s := k.s + n);
      DoubledThen(fmt, later, tail, k1, args, others);
      var end := k.(s := k.s + |Doubled(text)|);
      assert k1.(s := k1.s + |Doubled(later)|) == end;
      OneMeant(fmt, k, c, n, args, others);
      assert text == [c] + later;
      BeforeTwice([c], later, Meaning(fmt, end, args, others));
    }
  }

  /** A character that stands for itself, by itself or doubled. */
  lemma OneMeant(fmt: string, k: Cursor, c: char, n: nat, args: ArgList, others: Others)
    requires args.Valid() && k.s + n <= |fmt| && fmt[k.s..k.s + n] == (if n == 2 then [c, c] else [c]) && c != '\0'
    requires n == if c == '{' || c == '}' then 2 else 1
    ensures Meaning(fmt, k, args, others) == Before([c], Meaning(fmt, k.(s := k.s + n), args, others))
  {
    assert At(fmt, k.s) == fmt[k.s..k.s + n][0];
    if n == 2 { assert At(fmt, k.s + 1) == fmt[k.s..k.s + n][1]; }
  }

  lemma EndMeaning(fmt: string, text: string, k: Cursor, args: ArgList, others: Others)
    requires args.Valid() && k.s == |fmt|
    ensures Before(text, Meaning(fmt, k, args, others)) == Ok(Output(text, k.uses))
  {
    assert text + [] == text;
  }

  lemma DoubledLast(fmt: string, text: string, k: Cursor, args: ArgList, others: Others)
    requires args.Valid() && '\0' !in text && k.s + |Doubled(text)| == |fmt| && fmt[k.s..] == Doubled(text)
    ensures Meaning(fmt, k, args, others) == Ok(Output(text, k.uses))
  {
    var doubled, end := Doubled(text), k.(s := |fmt|);
    assert fmt[k.s..] == doubled + [];
    EndMeaning(fmt, text, end, args, others);
    DoubledUpTo(fmt, text, [], k, end, args, others);
  }

  lemma DoubledUpTo(fmt: string, text: string, tail: string, k: Cursor, end: Cursor, args: ArgList, others: Others)
    requires '\0' !in text && args.Valid() && k.s + |Doubled(text)| + |tail| == |fmt| && fmt[k.s..] == Doubled(text) + tail
    requires end == k.(s := k.s + |Doubled(text)|)
    ensures Meaning(fmt, k, args, others) == Before(text, Meaning(fmt, end, args, others))
  {
    DoubledThen(fmt, text, tail, k, args, others);
  }

  /** Any text can be had literally, by doubling its braces. */
  lemma BracesDouble(text: string, args: ArgList, others: Others)
    requires '\0' !in text && args.Valid()
    ensures Formatted(Doubled(text), args, others) == Ok(Output(text, []))
  {
    DoubledLast(Doubled(text), text, START, args, others);
  }

  lemma ClosingMeaning(fmt: string, text: string, k: Cursor, args: ArgList, others: Others)
    requires args.Valid() && k.s < |fmt| && fmt[k.s] == '}' && At(fmt, k.s + 1) != '}'
    ensures Before(text, Meaning(fmt, k, args, others)) == Err(UnmatchedBrace)
  {
  }

  /** A closing brace that is neither doubled nor ends a field is an error, whatever follows. */
  lemma LoneBrace(text: string, tail: string, args: ArgList, others: Others)
    requires '\0' !in text && args.Valid() && (tail == [] || tail[0] != '}')
    ensures Formatted(Doubled(text) + ("}" + tail), args, others) == Err(UnmatchedBrace)
  {
    var fmt := Doubled(text) + ("}" + tail);
    var k := START.(s := |Doubled(text)|);
    assert At(fmt, k.s) == '}' && At(fmt, k.s + 1) == (if tail == [] then '\0' else tail[0]);
    ClosingMeaning(fmt, text, k, args, others);
    DoubledThen(fmt, text, "}" + tail, START, args, others);
  }

  // Texts between fields.

  /** The texts, with empty fields between them. */
  function Template(texts: seq<string>): string
    requires texts != []
  {
    if |texts| == 1 then Doubled(texts[0]) else Doubled(texts[0]) + ("{}" + Template(texts[1..]))
  }

  /** The texts, with what is shown between them. */
  function Filling(texts: seq<string>, shown: seq<string>): string
    requires |texts| == |shown| + 1
  {
    if shown == [] then texts[0] else texts[0] + (shown[0] + Filling(texts[1..], shown[1..]))
  }

  function Following(k: nat, n: nat): (uses: seq<Use>)
    ensures |uses| == n
  {
    seq(n, i requires 0 <= i < n => Automatic(k + i))
  }

  /** The arguments from the next on, shown. */
  ghost predicate AreShown(shown: seq<string>, next: nat, args: ArgList, others: Others)
  {
    next + |shown| <= |args.values|
    && forall i :: 0 <= i < |shown| ==> Show(args.values[next + i], DEFAULT_SPEC, others) == Ok(shown[i])
  }

  /** A text and a field. */
  lemma TemplateFirst(fmt: string, text: string, tail: string, shown: string, k: Cursor, args: ArgList, others: Others)
    returns (k2: Cursor)
    requires args.Valid() && '\0' !in text && 0 <= k.next < |args.values|
    requires Show(args.values[k.next], DEFAULT_SPEC, others) == Ok(shown)
    requires k.s + |Doubled(text)| + 2 + |tail| == |fmt| && fmt[k.s..] == Doubled(text) + ("{}" + tail)
    ensures k2 == Cursor(k.s + |Doubled(text)| + 2, k.next + 1, k.uses + [Automatic(k.next)])
    ensures k2.s <= |fmt| && fmt[k2.s..] == tail
    ensures Meaning(fmt, k, args, others) == Before(text, Before(shown, Meaning(fmt, k2, args, others)))
  {
    var n := |Doubled(text)|;
    var k1 := k.(s := k.s + n);
    assert fmt[k1.s..] == fmt[k.s..][n..] == "{}" + tail;
    assert fmt[k1.s] == fmt[k1.s..][0] && fmt[k1.s + 1] == fmt[k1.s..][1];
    k2 := Cursor(k1.s + 2, k.next + 1, k.uses + [Automatic(k.next)]);
    assert fmt[k2.s..] == fmt[k1.s..][2..] == tail;
    EmptyField(fmt, k1, shown, args, others, k2);
    DoubledUpTo(fmt, text, "{}" + tail, k, k1, args, others);
  }

  lemma FillingFirst(texts: seq<string>, shown: seq<string>)
    requires |texts| == |shown| + 1 > 1
    ensures Filling(texts, shown) == texts[0] + (shown[0] + Filling(texts[1..], shown[1..]))
    ensures Template(texts) == Doubled(texts[0]) + ("{}" + Template(texts[1..]))
  {
  }

  lemma NextFollows(k: nat, n: nat, uses: seq<Use>)
    requires n > 0
    ensures uses + Following(k, n) == uses + [Automatic(k)] + Following(k + 1, n - 1)
  {
  }

  /** A text, what is shown, and what is meant after them. */
  lemma PutTogether(texts: seq<string>, shown: seq<string>, k: Cursor, k2: Cursor, m: Result<Output>, m2: Result<Output>)
    requires |texts| == |shown| + 1 > 1 && k.next >= 0 && k2.next == k.next + 1 && k2.uses == k.uses + [Automatic(k.next)]
    requires m == Before(texts[0], Before(shown[0], m2))
    requires m2 == Ok(Output(Filling(texts[1..], shown[1..]), k2.uses + Following(k2.next, |shown| - 1)))
    ensures m == Ok(Output(Filling(texts, shown), k.uses + Following(k.next, |shown|)))
  {
    FillingFirst(texts, shown);
    NextFollows(k.next, |shown|, k.uses);
  }

  lemma NextShown(shown: seq<string>, next: nat, args: ArgList, others: Others)
    requires AreShown(shown, next, args, others) && shown != []
    ensures AreShown(shown[1..], next + 1, args, others) && Show(args.values[next], DEFAULT_SPEC, others) == Ok(shown[0])
  {
    assert Show(args.values[next + 0], DEFAULT_SPEC, others) == Ok(shown[0]);
    forall i | 0 <= i < |shown[1..]|
      ensures Show(args.values[next + 1 + i], DEFAULT_SPEC, others) == Ok(shown[1..][i])
    {
      assert Show(args.values[next + (i + 1)], DEFAULT_SPEC, others) == Ok(shown[i + 1]);
    }
  }

  /** What is left of the template at a place, and what its fields are to show. */
  ghost predicate IsLeft(fmt: string, texts: seq<string>, shown: seq<string>, k: Cursor, args: ArgList, others: Others)
  {
    && |texts| == |shown| + 1 && (forall i :: 0 <= i < |texts| ==> '\0' !in texts[i])
    && k.next >= 0 && AreShown(shown, k.next, args, others)
    && k.s + |Template(texts)| == |fmt| && fmt[k.s..] == Template(texts)
  }

  lemma RestLeft(fmt: string, texts: seq<string>, shown: seq<string>, k: Cursor, k2: Cursor, args: ArgList, others: Others)
    requires shown != [] && IsLeft(fmt, texts, shown, k, args, others) && k2.next == k.next + 1
    requires k2.s <= |fmt| && fmt[k2.s..] == Template(texts[1..])
    ensures IsLeft(fmt, texts[1..], shown[1..], k2, args, others)
  {
    NextShown(shown, k.next, args, others);
    forall i | 0 <= i < |texts[1..]|
      ensures '\0' !in texts[1..][i]
    {
      assert texts[1..][i] == texts[i + 1];
    }
  }

  /** The first text and field are met, and the others are left. */
  lemma TemplateNext(fmt: string, texts: seq<string>, shown: seq<string>, k: Cursor, args: ArgList, others: Others)
    returns (k2: Cursor)
    requires args.Valid() && shown != [] && IsLeft(fmt, texts, shown, k, args, others)
    ensures k2.next == k.next + 1 && k2.uses == k.uses + [Automatic(k.next)]
    ensures IsLeft(fmt, texts[1..], shown[1..], k2, args, others)
    ensures Meaning(fmt, k, args, others) == Before(texts[0], Before(shown[0], Meaning(fmt, k2, args, others)))
  {
    NextShown(shown, k.next, args, others);
    FillingFirst(texts, shown);
    var text, tail, first := texts[0], Template(texts[1..]), shown[0];
    k2 := TemplateFirst(fmt, text, tail, first, k, args, others);
    RestLeft(fmt, texts, shown, k, k2, args, others);
  }

  lemma {:induction false} TemplateMeaning(fmt: string, texts: seq<string>, shown: seq<string>, k: Cursor, args: ArgList, others: Others)
    requires args.Valid() && IsLeft(fmt, texts, shown, k, args, others)
    ensures Meaning(fmt, k, args, others) == Ok(Output(Filling(texts, shown), k.uses + Following(k.next, |shown|)))
    decreases |texts|
  {
    if shown == [] {
      DoubledLast(fmt, texts[0], k, args, others);
      assert k.uses + Following(k.next, 0) == k.uses;
    } else {
      var k2 := TemplateNext(fmt, texts, shown, k, args, others);
      TemplateMeaning(fmt, texts[1..], shown[1..], k2, args, others);
      PutTogether(texts, shown, k, k2, Meaning(fmt, k, args, others), Meaning(fmt, k2, args, others));
    }
  }

  lemma EmptyFieldText(fmt: string, k1: Cursor, shown: string, args: ArgList, others: Others, end: Cursor)
    requires args.Valid() && 0 <= k1.next < |args.values| && Show(args.values[k1.next], DEFAULT_SPEC, others) == Ok(shown)
    requires k1.s < |fmt| && fmt[k1.s] == '}' && end == Cursor(k1.s + 1, k1.next + 1, k1.uses + [Automatic(k1.next)])
    ensures FieldText(fmt, k1, args, others) == Ok((shown, end))
  {
    args.AtIsValue(k1.next);
    assert args.values[k1.next].Valid();
    var k2 := end.(s := k1.s);
    assert TakeArg(fmt, k1, args) == Ok((args.values[k1.next], k2));
    assert ParseField(fmt, k2, args.values[k1.next], args) == Ok(Field(DEFAULT_SPEC, end));
  }

  /** An empty field shows the next argument. */
  lemma EmptyField(fmt: string, k: Cursor, shown: string, args: ArgList, others: Others, end: Cursor)
    requires args.Valid() && 0 <= k.next < |args.values| && Show(args.values[k.next], DEFAULT_SPEC, others) == Ok(shown)
    requires k.s + 2 <= |fmt| && fmt[k.s] == '{' && fmt[k.s + 1] == '}'
    requires end == Cursor(k.s + 2, k.next + 1, k.uses + [Automatic(k.next)])
    ensures Meaning(fmt, k, args, others) == Before(shown, Meaning(fmt, end, args, others))
  {
    EmptyFieldText(fmt, k.(s := k.s + 1), shown, args, others, end);
    MeaningOfField(fmt, k, args, others);
  }

  /** Texts between empty fields stay, and the fields show the arguments in order. */
  lemma TemplateFilled(texts: seq<string>, shown: seq<string>, args: ArgList, others: Others)
    requires args.Valid() && |texts| == |shown| + 1 && (forall i :: 0 <= i < |texts| ==> '\0' !in texts[i])
    requires AreShown(shown, 0, args, others)
    ensures Formatted(Template(texts), args, others) == Ok(Output(Filling(texts, shown), Following(0, |shown|)))
  {
    TemplateMeaning(Template(texts), texts, shown, START, args, others);
    assert [] + Following(0, |shown|) == Following(0, |shown|);
  }
}
