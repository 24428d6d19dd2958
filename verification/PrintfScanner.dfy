/** The printf formatter's scan for conversions. */
module PrintfScanner {
  import opened FormatBuffers
  import opened Writers
  import opened FormatGrammar

  /** The literal text from s on, and where it ends: at the end of the format or after the percent sign
      of a conversion. */
  datatype Stretch = Stretch(text: string, end: nat)

  function Literal(fmt: string, s: nat): (r: Stretch)
    requires s <= |fmt|
    ensures s <= r.end <= |fmt|
    decreases |fmt| - s
  {
    var c := At(fmt, s);
    if c == '\0' then Stretch([], s)
    else if c == '%' && At(fmt, s + 1) != '%' then Stretch([], s + 1)
    else
      var rest := Literal(fmt, if c == '%' then s + 2 else s + 1);
      Stretch([c] + rest.text, rest.end)
  }

  /** Part of the format is still to be written. */
  ghost predicate Remains(fmt: string, start: nat, s: nat, text: string, goal: Stretch)
  {
    start <= s <= |fmt| && goal.end == Literal(fmt, s).end && goal.text == text + fmt[start..s] + Literal(fmt, s).text
  }

  lemma Pass(fmt: string, start: nat, s: nat, text: string, goal: Stretch)
    requires Remains(fmt, start, s, text, goal) && At(fmt, s) != '\0' && At(fmt, s) != '%'
    ensures Remains(fmt, start, s + 1, text, goal)
  {
    assert fmt[start..s + 1] == fmt[start..s] + [fmt[s]];
  }

  lemma PassPercent(fmt: string, start: nat, s: nat, text: string, goal: Stretch)
    requires Remains(fmt, start, s, text, goal) && At(fmt, s) == '%' && At(fmt, s + 1) == '%'
    ensures Remains(fmt, s + 2, s + 2, text + fmt[start..s + 1], goal)
  {
    assert fmt[start..s + 1] == fmt[start..s] + [fmt[s]];
    assert fmt[s + 2..s + 2] == [];
  }

  /** Writes the literal text from begin on. */
  method Scan(writer: BasicWriter, fmt: string, begin: nat) returns (s: nat, conversion: bool)
    requires writer.Valid() && begin <= |fmt|
    modifies writer.buffer_, writer.buffer_.ptr_
    ensures writer.Valid() && writer.Contents() == old(writer.Contents()) + Literal(fmt, begin).text
    ensures s == Literal(fmt, begin).end && (!conversion ==> At(fmt, s) == '\0')
    ensures conversion ==> begin < s && fmt[s - 1] == '%' && At(fmt, s) != '%'
  {
    ghost var before, text, goal := writer.Contents(), [], Literal(fmt, begin);
    var start := begin;
    s := begin;
    assert text + fmt[start..s] == [];
    while At(fmt, s) != '\0'
      invariant writer.Valid() && (writer.buffer_.ptr_ == old(writer.buffer_.ptr_) || fresh(writer.buffer_.ptr_))
      invariant begin <= start && Remains(fmt, start, s, text, goal) && writer.Contents() == before + text
      decreases |fmt| - s
    {
      if fmt[s] != '%' {
        Pass(fmt, start, s, text, goal);
        s := s + 1;
      } else if At(fmt, s + 1) == '%' {
        PassPercent(fmt, start, s, text, goal);
        Associate(before, text, fmt[start..s + 1]);
        writer.WriteLiteral(fmt, start, s + 1);
        text := text + fmt[start..s + 1];
        s := s + 2;
        start := s;
      } else {
        Ends(fmt, start, s, text, goal);
        Associate(before, text, fmt[start..s]);
        writer.WriteLiteral(fmt, start, s);
        s := s + 1;
        return s, true;
      }
    }
    Ends(fmt, start, s, text, goal);
    Associate(before, text, fmt[start..s]);
    writer.WriteLiteral(fmt, start, s);
    conversion := false;
  }

  lemma Ends(fmt: string, start: nat, s: nat, text: string, goal: Stretch)
    requires Remains(fmt, start, s, text, goal)
    requires At(fmt, s) == '\0' || (At(fmt, s) == '%' && At(fmt, s + 1) != '%')
    ensures goal.text == text + fmt[start..s] && goal.end == if At(fmt, s) == '\0' then s else s + 1
  {
    assert text + fmt[start..s] + [] == text + fmt[start..s];
  }

  function Doubled(text: string): string
  {
    if text == [] then [] else (if text[0] == '%' then ['%', '%'] else [text[0]]) + Doubled(text[1..])
  }

  lemma OneLiteral(fmt: string, s: nat, c: char, n: nat)
    requires s + n <= |fmt| && fmt[s..s + n] == (if n == 2 then [c, c] else [c]) && n == (if c == '%' then 2 else 1) && c != '\0'
    ensures var rest := Literal(fmt, s + n); Literal(fmt, s) == Stretch([c] + rest.text, rest.end)
  {
    assert At(fmt, s) == fmt[s..s + n][0];
    if n == 2 { assert At(fmt, s + 1) == fmt[s..s + n][1]; }
  }

  lemma Prepended(c: char, later: string, text: string, rest: string)
    requires text != [] && c == text[0] && later == text[1..]
    ensures [c] + (later + rest) == text + rest
  {
    assert text == [c] + later;
  }

  /** Text with its percent signs doubled stands for itself, whatever comes after it. */
  lemma {:induction false} LiteralThen(fmt: string, text: string, tail: string, s: nat)
    requires '\0' !in text && s + |Doubled(text)| + |tail| == |fmt| && fmt[s..] == Doubled(text) + tail
    ensures var rest := Literal(fmt, s + |Doubled(text)|); Literal(fmt, s) == Stretch(text + rest.text, rest.end)
    decreases |text|
  {
    if text == [] {
      assert text + Literal(fmt, s).text == Literal(fmt, s).text;
    } else {
      var c, later := text[0], text[1..];
      var n := if c == '%' then 2 else 1;
      assert fmt[s..][0] == c && (n == 2 ==> fmt[s..][1] == c);
      assert fmt[s + n..] == fmt[s..][n..] == Doubled(later) + tail;
      OneLiteral(fmt, s, c, n);
      LiteralThen(fmt, later, tail, s + n);
      Prepended(c, later, text, Literal(fmt, s + |Doubled(text)|).text);
    }
  }

  /** Any text can be had literally, by doubling its percent signs, and then no conversion is found. */
  lemma PercentsDouble(text: string)
    requires '\0' !in text
    ensures Literal(Doubled(text), 0) == Stretch(text, |Doubled(text)|)
  {
    var fmt := Doubled(text);
    assert fmt[0..] == fmt + [];
    LiteralThen(fmt, text, [], 0);
    assert text + [] == text;
  }

  /** A percent sign that is not doubled begins a conversion, and ends the text. */
  lemma ConversionFound(text: string, tail: string)
    requires '\0' !in text && (tail == [] || tail[0] != '%')
    ensures Literal(Doubled(text) + ("%" + tail), 0) == Stretch(text, |Doubled(text)| + 1)
  {
    var n, fmt := |Doubled(text)|, Doubled(text) + ("%" + tail);
    assert At(fmt, n) == '%' && At(fmt, n + 1) == if tail == [] then '\0' else tail[0];
    assert Literal(fmt, n) == Stretch([], n + 1);
    LiteralThen(fmt, text, "%" + tail, 0);
    assert text + [] == text;
  }
}
