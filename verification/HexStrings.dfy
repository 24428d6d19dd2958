/** Bytes as hexadecimal text and back. */
module HexStrings {
  import opened ByteValues
  import opened Numerals

  /** Two digits for each byte. */
  function Hex(bs: seq<byte>): (s: string)
    ensures |s| == 2 * |bs|
  {
    if bs == [] then [] else Hex(bs[..|bs| - 1]) + HexPair(bs[|bs| - 1])
  }

  function HexPair(b: byte): (s: string)
    ensures |s| == 2
  {
    [DigitChar(b / 16, true), DigitChar(b % 16, true)]
  }

  predicate IsHex(s: string)
  {
    AllDigits(s, 16)
  }

  function PairByte(c: char, d: char): byte
    requires IsDigit(c, 16) && IsDigit(d, 16)
  {
    16 * DigitOf(c) + DigitOf(d)
  }

  /** The bytes that pairs of digits stand for. */
  function UnHex(s: string): seq<byte>
    requires IsHex(s) && |s| % 2 == 0
  {
    if s == [] then [] else UnHex(s[..|s| - 2]) + [PairByte(s[|s| - 2], s[|s| - 1])]
  }

  lemma PairsInvert(b: byte)
    ensures var p := HexPair(b); IsDigit(p[0], 16) && IsDigit(p[1], 16) && PairByte(p[0], p[1]) == b
  {
    DigitOfChar(b / 16, true);
    DigitOfChar(b % 16, true);
  }

  lemma IsHexAppend(s: string, c: char, d: char)
    requires IsHex(s) && |s| % 2 == 0 && IsDigit(c, 16) && IsDigit(d, 16)
    ensures IsHex(s + [c, d]) && |s + [c, d]| % 2 == 0
  {
  }

  lemma UnHexLast(t: string, s: string, c: char, d: char)
    requires IsHex(t) && |t| % 2 == 0 && IsHex(s) && |s| % 2 == 0 && IsDigit(c, 16) && IsDigit(d, 16)
    requires |t| == |s| + 2 && t[..|s|] == s && t[|s|] == c && t[|s| + 1] == d
    ensures UnHex(t) == UnHex(s) + [PairByte(c, d)]
  {
  }

  lemma UnHexAppend(s: string, c: char, d: char)
    requires IsHex(s) && |s| % 2 == 0 && IsDigit(c, 16) && IsDigit(d, 16)
    ensures IsHex(s + [c, d]) && UnHex(s + [c, d]) == UnHex(s) + [PairByte(c, d)]
  {
    IsHexAppend(s, c, d);
    UnHexLast(s + [c, d], s, c, d);
  }

  lemma HexSnoc(bs: seq<byte>, b: byte)
    ensures Hex(bs + [b]) == Hex(bs) + HexPair(b)
  {
    assert (bs + [b])[..|bs|] == bs;
  }

  lemma HexAppend(s: string, b: byte)
    requires IsHex(s) && |s| % 2 == 0
    ensures IsHex(s + HexPair(b)) && UnHex(s + HexPair(b)) == UnHex(s) + [b]
  {
    PairsInvert(b);
    UnHexAppend(s, HexPair(b)[0], HexPair(b)[1]);
  }

  /** Reading inverts writing. */
  lemma {:induction false} HexInverts(bs: seq<byte>)
    ensures IsHex(Hex(bs)) && UnHex(Hex(bs)) == bs
    decreases |bs|
  {
    if bs != [] {
      var b, front := bs[|bs| - 1], bs[..|bs| - 1];
      assert bs == front + [b];
      HexInverts(front);
      HexSnoc(front, b);
      HexAppend(Hex(front), b);
    }
  }

  /** The high half of a byte comes first, and letters are upper case. */
  lemma HexOf()
    ensures Hex([0x5F, 0xA0, 0x0D]) == "5FA00D"
  {
    HexSnoc([], 0x5F);
    HexSnoc([0x5F], 0xA0);
    HexSnoc([0x5F, 0xA0], 0x0D);
    var none: seq<byte> := [];
    assert none + [0x5F] == [0x5F] && [0x5F] + [0xA0] == [0x5F, 0xA0] && [0x5F, 0xA0] + [0x0D] == [0x5F, 0xA0, 0x0D];
    assert HexPair(0x5F) == "5F" && HexPair(0xA0) == "A0" && HexPair(0x0D) == "0D";
  }

  /** What scanning makes of text that is not two digits. */
  lemma ScansOthers()
    ensures Scan(" \t1F") == 0x1F && Scan("7") == 7 && Scan("7G") == 7 && Scan("G7") == 0 && Scan("") == 0
    ensures Scan("+A") == 10 && Scan("-3") == 253 && Scan("-0") == 0 && Scan("+") == 0 && Scan("0X1") == 0
  {
    assert " \t1F"[1..] == "\t1F" && "\t1F"[1..] == "1F";
  }

  function Upper(c: char): char
  {
    if 'a' <= c <= 'z' then c - 'a' + 'A' else c
  }

  function Uppered(s: string): (r: string)
    ensures |r| == |s|
  {
    seq(|s|, i requires 0 <= i < |s| => Upper(s[i]))
  }

  lemma UpperSame(c: char)
    requires IsDigit(c, 16)
    ensures IsDigit(Upper(c), 16) && DigitOf(Upper(c)) == DigitOf(c)
  {
  }

  predicate IsSpace(c: char)
  {
    c == ' ' || '\t' <= c <= '\r'
  }

  /** What sscanf makes of "%02x": past any white space, up to two characters of a number with a sign or
      a prefix, or nothing, which leaves 0. */
  function Scan(s: string): byte
  {
    if s == [] then 0 else if IsSpace(s[0]) then Scan(s[1..])
    else
      var c, d := s[0], if |s| > 1 then s[1] else '\0';
      if c == '+' || c == '-' then
        if !IsDigit(d, 16) then 0 else if c == '-' then (256 - DigitOf(d)) % 256 else DigitOf(d)
      else if !IsDigit(c, 16) || (c == '0' && (d == 'x' || d == 'X')) then 0
      else if IsDigit(d, 16) then PairByte(c, d) else DigitOf(c)
  }

  /** Each byte from its place in the text on. */
  function Scanned(s: string): (bs: seq<byte>)
    ensures |bs| == |s| / 2
  {
    seq(|s| / 2, i requires 0 <= i < |s| / 2 => Scan(s[2 * i..]))
  }

  lemma ScanPair(s: string, i: nat)
    requires 2 * i + 1 < |s| && IsDigit(s[2 * i], 16) && IsDigit(s[2 * i + 1], 16)
    ensures Scan(Uppered(s)[2 * i..]) == PairByte(s[2 * i], s[2 * i + 1])
  {
    UpperSame(s[2 * i]);
    UpperSame(s[2 * i + 1]);
    var u := Uppered(s)[2 * i..];
    assert u[0] == Upper(s[2 * i]) && u[1] == Upper(s[2 * i + 1]);
  }

  lemma {:induction false} UnHexAt(s: string, i: nat)
    requires IsHex(s) && |s| % 2 == 0 && 2 * i < |s|
    ensures |UnHex(s)| == |s| / 2 && UnHex(s)[i] == PairByte(s[2 * i], s[2 * i + 1])
    decreases |s|
  {
    if |s| > 2 { UnHexAt(s[..|s| - 2], if 2 * i < |s| - 2 then i else 0); }
  }

  /** Of digits, in either case, the scan makes the bytes they stand for. */
  lemma ScannedDigits(s: string)
    requires IsHex(s) && |s| % 2 == 0
    ensures Scanned(Uppered(s)) == UnHex(s)
  {
    if s != [] { UnHexAt(s, 0); }
    forall i | 0 <= i < |s| / 2
      ensures Scanned(Uppered(s))[i] == UnHex(s)[i]
    {
      UnHexAt(s, i);
      ScanPair(s, i);
    }
  }

  method PutPair(dst: array<char>, at: nat, b: byte)
    requires at + 2 <= dst.Length
    modifies dst
    ensures dst[..at + 2] == old(dst[..at]) + HexPair(b)
    ensures forall k :: at + 2 <= k < dst.Length ==> dst[k] == old(dst[k])
  {
    dst[at] := DigitChar(b / 16, true);
    dst[at + 1] := DigitChar(b % 16, true);
  }

  method Bytes2String(src: array?<byte>, srcsize: int, dst: array?<char>, dstsize: int) returns (n: int)
    requires src != null ==> srcsize <= src.Length
    requires dst != null ==> 0 < dst.Length && dstsize <= dst.Length
    modifies dst
    ensures dst != null ==>
      if src == null || srcsize <= 0 || dstsize <= srcsize * 2 then n == 0 && dst[..] == ['\0'] + old(dst[1..])
      else n == 2 * srcsize && dst[..n] == Hex(src[..srcsize]) && dst[n] == '\0' && dst[n + 1..] == old(dst[n + 1..])
    ensures dst == null ==> n == 0
  {
    if dst != null { dst[0] := '\0'; }
    if src == null || srcsize <= 0 || dst == null || dstsize <= srcsize * 2 { return 0; }
    for i := 0 to srcsize
      invariant dst[..2 * i] == Hex(src[..i])
      invariant forall k :: 2 * srcsize < k < dst.Length ==> dst[k] == old(dst[k])
    {
      assert src[..i + 1] == src[..i] + [src[i]];
      HexSnoc(src[..i], src[i]);
      PutPair(dst, 2 * i, src[i]);
    }
    dst[srcsize * 2] := '\0';
    n := srcsize * 2;
  }

  /** The text in src up to its NUL, put in upper case, as bytes. */
  method String2Bytes(src: array?<char>, ghost len: nat, dst: array?<byte>, dstsize: int) returns (n: int)
    requires src != null ==> len < src.Length && src[len] == '\0' && '\0' !in src[..len]
    requires dst != null ==> dstsize <= dst.Length
    modifies src, dst
    ensures src == null || len == 0 || len % 2 != 0 || dst == null || dstsize < len / 2 ==> n == 0
    ensures src != null && dst != null && len > 0 && len % 2 == 0 && len / 2 <= dstsize ==>
      n == len / 2 && dst[..n] == Scanned(Uppered(old(src[..len])))
      && (IsHex(old(src[..len])) ==> dst[..n] == UnHex(old(src[..len])))
  {
    if src == null { return 0; }
    var size := StrLen(src, len);
    if size <= 0 || size % 2 != 0 || dst == null || dstsize < size / 2 { return 0; }
    var iLen := size / 2;
    ghost var was := src[..len];
    ToUpper(src, size);
    var text := src[..size];
    assert text == Uppered(was);
    for i := 0 to iLen
      invariant forall k :: 0 <= k < i ==> dst[k] == Scan(text[2 * k..])
    {
      dst[i] := Scan(text[2 * i..]);
    }
    n := iLen;
    if IsHex(was) { ScannedDigits(was); }
  }

  method StrLen(src: array<char>, ghost len: nat) returns (n: nat)
    requires len < src.Length && src[len] == '\0' && '\0' !in src[..len]
    ensures n == len
  {
    n := 0;
    while src[n] != '\0'
      invariant n <= len
      decreases len - n
    {
      n := n + 1;
    }
  }

  method ToUpper(src: array<char>, len: nat)
    requires len <= src.Length
    modifies src
    ensures forall k :: 0 <= k < len ==> src[k] == Upper(old(src[k]))
  {
    for i := 0 to len
      invariant forall k :: 0 <= k < i ==> src[k] == Upper(old(src[k]))
      invariant forall k :: i <= k < src.Length ==> src[k] == old(src[k])
    {
      src[i] := Upper(src[i]);
    }
  }

  /** Bytes written as text and read again. */
  method ReadsBack(src: array<byte>) returns (dst: array<byte>)
    requires src.Length > 0
    ensures fresh(dst) && dst[..] == src[..]
  {
    var n := src.Length;
    var text := HexText(src);
    dst := new byte[n];
    var k := String2Bytes(text, 2 * n, dst, n);
    assert dst[..n] == dst[..];
  }

  /** All of src as text, with a NUL after it. */
  method HexText(src: array<byte>) returns (text: array<char>)
    requires src.Length > 0
    ensures fresh(text) && text.Length == 2 * src.Length + 1 && text[2 * src.Length] == '\0'
    ensures var s := text[..2 * src.Length]; '\0' !in s && IsHex(s) && UnHex(s) == src[..]
  {
    var n := src.Length;
    text := new char[2 * n + 1];
    var m := Bytes2String(src, n, text, 2 * n + 1);
    assert src[..n] == src[..];
    HexInverts(src[..]);
    HexFree(text[..m]);
  }

  lemma HexFree(s: string)
    requires IsHex(s)
    ensures '\0' !in s
  {
    assert forall i :: 0 <= i < |s| ==> IsDigit(s[i], 16);
  }
}
