/** SHA-1 as RFC 3174 defines it: padding (section 4), functions and constants (section 5), and the
    digest of a padded message by method 1 (section 6.1). */
module Sha1Spec {
  import opened ByteValues

  datatype Digest = Digest(a: bv32, b: bv32, c: bv32, d: bv32, e: bv32)

  const INITIAL := Digest(0x67452301, 0xEFCDAB89, 0x98BADCFE, 0x10325476, 0xC3D2E1F0)

  const MAX_BITS := WORD64

  /** The circular left shift S^n(x). */
  function S(n: bv32, x: bv32): bv32
    requires 0 < n < 32
  {
    (x << n) | (x >> (32 - n))
  }

  function Choose(b: bv32, c: bv32, d: bv32): bv32
  {
    (b & c) | ((!b) & d)
  }

  function Parity(b: bv32, c: bv32, d: bv32): bv32
  {
    b ^ c ^ d
  }

  function Majority(b: bv32, c: bv32, d: bv32): bv32
  {
    (b & c) | (b & d) | (c & d)
  }

  function F(t: nat, b: bv32, c: bv32, d: bv32): bv32
  {
    if t < 20 then Choose(b, c, d) else if t < 40 then Parity(b, c, d)
    else if t < 60 then Majority(b, c, d) else Parity(b, c, d)
  }

  function K(t: nat): bv32
  {
    if t < 20 then 0x5A827999 else if t < 40 then 0x6ED9EBA1 else if t < 60 then 0x8F1BBCDC else 0xCA62C1D6
  }

  /** Four octets as a big-endian word. */
  function Word(b0: byte, b1: byte, b2: byte, b3: byte): bv32
  {
    ((b0 as bv32) << 24) | ((b1 as bv32) << 16) | ((b2 as bv32) << 8) | (b3 as bv32)
  }

  function WordOf(block: seq<byte>, t: nat): bv32
    requires 4 * t + 3 < |block|
  {
    Word(block[4 * t], block[4 * t + 1], block[4 * t + 2], block[4 * t + 3])
  }

  function Mix(w3: bv32, w8: bv32, w14: bv32, w16: bv32): bv32
  {
    S(1, w3 ^ w8 ^ w14 ^ w16)
  }

  /** The word sequence of a block. */
  function W(block: seq<byte>, t: nat): bv32
    requires |block| == 64
  {
    if t < 16 then WordOf(block, t)
    else Mix(W(block, t - 3), W(block, t - 8), W(block, t - 14), W(block, t - 16))
  }

  function Temp(a: bv32, f: bv32, e: bv32, w: bv32, k: bv32): bv32
  {
    S(5, a) + f + e + w + k
  }

  function Round(s: Digest, t: nat, w: bv32): Digest
  {
    Digest(Temp(s.a, F(t, s.b, s.c, s.d), s.e, w, K(t)), s.a, S(30, s.b), s.c, s.d)
  }

  function Schedule(block: seq<byte>): (w: seq<bv32>)
    requires |block| == 64
    ensures |w| == 80
  {
    seq(80, t requires 0 <= t < 80 => W(block, t))
  }

  lemma ScheduleStep(block: seq<byte>, t: nat)
    requires |block| == 64 && t < 80
    ensures var w := Schedule(block);
      w[t] == if t < 16 then WordOf(block, t) else Mix(w[t - 3], w[t - 8], w[t - 14], w[t - 16])
  {
  }

  /** The five buffers after t rounds with the words w. */
  function Rounds(h: Digest, w: seq<bv32>, t: nat): Digest
    requires t <= |w|
  {
    if t == 0 then h else Round(Rounds(h, w, t - 1), t - 1, w[t - 1])
  }

  function Add(x: bv32, y: bv32): bv32
  {
    x + y
  }

  function Sum(h: Digest, s: Digest): Digest
  {
    Digest(Add(h.a, s.a), Add(h.b, s.b), Add(h.c, s.c), Add(h.d, s.d), Add(h.e, s.e))
  }

  function Compress(h: Digest, block: seq<byte>): Digest
    requires |block| == 64
  {
    var w := Schedule(block);
    Sum(h, Rounds(h, w, |w|))
  }

  /** The 64-octet blocks that end m processed in turn; for a padded m these are all of it. */
  function Fold(m: seq<byte>): Digest
  {
    if |m| < 64 then INITIAL else Compress(Fold(m[..|m| - 64]), m[|m| - 64..])
  }

  /** n in its last k base-256 digits, most significant first. */
  function BigEndian(n: nat, k: nat): (s: seq<byte>)
    ensures |s| == k
  {
    if k == 0 then [] else BigEndian(n / 256, k - 1) + [n % 256]
  }

  function Zeros(k: nat): (s: seq<byte>)
    ensures |s| == k
  {
    seq(k, _ => 0)
  }

  /** "1", then as few "0"s as it takes, then the length in bits as a 64-bit number. */
  function Pad(m: seq<byte>): seq<byte>
  {
    m + [0x80] + Zeros((55 - |m|) % 64) + BigEndian(8 * |m|, 8)
  }

  function Sha1(m: seq<byte>): Digest
  {
    Fold(Pad(m))
  }

  lemma FoldBlock(m: seq<byte>, block: seq<byte>)
    requires |block| == 64
    ensures Fold(m + block) == Compress(Fold(m), block)
  {
    assert (m + block)[..|m|] == m && (m + block)[|m|..] == block;
  }

  /** A word's four octets, as the source takes them out by shifting. */
  function Octets(n: nat): (s: seq<byte>)
    ensures |s| == 4
  {
    [n / 0x100_0000 % 256, n / 0x1_0000 % 256, n / 0x100 % 256, n % 256]
  }

  lemma OctetsBigEndian(n: nat)
    ensures BigEndian(n, 4) == Octets(n)
  {
    assert n / 256 / 256 == n / 0x1_0000 && n / 256 / 256 / 256 == n / 0x100_0000;
    assert BigEndian(n / 256 / 256 / 256, 1) == [n / 0x100_0000 % 256];
    assert BigEndian(n / 256 / 256, 2) == BigEndian(n / 256 / 256 / 256, 1) + [n / 0x1_0000 % 256];
    assert BigEndian(n / 256, 3) == BigEndian(n / 256 / 256, 2) + [n / 0x100 % 256];
  }

  lemma LengthOctets(low: nat, high: nat)
    requires low < 0x1_0000_0000
    ensures BigEndian(low + 0x1_0000_0000 * high, 8) == Octets(high) + Octets(low)
  {
    OctetsBigEndian(high);
    OctetsBigEndian(low);
    ShiftOctet(low, 0x100_0000 * high, 8);
    ShiftOctet(low / 256, 0x1_0000 * high, 7);
    ShiftOctet(low / 256 / 256, 0x100 * high, 6);
    ShiftOctet(low / 256 / 256 / 256, high, 5);
    assert low / 256 / 256 == low / 0x1_0000 && low / 256 / 256 / 256 == low / 0x100_0000;
    assert low / 256 / 256 / 256 / 256 == 0;
  }

  lemma ShiftOctet(low: nat, high: nat, k: nat)
    requires k > 0
    ensures BigEndian(low + 256 * high, k) == BigEndian(low / 256 + high, k - 1) + [low % 256]
  {
    assert (low + 256 * high) / 256 == low / 256 + high && (low + 256 * high) % 256 == low % 256;
  }

  /** A message whose last block leaves room for the padding. */
  lemma PadInBlock(whole: seq<byte>, blocks: nat, tail: seq<byte>)
    requires |whole| == 64 * blocks && |tail| <= 55
    ensures var m := whole + tail;
      Pad(m) == whole + (tail + [0x80] + Zeros(55 - |tail|) + BigEndian(8 * |m|, 8))
  {
    assert (55 - |whole + tail|) % 64 == 55 - |tail|;
  }

  lemma PadAcrossBlocks(whole: seq<byte>, blocks: nat, tail: seq<byte>)
    requires |whole| == 64 * blocks && 55 < |tail| < 64
    ensures var m := whole + tail;
      Pad(m) == whole + (tail + [0x80] + Zeros(63 - |tail|)) + (Zeros(56) + BigEndian(8 * |m|, 8))
  {
    assert (55 - |whole + tail|) % 64 == 119 - |tail|;
    assert Zeros(119 - |tail|) == Zeros(63 - |tail|) + Zeros(56);
  }

  /** Padding fills whole blocks. */
  lemma PadWhole(m: seq<byte>)
    ensures |Pad(m)| % 64 == 0 && |m| + 9 <= |Pad(m)| < |m| + 9 + 64
  {
    assert (|m| + 9 + (55 - |m|) % 64) % 64 == 0;
  }

  lemma {:induction false} BigEndianInjective(n: nat, n': nat, k: nat, bound: nat)
    requires BigEndian(n, k) == BigEndian(n', k) && n < bound && n' < bound && bound == Pow256(k)
    ensures n == n'
    decreases k
  {
    if k > 0 {
      var s, s' := BigEndian(n, k), BigEndian(n', k);
      assert s[..k - 1] == BigEndian(n / 256, k - 1) && s'[..k - 1] == BigEndian(n' / 256, k - 1);
      assert s[k - 1] == n % 256 && s'[k - 1] == n' % 256;
      BigEndianInjective(n / 256, n' / 256, k - 1, Pow256(k - 1));
    }
  }

  /** No two messages short enough to have a digest are padded alike. */
  lemma PadInjective(m: seq<byte>, m': seq<byte>)
    requires Pad(m) == Pad(m') && 8 * |m| < MAX_BITS && 8 * |m'| < MAX_BITS
    ensures m == m'
  {
    var p := Pad(m);
    assert p[|p| - 8..] == BigEndian(8 * |m|, 8) == BigEndian(8 * |m'|, 8);
    assert Pow256(8) == MAX_BITS;
    BigEndianInjective(8 * |m|, 8 * |m'|, 8, MAX_BITS);
    assert p[..|m|] == m && p[..|m'|] == m';
  }
}
