/** The first test of RFC 3174 (section 7.3): the digest of "abc". */
module Sha1Vectors {
  import opened ByteValues
  import opened Sha1Spec
  import opened Sha1Stream

  /** The recurrence of section 6.1 (b), with the circular shift written out. */
  lemma WordRecurrence(block: seq<byte>, t: nat)
    requires |block| == 64 && 16 <= t < 80
    ensures var x := W(block, t - 3) ^ W(block, t - 8) ^ W(block, t - 14) ^ W(block, t - 16);
            W(block, t) == (x << 1) | (x >> 31)
  {
  }

  const ABC: seq<byte> := [0x61, 0x62, 0x63]

  function AbcBlock(): (block: seq<byte>)
    ensures |block| == 64
  {
    ABC + [0x80] + Zeros(59) + [24]
  }

  /** Word t follows from those before it. */
  predicate Follows(w: seq<bv32>, t: nat)
    requires |w| == 80
  {
    16 <= t < 80 ==> w[t] == Mix(w[t - 3], w[t - 8], w[t - 14], w[t - 16])
  }

  ghost predicate IsSchedule(w: seq<bv32>)
  {
    |w| == 80 && forall t: nat :: Follows(w, t)
  }

  lemma MixedWord(w: seq<bv32>, t: nat, w3: bv32, w8: bv32, w14: bv32, w16: bv32)
    requires IsSchedule(w) && 16 <= t < 80 && w[t - 3] == w3 && w[t - 8] == w8 && w[t - 14] == w14 && w[t - 16] == w16
    ensures w[t] == Mix(w3, w8, w14, w16)
  {
    assert Follows(w, t);
  }

  predicate FirstWords(w: seq<bv32>)
    requires |w| == 80
  {
    w[0] == 0x61626380 && w[1] == 0x00000000 && w[2] == 0x00000000 && w[3] == 0x00000000
    && w[4] == 0x00000000 && w[5] == 0x00000000 && w[6] == 0x00000000 && w[7] == 0x00000000
    && w[8] == 0x00000000 && w[9] == 0x00000000 && w[10] == 0x00000000 && w[11] == 0x00000000
    && w[12] == 0x00000000 && w[13] == 0x00000000 && w[14] == 0x00000000 && w[15] == 0x00000018
  }

  predicate SecondWords(w: seq<bv32>)
    requires |w| == 80
  {
    w[16] == 0xC2C4C700 && w[17] == 0x00000000 && w[18] == 0x00000030 && w[19] == 0x85898E01
    && w[20] == 0x00000000 && w[21] == 0x00000060 && w[22] == 0x0B131C03 && w[23] == 0x00000030
    && w[24] == 0x85898EC1 && w[25] == 0x16263806 && w[26] == 0x00000000 && w[27] == 0x00000180
    && w[28] == 0x2C4C700C && w[29] == 0x000000F0 && w[30] == 0x93AFB507 && w[31] == 0x5898E048
  }

  predicate ThirdWords(w: seq<bv32>)
    requires |w| == 80
  {
    w[32] == 0x8E9A9202 && w[33] == 0x00000600 && w[34] == 0xB131C0F0 && w[35] == 0x16263BC6
    && w[36] == 0x4EBED41E && w[37] == 0x626380A1 && w[38] == 0x16263806 && w[39] == 0x000018C0
    && w[40] == 0xD2E138C4 && w[41] == 0x00000F00 && w[42] == 0x3AFB5079 && w[43] == 0x898E04E5
    && w[44] == 0xE2BA3C2B && w[45] == 0x000060C0 && w[46] == 0x053A37CD && w[47] == 0x74458547
  }

  predicate FourthWords(w: seq<bv32>)
    requires |w| == 80
  {
    w[48] == 0xDA9415ED && w[49] == 0x26380A16 && w[50] == 0x626383A1 && w[51] == 0x4EBF54DE
    && w[52] == 0x3835B44B && w[53] == 0x0000F600 && w[54] == 0x1E84C7A3 && w[55] == 0x98E04D98
    && w[56] == 0x651D16A0 && w[57] == 0x62658CA1 && w[58] == 0x458544D6 && w[59] == 0x44584CB7
    && w[60] == 0x7BA06619 && w[61] == 0x6380AEA2 && w[62] == 0x0AE55269 && w[63] == 0x627B49A1
  }

  predicate FifthWords(w: seq<bv32>)
    requires |w| == 80
  {
    w[64] == 0x7CD45C9D && w[65] == 0x000F0000 && w[66] == 0xFB50753A && w[67] == 0xEC6765E8
    && w[68] == 0xBA3C2BE2 && w[69] == 0x0060C000 && w[70] == 0x3A37CD05 && w[71] == 0x458546F4
    && w[72] == 0xB8599DD6 && w[73] == 0x380A1A26 && w[74] == 0x01E02203 && w[75] == 0xE7CC3456
    && w[76] == 0xE6E60B69 && w[77] == 0x00F60A00 && w[78] == 0x5795EF4F && w[79] == 0x822E0879
  }

  lemma SecondWordsFollow(w: seq<bv32>)
    requires IsSchedule(w) && FirstWords(w)
    ensures SecondWords(w)
  {
    MixedWord(w, 16, 0x00000000, 0x00000000, 0x00000000, 0x61626380);
    assert w[16] == 0xC2C4C700;
    MixedWord(w, 17, 0x00000000, 0x00000000, 0x00000000, 0x00000000);
    assert w[17] == 0x00000000;
    MixedWord(w, 18, 0x00000018, 0x00000000, 0x00000000, 0x00000000);
    assert w[18] == 0x00000030;
    MixedWord(w, 19, 0xC2C4C700, 0x00000000, 0x00000000, 0x00000000);
    assert w[19] == 0x85898E01;
    MixedWord(w, 20, 0x00000000, 0x00000000, 0x00000000, 0x00000000);
    assert w[20] == 0x00000000;
    MixedWord(w, 21, 0x00000030, 0x00000000, 0x00000000, 0x00000000);
    assert w[21] == 0x00000060;
    MixedWord(w, 22, 0x85898E01, 0x00000000, 0x00000000, 0x00000000);
    assert w[22] == 0x0B131C03;
    MixedWord(w, 23, 0x00000000, 0x00000018, 0x00000000, 0x00000000);
    assert w[23] == 0x00000030;
    MixedWord(w, 24, 0x00000060, 0xC2C4C700, 0x00000000, 0x00000000);
    assert w[24] == 0x85898EC1;
    MixedWord(w, 25, 0x0B131C03, 0x00000000, 0x00000000, 0x00000000);
    assert w[25] == 0x16263806;
    MixedWord(w, 26, 0x00000030, 0x00000030, 0x00000000, 0x00000000);
    assert w[26] == 0x00000000;
    MixedWord(w, 27, 0x85898EC1, 0x85898E01, 0x00000000, 0x00000000);
    assert w[27] == 0x00000180;
    MixedWord(w, 28, 0x16263806, 0x00000000, 0x00000000, 0x00000000);
    assert w[28] == 0x2C4C700C;
    MixedWord(w, 29, 0x00000000, 0x00000060, 0x00000018, 0x00000000);
    assert w[29] == 0x000000F0;
    MixedWord(w, 30, 0x00000180, 0x0B131C03, 0xC2C4C700, 0x00000000);
    assert w[30] == 0x93AFB507;
    MixedWord(w, 31, 0x2C4C700C, 0x00000030, 0x00000000, 0x00000018);
    assert w[31] == 0x5898E048;
  }

  lemma ThirdWordsFollow(w: seq<bv32>)
    requires IsSchedule(w) && SecondWords(w)
    ensures ThirdWords(w)
  {
    MixedWord(w, 32, 0x000000F0, 0x85898EC1, 0x00000030, 0xC2C4C700);
    assert w[32] == 0x8E9A9202;
    MixedWord(w, 33, 0x93AFB507, 0x16263806, 0x85898E01, 0x00000000);
    assert w[33] == 0x00000600;
    MixedWord(w, 34, 0x5898E048, 0x00000000, 0x00000000, 0x00000030);
    assert w[34] == 0xB131C0F0;
    MixedWord(w, 35, 0x8E9A9202, 0x00000180, 0x00000060, 0x85898E01);
    assert w[35] == 0x16263BC6;
    MixedWord(w, 36, 0x00000600, 0x2C4C700C, 0x0B131C03, 0x00000000);
    assert w[36] == 0x4EBED41E;
    MixedWord(w, 37, 0xB131C0F0, 0x000000F0, 0x00000030, 0x00000060);
    assert w[37] == 0x626380A1;
    MixedWord(w, 38, 0x16263BC6, 0x93AFB507, 0x85898EC1, 0x0B131C03);
    assert w[38] == 0x16263806;
    MixedWord(w, 39, 0x4EBED41E, 0x5898E048, 0x16263806, 0x00000030);
    assert w[39] == 0x000018C0;
    MixedWord(w, 40, 0x626380A1, 0x8E9A9202, 0x00000000, 0x85898EC1);
    assert w[40] == 0xD2E138C4;
    MixedWord(w, 41, 0x16263806, 0x00000600, 0x00000180, 0x16263806);
    assert w[41] == 0x00000F00;
    MixedWord(w, 42, 0x000018C0, 0xB131C0F0, 0x2C4C700C, 0x00000000);
    assert w[42] == 0x3AFB5079;
    MixedWord(w, 43, 0xD2E138C4, 0x16263BC6, 0x000000F0, 0x00000180);
    assert w[43] == 0x898E04E5;
    MixedWord(w, 44, 0x00000F00, 0x4EBED41E, 0x93AFB507, 0x2C4C700C);
    assert w[44] == 0xE2BA3C2B;
    MixedWord(w, 45, 0x3AFB5079, 0x626380A1, 0x5898E048, 0x000000F0);
    assert w[45] == 0x000060C0;
    MixedWord(w, 46, 0x898E04E5, 0x16263806, 0x8E9A9202, 0x93AFB507);
    assert w[46] == 0x053A37CD;
    MixedWord(w, 47, 0xE2BA3C2B, 0x000018C0, 0x00000600, 0x5898E048);
    assert w[47] == 0x74458547;
  }

  lemma FourthWordsFollow(w: seq<bv32>)
    requires IsSchedule(w) && ThirdWords(w)
    ensures FourthWords(w)
  {
    MixedWord(w, 48, 0x000060C0, 0xD2E138C4, 0xB131C0F0, 0x8E9A9202);
    assert w[48] == 0xDA9415ED;
    MixedWord(w, 49, 0x053A37CD, 0x00000F00, 0x16263BC6, 0x00000600);
    assert w[49] == 0x26380A16;
    MixedWord(w, 50, 0x74458547, 0x3AFB5079, 0x4EBED41E, 0xB131C0F0);
    assert w[50] == 0x626383A1;
    MixedWord(w, 51, 0xDA9415ED, 0x898E04E5, 0x626380A1, 0x16263BC6);
    assert w[51] == 0x4EBF54DE;
    MixedWord(w, 52, 0x26380A16, 0xE2BA3C2B, 0x16263806, 0x4EBED41E);
    assert w[52] == 0x3835B44B;
    MixedWord(w, 53, 0x626383A1, 0x000060C0, 0x000018C0, 0x626380A1);
    assert w[53] == 0x0000F600;
    MixedWord(w, 54, 0x4EBF54DE, 0x053A37CD, 0xD2E138C4, 0x16263806);
    assert w[54] == 0x1E84C7A3;
    MixedWord(w, 55, 0x3835B44B, 0x74458547, 0x00000F00, 0x000018C0);
    assert w[55] == 0x98E04D98;
    MixedWord(w, 56, 0x0000F600, 0xDA9415ED, 0x3AFB5079, 0xD2E138C4);
    assert w[56] == 0x651D16A0;
    MixedWord(w, 57, 0x1E84C7A3, 0x26380A16, 0x898E04E5, 0x00000F00);
    assert w[57] == 0x62658CA1;
    MixedWord(w, 58, 0x98E04D98, 0x626383A1, 0xE2BA3C2B, 0x3AFB5079);
    assert w[58] == 0x458544D6;
    MixedWord(w, 59, 0x651D16A0, 0x4EBF54DE, 0x000060C0, 0x898E04E5);
    assert w[59] == 0x44584CB7;
    MixedWord(w, 60, 0x62658CA1, 0x3835B44B, 0x053A37CD, 0xE2BA3C2B);
    assert w[60] == 0x7BA06619;
    MixedWord(w, 61, 0x458544D6, 0x0000F600, 0x74458547, 0x000060C0);
    assert w[61] == 0x6380AEA2;
    MixedWord(w, 62, 0x44584CB7, 0x1E84C7A3, 0xDA9415ED, 0x053A37CD);
    assert w[62] == 0x0AE55269;
    MixedWord(w, 63, 0x7BA06619, 0x98E04D98, 0x26380A16, 0x74458547);
    assert w[63] == 0x627B49A1;
  }

  lemma FifthWordsFollow(w: seq<bv32>)
    requires IsSchedule(w) && FourthWords(w)
    ensures FifthWords(w)
  {
    MixedWord(w, 64, 0x6380AEA2, 0x651D16A0, 0x626383A1, 0xDA9415ED);
    assert w[64] == 0x7CD45C9D;
    MixedWord(w, 65, 0x0AE55269, 0x62658CA1, 0x4EBF54DE, 0x26380A16);
    assert w[65] == 0x000F0000;
    MixedWord(w, 66, 0x627B49A1, 0x458544D6, 0x3835B44B, 0x626383A1);
    assert w[66] == 0xFB50753A;
    MixedWord(w, 67, 0x7CD45C9D, 0x44584CB7, 0x0000F600, 0x4EBF54DE);
    assert w[67] == 0xEC6765E8;
    MixedWord(w, 68, 0x000F0000, 0x7BA06619, 0x1E84C7A3, 0x3835B44B);
    assert w[68] == 0xBA3C2BE2;
    MixedWord(w, 69, 0xFB50753A, 0x6380AEA2, 0x98E04D98, 0x0000F600);
    assert w[69] == 0x0060C000;
    MixedWord(w, 70, 0xEC6765E8, 0x0AE55269, 0x651D16A0, 0x1E84C7A3);
    assert w[70] == 0x3A37CD05;
    MixedWord(w, 71, 0xBA3C2BE2, 0x627B49A1, 0x62658CA1, 0x98E04D98);
    assert w[71] == 0x458546F4;
    MixedWord(w, 72, 0x0060C000, 0x7CD45C9D, 0x458544D6, 0x651D16A0);
    assert w[72] == 0xB8599DD6;
    MixedWord(w, 73, 0x3A37CD05, 0x000F0000, 0x44584CB7, 0x62658CA1);
    assert w[73] == 0x380A1A26;
    MixedWord(w, 74, 0x458546F4, 0xFB50753A, 0x7BA06619, 0x458544D6);
    assert w[74] == 0x01E02203;
    MixedWord(w, 75, 0xB8599DD6, 0xEC6765E8, 0x6380AEA2, 0x44584CB7);
    assert w[75] == 0xE7CC3456;
    MixedWord(w, 76, 0x380A1A26, 0xBA3C2BE2, 0x0AE55269, 0x7BA06619);
    assert w[76] == 0xE6E60B69;
    MixedWord(w, 77, 0x01E02203, 0x0060C000, 0x627B49A1, 0x6380AEA2);
    assert w[77] == 0x00F60A00;
    MixedWord(w, 78, 0xE7CC3456, 0x3A37CD05, 0x7CD45C9D, 0x0AE55269);
    assert w[78] == 0x5795EF4F;
    MixedWord(w, 79, 0xE6E60B69, 0x458546F4, 0x000F0000, 0x627B49A1);
    assert w[79] == 0x822E0879;
  }

  lemma Turned(w: seq<bv32>, t: nat, x: bv32, s: Digest, next: Digest)
    requires t < |w| && Rounds(INITIAL, w, t) == s && w[t] == x && Round(s, t, x) == next
    ensures Rounds(INITIAL, w, t + 1) == next
  {
  }

  lemma FirstRounds(w: seq<bv32>, t: nat)
    requires |w| == 80 && FirstWords(w) && t == 0
    requires Rounds(INITIAL, w, t) == Digest(0x67452301, 0xEFCDAB89, 0x98BADCFE, 0x10325476, 0xC3D2E1F0)
    ensures Rounds(INITIAL, w, t + 16) == Digest(0x20BDD62F, 0x196BEE77, 0x644A3DA5, 0x1181ED99, 0x18C623F9)
  {
    Turned(w, t, 0x61626380, Digest(0x67452301, 0xEFCDAB89, 0x98BADCFE, 0x10325476, 0xC3D2E1F0),
           Digest(0x0116FC33, 0x67452301, 0x7BF36AE2, 0x98BADCFE, 0x10325476));
    Turned(w, t + 1, 0x00000000, Digest(0x0116FC33, 0x67452301, 0x7BF36AE2, 0x98BADCFE, 0x10325476),
           Digest(0x8990536D, 0x0116FC33, 0x59D148C0, 0x7BF36AE2, 0x98BADCFE));
    Turned(w, t + 2, 0x00000000, Digest(0x8990536D, 0x0116FC33, 0x59D148C0, 0x7BF36AE2, 0x98BADCFE),
           Digest(0xA1390F08, 0x8990536D, 0xC045BF0C, 0x59D148C0, 0x7BF36AE2));
    Turned(w, t + 3, 0x00000000, Digest(0xA1390F08, 0x8990536D, 0xC045BF0C, 0x59D148C0, 0x7BF36AE2),
           Digest(0xCDD8E11B, 0xA1390F08, 0x626414DB, 0xC045BF0C, 0x59D148C0));
    Turned(w, t + 4, 0x00000000, Digest(0xCDD8E11B, 0xA1390F08, 0x626414DB, 0xC045BF0C, 0x59D148C0),
           Digest(0xCFD499DE, 0xCDD8E11B, 0x284E43C2, 0x626414DB, 0xC045BF0C));
    Turned(w, t + 5, 0x00000000, Digest(0xCFD499DE, 0xCDD8E11B, 0x284E43C2, 0x626414DB, 0xC045BF0C),
           Digest(0x3FC7CA40, 0xCFD499DE, 0xF3763846, 0x284E43C2, 0x626414DB));
    Turned(w, t + 6, 0x00000000, Digest(0x3FC7CA40, 0xCFD499DE, 0xF3763846, 0x284E43C2, 0x626414DB),
           Digest(0x993E30C1, 0x3FC7CA40, 0xB3F52677, 0xF3763846, 0x284E43C2));
    Turned(w, t + 7, 0x00000000, Digest(0x993E30C1, 0x3FC7CA40, 0xB3F52677, 0xF3763846, 0x284E43C2),
           Digest(0x9E8C07D4, 0x993E30C1, 0x0FF1F290, 0xB3F52677, 0xF3763846));
    Turned(w, t + 8, 0x00000000, Digest(0x9E8C07D4, 0x993E30C1, 0x0FF1F290, 0xB3F52677, 0xF3763846),
           Digest(0x4B6AE328, 0x9E8C07D4, 0x664F8C30, 0x0FF1F290, 0xB3F52677));
    Turned(w, t + 9, 0x00000000, Digest(0x4B6AE328, 0x9E8C07D4, 0x664F8C30, 0x0FF1F290, 0xB3F52677),
           Digest(0x8351F929, 0x4B6AE328, 0x27A301F5, 0x664F8C30, 0x0FF1F290));
    Turned(w, t + 10, 0x00000000, Digest(0x8351F929, 0x4B6AE328, 0x27A301F5, 0x664F8C30, 0x0FF1F290),
           Digest(0xFBDA9E89, 0x8351F929, 0x12DAB8CA, 0x27A301F5, 0x664F8C30));
    Turned(w, t + 11, 0x00000000, Digest(0xFBDA9E89, 0x8351F929, 0x12DAB8CA, 0x27A301F5, 0x664F8C30),
           Digest(0x63188FE4, 0xFBDA9E89, 0x60D47E4A, 0x12DAB8CA, 0x27A301F5));
    Turned(w, t + 12, 0x00000000, Digest(0x63188FE4, 0xFBDA9E89, 0x60D47E4A, 0x12DAB8CA, 0x27A301F5),
           Digest(0x4607B664, 0x63188FE4, 0x7EF6A7A2, 0x60D47E4A, 0x12DAB8CA));
    Turned(w, t + 13, 0x00000000, Digest(0x4607B664, 0x63188FE4, 0x7EF6A7A2, 0x60D47E4A, 0x12DAB8CA),
           Digest(0x9128F695, 0x4607B664, 0x18C623F9, 0x7EF6A7A2, 0x60D47E4A));
    Turned(w, t + 14, 0x00000000, Digest(0x9128F695, 0x4607B664, 0x18C623F9, 0x7EF6A7A2, 0x60D47E4A),
           Digest(0x196BEE77, 0x9128F695, 0x1181ED99, 0x18C623F9, 0x7EF6A7A2));
    Turned(w, t + 15, 0x00000018, Digest(0x196BEE77, 0x9128F695, 0x1181ED99, 0x18C623F9, 0x7EF6A7A2),
           Digest(0x20BDD62F, 0x196BEE77, 0x644A3DA5, 0x1181ED99, 0x18C623F9));
  }

  lemma SecondRounds(w: seq<bv32>, t: nat)
    requires |w| == 80 && SecondWords(w) && t == 16
    requires Rounds(INITIAL, w, t) == Digest(0x20BDD62F, 0x196BEE77, 0x644A3DA5, 0x1181ED99, 0x18C623F9)
    ensures Rounds(INITIAL, w, t + 16) == Digest(0x3B845D33, 0x1267B407, 0x717EEBD7, 0xA0DC2D4B, 0xD2AA1365)
  {
    Turned(w, t, 0xC2C4C700, Digest(0x20BDD62F, 0x196BEE77, 0x644A3DA5, 0x1181ED99, 0x18C623F9),
           Digest(0x4E925823, 0x20BDD62F, 0xC65AFB9D, 0x644A3DA5, 0x1181ED99));
    Turned(w, t + 1, 0x00000000, Digest(0x4E925823, 0x20BDD62F, 0xC65AFB9D, 0x644A3DA5, 0x1181ED99),
           Digest(0x82AA6728, 0x4E925823, 0xC82F758B, 0xC65AFB9D, 0x644A3DA5));
    Turned(w, t + 2, 0x00000030, Digest(0x82AA6728, 0x4E925823, 0xC82F758B, 0xC65AFB9D, 0x644A3DA5),
           Digest(0xDC64901D, 0x82AA6728, 0xD3A49608, 0xC82F758B, 0xC65AFB9D));
    Turned(w, t + 3, 0x85898E01, Digest(0xDC64901D, 0x82AA6728, 0xD3A49608, 0xC82F758B, 0xC65AFB9D),
           Digest(0xFD9E1D7D, 0xDC64901D, 0x20AA99CA, 0xD3A49608, 0xC82F758B));
    Turned(w, t + 4, 0x00000000, Digest(0xFD9E1D7D, 0xDC64901D, 0x20AA99CA, 0xD3A49608, 0xC82F758B),
           Digest(0x1A37B0CA, 0xFD9E1D7D, 0x77192407, 0x20AA99CA, 0xD3A49608));
    Turned(w, t + 5, 0x00000060, Digest(0x1A37B0CA, 0xFD9E1D7D, 0x77192407, 0x20AA99CA, 0xD3A49608),
           Digest(0x33A23BFC, 0x1A37B0CA, 0x7F67875F, 0x77192407, 0x20AA99CA));
    Turned(w, t + 6, 0x0B131C03, Digest(0x33A23BFC, 0x1A37B0CA, 0x7F67875F, 0x77192407, 0x20AA99CA),
           Digest(0x21283486, 0x33A23BFC, 0x868DEC32, 0x7F67875F, 0x77192407));
    Turned(w, t + 7, 0x00000030, Digest(0x21283486, 0x33A23BFC, 0x868DEC32, 0x7F67875F, 0x77192407),
           Digest(0xD541F12D, 0x21283486, 0x0CE88EFF, 0x868DEC32, 0x7F67875F));
    Turned(w, t + 8, 0x85898EC1, Digest(0xD541F12D, 0x21283486, 0x0CE88EFF, 0x868DEC32, 0x7F67875F),
           Digest(0xC7567DC6, 0xD541F12D, 0x884A0D21, 0x0CE88EFF, 0x868DEC32));
    Turned(w, t + 9, 0x16263806, Digest(0xC7567DC6, 0xD541F12D, 0x884A0D21, 0x0CE88EFF, 0x868DEC32),
           Digest(0x48413BA4, 0xC7567DC6, 0x75507C4B, 0x884A0D21, 0x0CE88EFF));
    Turned(w, t + 10, 0x00000000, Digest(0x48413BA4, 0xC7567DC6, 0x75507C4B, 0x884A0D21, 0x0CE88EFF),
           Digest(0xBE35FBD5, 0x48413BA4, 0xB1D59F71, 0x75507C4B, 0x884A0D21));
    Turned(w, t + 11, 0x00000180, Digest(0xBE35FBD5, 0x48413BA4, 0xB1D59F71, 0x75507C4B, 0x884A0D21),
           Digest(0x4AA84D97, 0xBE35FBD5, 0x12104EE9, 0xB1D59F71, 0x75507C4B));
    Turned(w, t + 12, 0x2C4C700C, Digest(0x4AA84D97, 0xBE35FBD5, 0x12104EE9, 0xB1D59F71, 0x75507C4B),
           Digest(0x8370B52E, 0x4AA84D97, 0x6F8D7EF5, 0x12104EE9, 0xB1D59F71));
    Turned(w, t + 13, 0x000000F0, Digest(0x8370B52E, 0x4AA84D97, 0x6F8D7EF5, 0x12104EE9, 0xB1D59F71),
           Digest(0xC5FBAF5D, 0x8370B52E, 0xD2AA1365, 0x6F8D7EF5, 0x12104EE9));
    Turned(w, t + 14, 0x93AFB507, Digest(0xC5FBAF5D, 0x8370B52E, 0xD2AA1365, 0x6F8D7EF5, 0x12104EE9),
           Digest(0x1267B407, 0xC5FBAF5D, 0xA0DC2D4B, 0xD2AA1365, 0x6F8D7EF5));
    Turned(w, t + 15, 0x5898E048, Digest(0x1267B407, 0xC5FBAF5D, 0xA0DC2D4B, 0xD2AA1365, 0x6F8D7EF5),
           Digest(0x3B845D33, 0x1267B407, 0x717EEBD7, 0xA0DC2D4B, 0xD2AA1365));
  }

  lemma ThirdRounds(w: seq<bv32>, t: nat)
    requires |w| == 80 && ThirdWords(w) && t == 32
    requires Rounds(INITIAL, w, t) == Digest(0x3B845D33, 0x1267B407, 0x717EEBD7, 0xA0DC2D4B, 0xD2AA1365)
    ensures Rounds(INITIAL, w, t + 16) == Digest(0xBEAD02CA, 0xA01B846C, 0x8714787C, 0x503CA382, 0xFB86C6AB)
  {
    Turned(w, t, 0x8E9A9202, Digest(0x3B845D33, 0x1267B407, 0x717EEBD7, 0xA0DC2D4B, 0xD2AA1365),
           Digest(0x046FAA0A, 0x3B845D33, 0xC499ED01, 0x717EEBD7, 0xA0DC2D4B));
    Turned(w, t + 1, 0x00000600, Digest(0x046FAA0A, 0x3B845D33, 0xC499ED01, 0x717EEBD7, 0xA0DC2D4B),
           Digest(0x2C0EBC11, 0x046FAA0A, 0xCEE1174C, 0xC499ED01, 0x717EEBD7));
    Turned(w, t + 2, 0xB131C0F0, Digest(0x2C0EBC11, 0x046FAA0A, 0xCEE1174C, 0xC499ED01, 0x717EEBD7),
           Digest(0x21796AD4, 0x2C0EBC11, 0x811BEA82, 0xCEE1174C, 0xC499ED01));
    Turned(w, t + 3, 0x16263BC6, Digest(0x21796AD4, 0x2C0EBC11, 0x811BEA82, 0xCEE1174C, 0xC499ED01),
           Digest(0xDCBBB0CB, 0x21796AD4, 0x4B03AF04, 0x811BEA82, 0xCEE1174C));
    Turned(w, t + 4, 0x4EBED41E, Digest(0xDCBBB0CB, 0x21796AD4, 0x4B03AF04, 0x811BEA82, 0xCEE1174C),
           Digest(0x0F511FD8, 0xDCBBB0CB, 0x085E5AB5, 0x4B03AF04, 0x811BEA82));
    Turned(w, t + 5, 0x626380A1, Digest(0x0F511FD8, 0xDCBBB0CB, 0x085E5AB5, 0x4B03AF04, 0x811BEA82),
           Digest(0xDC63973F, 0x0F511FD8, 0xF72EEC32, 0x085E5AB5, 0x4B03AF04));
    Turned(w, t + 6, 0x16263806, Digest(0xDC63973F, 0x0F511FD8, 0xF72EEC32, 0x085E5AB5, 0x4B03AF04),
           Digest(0x4C986405, 0xDC63973F, 0x03D447F6, 0xF72EEC32, 0x085E5AB5));
    Turned(w, t + 7, 0x000018C0, Digest(0x4C986405, 0xDC63973F, 0x03D447F6, 0xF72EEC32, 0x085E5AB5),
           Digest(0x32DE1CBA, 0x4C986405, 0xF718E5CF, 0x03D447F6, 0xF72EEC32));
    Turned(w, t + 8, 0xD2E138C4, Digest(0x32DE1CBA, 0x4C986405, 0xF718E5CF, 0x03D447F6, 0xF72EEC32),
           Digest(0xFC87DEDF, 0x32DE1CBA, 0x53261901, 0xF718E5CF, 0x03D447F6));
    Turned(w, t + 9, 0x00000F00, Digest(0xFC87DEDF, 0x32DE1CBA, 0x53261901, 0xF718E5CF, 0x03D447F6),
           Digest(0x970A0D5C, 0xFC87DEDF, 0x8CB7872E, 0x53261901, 0xF718E5CF));
    Turned(w, t + 10, 0x3AFB5079, Digest(0x970A0D5C, 0xFC87DEDF, 0x8CB7872E, 0x53261901, 0xF718E5CF),
           Digest(0x7F193DC5, 0x970A0D5C, 0xFF21F7B7, 0x8CB7872E, 0x53261901));
    Turned(w, t + 11, 0x898E04E5, Digest(0x7F193DC5, 0x970A0D5C, 0xFF21F7B7, 0x8CB7872E, 0x53261901),
           Digest(0xEE1B1AAF, 0x7F193DC5, 0x25C28357, 0xFF21F7B7, 0x8CB7872E));
    Turned(w, t + 12, 0xE2BA3C2B, Digest(0xEE1B1AAF, 0x7F193DC5, 0x25C28357, 0xFF21F7B7, 0x8CB7872E),
           Digest(0x40F28E09, 0xEE1B1AAF, 0x5FC64F71, 0x25C28357, 0xFF21F7B7));
    Turned(w, t + 13, 0x000060C0, Digest(0x40F28E09, 0xEE1B1AAF, 0x5FC64F71, 0x25C28357, 0xFF21F7B7),
           Digest(0x1C51E1F2, 0x40F28E09, 0xFB86C6AB, 0x5FC64F71, 0x25C28357));
    Turned(w, t + 14, 0x053A37CD, Digest(0x1C51E1F2, 0x40F28E09, 0xFB86C6AB, 0x5FC64F71, 0x25C28357),
           Digest(0xA01B846C, 0x1C51E1F2, 0x503CA382, 0xFB86C6AB, 0x5FC64F71));
    Turned(w, t + 15, 0x74458547, Digest(0xA01B846C, 0x1C51E1F2, 0x503CA382, 0xFB86C6AB, 0x5FC64F71),
           Digest(0xBEAD02CA, 0xA01B846C, 0x8714787C, 0x503CA382, 0xFB86C6AB));
  }

  lemma FourthRounds(w: seq<bv32>, t: nat)
    requires |w| == 80 && FourthWords(w) && t == 48
    requires Rounds(INITIAL, w, t) == Digest(0xBEAD02CA, 0xA01B846C, 0x8714787C, 0x503CA382, 0xFB86C6AB)
    ensures Rounds(INITIAL, w, t + 16) == Digest(0x6B61C9E1, 0xB66C020B, 0x9523272C, 0xF5D5B051, 0x8FD4B796)
  {
    Turned(w, t, 0xDA9415ED, Digest(0xBEAD02CA, 0xA01B846C, 0x8714787C, 0x503CA382, 0xFB86C6AB),
           Digest(0xBAF39337, 0xBEAD02CA, 0x2806E11B, 0x8714787C, 0x503CA382));
    Turned(w, t + 1, 0x26380A16, Digest(0xBAF39337, 0xBEAD02CA, 0x2806E11B, 0x8714787C, 0x503CA382),
           Digest(0x120731C5, 0xBAF39337, 0xAFAB40B2, 0x2806E11B, 0x8714787C));
    Turned(w, t + 2, 0x626383A1, Digest(0x120731C5, 0xBAF39337, 0xAFAB40B2, 0x2806E11B, 0x8714787C),
           Digest(0x641DB2CE, 0x120731C5, 0xEEBCE4CD, 0xAFAB40B2, 0x2806E11B));
    Turned(w, t + 3, 0x4EBF54DE, Digest(0x641DB2CE, 0x120731C5, 0xEEBCE4CD, 0xAFAB40B2, 0x2806E11B),
           Digest(0x3847AD66, 0x641DB2CE, 0x4481CC71, 0xEEBCE4CD, 0xAFAB40B2));
    Turned(w, t + 4, 0x3835B44B, Digest(0x3847AD66, 0x641DB2CE, 0x4481CC71, 0xEEBCE4CD, 0xAFAB40B2),
           Digest(0xE490436D, 0x3847AD66, 0x99076CB3, 0x4481CC71, 0xEEBCE4CD));
    Turned(w, t + 5, 0x0000F600, Digest(0xE490436D, 0x3847AD66, 0x99076CB3, 0x4481CC71, 0xEEBCE4CD),
           Digest(0x27E9F1D8, 0xE490436D, 0x8E11EB59, 0x99076CB3, 0x4481CC71));
    Turned(w, t + 6, 0x1E84C7A3, Digest(0x27E9F1D8, 0xE490436D, 0x8E11EB59, 0x99076CB3, 0x4481CC71),
           Digest(0x7B71F76D, 0x27E9F1D8, 0x792410DB, 0x8E11EB59, 0x99076CB3));
    Turned(w, t + 7, 0x98E04D98, Digest(0x7B71F76D, 0x27E9F1D8, 0x792410DB, 0x8E11EB59, 0x99076CB3),
           Digest(0x5E6456AF, 0x7B71F76D, 0x09FA7C76, 0x792410DB, 0x8E11EB59));
    Turned(w, t + 8, 0x651D16A0, Digest(0x5E6456AF, 0x7B71F76D, 0x09FA7C76, 0x792410DB, 0x8E11EB59),
           Digest(0xC846093F, 0x5E6456AF, 0x5EDC7DDB, 0x09FA7C76, 0x792410DB));
    Turned(w, t + 9, 0x62658CA1, Digest(0xC846093F, 0x5E6456AF, 0x5EDC7DDB, 0x09FA7C76, 0x792410DB),
           Digest(0xD262FF50, 0xC846093F, 0xD79915AB, 0x5EDC7DDB, 0x09FA7C76));
    Turned(w, t + 10, 0x458544D6, Digest(0xD262FF50, 0xC846093F, 0xD79915AB, 0x5EDC7DDB, 0x09FA7C76),
           Digest(0x09D785FD, 0xD262FF50, 0xF211824F, 0xD79915AB, 0x5EDC7DDB));
    Turned(w, t + 11, 0x44584CB7, Digest(0x09D785FD, 0xD262FF50, 0xF211824F, 0xD79915AB, 0x5EDC7DDB),
           Digest(0x3F52DE5A, 0x09D785FD, 0x3498BFD4, 0xF211824F, 0xD79915AB));
    Turned(w, t + 12, 0x7BA06619, Digest(0x3F52DE5A, 0x09D785FD, 0x3498BFD4, 0xF211824F, 0xD79915AB),
           Digest(0xD756C147, 0x3F52DE5A, 0x4275E17F, 0x3498BFD4, 0xF211824F));
    Turned(w, t + 13, 0x6380AEA2, Digest(0xD756C147, 0x3F52DE5A, 0x4275E17F, 0x3498BFD4, 0xF211824F),
           Digest(0x548C9CB2, 0xD756C147, 0x8FD4B796, 0x4275E17F, 0x3498BFD4));
    Turned(w, t + 14, 0x0AE55269, Digest(0x548C9CB2, 0xD756C147, 0x8FD4B796, 0x4275E17F, 0x3498BFD4),
           Digest(0xB66C020B, 0x548C9CB2, 0xF5D5B051, 0x8FD4B796, 0x4275E17F));
    Turned(w, t + 15, 0x627B49A1, Digest(0xB66C020B, 0x548C9CB2, 0xF5D5B051, 0x8FD4B796, 0x4275E17F),
           Digest(0x6B61C9E1, 0xB66C020B, 0x9523272C, 0xF5D5B051, 0x8FD4B796));
  }

  lemma FifthRounds(w: seq<bv32>, t: nat)
    requires |w| == 80 && FifthWords(w) && t == 64
    requires Rounds(INITIAL, w, t) == Digest(0x6B61C9E1, 0xB66C020B, 0x9523272C, 0xF5D5B051, 0x8FD4B796)
    ensures Rounds(INITIAL, w, t + 16) == Digest(0x42541B35, 0x5738D5E1, 0x21834873, 0x681E6DF6, 0xD8FDF6AD)
  {
    Turned(w, t, 0x7CD45C9D, Digest(0x6B61C9E1, 0xB66C020B, 0x9523272C, 0xF5D5B051, 0x8FD4B796),
           Digest(0x19DFA7AC, 0x6B61C9E1, 0xED9B0082, 0x9523272C, 0xF5D5B051));
    Turned(w, t + 1, 0x000F0000, Digest(0x19DFA7AC, 0x6B61C9E1, 0xED9B0082, 0x9523272C, 0xF5D5B051),
           Digest(0x101655F9, 0x19DFA7AC, 0x5AD87278, 0xED9B0082, 0x9523272C));
    Turned(w, t + 2, 0xFB50753A, Digest(0x101655F9, 0x19DFA7AC, 0x5AD87278, 0xED9B0082, 0x9523272C),
           Digest(0x0C3DF2B4, 0x101655F9, 0x0677E9EB, 0x5AD87278, 0xED9B0082));
    Turned(w, t + 3, 0xEC6765E8, Digest(0x0C3DF2B4, 0x101655F9, 0x0677E9EB, 0x5AD87278, 0xED9B0082),
           Digest(0x78DD4D2B, 0x0C3DF2B4, 0x4405957E, 0x0677E9EB, 0x5AD87278));
    Turned(w, t + 4, 0xBA3C2BE2, Digest(0x78DD4D2B, 0x0C3DF2B4, 0x4405957E, 0x0677E9EB, 0x5AD87278),
           Digest(0x497093C0, 0x78DD4D2B, 0x030F7CAD, 0x4405957E, 0x0677E9EB));
    Turned(w, t + 5, 0x0060C000, Digest(0x497093C0, 0x78DD4D2B, 0x030F7CAD, 0x4405957E, 0x0677E9EB),
           Digest(0x3F2588C2, 0x497093C0, 0xDE37534A, 0x030F7CAD, 0x4405957E));
    Turned(w, t + 6, 0x3A37CD05, Digest(0x3F2588C2, 0x497093C0, 0xDE37534A, 0x030F7CAD, 0x4405957E),
           Digest(0xC199F8C7, 0x3F2588C2, 0x125C24F0, 0xDE37534A, 0x030F7CAD));
    Turned(w, t + 7, 0x458546F4, Digest(0xC199F8C7, 0x3F2588C2, 0x125C24F0, 0xDE37534A, 0x030F7CAD),
           Digest(0x39859DE7, 0xC199F8C7, 0x8FC96230, 0x125C24F0, 0xDE37534A));
    Turned(w, t + 8, 0xB8599DD6, Digest(0x39859DE7, 0xC199F8C7, 0x8FC96230, 0x125C24F0, 0xDE37534A),
           Digest(0xEDB42DE4, 0x39859DE7, 0xF0667E31, 0x8FC96230, 0x125C24F0));
    Turned(w, t + 9, 0x380A1A26, Digest(0xEDB42DE4, 0x39859DE7, 0xF0667E31, 0x8FC96230, 0x125C24F0),
           Digest(0x11793F6F, 0xEDB42DE4, 0xCE616779, 0xF0667E31, 0x8FC96230));
    Turned(w, t + 10, 0x01E02203, Digest(0x11793F6F, 0xEDB42DE4, 0xCE616779, 0xF0667E31, 0x8FC96230),
           Digest(0x5EE76897, 0x11793F6F, 0x3B6D0B79, 0xCE616779, 0xF0667E31));
    Turned(w, t + 11, 0xE7CC3456, Digest(0x5EE76897, 0x11793F6F, 0x3B6D0B79, 0xCE616779, 0xF0667E31),
           Digest(0x63F7DAB7, 0x5EE76897, 0xC45E4FDB, 0x3B6D0B79, 0xCE616779));
    Turned(w, t + 12, 0xE6E60B69, Digest(0x63F7DAB7, 0x5EE76897, 0xC45E4FDB, 0x3B6D0B79, 0xCE616779),
           Digest(0xA079B7D9, 0x63F7DAB7, 0xD7B9DA25, 0xC45E4FDB, 0x3B6D0B79));
    Turned(w, t + 13, 0x00F60A00, Digest(0xA079B7D9, 0x63F7DAB7, 0xD7B9DA25, 0xC45E4FDB, 0x3B6D0B79),
           Digest(0x860D21CC, 0xA079B7D9, 0xD8FDF6AD, 0xD7B9DA25, 0xC45E4FDB));
    Turned(w, t + 14, 0x5795EF4F, Digest(0x860D21CC, 0xA079B7D9, 0xD8FDF6AD, 0xD7B9DA25, 0xC45E4FDB),
           Digest(0x5738D5E1, 0x860D21CC, 0x681E6DF6, 0xD8FDF6AD, 0xD7B9DA25));
    Turned(w, t + 15, 0x822E0879, Digest(0x5738D5E1, 0x860D21CC, 0x681E6DF6, 0xD8FDF6AD, 0xD7B9DA25),
           Digest(0x42541B35, 0x5738D5E1, 0x21834873, 0x681E6DF6, 0xD8FDF6AD));
  }

  lemma AbcPadded()
    ensures Pad(ABC) == AbcBlock()
  {
    LengthOctets(24, 0);
    assert BigEndian(24, 8) == Zeros(7) + [24];
    assert Zeros(52) + Zeros(7) == Zeros(59) && Pad(ABC) == ABC + [0x80] + Zeros(52) + BigEndian(24, 8);
  }

  lemma AbcWords()
    ensures var w := Schedule(AbcBlock()); IsSchedule(w) && FirstWords(w)
  {
    var block := AbcBlock();
    var w := Schedule(block);
    forall t: nat
      ensures Follows(w, t)
    {
      if t < 80 { ScheduleStep(block, t); }
    }
    assert w[0] == Word(0x61, 0x62, 0x63, 0x80) == 0x61626380;
    assert w[15] == Word(0, 0, 0, 24) == 24;
    assert forall t :: 0 < t < 15 ==> w[t] == Word(0, 0, 0, 0);
  }

  lemma AbcRounds(w: seq<bv32>)
    requires IsSchedule(w) && FirstWords(w)
    ensures Rounds(INITIAL, w, |w|) == Digest(0x42541B35, 0x5738D5E1, 0x21834873, 0x681E6DF6, 0xD8FDF6AD)
  {
    SecondWordsFollow(w);
    ThirdWordsFollow(w);
    FourthWordsFollow(w);
    FifthWordsFollow(w);
    FirstRounds(w, |w| - 80);
    SecondRounds(w, |w| - 64);
    ThirdRounds(w, |w| - 48);
    FourthRounds(w, |w| - 32);
    FifthRounds(w, |w| - 16);
  }

  lemma Compressed(h: Digest, block: seq<byte>, w: seq<bv32>, s: Digest)
    requires |block| == 64 && w == Schedule(block) && Rounds(h, w, |w|) == s
    ensures Compress(h, block) == Sum(h, s)
  {
  }

  lemma OneBlock(m: seq<byte>)
    requires |m| == 64
    ensures Fold(m) == Compress(INITIAL, m)
  {
    var none: seq<byte> := [];
    assert none + m == m;
    FoldBlock(none, m);
  }

  /** The digest of "abc" as the standard gives it. */
  lemma AbcDigest(m: seq<byte>)
    requires m == ABC
    ensures Sha1(m) == Digest(0xA9993E36, 0x4706816A, 0xBA3E2571, 0x7850C26C, 0x9CD0D89D)
  {
    AbcPadded();
    AbcWords();
    var block := AbcBlock();
    var w := Schedule(block);
    AbcRounds(w);
    Compressed(INITIAL, block, w, Digest(0x42541B35, 0x5738D5E1, 0x21834873, 0x681E6DF6, 0xD8FDF6AD));
    OneBlock(block);
  }

  /** However the three octets are split into Input calls. */
  method DigestOfAbc(pieces: seq<seq<byte>>, more: seq<byte>) returns (ok: bool, digest: seq<bv32>)
    requires Concat(pieces) == ABC && more != []
    ensures ok && digest == [0xA9993E36, 0x4706816A, 0xBA3E2571, 0x7850C26C, 0x9CD0D89D]
  {
    var again, repeated, late;
    ok, digest, again, repeated, late := DigestOfPieces(pieces, more);
    AbcDigest(Concat(pieces));
    DigestOfInjective(digest, [0xA9993E36, 0x4706816A, 0xBA3E2571, 0x7850C26C, 0x9CD0D89D]);
  }
}
