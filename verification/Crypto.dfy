/** CRC-32 by table, against the bit-at-a-time register of section 8 of RFC 1952. Operations on words
    are named, so that only the lemmas about them reason about bits. */
module Crypto {

  /** The table the source lists, four entries a line. */
  function Table(i: bv8): bv32
  {
    if i < 0x10 then
      if i == 0x00 then 0x00000000 else if i == 0x01 then 0x77073096 else if i == 0x02 then 0xEE0E612C else if i == 0x03 then 0x990951BA
      else if i == 0x04 then 0x076DC419 else if i == 0x05 then 0x706AF48F else if i == 0x06 then 0xE963A535 else if i == 0x07 then 0x9E6495A3
      else if i == 0x08 then 0x0EDB8832 else if i == 0x09 then 0x79DCB8A4 else if i == 0x0A then 0xE0D5E91E else if i == 0x0B then 0x97D2D988
      else if i == 0x0C then 0x09B64C2B else if i == 0x0D then 0x7EB17CBD else if i == 0x0E then 0xE7B82D07 else 0x90BF1D91
    else if i < 0x20 then
      if i == 0x10 then 0x1DB71064 else if i == 0x11 then 0x6AB020F2 else if i == 0x12 then 0xF3B97148 else if i == 0x13 then 0x84BE41DE
      else if i == 0x14 then 0x1ADAD47D else if i == 0x15 then 0x6DDDE4EB else if i == 0x16 then 0xF4D4B551 else if i == 0x17 then 0x83D385C7
      else if i == 0x18 then 0x136C9856 else if i == 0x19 then 0x646BA8C0 else if i == 0x1A then 0xFD62F97A else if i == 0x1B then 0x8A65C9EC
      else if i == 0x1C then 0x14015C4F else if i == 0x1D then 0x63066CD9 else if i == 0x1E then 0xFA0F3D63 else 0x8D080DF5
    else if i < 0x30 then
      if i == 0x20 then 0x3B6E20C8 else if i == 0x21 then 0x4C69105E else if i == 0x22 then 0xD56041E4 else if i == 0x23 then 0xA2677172
      else if i == 0x24 then 0x3C03E4D1 else if i == 0x25 then 0x4B04D447 else if i == 0x26 then 0xD20D85FD else if i == 0x27 then 0xA50AB56B
      else if i == 0x28 then 0x35B5A8FA else if i == 0x29 then 0x42B2986C else if i == 0x2A then 0xDBBBC9D6 else if i == 0x2B then 0xACBCF940
      else if i == 0x2C then 0x32D86CE3 else if i == 0x2D then 0x45DF5C75 else if i == 0x2E then 0xDCD60DCF else 0xABD13D59
    else if i < 0x40 then
      if i == 0x30 then 0x26D930AC else if i == 0x31 then 0x51DE003A else if i == 0x32 then 0xC8D75180 else if i == 0x33 then 0xBFD06116
      else if i == 0x34 then 0x21B4F4B5 else if i == 0x35 then 0x56B3C423 else if i == 0x36 then 0xCFBA9599 else if i == 0x37 then 0xB8BDA50F
      else if i == 0x38 then 0x2802B89E else if i == 0x39 then 0x5F058808 else if i == 0x3A then 0xC60CD9B2 else if i == 0x3B then 0xB10BE924
      else if i == 0x3C then 0x2F6F7C87 else if i == 0x3D then 0x58684C11 else if i == 0x3E then 0xC1611DAB else 0xB6662D3D
    else if i < 0x50 then
      if i == 0x40 then 0x76DC4190 else if i == 0x41 then 0x01DB7106 else if i == 0x42 then 0x98D220BC else if i == 0x43 then 0xEFD5102A
      else if i == 0x44 then 0x71B18589 else if i == 0x45 then 0x06B6B51F else if i == 0x46 then 0x9FBFE4A5 else if i == 0x47 then 0xE8B8D433
      else if i == 0x48 then 0x7807C9A2 else if i == 0x49 then 0x0F00F934 else if i == 0x4A then 0x9609A88E else if i == 0x4B then 0xE10E9818
      else if i == 0x4C then 0x7F6A0DBB else if i == 0x4D then 0x086D3D2D else if i == 0x4E then 0x91646C97 else 0xE6635C01
    else if i < 0x60 then
      if i == 0x50 then 0x6B6B51F4 else if i == 0x51 then 0x1C6C6162 else if i == 0x52 then 0x856530D8 else if i == 0x53 then 0xF262004E
      else if i == 0x54 then 0x6C0695ED else if i == 0x55 then 0x1B01A57B else if i == 0x56 then 0x8208F4C1 else if i == 0x57 then 0xF50FC457
      else if i == 0x58 then 0x65B0D9C6 else if i == 0x59 then 0x12B7E950 else if i == 0x5A then 0x8BBEB8EA else if i == 0x5B then 0xFCB9887C
      else if i == 0x5C then 0x62DD1DDF else if i == 0x5D then 0x15DA2D49 else if i == 0x5E then 0x8CD37CF3 else 0xFBD44C65
    else if i < 0x70 then
      if i == 0x60 then 0x4DB26158 else if i == 0x61 then 0x3AB551CE else if i == 0x62 then 0xA3BC0074 else if i == 0x63 then 0xD4BB30E2
      else if i == 0x64 then 0x4ADFA541 else if i == 0x65 then 0x3DD895D7 else if i == 0x66 then 0xA4D1C46D else if i == 0x67 then 0xD3D6F4FB
      else if i == 0x68 then 0x4369E96A else if i == 0x69 then 0x346ED9FC else if i == 0x6A then 0xAD678846 else if i == 0x6B then 0xDA60B8D0
      else if i == 0x6C then 0x44042D73 else if i == 0x6D then 0x33031DE5 else if i == 0x6E then 0xAA0A4C5F else 0xDD0D7CC9
    else if i < 0x80 then
      if i == 0x70 then 0x5005713C else if i == 0x71 then 0x270241AA else if i == 0x72 then 0xBE0B1010 else if i == 0x73 then 0xC90C2086
      else if i == 0x74 then 0x5768B525 else if i == 0x75 then 0x206F85B3 else if i == 0x76 then 0xB966D409 else if i == 0x77 then 0xCE61E49F
      else if i == 0x78 then 0x5EDEF90E else if i == 0x79 then 0x29D9C998 else if i == 0x7A then 0xB0D09822 else if i == 0x7B then 0xC7D7A8B4
      else if i == 0x7C then 0x59B33D17 else if i == 0x7D then 0x2EB40D81 else if i == 0x7E then 0xB7BD5C3B else 0xC0BA6CAD
    else if i < 0x90 then
      if i == 0x80 then 0xEDB88320 else if i == 0x81 then 0x9ABFB3B6 else if i == 0x82 then 0x03B6E20C else if i == 0x83 then 0x74B1D29A
      else if i == 0x84 then 0xEAD54739 else if i == 0x85 then 0x9DD277AF else if i == 0x86 then 0x04DB2615 else if i == 0x87 then 0x73DC1683
      else if i == 0x88 then 0xE3630B12 else if i == 0x89 then 0x94643B84 else if i == 0x8A then 0x0D6D6A3E else if i == 0x8B then 0x7A6A5AA8
      else if i == 0x8C then 0xE40ECF0B else if i == 0x8D then 0x9309FF9D else if i == 0x8E then 0x0A00AE27 else 0x7D079EB1
    else if i < 0xA0 then
      if i == 0x90 then 0xF00F9344 else if i == 0x91 then 0x8708A3D2 else if i == 0x92 then 0x1E01F268 else if i == 0x93 then 0x6906C2FE
      else if i == 0x94 then 0xF762575D else if i == 0x95 then 0x806567CB else if i == 0x96 then 0x196C3671 else if i == 0x97 then 0x6E6B06E7
      else if i == 0x98 then 0xFED41B76 else if i == 0x99 then 0x89D32BE0 else if i == 0x9A then 0x10DA7A5A else if i == 0x9B then 0x67DD4ACC
      else if i == 0x9C then 0xF9B9DF6F else if i == 0x9D then 0x8EBEEFF9 else if i == 0x9E then 0x17B7BE43 else 0x60B08ED5
    else if i < 0xB0 then
      if i == 0xA0 then 0xD6D6A3E8 else if i == 0xA1 then 0xA1D1937E else if i == 0xA2 then 0x38D8C2C4 else if i == 0xA3 then 0x4FDFF252
      else if i == 0xA4 then 0xD1BB67F1 else if i == 0xA5 then 0xA6BC5767 else if i == 0xA6 then 0x3FB506DD else if i == 0xA7 then 0x48B2364B
      else if i == 0xA8 then 0xD80D2BDA else if i == 0xA9 then 0xAF0A1B4C else if i == 0xAA then 0x36034AF6 else if i == 0xAB then 0x41047A60
      else if i == 0xAC then 0xDF60EFC3 else if i == 0xAD then 0xA867DF55 else if i == 0xAE then 0x316E8EEF else 0x4669BE79
    else if i < 0xC0 then
      if i == 0xB0 then 0xCB61B38C else if i == 0xB1 then 0xBC66831A else if i == 0xB2 then 0x256FD2A0 else if i == 0xB3 then 0x5268E236
      else if i == 0xB4 then 0xCC0C7795 else if i == 0xB5 then 0xBB0B4703 else if i == 0xB6 then 0x220216B9 else if i == 0xB7 then 0x5505262F
      else if i == 0xB8 then 0xC5BA3BBE else if i == 0xB9 then 0xB2BD0B28 else if i == 0xBA then 0x2BB45A92 else if i == 0xBB then 0x5CB36A04
      else if i == 0xBC then 0xC2D7FFA7 else if i == 0xBD then 0xB5D0CF31 else if i == 0xBE then 0x2CD99E8B else 0x5BDEAE1D
    else if i < 0xD0 then
      if i == 0xC0 then 0x9B64C2B0 else if i == 0xC1 then 0xEC63F226 else if i == 0xC2 then 0x756AA39C else if i == 0xC3 then 0x026D930A
      else if i == 0xC4 then 0x9C0906A9 else if i == 0xC5 then 0xEB0E363F else if i == 0xC6 then 0x72076785 else if i == 0xC7 then 0x05005713
      else if i == 0xC8 then 0x95BF4A82 else if i == 0xC9 then 0xE2B87A14 else if i == 0xCA then 0x7BB12BAE else if i == 0xCB then 0x0CB61B38
      else if i == 0xCC then 0x92D28E9B else if i == 0xCD then 0xE5D5BE0D else if i == 0xCE then 0x7CDCEFB7 else 0x0BDBDF21
    else if i < 0xE0 then
      if i == 0xD0 then 0x86D3D2D4 else if i == 0xD1 then 0xF1D4E242 else if i == 0xD2 then 0x68DDB3F8 else if i == 0xD3 then 0x1FDA836E
      else if i == 0xD4 then 0x81BE16CD else if i == 0xD5 then 0xF6B9265B else if i == 0xD6 then 0x6FB077E1 else if i == 0xD7 then 0x18B74777
      else if i == 0xD8 then 0x88085AE6 else if i == 0xD9 then 0xFF0F6A70 else if i == 0xDA then 0x66063BCA else if i == 0xDB then 0x11010B5C
      else if i == 0xDC then 0x8F659EFF else if i == 0xDD then 0xF862AE69 else if i == 0xDE then 0x616BFFD3 else 0x166CCF45
    else if i < 0xF0 then
      if i == 0xE0 then 0xA00AE278 else if i == 0xE1 then 0xD70DD2EE else if i == 0xE2 then 0x4E048354 else if i == 0xE3 then 0x3903B3C2
      else if i == 0xE4 then 0xA7672661 else if i == 0xE5 then 0xD06016F7 else if i == 0xE6 then 0x4969474D else if i == 0xE7 then 0x3E6E77DB
      else if i == 0xE8 then 0xAED16A4A else if i == 0xE9 then 0xD9D65ADC else if i == 0xEA then 0x40DF0B66 else if i == 0xEB then 0x37D83BF0
      else if i == 0xEC then 0xA9BCAE53 else if i == 0xED then 0xDEBB9EC5 else if i == 0xEE then 0x47B2CF7F else 0x30B5FFE9
    else
      if i == 0xF0 then 0xBDBDF21C else if i == 0xF1 then 0xCABAC28A else if i == 0xF2 then 0x53B39330 else if i == 0xF3 then 0x24B4A3A6
      else if i == 0xF4 then 0xBAD03605 else if i == 0xF5 then 0xCDD70693 else if i == 0xF6 then 0x54DE5729 else if i == 0xF7 then 0x23D967BF
      else if i == 0xF8 then 0xB3667A2E else if i == 0xF9 then 0xC4614AB8 else if i == 0xFA then 0x5D681B02 else if i == 0xFB then 0x2A6F2B94
      else if i == 0xFC then 0xB40BBE37 else if i == 0xFD then 0xC30C8EA1 else if i == 0xFE then 0x5A05DF1B else 0x2D02EF8D
  }

  /** One turn of RFC 1952's bit loop. */
  function Step(c: bv32): bv32
  {
    if c & 1 == 1 then 0xEDB88320 ^ (c >> 1) else c >> 1
  }

  /** n turns. */
  function Steps(n: nat, c: bv32): bv32
  {
    if n == 0 then c else Step(Steps(n - 1, c))
  }

  function Xor(c: bv32, d: bv32): bv32
  {
    c ^ d
  }

  function Word(b: bv8): bv32
  {
    b as bv32
  }

  /** The register after taking in s, starting from c. */
  function Absorb(c: bv32, s: seq<bv8>): bv32
  {
    if s == [] then c else Steps(8, Xor(Absorb(c, s[..|s| - 1]), Word(s[|s| - 1])))
  }

  function Up(c: bv32): bv32
  {
    c << 1
  }

  function Up8(c: bv32): bv32
  {
    c << 8
  }

  function Down8(c: bv32): bv32
  {
    c >> 8
  }

  function Low(c: bv32): bv32
  {
    c & 0xFF
  }

  /** The top bit is clear. */
  predicate Room(c: bv32)
  {
    c & 0x8000_0000 == 0
  }

  /** The top byte is clear. */
  predicate Room8(c: bv32)
  {
    c & 0xFF00_0000 == 0
  }

  // Facts about bits.

  predicate Odd(c: bv32)
  {
    c & 1 == 1
  }

  function Half(c: bv32): bv32
  {
    c >> 1
  }

  lemma UpIsEven(z: bv32, k: bv32)
    ensures Odd(Xor(z, Up(k))) == Odd(z)
  {
  }

  lemma HalfOfUp(z: bv32, k: bv32)
    requires Room(k)
    ensures Half(Xor(z, Up(k))) == Xor(Half(z), k)
  {
  }

  lemma StepIs(c: bv32)
    ensures Step(c) == if Odd(c) then Xor(0xEDB88320, Half(c)) else Half(c)
  {
  }

  lemma StepInjective(c: bv32, d: bv32)
    requires Step(c) == Step(d)
    ensures c == d
  {
  }

  lemma XorCancel(x: bv32, y: bv32, b: bv32)
    requires Xor(x, b) == Xor(y, b)
    ensures x == y
  {
  }

  lemma XorSwap(c: bv32, d: bv32)
    ensures Xor(c, d) == Xor(d, c)
  {
  }

  lemma XorAssoc(x: bv32, y: bv32, z: bv32)
    ensures Xor(Xor(x, y), z) == Xor(x, Xor(y, z))
  {
  }

  lemma XorZero(x: bv32)
    ensures Xor(x, 0) == x
  {
  }

  lemma UpEight(k: bv32)
    requires Room8(k)
    ensures Up8(k) == Up(Up(Up(Up(Up(Up(Up(Up(k))))))))
  {
  }

  lemma RoomEight(k: bv32)
    requires Room8(k)
    ensures Room(k) && Room(Up(k)) && Room(Up(Up(k))) && Room(Up(Up(Up(k)))) && Room(Up(Up(Up(Up(k)))))
    ensures Room(Up(Up(Up(Up(Up(k)))))) && Room(Up(Up(Up(Up(Up(Up(k)))))))
    ensures Room(Up(Up(Up(Up(Up(Up(Up(k))))))))
  {
  }

  lemma RegisterParts(c: bv32)
    ensures c == Xor(Low(c), Up8(Down8(c))) && Room8(Down8(c))
  {
  }

  lemma IndexBits(value: bv32, b: bv8)
    ensures Down8(Xor(value, Word(b))) == Down8(value)
    ensures Low(Xor(value, Word(b))) == Word(Index(value, b))
  {
  }

  /** Two words put together from a byte and the rest are the same only if the parts are. */
  lemma SameBytes(a: bv8, b: bv8, v: bv32, w: bv32)
    requires Room8(v) && Room8(w) && Xor(Word(a), Up8(v)) == Xor(Word(b), Up8(w))
    ensures a == b && v == w
  {
  }

  lemma EightSteps(c: bv32)
    ensures Steps(8, c) == Step(Step(Step(Step(Step(Step(Step(Step(c))))))))
  {
    assert Steps(1, c) == Step(c);
    assert Steps(3, c) == Step(Step(Steps(1, c)));
    assert Steps(5, c) == Step(Step(Steps(3, c)));
    assert Steps(7, c) == Step(Step(Steps(5, c)));
  }

  lemma TableQuarter0(i: bv8)
    requires i >> 6 == 0
    ensures Table(i) == Steps(8, Word(i))
  {
    EightSteps(Word(i));
  }

  lemma TableQuarter1(i: bv8)
    requires i >> 6 == 1
    ensures Table(i) == Steps(8, Word(i))
  {
    EightSteps(Word(i));
  }

  lemma TableQuarter2(i: bv8)
    requires i >> 6 == 2
    ensures Table(i) == Steps(8, Word(i))
  {
    EightSteps(Word(i));
  }

  lemma TableQuarter3(i: bv8)
    requires i >> 6 == 3
    ensures Table(i) == Steps(8, Word(i))
  {
    EightSteps(Word(i));
  }

  lemma TableCorrect(i: bv8)
    ensures Table(i) == Steps(8, Word(i))
  {
    if i >> 6 == 0 { TableQuarter0(i); }
    else if i >> 6 == 1 { TableQuarter1(i); }
    else if i >> 6 == 2 { TableQuarter2(i); }
    else { TableQuarter3(i); }
  }

  // The register.

  /** What is put in one place up the register comes out one turn later. */
  lemma StepDelay(z: bv32, k: bv32)
    requires Room(k)
    ensures Step(Xor(z, Up(k))) == Xor(Step(z), k)
  {
    var y := Xor(z, Up(k));
    UpIsEven(z, k);
    HalfOfUp(z, k);
    StepIs(y);
    StepIs(z);
    XorAssoc(0xEDB88320, Half(z), k);
  }

  lemma StepsDelay(n: nat, y: bv32, z: bv32, j: bv32, k: bv32)
    requires Steps(n, y) == Xor(Steps(n, z), j) && j == Up(k) && Room(k)
    ensures Steps(n + 1, y) == Xor(Steps(n + 1, z), k)
  {
    StepDelay(Steps(n, z), k);
  }

  /** And so for four turns. */
  lemma FourDelay(n: nat, y: bv32, z: bv32, k: bv32)
    requires Steps(n, y) == Xor(Steps(n, z), Up(Up(Up(Up(k)))))
    requires Room(k) && Room(Up(k)) && Room(Up(Up(k))) && Room(Up(Up(Up(k))))
    ensures Steps(n + 4, y) == Xor(Steps(n + 4, z), k)
  {
    StepsDelay(n, y, z, Up(Up(Up(Up(k)))), Up(Up(Up(k))));
    StepsDelay(n + 1, y, z, Up(Up(Up(k))), Up(Up(k)));
    StepsDelay(n + 2, y, z, Up(Up(k)), Up(k));
    StepsDelay(n + 3, y, z, Up(k), k);
  }

  /** And for eight. */
  lemma EightDelay(z: bv32, k: bv32)
    requires Room8(k)
    ensures Steps(8, Xor(z, Up8(k))) == Xor(Steps(8, z), k)
  {
    UpEight(k);
    RoomEight(k);
    FourDelay(0, Xor(z, Up8(k)), z, Up(Up(Up(Up(k)))));
    FourDelay(4, Xor(z, Up8(k)), z, k);
  }

  lemma SplitRegister(c: bv32)
    ensures Steps(8, c) == Xor(Down8(c), Steps(8, Low(c)))
  {
    RegisterParts(c);
    EightDelay(Low(c), Down8(c));
    XorSwap(Down8(c), Steps(8, Low(c)));
  }

  /** The byte of the table's index. */
  function Index(value: bv32, b: bv8): bv8
  {
    b ^ ((value & 0xFF) as bv8)
  }

  /** One turn of the table loop is eight of the bit loop. */
  lemma TableStep(value: bv32, b: bv8)
    ensures Xor(Down8(value), Table(Index(value, b))) == Steps(8, Xor(value, Word(b)))
  {
    TableCorrect(Index(value, b));
    SplitRegister(Xor(value, Word(b)));
    IndexBits(value, b);
  }

  method Crc32(bytes: array<bv8>) returns (value: bv32)
    ensures value == Absorb(0xFFFFFFFF, bytes[..])
  {
    value := 0xFFFFFFFF;
    for i := 0 to bytes.Length
      invariant value == Absorb(0xFFFFFFFF, bytes[..i])
    {
      TableStep(value, bytes[i]);
      assert bytes[..i + 1][..i] == bytes[..i];
      value := Xor(Down8(value), Table(Index(value, bytes[i])));
    }
    assert bytes[..bytes.Length] == bytes[..];
  }

  // The check value of this checksum: that of the digits from 1 to 9, which is CBF43926 when complemented.

  const DIGITS_TO_NINE: seq<bv8> := [0x31, 0x32, 0x33, 0x34, 0x35, 0x36, 0x37, 0x38, 0x39]

  lemma Turn(c: bv32, b: bv8)
    ensures Steps(8, Xor(c, Word(b))) == (c >> 8) ^ Table(Index(c, b))
  {
    TableStep(c, b);
  }

  lemma {:induction false} AbsorbNext(c: bv32, s: seq<bv8>, b: bv8, d: bv32)
    requires Absorb(c, s) == d
    ensures Absorb(c, s + [b]) == (d >> 8) ^ Table(Index(d, b))
  {
    assert (s + [b])[..|s|] == s;
    Turn(d, b);
  }

  lemma TableTurns()
    ensures (0xFFFFFFFF >> 8) ^ Table(Index(0xFFFFFFFF, 0x31)) == 0x7C231048
    ensures (0x7C231048 >> 8) ^ Table(Index(0x7C231048, 0x32)) == 0xB0ACBB32
    ensures (0xB0ACBB32 >> 8) ^ Table(Index(0xB0ACBB32, 0x33)) == 0x77B79C2D
    ensures (0x77B79C2D >> 8) ^ Table(Index(0x77B79C2D, 0x34)) == 0x641C1F5C
    ensures (0x641C1F5C >> 8) ^ Table(Index(0x641C1F5C, 0x35)) == 0x340AC5E3
    ensures (0x340AC5E3 >> 8) ^ Table(Index(0x340AC5E3, 0x36)) == 0xF68D2C9E
    ensures (0xF68D2C9E >> 8) ^ Table(Index(0xF68D2C9E, 0x37)) == 0xAFFC9660
    ensures (0xAFFC9660 >> 8) ^ Table(Index(0xAFFC9660, 0x38)) == 0x651F2550
    ensures (0x651F2550 >> 8) ^ Table(Index(0x651F2550, 0x39)) == 0x340BC6D9
  {
  }

  lemma CheckValue(s: seq<bv8>)
    requires s == DIGITS_TO_NINE
    ensures Absorb(0xFFFFFFFF, s) == !0xCBF43926
  {
    TableTurns();
    var t: seq<bv8> := [];
    AbsorbNext(0xFFFFFFFF, t, 0x31, 0xFFFFFFFF);
    t := t + [0x31];
    AbsorbNext(0xFFFFFFFF, t, 0x32, 0x7C231048);
    t := t + [0x32];
    AbsorbNext(0xFFFFFFFF, t, 0x33, 0xB0ACBB32);
    t := t + [0x33];
    AbsorbNext(0xFFFFFFFF, t, 0x34, 0x77B79C2D);
    t := t + [0x34];
    AbsorbNext(0xFFFFFFFF, t, 0x35, 0x641C1F5C);
    t := t + [0x35];
    AbsorbNext(0xFFFFFFFF, t, 0x36, 0x340AC5E3);
    t := t + [0x36];
    AbsorbNext(0xFFFFFFFF, t, 0x37, 0xF68D2C9E);
    t := t + [0x37];
    AbsorbNext(0xFFFFFFFF, t, 0x38, 0xAFFC9660);
    t := t + [0x38];
    AbsorbNext(0xFFFFFFFF, t, 0x39, 0x651F2550);
    t := t + [0x39];
    assert t == s;
  }

  /** Run on those digits. */
  method ChecksDigits() returns (value: bv32)
    ensures !value == 0xCBF43926
  {
    var bytes := new bv8[9](i requires 0 <= i < 9 => DIGITS_TO_NINE[i]);
    assert bytes[..] == DIGITS_TO_NINE;
    CheckValue(bytes[..]);
    value := Crc32(bytes);
  }

  // Messages that differ inside four consecutive bytes.

  lemma {:induction false} StepsInjective(n: nat, c: bv32, d: bv32)
    requires Steps(n, c) == Steps(n, d)
    ensures c == d
    decreases n
  {
    if n > 0 {
      StepInjective(Steps(n - 1, c), Steps(n - 1, d));
      StepsInjective(n - 1, c, d);
    }
  }

  lemma {:induction false} AbsorbAppend(c: bv32, s: seq<bv8>, t: seq<bv8>)
    ensures Absorb(c, s + t) == Absorb(Absorb(c, s), t)
    decreases |t|
  {
    if t == [] {
      assert s + t == s;
    } else {
      assert (s + t)[..|s + t| - 1] == s + t[..|t| - 1];
      AbsorbAppend(c, s, t[..|t| - 1]);
    }
  }

  /** Registers that differ stay different over equal input. */
  lemma {:induction false} AbsorbInjective(c: bv32, d: bv32, s: seq<bv8>)
    requires Absorb(c, s) == Absorb(d, s)
    ensures c == d
    decreases |s|
  {
    if s != [] {
      var b := Word(s[|s| - 1]);
      var x, y := Absorb(c, s[..|s| - 1]), Absorb(d, s[..|s| - 1]);
      StepsInjective(8, Xor(x, b), Xor(y, b));
      XorCancel(x, y, b);
      AbsorbInjective(c, d, s[..|s| - 1]);
    }
  }

  /** Up to four bytes as a little-endian word. */
  function Window(s: seq<bv8>): bv32
  {
    if s == [] then 0 else Xor(Word(s[0]), Up8(Window(s[1..])))
  }

  lemma SmallWindow(s: seq<bv8>)
    requires |s| <= 3
    ensures Room8(Window(s))
  {
    if |s| > 0 { assert Window(s) == Xor(Word(s[0]), Up8(Window(s[1..]))); }
    if |s| > 1 { assert Window(s[1..]) == Xor(Word(s[1]), Up8(Window(s[2..]))); assert s[1..][1..] == s[2..]; }
    if |s| > 2 { assert Window(s[2..]) == Xor(Word(s[2]), Up8(Window(s[3..]))); assert s[2..][1..] == s[3..]; }
  }

  lemma {:induction false} WindowInjective(s: seq<bv8>, t: seq<bv8>)
    requires |s| == |t| <= 4 && Window(s) == Window(t)
    ensures s == t
    decreases |s|
  {
    if s != [] {
      SmallWindow(s[1..]);
      SmallWindow(t[1..]);
      SameBytes(s[0], t[0], Window(s[1..]), Window(t[1..]));
      WindowInjective(s[1..], t[1..]);
    }
  }

  lemma {:induction false} StepsAdd(m: nat, n: nat, c: bv32)
    ensures Steps(m + n, c) == Steps(n, Steps(m, c))
    decreases n
  {
    if n > 0 { StepsAdd(m, n - 1, c); }
  }

  /** Taking in up to four bytes is taking in one word. */
  lemma {:induction false} AbsorbWindow(c: bv32, s: seq<bv8>)
    requires |s| <= 4
    ensures Absorb(c, s) == Steps(8 * |s|, Xor(c, Window(s)))
    decreases |s|
  {
    if s == [] {
      XorZero(c);
    } else {
      var b, w := Word(s[0]), Window(s[1..]);
      assert s == [s[0]] + s[1..];
      AbsorbAppend(c, [s[0]], s[1..]);
      var d := Absorb(c, [s[0]]);
      assert Absorb(c, []) == c && [s[0]][..0] == [];
      assert d == Steps(8, Xor(c, b));
      AbsorbWindow(d, s[1..]);
      SmallWindow(s[1..]);
      EightDelay(Xor(c, b), w);
      XorAssoc(c, b, Up8(w));
      StepsAdd(8, 8 * |s[1..]|, Xor(c, Window(s)));
    }
  }

  /** Two messages of equal length that differ, and only inside a stretch of at most four bytes,
      never get the same checksum. */
  lemma BurstDetected(c: bv32, head: seq<bv8>, x: seq<bv8>, y: seq<bv8>, tail: seq<bv8>)
    requires |x| == |y| <= 4 && x != y
    ensures Absorb(c, head + x + tail) != Absorb(c, head + y + tail)
  {
    if Absorb(c, head + x + tail) == Absorb(c, head + y + tail) {
      AbsorbAppend(c, head + x, tail);
      AbsorbAppend(c, head + y, tail);
      AbsorbInjective(Absorb(c, head + x), Absorb(c, head + y), tail);
      AbsorbAppend(c, head, x);
      AbsorbAppend(c, head, y);
      var r := Absorb(c, head);
      AbsorbWindow(r, x);
      AbsorbWindow(r, y);
      StepsInjective(8 * |x|, Xor(r, Window(x)), Xor(r, Window(y)));
      XorSwap(r, Window(x));
      XorSwap(r, Window(y));
      XorCancel(Window(x), Window(y), r);
      WindowInjective(x, y);
    }
  }
}
