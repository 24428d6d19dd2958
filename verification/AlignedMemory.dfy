/** System::alignedMalloc and alignedFree: an aligned address inside a pooled buffer, with the
    buffer's own address in the word before it. */
module AlignedMemory {
  import opened Arithmetic
  import opened Bits
  import opened ByteValues
  import opened Memories
  import opened BufferPoolState
  import opened BufferPools

  const WORD_SIZE := 8  // sizeof(void*) and sizeof(intptr_t)

  /** num & -num == num on 32-bit words. */
  predicate IsPow2(num: int)
    requires -0x8000_0000 <= num < 0x8000_0000
  {
    var x := if num < 0 then num + WORD32 else num;
    And(x, if x == 0 then 0 else WORD32 - x) == x
  }

  /** What iMax((int) alignment, sizeof(void*)) makes of the alignment asked for. */
  function Effective(alignment: nat): nat
  {
    var a := ToInt32(alignment);
    if a >= WORD_SIZE then a else WORD_SIZE
  }

  /** Where the buffer at truePtr is entered. */
  function AlignedAddress(truePtr: nat, alignment: nat): nat
  {
    var a := truePtr + WORD_SIZE;
    a + Effective(alignment) - And(a, Effective(alignment) - 1)
  }

  lemma Pow2Word()
    ensures Pow2(32) == WORD32 && Pow2(31) == 0x8000_0000 && Pow2(3) == WORD_SIZE
  {
    assert Pow2(8) == 256;
    Pow2Add(8, 8);
    Pow2Add(16, 16);
    assert 2 * Pow2(31) == Pow2(32);
  }

  /** A buffer for bytes bytes at p, inside the live buffer at truePtr of the view v, with truePtr
      in the word before it. */
  ghost predicate AlignedIn(v: map<int, seq<byte>>, p: int, truePtr: int, bytes: nat)
  {
    && truePtr in v && truePtr + WORD_SIZE <= p && p + bytes <= truePtr + |v[truePtr]|
    && Word(v[truePtr], p - truePtr - WORD_SIZE) == truePtr
  }

  /** The 64-bit word at offset i of s. */
  function Word(s: seq<byte>, i: int): nat
    requires 0 <= i && i + WORD_SIZE <= |s|
  {
    Load(x => if 0 <= x < |s| then s[x] else 0, i, WORD_SIZE)
  }

  lemma {:induction false} Pow2Order(i: nat, j: nat)
    requires i < j
    ensures 2 * Pow2(i) <= Pow2(j)
    decreases j
  {
    if i < j - 1 { Pow2Order(i, j - 1); }
  }

  lemma PowerFits(x: nat)
    requires x < WORD32
    ensures IsPower(x, 32) <==> x == 0x8000_0000 || IsPower(x, 31)
  {
    Pow2Word();
    if IsPower(x, 32) {
      var i: nat :| i < 32 && x == Pow2(i);
      assert i < 31 ==> IsPower(x, 31);
    }
    if IsPower(x, 31) {
      var i: nat :| i < 31 && x == Pow2(i);
      assert i < 32;
    }
  }

  /** Of the two's complement ints, isPow2 passes zero, the powers of two and the smallest int. */
  lemma IsPow2Exact(num: int)
    requires -0x8000_0000 <= num < 0x8000_0000
    ensures IsPow2(num) <==> num == 0 || num == -0x8000_0000 || (num > 0 && IsPower(num, 31))
  {
    var x := if num < 0 then num + WORD32 else num;
    Pow2Word();
    PowerFits(x);
    if x > 0 {
      LowestBitAlone(x, 32);
    }
    if IsPower(x, 31) {
      var i: nat :| i < 31 && x == Pow2(i);
      Pow2Order(i, 31);
    }
  }

  lemma EffectivePower(alignment: nat) returns (k: nat)
    requires IsPow2(ToInt32(alignment))
    ensures 3 <= k < 31 && Effective(alignment) == Pow2(k)
  {
    Pow2Word();
    var n := ToInt32(alignment);
    IsPow2Exact(n);
    k := 3;
    if n >= WORD_SIZE {
      k :| k < 31 && n == Pow2(k);
      if k < 3 { Pow2Order(k, 3); }
    }
  }

  lemma RoundUp(a: nat, e: nat)
    requires e > 0
    ensures (a + e - a % e) % e == 0 && a < a + e - a % e <= a + e
  {
    var q, r := a / e, a % e;
    assert a == e * q + r;
    assert a + e - r == e * (q + 1);
    DivModUnique(a + e - r, e, q + 1, 0);
  }

  /** The address handed out leaves room for the redirect word before it and for the buffer. */
  lemma AlignedAddressOk(truePtr: nat, alignment: nat)
    requires IsPow2(ToInt32(alignment))
    ensures var p := AlignedAddress(truePtr, alignment);
      && p % Effective(alignment) == 0
      && truePtr + WORD_SIZE < p <= truePtr + WORD_SIZE + Effective(alignment)
  {
    var k := EffectivePower(alignment);
    AndMask(truePtr + WORD_SIZE, k);
    RoundUp(truePtr + WORD_SIZE, Effective(alignment));
  }

  lemma MultipleOfMultiple(x: nat, e: nat, d: nat, m: nat)
    requires e > 0 && d > 0 && e == d * m && x % e == 0
    ensures x % d == 0
  {
    assert x == e * (x / e) == d * (m * (x / e));
    DivModUnique(x, d, m * (x / e), 0);
  }

  lemma WholeWords(x: int, q: int)
    requires x == WORD32 * q
    ensures ToInt32(x) == 0
  {
    DivModUnique(x, WORD32, q, 0);
  }

  lemma ToInt32Pow2(j: nat)
    ensures ToInt32(Pow2(j)) == if j < 31 then Pow2(j) else if j == 31 then -0x8000_0000 else 0
  {
    Pow2Word();
    if j < 31 {
      Pow2Order(j, 31);
    } else if j >= 32 {
      Pow2Add(32, j - 32);
      WholeWords(Pow2(j), Pow2(j - 32));
    }
  }

  lemma SmallPowerHonoured(j: nat, t: nat)
    requires j < 31 && IsPow2(ToInt32(Pow2(j)))
    ensures AlignedAddress(t, Pow2(j)) % Pow2(j) == 0
  {
    ToInt32Pow2(j);
    AlignedAddressOk(t, Pow2(j));
    var m := if j < 3 then Pow2(3 - j) else 1;
    Pow2Word();
    if j < 3 { Pow2Add(j, 3 - j); Pow2Order(j, 3); } else if j > 3 { Pow2Order(3, j); }
    MultipleOfMultiple(AlignedAddress(t, Pow2(j)), Effective(Pow2(j)), Pow2(j), m);
  }

  lemma EightAligned(t: nat)
    ensures var a := t + WORD_SIZE; a + WORD_SIZE - a % WORD_SIZE == 8 * (t / 8) + 16
  {
  }

  /** A power past the ints has no effect: addresses are multiples of eight as without it. */
  lemma LargePowerIgnored(j: nat, t: nat)
    requires j >= 31
    ensures AlignedAddress(t, Pow2(j)) == 8 * (t / 8) + 16
    ensures t + 16 < Pow2(j) ==> AlignedAddress(t, Pow2(j)) % Pow2(j) != 0
  {
    ToInt32Pow2(j);
    Pow2Word();
    AndMask(t + WORD_SIZE, 3);
    EightAligned(t);
    if t + 16 < Pow2(j) { DivModUnique(8 * (t / 8) + 16, Pow2(j), 0, 8 * (t / 8) + 16); }
  }

  /** Alignment to a power of two is honoured at every address just if the power fits an int. */
  lemma AlignmentHonoured(j: nat)
    ensures IsPow2(ToInt32(Pow2(j)))
    ensures (forall t: nat :: AlignedAddress(t, Pow2(j)) % Pow2(j) == 0) <==> j < 31
  {
    ToInt32Pow2(j);
    IsPow2Exact(ToInt32(Pow2(j)));
    assert j < 31 ==> IsPower(Pow2(j), 31);
    if j < 31 {
      forall t: nat ensures AlignedAddress(t, Pow2(j)) % Pow2(j) == 0 {
        SmallPowerHonoured(j, t);
      }
    } else {
      Pow2Word();
      if j > 31 { Pow2Order(31, j); }
      LargePowerIgnored(j, 8);
    }
  }

  lemma WordInMemory(m: Memory, p: int, n: nat, i: nat)
    requires i + WORD_SIZE <= n
    ensures Word(Bytes(m, p, n), i) == Load(m, p + i, WORD_SIZE)
  {
    var s := Bytes(m, p, n);
    LoadMoved(x => if 0 <= x < |s| then s[x] else 0, i, m, p, WORD_SIZE);
  }

  /** Writes to the bytes of the buffer leave its redirect word alone. */
  lemma AlignedStays(v: map<int, seq<byte>>, v': map<int, seq<byte>>, p: int, truePtr: int, bytes: nat)
    requires AlignedIn(v, p, truePtr, bytes)
    requires truePtr in v' && |v'[truePtr]| == |v[truePtr]|
    requires forall i :: 0 <= i < |v[truePtr]| && !(p <= truePtr + i < p + bytes) ==> v'[truePtr][i] == v[truePtr][i]
    ensures AlignedIn(v', p, truePtr, bytes)
  {
    var s, s', i := v[truePtr], v'[truePtr], p - truePtr - WORD_SIZE;
    LoadFrame(x => if 0 <= x < |s| then s[x] else 0, x => if 0 <= x < |s'| then s'[x] else 0, i, WORD_SIZE);
  }

  lemma RedirectRead(s: State, p: int, truePtr: int, bytes: nat)
    requires AlignedIn(s.View(), p, truePtr, bytes)
    ensures s.IsLive(truePtr) && Load(s.mem, p - WORD_SIZE, WORD_SIZE) == truePtr
  {
    WordInMemory(s.mem, truePtr, s.place[truePtr].size, p - truePtr - WORD_SIZE);
  }

  lemma RedirectWritten(s: State, s': State, p: int, truePtr: int, bytes: nat)
    requires s.IsLive(truePtr) && truePtr + WORD_SIZE <= p && p + bytes <= truePtr + s.place[truePtr].size
    requires s' == s.(mem := s'.mem) && Load(s'.mem, p - WORD_SIZE, WORD_SIZE) == truePtr
    ensures AlignedIn(s'.View(), p, truePtr, bytes)
  {
    WordInMemory(s'.mem, truePtr, s.place[truePtr].size, p - truePtr - WORD_SIZE);
  }

  /** A pointer as an intptr_t word. */
  method IntptrOf(p: int) returns (word: nat)
    ensures word < WORD64 && (0 <= p < WORD64 ==> word == p)
  {
    word := p % WORD64;
  }

  /** Write a word into the live buffer at truePtr. */
  method WriteWord(pool: BufferPool, truePtr: int, at: int, word: nat)
    requires pool.Valid() && pool.Now().IsLive(truePtr) && word < WORD64
    requires truePtr <= at && at + WORD_SIZE <= truePtr + pool.place[truePtr].size
    modifies pool.sys`mem
    ensures pool.Valid() && pool.Now() == old(pool.Now()).(mem := pool.sys.mem) && Load(pool.sys.mem, at, WORD_SIZE) == word
    ensures pool.View() == old(pool.View())[truePtr := Bytes(pool.sys.mem, truePtr, pool.place[truePtr].size)]
  {
    Pow256Words();
    var m := PutWord(pool.sys.mem, at, WORD_SIZE, word);
    pool.Write(truePtr, m);
  }

  /** Write the address of the live buffer at truePtr in the word before p. */
  method WriteRedirect(pool: BufferPool, truePtr: int, p: int, ghost bytes: nat)
    requires pool.Valid() && pool.Now().IsLive(truePtr)
    requires truePtr + WORD_SIZE <= p && p + bytes <= truePtr + pool.place[truePtr].size
    modifies pool.sys`mem
    ensures pool.Valid() && pool.View().Keys == old(pool.View()).Keys
    ensures forall q :: q in old(pool.View()) && q != truePtr ==> pool.View()[q] == old(pool.View())[q]
    ensures |pool.View()[truePtr]| == |old(pool.View())[truePtr]|
    ensures 0 <= truePtr < WORD64 ==> AlignedIn(pool.View(), p, truePtr, bytes)
  {
    ghost var s := pool.Now();
    var word := IntptrOf(truePtr);
    WriteWord(pool, truePtr, p - WORD_SIZE, word);
    if 0 <= truePtr < WORD64 {
      RedirectWritten(s, pool.Now(), p, truePtr, bytes);
    }
  }

  method AlignedMalloc(pool: BufferPool, bytes: nat, alignment: nat) returns (p: int, ghost truePtr: int)
    requires pool.Valid() && IsPow2(ToInt32(alignment))
    requires bytes + Effective(alignment) + WORD_SIZE < WORD64
    modifies pool, pool.sys, pool.tinyPool, pool.smallPool, pool.medPool
    ensures pool.Valid()
    ensures truePtr > 0 && p == AlignedAddress(truePtr, alignment)
    ensures Added(old(pool.View()), pool.View(), truePtr, bytes + Effective(alignment) + WORD_SIZE)
    ensures truePtr < WORD64 ==> AlignedIn(pool.View(), p, truePtr, bytes)
  {
    var ptr := pool.Malloc(bytes + Effective(alignment) + WORD_SIZE);
    truePtr := ptr;
    AlignedAddressOk(ptr, alignment);
    p := AlignedAddress(ptr, alignment);
    WriteRedirect(pool, ptr, p, bytes);
  }

  method AlignedFree(pool: BufferPool, p: int, ghost truePtr: int, ghost bytes: nat)
    requires pool.Valid()
    requires p == 0 || (AlignedIn(pool.View(), p, truePtr, bytes) && 0 < truePtr)
    modifies pool, pool.sys, pool.tinyPool, pool.smallPool, pool.medPool
    ensures pool.Valid()
    ensures pool.View() == if p == 0 then old(pool.View()) else old(pool.View()) - {truePtr}
  {
    if p == 0 {
      return;
    }
    RedirectRead(pool.Now(), p, truePtr, bytes);
    var ptr := Load(pool.sys.mem, p - WORD_SIZE, WORD_SIZE);
    pool.Free(ptr);
  }
}
