/** A run in which growing a buffer loses bytes: its size does not fit the 32-bit header. */
module ReallocLoss {
  import opened ByteValues
  import opened Memories
  import opened BufferPoolState
  import opened BufferPools

  function Filled(m: Memory, p: int, n: nat, b: byte): Memory
  {
    x => if p <= x < p + n then b else m(x)
  }

  function Repeated(b: byte, n: nat): (s: seq<byte>)
    ensures |s| == n
  {
    seq(n, _ => b)
  }

  lemma FilledIs(m: Memory, p: int, n: nat, b: byte)
    ensures OnlyWithin(m, Filled(m, p, n, b), p, n) && Bytes(Filled(m, p, n, b), p, n) == Repeated(b, n)
  {
  }

  /** A small buffer comes from the last free slot, and finds its memory as it was. */
  lemma TakesLastSlot(s: State, t: State, p: int)
    requires s.Valid() && s.tiny != [] && s.MallocStep(t, p, 20)
    ensures p == s.tiny[|s.tiny| - 1] && s.IsSlot(p) && t.mem == s.mem && t.tinyHeap == s.tinyHeap
  {
    assert s.Supplier(20) == FromTiny;
    assert s.SizeOk(p, s.place[p]);
  }

  /** A slot given back is the last free one. */
  lemma GivesLastSlot(s: State, t: State, p: int)
    requires s.Valid() && s.IsLive(p) && s.IsSlot(p) && s.FreeStep(t, p)
    ensures t.tiny == s.tiny + [p] && t.mem == s.mem
  {
    s.InTinyHeapExact(p);
  }

  method FillBuffer(pool: BufferPool, p: int, n: nat, b: byte)
    requires pool.Valid() && pool.Now().IsLive(p) && pool.place[p].size == n
    modifies pool.sys`mem
    ensures pool.Valid() && pool.Now() == old(pool.Now()).(mem := pool.sys.mem)
    ensures pool.View() == old(pool.View())[p := Repeated(b, n)]
  {
    FilledIs(pool.sys.mem, p, n, b);
    pool.Write(p, Filled(pool.sys.mem, p, n, b));
  }

  lemma SameTinyHeap(s: State, t: State, p: int, n: nat)
    requires s.MallocStep(t, p, n)
    ensures t.tinyHeap == s.tinyHeap
  {
  }

  lemma AddedFilled(v: map<int, seq<byte>>, v1: map<int, seq<byte>>, p: int, n: nat, filled: seq<byte>)
    requires Added(v, v1, p, n)
    ensures v1[p := filled] == v[p := filled] && p !in v
  {
    var w, w1 := v[p := filled], v1[p := filled];
    forall q
      ensures q in w1 <==> q in w
      ensures q in w ==> w1[q] == w[q]
    {
      assert q in v1.Keys <==> q in v.Keys || q == p;
    }
    assert w1 == w;
  }

  /** A new buffer, filled. */
  method NewFilled(pool: BufferPool, n: nat, b: byte) returns (p: int)
    requires pool.Valid()
    modifies pool, pool.sys, pool.tinyPool, pool.smallPool, pool.medPool
    ensures pool.Valid() && p !in old(pool.View()) && pool.View() == old(pool.View())[p := Repeated(b, n)]
    ensures pool.tinyHeap == old(pool.tinyHeap)
    ensures old(pool.Now()).tiny != [] && n == 20 ==> pool.Now().IsSlot(p)
  {
    ghost var s := pool.Now();
    p := pool.Malloc(n);
    SameTinyHeap(s, pool.Now(), p, n);
    AddedFilled(s.View(), pool.View(), p, n, Repeated(b, n));
    if s.tiny != [] && n == 20 { TakesLastSlot(s, pool.Now(), p); }
    FillBuffer(pool, p, n, b);
  }

  /** 2^32 + 10 ones, grown to twenty bytes where the last slot given back held zeros, are ten ones and ten
      zeros. */
  method LosesBytes(pool: BufferPool, r: int, p: int) returns (q: int)
    requires pool.Valid() && pool.Now().IsLive(r) && pool.Now().IsSlot(r) && pool.Now().IsLive(p) && p != r
    requires pool.View()[r] == Repeated(0, 20) && pool.View()[p] == Repeated(1, WORD32 + 10)
    modifies pool, pool.sys, pool.tinyPool, pool.smallPool, pool.medPool
    ensures pool.Valid() && q in pool.View() && pool.View()[q] == Repeated(1, 10) + Repeated(0, 10)
    ensures pool.View()[q] != old(pool.View()[p][..20])
  {
    FreeZeros(pool, r);
    ghost var s := pool.Now();
    ViewLive(s, p);
    ghost var between;
    q, between := pool.Realloc(p, 20);
    GrownIntoSlot(s, between, pool.View(), p, q, r);
    TenShort();
  }

  /** A slot of zeros given back is the last free one and still holds them. */
  method FreeZeros(pool: BufferPool, r: int)
    requires pool.Valid() && pool.Now().IsLive(r) && pool.Now().IsSlot(r) && pool.View()[r] == Repeated(0, 20)
    modifies pool, pool.sys, pool.tinyPool, pool.smallPool, pool.medPool
    ensures pool.Valid() && pool.View() == old(pool.View()) - {r}
    ensures var s := pool.Now(); s.tiny != [] && r == s.tiny[|s.tiny| - 1] && Bytes(s.mem, r, 20) == Repeated(0, 20)
  {
    ghost var s := pool.Now();
    ViewLive(s, r);
    pool.Free(r);
    GivesLastSlot(s, pool.Now(), r);
  }

  lemma TenShort()
    ensures Repeated(1, 10) + Repeated(0, 10) != Repeated(1, WORD32 + 10)[..20]
  {
    assert Repeated(1, WORD32 + 10)[..20][10] == 1;
    assert (Repeated(1, 10) + Repeated(0, 10))[10] == 0;
  }

  lemma CutToTen(size: nat)
    requires size == WORD32 + 10
    ensures Cut(size, 20) && Kept(size, 20) == 10
  {
  }

  lemma ViewLive(s: State, p: int)
    requires p in s.View()
    ensures s.IsLive(p) && s.View()[p] == Bytes(s.mem, p, s.place[p].size)
  {
  }

  lemma GrownIntoSlot(s: State, between: State, v: map<int, seq<byte>>, p: int, q: int, r: int)
    requires s.Valid() && p in s.View() && s.View()[p] == Repeated(1, WORD32 + 10)
    requires s.tiny != [] && r == s.tiny[|s.tiny| - 1] && Bytes(s.mem, r, 20) == Repeated(0, 20)
    requires s.Reallocated(between, v, p, q, 20)
    ensures q in v && v[q] == Repeated(1, 10) + Repeated(0, 10)
  {
    CutToTen(WORD32 + 10);
    TakesLastSlot(s, between, q);
    assert between.View()[q] == Repeated(0, 20);
    assert Repeated(1, WORD32 + 10)[..10] == Repeated(1, 10) && Repeated(0, 20)[10..] == Repeated(0, 10);
  }

  /** A new pool comes to hold both buffers. */
  method HoldsBoth() returns (pool: BufferPool, r: int, p: int)
    ensures pool.Valid() && fresh(pool) && fresh(pool.sys) && fresh(pool.tinyPool) && fresh(pool.smallPool) && fresh(pool.medPool)
    ensures r != p && pool.Now().IsLive(r) && pool.Now().IsSlot(r) && pool.Now().IsLive(p)
    ensures pool.View()[r] == Repeated(0, 20) && pool.View()[p] == Repeated(1, WORD32 + 10)
  {
    pool := new BufferPool();
    r := NewFilled(pool, 20, 0);
    p := NewFilled(pool, WORD32 + 10, 1);
    ViewLive(pool.Now(), r);
    ViewLive(pool.Now(), p);
  }
}
