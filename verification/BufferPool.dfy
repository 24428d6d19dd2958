/** G3D's pooled allocator: a preallocated slab of tiny buffers, two pools of recycled blocks,
    and the C heap behind them. Each call is one atomic step. */
module BufferPools {
  import opened ByteValues
  import opened Memories
  import opened SystemHeap
  import opened BufferPoolState

  /** r is the 32-bit int that n becomes on overflow. */
  ghost predicate IsInt32Of(r: int, n: int)
  {
    -0x8000_0000 <= r < 0x8000_0000 && exists k :: n == r + Wraps(k)
  }

  /** Conversion to a 32-bit int. */
  function ToInt32(n: int): (r: int)
    ensures IsInt32Of(r, n)
  {
    var r := n % WORD32;
    assert n == r + Wraps(n / WORD32) == r - WORD32 + Wraps(n / WORD32 + 1);
    if r < 0x8000_0000 then r else r - WORD32
  }

  /** There is only one such int, so wrapping may be put off to the end of a sum. */
  lemma Int32Sum(a: int, m: int, b: int, n: int)
    requires IsInt32Of(a, m) && IsInt32Of(b, a + n)
    ensures IsInt32Of(b, m + n)
  {
    var i, k :| m == a + Wraps(i) && a + n == b + Wraps(k);
    assert m + n == b + Wraps(i + k);
  }

  /** Each wrap-around on the way of `bytesAllocated += 4 + (int) bytes` may be put off. */
  lemma HeapCounted(count: int, total: int, bytes: nat)
    requires IsInt32Of(count, total)
    ensures IsInt32Of(ToInt32(count + ToInt32(4 + ToInt32(bytes))), total + bytes + 4)
  {
    var cut, step := ToInt32(bytes), ToInt32(4 + ToInt32(bytes));
    Int32Sum(cut, bytes, step, 4);
    var result := ToInt32(count + step);
    var i, j, k :| total == count + Wraps(i) && bytes + 4 == step + Wraps(j) && count + step == result + Wraps(k);
    assert total + bytes + 4 == result + Wraps(i + j + k);
  }

  class BufferPool {
    const sys: CHeap
    const tinyPool: array<int>
    const smallPool: array<MemBlock>
    const medPool: array<MemBlock>
    var tinyPoolSize: int
    var smallPoolSize: int
    var medPoolSize: int
    var tinyHeap: int
    var bytesAllocated: int
    ghost var place: map<int, Place>

    ghost predicate Shape()
      reads this, sys
    {
      && tinyPool.Length == MAX_TINY_BUFFERS && 0 <= tinyPoolSize <= MAX_TINY_BUFFERS
      && smallPool.Length == MAX_SMALL_BUFFERS && 0 <= smallPoolSize <= MAX_SMALL_BUFFERS
      && medPool.Length == MAX_MED_BUFFERS && 0 <= medPoolSize <= MAX_MED_BUFFERS
      && smallPool != medPool
      && sys.Valid()
    }

    ghost function Now(): State
      requires Shape()
      reads this, sys, tinyPool, smallPool, medPool
    {
      State(tinyHeap, tinyPool[..tinyPoolSize], smallPool[..smallPoolSize], medPool[..medPoolSize],
                  sys.blocks, sys.mem, place)
    }

    /** bytesAllocated is 1 more than the total size, headers included, of the blocks obtained from
        the C heap for buffers and not given back to it, pooled ones too, as a 32-bit int. */
    ghost predicate Valid()
      reads this, sys, tinyPool, smallPool, medPool
    {
      && Shape()
      && Now().Valid()
      && IsInt32Of(bytesAllocated, 1 + Total(sys.blocks - {tinyHeap}))
    }

    /** The application's view of the heap: each live pointer with its bytes. */
    ghost function View(): map<int, seq<byte>>
      requires Shape()
      reads this, sys, tinyPool, smallPool, medPool
    {
      Now().View()
    }

    /** Allocate out of a pool, searching backwards; 0 if no entry is large enough. */
    static method PoolMalloc(pool: array<MemBlock>, poolSize: int, bytes: nat)
      returns (ptr: int, newSize: int, ghost at: int)
      requires 0 <= poolSize <= pool.Length
      requires forall i :: 0 <= i < poolSize ==> pool[i].ptr != 0
      modifies pool
      ensures ptr == 0 ==> newSize == poolSize && pool[..] == old(pool[..])
      ensures ptr == 0 ==> forall i :: 0 <= i < poolSize ==> pool[i].bytes < bytes
      ensures ptr != 0 ==> 0 <= at < poolSize && old(pool[at]).ptr == ptr && old(pool[at]).bytes >= bytes
      ensures ptr != 0 ==> forall i :: at < i < poolSize ==> old(pool[i]).bytes < bytes
      ensures ptr != 0 ==> newSize == poolSize - 1 && pool[..newSize] == SwapRemove(old(pool[..poolSize]), at)
    {
      at := -1;
      var i := poolSize - 1;
      while i >= 0
        invariant -1 <= i < poolSize
        invariant pool[..] == old(pool[..])
        invariant forall j :: i < j < poolSize ==> pool[j].bytes < bytes
      {
        if pool[i].bytes >= bytes {
          ptr := pool[i].ptr;
          newSize := poolSize - 1;
          pool[i] := pool[newSize];
          at := i;
          return;
        }
        i := i - 1;
      }
      ptr, newSize := 0, poolSize;
    }

    /** Puts the address of every slot of the tiny heap in the array of free slots. */
    static method FillTinyPool(tinyPool: array<int>, tinyHeap: int)
      requires tinyPool.Length == MAX_TINY_BUFFERS
      modifies tinyPool
      ensures TinyMatches(tinyPool[..], AllFree(tinyHeap))
    {
      for i := 0 to MAX_TINY_BUFFERS
        invariant forall k :: 0 <= k < i ==> tinyPool[k] == SlotAddress(tinyHeap, k)
      {
        tinyPool[i] := tinyHeap + TINY_BUFFER_SIZE * i;
      }
      InitialTiny(tinyHeap, tinyPool[..]);
    }

    constructor ()
      ensures Valid() && fresh(sys) && fresh(tinyPool) && fresh(smallPool) && fresh(medPool)
      ensures View() == map[]
      ensures bytesAllocated == 1 && tinyPoolSize == MAX_TINY_BUFFERS
    {
      sys := new CHeap();
      tinyPool := new int[MAX_TINY_BUFFERS];
      smallPool := new MemBlock[MAX_SMALL_BUFFERS];
      medPool := new MemBlock[MAX_MED_BUFFERS];
      bytesAllocated, tinyPoolSize, tinyHeap, smallPoolSize, medPoolSize := 1, 0, 0, 0, 0;
      place := map[];
      new;
      tinyHeap := sys.Malloc(TINY_BYTES);
      tinyPoolSize, place := MAX_TINY_BUFFERS, AllFree(tinyHeap);
      FillTinyPool(tinyPool, tinyHeap);
      assert tinyPool[..tinyPoolSize] == tinyPool[..];
      assert sys.blocks - {tinyHeap} == map[];
      assert Total(sys.blocks - {tinyHeap}) == 0;
      assert bytesAllocated == 1 + Wraps(0);
      Now().InitialValid();
    }

    /** Takes a tiny slot, or 0 if none is free. */
    method TinyMalloc(bytes: nat) returns (ptr: int)
      requires Shape() && Now().Valid() && bytes <= TINY_BUFFER_SIZE
      modifies this`tinyPoolSize, this`place
      ensures Shape() && Now().Valid()
      ensures ptr == 0 ==> tinyPoolSize == 0 && Now() == old(Now())
      ensures ptr != 0 ==> old(Now()).MallocStep(Now(), ptr, bytes) && Added(old(Now()).View(), Now().View(), ptr, bytes)
    {
      ptr := 0;
      if tinyPoolSize > 0 {
        ghost var s := Now();
        tinyPoolSize := tinyPoolSize - 1;
        ptr := tinyPool[tinyPoolSize];
        s.TakeTiny(bytes);
        s.InTinyHeapExact(ptr);
        place := place[ptr := Live(bytes)];
        assert Now() == s.(tiny := s.tiny[..|s.tiny| - 1], place := place);
        s.ViewAdds(Now(), ptr, bytes);
      }
    }

    method SmallMalloc(bytes: nat) returns (ptr: int)
      requires Shape() && Now().Valid() && bytes <= SMALL_BUFFER_SIZE && (bytes <= TINY_BUFFER_SIZE ==> tinyPoolSize == 0)
      modifies this`smallPoolSize, this`place, smallPool
      ensures Shape() && Now().Valid()
      ensures ptr == 0 ==> Now() == old(Now()) && Now().Supplier(bytes) == FromCHeap
      ensures ptr != 0 ==> old(Now()).MallocStep(Now(), ptr, bytes) && Added(old(Now()).View(), Now().View(), ptr, bytes)
    {
      ghost var s := Now();
      ghost var at: int;
      ptr, smallPoolSize, at := PoolMalloc(smallPool, smallPoolSize, bytes);
      if ptr == 0 {
        assert Now() == s;
        return;
      }
      place := Moved(s.small, false, place, at, bytes);
      ghost var s' := Now();
      assert s' == s.(small := SwapRemove(s.small, at), place := place);
      s.TakeSmallStep(s', at, bytes);
    }

    method MedMalloc(bytes: nat) returns (ptr: int)
      requires Shape() && Now().Valid() && SMALL_BUFFER_SIZE < bytes <= MED_BUFFER_SIZE
      modifies this`medPoolSize, this`place, medPool
      ensures Shape() && Now().Valid()
      ensures ptr == 0 ==> Now() == old(Now()) && Now().Supplier(bytes) == FromCHeap
      ensures ptr != 0 ==> old(Now()).MallocStep(Now(), ptr, bytes) && Added(old(Now()).View(), Now().View(), ptr, bytes)
    {
      ghost var s := Now();
      ghost var at: int;
      ptr, medPoolSize, at := PoolMalloc(medPool, medPoolSize, bytes);
      if ptr == 0 {
        assert Now() == s;
        return;
      }
      place := Moved(s.med, true, place, at, bytes);
      ghost var s' := Now();
      assert s' == s.(med := SwapRemove(s.med, at), place := place);
      s.TakeMedStep(s', at, bytes);
    }

    /** A block of the C heap with its size header written. */
    method HeaderedBlock(bytes: nat) returns (base: int)
      requires sys.Valid()
      modifies sys
      ensures sys.Valid() && base > 0 && base !in old(sys.blocks)
      ensures sys.blocks == old(sys.blocks)[base := bytes + 4]
      ensures Load(sys.mem, base, 4) == bytes % WORD32
      ensures OnlyWithin(old(sys.mem), sys.mem, base, bytes + 4)
    {
      base := sys.Malloc(bytes + 4);
      Pow256Words();
      var m := PutWord(sys.mem, base, 4, bytes % WORD32);
      sys.Write(m);
    }

    method CountBlock(bytes: nat, ghost total: int)
      requires IsInt32Of(bytesAllocated, total)
      modifies this`bytesAllocated
      ensures IsInt32Of(bytesAllocated, total + bytes + 4)
    {
      var step := ToInt32(4 + ToInt32(bytes));
      HeapCounted(bytesAllocated, total, bytes);
      bytesAllocated := ToInt32(bytesAllocated + step);
    }

    /** Allocate from the C heap, with 4 extra bytes for a size header. */
    method HeapMalloc(bytes: nat) returns (ptr: int)
      requires Valid() && Now().Supplier(bytes) == FromCHeap
      modifies this`bytesAllocated, this`place, sys
      ensures Valid()
      ensures old(Now()).MallocStep(Now(), ptr, bytes) && Added(old(View()), View(), ptr, bytes)
    {
      ghost var s := Now();
      CountBlock(bytes, 1 + Total(sys.blocks - {tinyHeap}));
      var base := HeaderedBlock(bytes);
      ptr := base + 4;
      place := place[ptr := Live(bytes)];
      TotalInsert(s.blocks - {tinyHeap}, base, bytes + 4);
      assert sys.blocks - {tinyHeap} == (s.blocks - {tinyHeap})[base := bytes + 4];
      s.NewBlock(Now(), base, bytes);
    }

    /** Malloc without recourse to the C heap; 0 if no pool has a buffer to spare. */
    method PooledMalloc(bytes: nat) returns (ptr: int)
      requires Shape() && Now().Valid()
      modifies this`tinyPoolSize, this`smallPoolSize, this`medPoolSize, this`place, smallPool, medPool
      ensures Shape() && Now().Valid()
      ensures ptr == 0 ==> Now() == old(Now()) && Now().Supplier(bytes) == FromCHeap
      ensures ptr != 0 ==> old(Now()).MallocStep(Now(), ptr, bytes) && Added(old(Now()).View(), Now().View(), ptr, bytes)
    {
      if bytes <= TINY_BUFFER_SIZE {
        ptr := TinyMalloc(bytes);
        if ptr != 0 {
          return;
        }
      }
      ptr := 0;
      // Without a free slot, the next larger supplier is tried.
      if bytes <= SMALL_BUFFER_SIZE {
        ptr := SmallMalloc(bytes);
      } else if bytes <= MED_BUFFER_SIZE {
        ptr := MedMalloc(bytes);
      }
    }

    method Malloc(bytes: nat) returns (ptr: int)
      requires Valid()
      modifies this, sys, tinyPool, smallPool, medPool
      ensures Valid()
      ensures old(Now()).MallocStep(Now(), ptr, bytes) && Added(old(View()), View(), ptr, bytes)
    {
      ptr := PooledMalloc(bytes);
      if ptr == 0 {
        ptr := HeapMalloc(bytes);
      }
    }

    method TinyFree(ptr: int)
      requires Shape() && Now().Valid() && Now().IsLive(ptr) && Now().IsSlot(ptr)
      modifies this`tinyPoolSize, this`place, tinyPool
      ensures Shape() && Now().Valid() && old(Now()).FreeStep(Now(), ptr)
      ensures Now().View() == old(Now().View()) - {ptr}
    {
      ghost var s := Now();
      s.TinyPoolNotFull(ptr);
      tinyPool[tinyPoolSize] := ptr;
      tinyPoolSize := tinyPoolSize + 1;
      place := place[ptr := FreeSlot(|s.tiny|)];
      assert Now() == s.(tiny := s.tiny + [ptr], place := place);
      s.InTinyHeapExact(ptr);
      s.GiveTiny(ptr);
      s.FreeView(Now(), ptr);
    }

    method SmallFree(ptr: int)
      requires Shape() && Now().Valid() && Now().IsLive(ptr) && !Now().IsSlot(ptr)
      requires Header(sys.mem, ptr) <= SMALL_BUFFER_SIZE && smallPoolSize < MAX_SMALL_BUFFERS
      modifies this`smallPoolSize, this`place, smallPool
      ensures Shape() && Now().Valid() && old(Now()).FreeStep(Now(), ptr)
      ensures Now().View() == old(Now().View()) - {ptr}
    {
      ghost var s := Now();
      smallPool[smallPoolSize] := MemBlock(ptr, Header(sys.mem, ptr));
      smallPoolSize := smallPoolSize + 1;
      place := place[ptr := Pooled(false, |s.small|)];
      assert Now() == s.(small := s.small + [MemBlock(ptr, Header(s.mem, ptr))], place := place);
      s.InTinyHeapExact(ptr);
      s.GiveSmall(ptr);
      s.FreeView(Now(), ptr);
    }

    method MedFree(ptr: int)
      requires Shape() && Now().Valid() && Now().IsLive(ptr) && !Now().IsSlot(ptr)
      requires SMALL_BUFFER_SIZE < Header(sys.mem, ptr) <= MED_BUFFER_SIZE && medPoolSize < MAX_MED_BUFFERS
      modifies this`medPoolSize, this`place, medPool
      ensures Shape() && Now().Valid() && old(Now()).FreeStep(Now(), ptr)
      ensures Now().View() == old(Now().View()) - {ptr}
    {
      ghost var s := Now();
      medPool[medPoolSize] := MemBlock(ptr, Header(sys.mem, ptr));
      medPoolSize := medPoolSize + 1;
      place := place[ptr := Pooled(true, |s.med|)];
      assert Now() == s.(med := s.med + [MemBlock(ptr, Header(s.mem, ptr))], place := place);
      s.InTinyHeapExact(ptr);
      s.GiveMed(ptr);
      s.FreeView(Now(), ptr);
    }

    /** `bytesAllocated -= bytes + 4`, computed on 32-bit words. */
    method UncountBlock(bytes: nat, ghost total: int, ghost size: int)
      requires IsInt32Of(bytesAllocated, total) && (exists k :: size == bytes + 4 + Wraps(k))
      modifies this`bytesAllocated
      ensures IsInt32Of(bytesAllocated, total - size)
    {
      var step := (bytes + 4) % WORD32;
      assert bytes + 4 == step + Wraps((bytes + 4) / WORD32);
      ghost var before := bytesAllocated;
      bytesAllocated := ToInt32(bytesAllocated - step);
      ghost var i, k, j :| total == before + Wraps(i) && size == bytes + 4 + Wraps(k) && before - step == bytesAllocated + Wraps(j);
      assert total - size == bytesAllocated + Wraps(i + j - k - (bytes + 4) / WORD32);
    }

    /** Give a block back to the C heap. */
    method HeapFree(ptr: int)
      requires Valid() && Now().IsLive(ptr) && !Now().IsSlot(ptr)
      requires Header(sys.mem, ptr) <= SMALL_BUFFER_SIZE ==> smallPoolSize == MAX_SMALL_BUFFERS
      requires SMALL_BUFFER_SIZE < Header(sys.mem, ptr) <= MED_BUFFER_SIZE ==> medPoolSize == MAX_MED_BUFFERS
      modifies this`bytesAllocated, this`place, sys
      ensures Valid() && old(Now()).FreeStep(Now(), ptr) && View() == old(View()) - {ptr}
    {
      ghost var s := Now();
      s.HeaderCut(ptr);
      var bytes := Header(sys.mem, ptr);
      UncountBlock(bytes, 1 + Total(s.blocks - {tinyHeap}), s.blocks[ptr - 4]);
      sys.Free(ptr - 4);
      place := place - {ptr};
      TotalRemove(s.blocks - {tinyHeap}, ptr - 4);
      assert sys.blocks - {tinyHeap} == s.blocks - {tinyHeap} - {ptr - 4};
      assert Now() == s.(blocks := s.blocks - {ptr - 4}, place := place);
      s.Released(Now(), ptr);
    }

    method Free(ptr: int)
      requires Valid() && (ptr == 0 || Now().IsLive(ptr))
      modifies this, sys, tinyPool, smallPool, medPool
      ensures Valid()
      ensures ptr == 0 ==> Now() == old(Now())
      ensures ptr != 0 ==> old(Now()).FreeStep(Now(), ptr) && View() == old(View()) - {ptr}
    {
      if ptr == 0 {
        return;
      }
      Now().InTinyHeapExact(ptr);
      if InTinyHeap(tinyHeap, ptr) {
        TinyFree(ptr);
        return;
      }
      var bytes := Header(sys.mem, ptr);
      if bytes <= SMALL_BUFFER_SIZE {
        if smallPoolSize < MAX_SMALL_BUFFERS {
          SmallFree(ptr);
          return;
        }
      } else if bytes <= MED_BUFFER_SIZE {
        if medPoolSize < MAX_MED_BUFFERS {
          MedFree(ptr);
          return;
        }
      }
      HeapFree(ptr);
    }

    /** The application, or memcpy on its behalf, writes inside one live buffer. */
    method Write(p: int, m: Memory)
      requires Valid() && Now().IsLive(p) && OnlyWithin(sys.mem, m, p, place[p].size)
      modifies sys`mem
      ensures Valid() && Now() == old(Now()).(mem := m)
      ensures View() == old(View())[p := Bytes(m, p, place[p].size)]
    {
      Now().WriteLive(m, p);
      sys.Write(m);
    }

    method Memcpy(dst: int, src: int, n: nat)
      requires Valid() && Now().IsLive(dst) && n <= place[dst].size
      requires dst + n <= src || src + n <= dst
      modifies sys`mem
      ensures Valid() && Now() == old(Now()).(mem := Copied(old(sys.mem), dst, src, n))
      ensures View() == old(View())[dst := Bytes(Copied(old(sys.mem), dst, src, n), dst, place[dst].size)]
    {
      Write(dst, Copied(sys.mem, dst, src, n));
    }

    /** The part of realloc that moves a buffer. between is the state after its malloc, in which the new
        buffer holds whatever its memory held before. */
    method Move(ptr: int, bytes: nat, realSize: nat) returns (newPtr: int, ghost between: State)
      requires Valid() && Now().IsLive(ptr) && realSize == Now().Room(ptr) && bytes > realSize
      modifies this, sys, tinyPool, smallPool, medPool
      ensures Valid() && newPtr != ptr && Resized(old(View()), View(), ptr, newPtr, bytes)
      ensures old(Now()).MallocStep(between, newPtr, bytes) && newPtr in between.View()
      ensures CopiedOver(old(View())[ptr], between.View()[newPtr], View()[newPtr], realSize)
    {
      ghost var s := Now();
      newPtr := Malloc(bytes);
      between := Now();
      ghost var raw := between.View()[newPtr];
      assert between.View()[ptr] == s.View()[ptr];
      s.RoomKeeps(between, ptr);
      between.CopyDisjoint(newPtr, ptr, realSize);
      CopiedFills(between.mem, newPtr, ptr, realSize, |s.View()[ptr]|, bytes);
      Memcpy(newPtr, ptr, realSize);
      ghost var filled := View()[newPtr];
      assert CopiedOver(s.View()[ptr], raw, filled, realSize);
      MovedView(s.View(), between.View(), View(), ptr, newPtr, bytes, filled);
      FreeMoved(ptr);
    }

    method FreeMoved(ptr: int)
      requires Valid() && Now().IsLive(ptr)
      modifies this, sys, tinyPool, smallPool, medPool
      ensures Valid() && View() == old(View()) - {ptr}
    {
      Now().InTinyHeapExact(ptr);
      if InTinyHeap(tinyHeap, ptr) {
        TinyFree(ptr);
      } else {
        Free(ptr);
      }
    }

    method Realloc(ptr: int, bytes: nat) returns (newPtr: int, ghost between: State)
      requires Valid() && (ptr == 0 || Now().IsLive(ptr))
      modifies this, sys, tinyPool, smallPool, medPool
      ensures Valid()
      ensures ptr == 0 ==> Added(old(View()), View(), newPtr, bytes)
      ensures ptr != 0 ==> old(Now()).Reallocated(between, View(), ptr, newPtr, bytes)
    {
      if ptr == 0 {
        between := Now();
        newPtr := Malloc(bytes);
      } else {
        newPtr, between := ReallocLive(ptr, bytes);
      }
    }

    method ReallocLive(ptr: int, bytes: nat) returns (newPtr: int, ghost between: State)
      requires Valid() && Now().IsLive(ptr)
      modifies this, sys, tinyPool, smallPool, medPool
      ensures Valid() && old(Now()).Reallocated(between, View(), ptr, newPtr, bytes)
    {
      Now().InTinyHeapExact(ptr);
      var realSize := if InTinyHeap(tinyHeap, ptr) then TINY_BUFFER_SIZE else Header(sys.mem, ptr);
      if bytes <= realSize {
        between := Now();
        KeepInPlace(ptr, bytes, between);
        newPtr := ptr;
      } else {
        newPtr, between := MoveKept(ptr, bytes, realSize);
      }
    }

    /** The part of realloc for a buffer that fits where it is. */
    method KeepInPlace(ptr: int, bytes: nat, ghost between: State)
      requires Valid() && Now().IsLive(ptr) && bytes <= Now().Room(ptr)
      modifies this`place
      ensures Valid() && old(Now()).Reallocated(between, View(), ptr, ptr, bytes)
    {
      Now().KeptInPlace(between, ptr, bytes);
      place := place[ptr := Live(bytes)];
    }

    method MoveKept(ptr: int, bytes: nat, realSize: nat) returns (newPtr: int, ghost between: State)
      requires Valid() && Now().IsLive(ptr) && realSize == Now().Room(ptr) && bytes > realSize
      modifies this, sys, tinyPool, smallPool, medPool
      ensures Valid() && old(Now()).Reallocated(between, View(), ptr, newPtr, bytes)
    {
      ghost var s := Now();
      s.KeptCovered(ptr, bytes);
      newPtr, between := Move(ptr, bytes, realSize);
      CopiedKeeps(s.View()[ptr], between.View()[newPtr], View()[newPtr], realSize);
    }
  }
}
