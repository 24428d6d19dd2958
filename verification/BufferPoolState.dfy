/** The state of G3D's pooled allocator as a value, its invariant, and what each kind of step does
    to it. */
module BufferPoolState {
  import opened ByteValues
  import opened Memories

  const TINY_BUFFER_SIZE := 128
  const SMALL_BUFFER_SIZE := 1024
  const MED_BUFFER_SIZE := 4096

  const MAX_TINY_BUFFERS := 64000
  const MAX_SMALL_BUFFERS := 1024
  const MAX_MED_BUFFERS := 1024

  const TINY_BYTES := 8192000  // MAX_TINY_BUFFERS * TINY_BUFFER_SIZE

  datatype MemBlock = MemBlock(ptr: int, bytes: nat)

  /** Where a buffer is: the i-th free tiny slot, entry i of the medium or the small pool, or in
      the application's hands, which asked for size bytes. */
  datatype Place = FreeSlot(i: int) | Pooled(med: bool, i: int) | Live(size: nat)

  predicate InTinyHeap(tinyHeap: int, p: int)
  {
    tinyHeap <= p < tinyHeap + TINY_BYTES
  }

  function SlotAddress(tinyHeap: int, i: int): int
  {
    tinyHeap + TINY_BUFFER_SIZE * i
  }

  ghost predicate IsSlotOf(tinyHeap: int, p: int)
  {
    exists i :: 0 <= i < MAX_TINY_BUFFERS && p == SlotAddress(tinyHeap, i)
  }

  function SlotIndex(tinyHeap: int, p: int): int
  {
    (p - tinyHeap) / TINY_BUFFER_SIZE
  }

  /** The size word in front of a heap buffer. */
  function Header(m: Memory, p: int): nat
  {
    Load(m, p - 4, 4)
  }

  function SwapRemove<T>(s: seq<T>, i: int): seq<T>
    requires 0 <= i < |s|
  {
    s[i := s[|s| - 1]][..|s| - 1]
  }

  ghost predicate SizesWithin(pool: seq<MemBlock>, low: int, high: int)
  {
    forall i :: 0 <= i < |pool| ==> low <= pool[i].bytes <= high
  }

  ghost predicate PoolMatches(pool: seq<MemBlock>, med: bool, place: map<int, Place>, m: Memory)
  {
    && (forall i :: 0 <= i < |pool| ==>
          && pool[i].ptr in place && place[pool[i].ptr] == Pooled(med, i)
          && pool[i].bytes == Header(m, pool[i].ptr))
    && (forall p :: p in place && place[p].Pooled? && place[p].med == med ==>
          0 <= place[p].i < |pool| && pool[place[p].i].ptr == p)
  }

  ghost predicate TinyMatches(tiny: seq<int>, place: map<int, Place>)
  {
    && (forall i :: 0 <= i < |tiny| ==> tiny[i] in place && place[tiny[i]] == FreeSlot(i))
    && (forall p :: p in place && place[p].FreeSlot? ==> 0 <= place[p].i < |tiny| && tiny[place[p].i] == p)
  }

  lemma TinyKeeps(tiny: seq<int>, place: map<int, Place>, p: int, v: Place)
    requires TinyMatches(tiny, place) && !v.FreeSlot? && (p in place ==> !place[p].FreeSlot?)
    ensures TinyMatches(tiny, place[p := v])
  {
  }

  lemma PoolKeeps(pool: seq<MemBlock>, med: bool, place: map<int, Place>, m: Memory, p: int, v: Place)
    requires PoolMatches(pool, med, place, m)
    requires !(v.Pooled? && v.med == med)
    requires p in place ==> !(place[p].Pooled? && place[p].med == med)
    ensures PoolMatches(pool, med, place[p := v], m)
  {
  }

  lemma PoolGives(pool: seq<MemBlock>, med: bool, place: map<int, Place>, m: Memory, p: int)
    requires PoolMatches(pool, med, place, m)
    requires p in place ==> !place[p].Pooled?
    ensures PoolMatches(pool + [MemBlock(p, Header(m, p))], med, place[p := Pooled(med, |pool|)], m)
  {
  }

  /** Removing entry i of a pool moves its last entry to position i. */
  function Moved(pool: seq<MemBlock>, med: bool, place: map<int, Place>, i: int, n: nat): map<int, Place>
    requires 0 <= i < |pool|
  {
    place[pool[|pool| - 1].ptr := Pooled(med, i)][pool[i].ptr := Live(n)]
  }

  lemma PoolTakes(pool: seq<MemBlock>, med: bool, place: map<int, Place>, m: Memory, i: int, n: nat)
    requires PoolMatches(pool, med, place, m) && 0 <= i < |pool|
    ensures PoolMatches(SwapRemove(pool, i), med, Moved(pool, med, place, i, n), m)
  {
    var place', pool', last := Moved(pool, med, place, i, n), SwapRemove(pool, i), |pool| - 1;
    forall k | 0 <= k < |pool'|
      ensures pool'[k].ptr in place' && place'[pool'[k].ptr] == Pooled(med, k)
    {
      assert pool'[k] == if k == i then pool[last] else pool[k];
    }
  }

  /** What WriteWithin allows: bytes outside p..p+n keep their values. */
  ghost predicate OnlyWithin(m: Memory, m': Memory, p: int, n: int)
  {
    forall x {:trigger m(x)} {:trigger m'(x)} :: x < p || p + n <= x ==> m'(x) == m(x)
  }

  datatype Supplier = FromTiny | FromSmall | FromMed | FromCHeap

  ghost predicate HasFit(pool: seq<MemBlock>, n: nat)
  {
    exists i :: 0 <= i < |pool| && pool[i].bytes >= n
  }

  /** pool' is pool without the last of its entries that have room for n bytes, which is at p. */
  ghost predicate TookFit(pool: seq<MemBlock>, pool': seq<MemBlock>, p: int, n: nat)
  {
    exists i :: 0 <= i < |pool| && pool' == SwapRemove(pool, i) && pool[i].ptr == p && pool[i].bytes >= n
      && forall j :: i < j < |pool| ==> pool[j].bytes < n
  }

  /** v' is v with a buffer of n bytes added at p. */
  ghost predicate Added(v: map<int, seq<byte>>, v': map<int, seq<byte>>, p: int, n: nat)
  {
    && p > 0 && p !in v && v'.Keys == v.Keys + {p} && |v'[p]| == n
    && forall q :: q in v ==> v'[q] == v[q]
  }

  /** v' is v with the buffer at p replaced by one of n bytes at p'. */
  ghost predicate Resized(v: map<int, seq<byte>>, v': map<int, seq<byte>>, p: int, p': int, n: nat)
  {
    && p' > 0 && p' !in v.Keys - {p} && v'.Keys == v.Keys - {p} + {p'} && |v'[p']| == n
    && forall q :: q in v && q != p ==> v'[q] == v[q]
  }

  /** A realloc that moves a buffer adds the new one, fills it and drops the old one. */
  lemma MovedView(v0: map<int, seq<byte>>, v1: map<int, seq<byte>>, v2: map<int, seq<byte>>, p: int, p': int,
                  n: nat, filled: seq<byte>)
    requires p in v0 && Added(v0, v1, p', n) && |filled| == n && v2 == v1[p' := filled]
    ensures Resized(v0, v2 - {p}, p, p', n) && p' != p
  {
    assert (v2 - {p}).Keys == v0.Keys - {p} + {p'};
  }

  /** The size of a buffer does not fit its 32-bit header, and what is left of it there is less
      than the bytes asked for. */
  predicate Cut(size: nat, bytes: nat)
  {
    size >= WORD32 && bytes > size % WORD32
  }

  /** How many of the first bytes of a buffer of size bytes a realloc to bytes keeps for sure. */
  function Kept(size: nat, bytes: nat): (k: nat)
    ensures k <= size && k <= bytes
  {
    if Cut(size, bytes) then size % WORD32 else if size < bytes then size else bytes
  }

  /** new holds the first room bytes of old, as far as there are any, and raw after that. */
  ghost predicate CopiedOver(old_: seq<byte>, raw: seq<byte>, new_: seq<byte>, room: nat)
  {
    && |raw| == |new_|
    && (forall i :: 0 <= i < room && i < |old_| && i < |new_| ==> new_[i] == old_[i])
    && (forall i :: room <= i < |new_| ==> new_[i] == raw[i])
  }

  lemma CopiedFills(m: Memory, dst: int, src: int, n: nat, size: nat, bytes: nat)
    requires n <= bytes
    ensures CopiedOver(Bytes(m, src, size), Bytes(m, dst, bytes), Bytes(Copied(m, dst, src, n), dst, bytes), n)
  {
  }

  lemma CopiedKeeps(old_: seq<byte>, raw: seq<byte>, new_: seq<byte>, room: nat)
    requires CopiedOver(old_, raw, new_, room) && Kept(|old_|, |new_|) <= room
    requires Cut(|old_|, |new_|) ==> room == Kept(|old_|, |new_|)
    ensures var k := Kept(|old_|, |new_|);
      new_[..k] == old_[..k] && (Cut(|old_|, |new_|) ==> CutOver(old_, raw, new_))
  {
  }

  /** new holds just the bytes of old that the header admits, and raw after those. */
  ghost predicate CutOver(old_: seq<byte>, raw: seq<byte>, new_: seq<byte>)
  {
    var k := Kept(|old_|, |new_|);
    |raw| == |new_| && new_ == old_[..k] + raw[k..]
  }

  /** What a realloc should keep, it keeps if and only if the new memory happened to hold the rest. */
  lemma CutKeeps(old_: seq<byte>, raw: seq<byte>, new_: seq<byte>)
    requires Cut(|old_|, |new_|) && CutOver(old_, raw, new_)
    ensures var k, m := Kept(|old_|, |new_|), if |old_| < |new_| then |old_| else |new_|;
      k < m && (new_[..m] == old_[..m] <==> raw[k..m] == old_[k..m])
  {
    var k, m := Kept(|old_|, |new_|), if |old_| < |new_| then |old_| else |new_|;
    assert new_[..m] == old_[..k] + raw[k..m];
    assert old_[..m] == old_[..k] + old_[k..m];
    assert new_[k..m] == raw[k..m];
  }

  datatype State = State(
    tinyHeap: int,
    tiny: seq<int>,         // the free tiny slots
    small: seq<MemBlock>,
    med: seq<MemBlock>,
    blocks: map<int, nat>,  // the blocks of the C heap
    mem: Memory,
    place: map<int, Place>)
  {
    ghost predicate IsSlot(p: int)
    {
      IsSlotOf(tinyHeap, p)
    }

    /** p is 4 bytes into a block of the C heap other than the tiny heap. */
    ghost predicate IsHeapPtr(p: int)
    {
      p - 4 in blocks && p - 4 != tinyHeap
    }

    ghost predicate IsLive(p: int)
    {
      p in place && place[p].Live?
    }

    ghost predicate BlocksOk()
    {
      && WellFormed(blocks)
      && tinyHeap in blocks && blocks[tinyHeap] == TINY_BYTES
      && PlacesOk()
      && HeadersOk()
    }

    /** Every slot and every buffer of the C heap has a place, and nothing else has. */
    ghost predicate PlacesOk()
    {
      forall p :: p in place <==> IsSlot(p) || IsHeapPtr(p)
    }

    ghost predicate HeaderOk(p: int)
    {
      p - 4 in blocks && blocks[p - 4] >= 4 && Header(mem, p) == (blocks[p - 4] - 4) % WORD32
    }

    ghost predicate HeadersOk()
    {
      forall p :: p in place && !IsSlot(p) ==> HeaderOk(p)
    }

    /** Slots are free or live, never pooled. A live buffer has room for what was asked; where its
        header is smaller than that, it is because the size was cut to 32 bits. */
    ghost predicate SizeOk(p: int, v: Place)
    {
      match v
      case FreeSlot(_) => IsSlot(p)
      case Pooled(_, _) => !IsSlot(p)
      case Live(n) =>
        if IsSlot(p) then n <= TINY_BUFFER_SIZE
        else p - 4 in blocks && (n <= Header(mem, p) || n + 4 == blocks[p - 4])
    }

    ghost predicate SizesOk()
    {
      forall p :: p in place ==> SizeOk(p, place[p])
    }

    ghost predicate PoolsOk()
    {
      && PoolMatches(small, false, place, mem) && SizesWithin(small, 0, SMALL_BUFFER_SIZE)
      && PoolMatches(med, true, place, mem) && SizesWithin(med, SMALL_BUFFER_SIZE + 1, MED_BUFFER_SIZE)
    }

    /** What every operation keeps. The map place gives each buffer one place, so no buffer is at
        once live and free, or in two pools, or twice in one. */
    ghost predicate Valid()
    {
      BlocksOk() && SizesOk() && TinyMatches(tiny, place) && PoolsOk()
    }

    /** The application's view: each live pointer with the bytes it may use. */
    ghost function View(): map<int, seq<byte>>
    {
      map p | p in place && place[p].Live? :: Bytes(mem, p, place[p].size)
    }

    /** x belongs to the slot p, or to the C heap block of which p is the buffer. */
    ghost predicate Owns(p: int, x: int)
    {
      if IsSlot(p) then p <= x < p + TINY_BUFFER_SIZE
      else IsHeapPtr(p) && p - 4 <= x < p - 4 + blocks[p - 4]
    }

    /** The application sees the same at q in both states. */
    ghost predicate SameView(s': State, q: int)
    {
      && (s'.IsLive(q) <==> IsLive(q))
      && (IsLive(q) ==> s'.place[q] == place[q] && Bytes(s'.mem, q, place[q].size) == Bytes(mem, q, place[q].size))
    }

    lemma ViewAdds(s': State, p: int, n: nat)
      requires p > 0 && !IsLive(p) && s'.IsLive(p) && s'.place[p].size == n
      requires forall q :: q != p ==> SameView(s', q)
      ensures Added(View(), s'.View(), p, n)
    {
      var v, v' := View(), s'.View();
      forall q ensures q in v' <==> q in v + map[p := []] {
        if q != p { assert SameView(s', q); }
      }
      forall q | q in v ensures v'[q] == v[q] { assert SameView(s', q); }
    }

    lemma ViewDrops(s': State, p: int)
      requires !s'.IsLive(p) && forall q :: q != p ==> SameView(s', q)
      ensures s'.View() == View() - {p}
    {
      var v, v' := View() - {p}, s'.View();
      forall q ensures q in v' <==> q in v {
        if q != p { assert SameView(s', q); }
      }
      forall q | q in v ensures v'[q] == v[q] { assert SameView(s', q); }
      assert v'.Keys == v.Keys;
    }

    /** Where a buffer of n bytes comes from: a tiny request falls through to the small pool, but a
        small one never to the medium pool. */
    ghost function Supplier(n: nat): Supplier
    {
      if n <= TINY_BUFFER_SIZE && tiny != [] then FromTiny
      else if n <= SMALL_BUFFER_SIZE && HasFit(small, n) then FromSmall
      else if SMALL_BUFFER_SIZE < n <= MED_BUFFER_SIZE && HasFit(med, n) then FromMed
      else FromCHeap
    }

    /** s' is this state with one buffer of n bytes taken, at p, from its supplier. */
    ghost predicate MallocStep(s': State, p: int, n: nat)
    {
      && s'.tinyHeap == tinyHeap
      && match Supplier(n)
         case FromTiny =>
           && s'.(place := place) == this.(tiny := tiny[..|tiny| - 1]) && p == tiny[|tiny| - 1]
         case FromSmall =>
           && s'.(place := place, small := small) == this && TookFit(small, s'.small, p, n)
         case FromMed =>
           && s'.(place := place, med := med) == this && TookFit(med, s'.med, p, n)
         case FromCHeap =>
           && s'.(place := place, mem := mem) == this.(blocks := blocks[p - 4 := n + 4])
           && p - 4 !in blocks && OnlyWithin(mem, s'.mem, p - 4, n + 4)
    }

    /** Where a freed buffer goes: back to its pool, or if that is full, or there is none for its
        size, back to the C heap. */
    ghost predicate FreeStep(s': State, p: int)
    {
      var h := Header(mem, p);
      if InTinyHeap(tinyHeap, p) then s'.(place := place) == this.(tiny := tiny + [p])
      else if h <= SMALL_BUFFER_SIZE && |small| < MAX_SMALL_BUFFERS then
        s'.(place := place) == this.(small := small + [MemBlock(p, h)])
      else if SMALL_BUFFER_SIZE < h <= MED_BUFFER_SIZE && |med| < MAX_MED_BUFFERS then
        s'.(place := place) == this.(med := med + [MemBlock(p, h)])
      else s'.(place := place) == this.(blocks := blocks - {p - 4})
    }

    /** A buffer that was given back to a slot or a pool is the next to be handed out for a size it is meant for. */
    lemma FreedReused(t: State, u: State, p: int, q: int, n: nat)
      requires FreeStep(t, p) && t.MallocStep(u, q, n)
      ensures InTinyHeap(tinyHeap, p) && n <= 128 ==> q == p
      ensures var h := Header(mem, p);
              !InTinyHeap(tinyHeap, p) && h <= 1024 && |small| < 1024 && n <= h && (n <= 128 ==> tiny == []) ==> q == p
      ensures var h := Header(mem, p);
              !InTinyHeap(tinyHeap, p) && h <= 4096 && |med| < 1024 && 1024 < n <= h ==> q == p
    {
      var h := Header(mem, p);
      if InTinyHeap(tinyHeap, p) {
        assert t.tiny[|t.tiny| - 1] == p;
      } else if h <= SMALL_BUFFER_SIZE && |small| < MAX_SMALL_BUFFERS && n <= h && (n <= TINY_BUFFER_SIZE ==> tiny == []) {
        LastTaken(t.small, u.small, p, h, q, n);
      } else if SMALL_BUFFER_SIZE < n <= h <= MED_BUFFER_SIZE && |med| < MAX_MED_BUFFERS {
        LastTaken(t.med, u.med, p, h, q, n);
      }
    }

    /** An entry at the end of a pool that is large enough is the one that is taken. */
    lemma LastTaken(pool: seq<MemBlock>, pool': seq<MemBlock>, p: int, h: nat, q: int, n: nat)
      requires pool != [] && pool[|pool| - 1] == MemBlock(p, h) && n <= h
      ensures HasFit(pool, n) && (TookFit(pool, pool', q, n) ==> q == p)
    {
      assert pool[|pool| - 1].bytes >= n;
    }

    lemma NotInTinyHeap(p: int)
      requires BlocksOk() && IsHeapPtr(p)
      ensures !InTinyHeap(tinyHeap, p) && !IsSlot(p)
    {
      assert p in place;
      assert Aligned(p - 4) && Aligned(tinyHeap);
    }

    /** inTinyHeap tells slots and heap buffers apart. */
    lemma InTinyHeapExact(p: int)
      requires BlocksOk() && p in place
      ensures InTinyHeap(tinyHeap, p) <==> IsSlot(p)
      ensures p > 0
    {
      if !IsSlot(p) { NotInTinyHeap(p); }
    }

    lemma OwnersDisjoint(p: int, q: int, x: int)
      requires BlocksOk() && Owns(p, x) && Owns(q, x)
      ensures p == q
    {
    }

    /** Distinct live buffers share no byte, and each lies inside its own slot or block. */
    lemma LiveRange(p: int, x: int)
      requires BlocksOk() && SizesOk() && IsLive(p) && p <= x < p + place[p].size
      ensures Owns(p, x) && (IsHeapPtr(p) ==> p <= x)
    {
    }

    lemma LiveDisjoint(p: int, q: int)
      requires Valid() && IsLive(p) && IsLive(q) && p != q
      ensures p + place[p].size <= q || q + place[q].size <= p || place[p].size == 0 || place[q].size == 0
    {
      var x := if p < q then q else p;
      if p <= x < p + place[p].size && q <= x < q + place[q].size {
        LiveRange(p, x);
        LiveRange(q, x);
        OwnersDisjoint(p, q, x);
      }
    }

    lemma HeaderSafe(m': Memory, p: int, q: int)
      requires BlocksOk() && SizesOk() && IsLive(p) && q in place && !IsSlot(q)
      requires OnlyWithin(mem, m', p, place[p].size)
      ensures Header(m', q) == Header(mem, q)
    {
      forall x | q - 4 <= x < q ensures m'(x) == mem(x) {
        if p <= x < p + place[p].size {
          LiveRange(p, x);
          OwnersDisjoint(p, q, x);
        }
      }
      LoadFrame(mem, m', q - 4, 4);
    }

    lemma OtherSafe(m': Memory, p: int, q: int)
      requires BlocksOk() && SizesOk() && IsLive(p) && IsLive(q) && p != q
      requires OnlyWithin(mem, m', p, place[p].size)
      ensures Bytes(m', q, place[q].size) == Bytes(mem, q, place[q].size)
    {
      forall x | q <= x < q + place[q].size ensures m'(x) == mem(x) {
        if p <= x < p + place[p].size {
          LiveRange(p, x);
          LiveRange(q, x);
          OwnersDisjoint(p, q, x);
        }
      }
    }

    /** Memory may change freely inside one live buffer. */
    lemma WriteLive(m': Memory, p: int)
      requires Valid() && IsLive(p) && OnlyWithin(mem, m', p, place[p].size)
      ensures this.(mem := m').Valid()
      ensures this.(mem := m').View() == View()[p := Bytes(m', p, place[p].size)]
    {
      WriteHeaders(m', p);
      WriteView(m', p);
    }

    lemma WriteHeaders(m': Memory, p: int)
      requires Valid() && IsLive(p) && OnlyWithin(mem, m', p, place[p].size)
      ensures this.(mem := m').Valid()
    {
      forall q | q in place && !IsSlot(q) ensures Header(m', q) == Header(mem, q) {
        HeaderSafe(m', p, q);
      }
      SameHeaders(m');
    }

    lemma SameHeaders(m': Memory)
      requires Valid() && forall q :: q in place && !IsSlot(q) ==> Header(m', q) == Header(mem, q)
      ensures this.(mem := m').Valid()
    {
      var s := this.(mem := m');
      assert s.BlocksOk();
      assert s.SizesOk();
      assert s.PoolsOk();
    }

    lemma WriteView(m': Memory, p: int)
      requires Valid() && IsLive(p) && OnlyWithin(mem, m', p, place[p].size)
      ensures this.(mem := m').View() == View()[p := Bytes(m', p, place[p].size)]
    {
      forall q | IsLive(q) && q != p
        ensures Bytes(m', q, place[q].size) == Bytes(mem, q, place[q].size)
      {
        OtherSafe(m', p, q);
      }
    }

    /** The pool as constructed: one block, all of it free slots. */
    ghost predicate Initial()
    {
      && tinyHeap > 0 && Aligned(tinyHeap)
      && blocks.Keys == {tinyHeap} && blocks[tinyHeap] == TINY_BYTES
      && small == [] && med == []
      && TinyMatches(tiny, place) && place == AllFree(tinyHeap)
    }

    lemma InitialValid()
      requires Initial()
      ensures Valid() && View() == map[]
    {
      assert PlacesOk() by {
        assert forall p :: !IsHeapPtr(p);
      }
      assert SizesOk() by {
        forall p | p in place ensures SizeOk(p, place[p]) {}
      }
    }

    lemma BlocksKeep(place': map<int, Place>)
      requires BlocksOk() && place'.Keys == place.Keys
      ensures this.(place := place').BlocksOk()
    {
    }

    lemma SizesKeep(p: int, v: Place)
      requires SizesOk() && SizeOk(p, v)
      ensures this.(place := place[p := v]).SizesOk()
    {
      var s := this.(place := place[p := v]);
      forall q | q in s.place ensures s.SizeOk(q, s.place[q]) {
        assert SizeOk(q, s.place[q]);
      }
    }

    lemma TakeTiny(n: nat)
      requires Valid() && |tiny| > 0 && n <= TINY_BUFFER_SIZE
      ensures var p := tiny[|tiny| - 1];
        && p in place && place[p].FreeSlot?
        && this.(tiny := tiny[..|tiny| - 1], place := place[p := Live(n)]).Valid()
    {
      var p := tiny[|tiny| - 1];
      BlocksKeep(place[p := Live(n)]);
      SizesKeep(p, Live(n));
      PoolKeeps(small, false, place, mem, p, Live(n));
      PoolKeeps(med, true, place, mem, p, Live(n));
    }

    /** While some slot is live, the array of free slots is not full. */
    lemma TinyPoolNotFull(p: int)
      requires Valid() && IsLive(p) && IsSlot(p)
      ensures |tiny| < MAX_TINY_BUFFERS
    {
      var all := tiny + [p];
      var index := seq(|all|, i requires 0 <= i < |all| => SlotIndex(tinyHeap, all[i]));
      forall i | 0 <= i < |all| ensures IsSlot(all[i]) {
        assert i < |tiny| ==> SizeOk(tiny[i], place[tiny[i]]);
      }
      forall i, j | 0 <= i < j < |all| ensures index[i] != index[j] {
        IndexOfSlot(tinyHeap, all[i]);
        IndexOfSlot(tinyHeap, all[j]);
      }
      forall i | 0 <= i < |all| ensures 0 <= index[i] < MAX_TINY_BUFFERS {
        IndexOfSlot(tinyHeap, all[i]);
      }
      Pigeonhole(index, MAX_TINY_BUFFERS);
    }

    lemma GiveTiny(p: int)
      requires Valid() && IsLive(p) && IsSlot(p)
      ensures this.(tiny := tiny + [p], place := place[p := FreeSlot(|tiny|)]).Valid()
    {
      var v := FreeSlot(|tiny|);
      BlocksKeep(place[p := v]);
      SizesKeep(p, v);
      PoolKeeps(small, false, place, mem, p, v);
      PoolKeeps(med, true, place, mem, p, v);
    }

    lemma MovedKeeps(pool: seq<MemBlock>, isMed: bool, i: int, n: nat)
      requires BlocksOk() && SizesOk() && TinyMatches(tiny, place)
      requires PoolMatches(pool, isMed, place, mem) && 0 <= i < |pool| && n <= pool[i].bytes
      ensures var s := this.(place := Moved(pool, isMed, place, i, n));
        s.BlocksOk() && s.SizesOk() && TinyMatches(tiny, s.place)
    {
      var q, p := pool[|pool| - 1].ptr, pool[i].ptr;
      var mid := this.(place := place[q := Pooled(isMed, i)]);
      SizesKeep(q, Pooled(isMed, i));
      mid.SizesKeep(p, Live(n));
      TinyKeeps(tiny, place, q, Pooled(isMed, i));
      TinyKeeps(tiny, mid.place, p, Live(n));
      BlocksKeep(Moved(pool, isMed, place, i, n));
    }

    lemma MovedOther(pool: seq<MemBlock>, isMed: bool, i: int, n: nat, other: seq<MemBlock>)
      requires PoolMatches(pool, isMed, place, mem) && 0 <= i < |pool|
      requires PoolMatches(other, !isMed, place, mem)
      ensures PoolMatches(other, !isMed, Moved(pool, isMed, place, i, n), mem)
    {
      var q, p := pool[|pool| - 1].ptr, pool[i].ptr;
      PoolKeeps(other, !isMed, place, mem, q, Pooled(isMed, i));
      PoolKeeps(other, !isMed, place[q := Pooled(isMed, i)], mem, p, Live(n));
    }

    lemma TakeSmall(i: int, n: nat)
      requires Valid() && 0 <= i < |small| && n <= small[i].bytes
      ensures this.(small := SwapRemove(small, i), place := Moved(small, false, place, i, n)).Valid()
    {
      PoolTakes(small, false, place, mem, i, n);
      MovedKeeps(small, false, i, n);
      MovedOther(small, false, i, n, med);
      var s := this.(small := SwapRemove(small, i), place := Moved(small, false, place, i, n));
      assert s.BlocksOk();
      assert s.SizesOk();
    }

    lemma TakeSmallStep(s': State, i: int, n: nat)
      requires Valid() && Supplier(n) == FromSmall
      requires 0 <= i < |small| && n <= small[i].bytes && forall j :: i < j < |small| ==> small[j].bytes < n
      requires s' == this.(small := SwapRemove(small, i), place := Moved(small, false, place, i, n))
      ensures s'.Valid() && MallocStep(s', small[i].ptr, n) && Added(View(), s'.View(), small[i].ptr, n)
    {
      TakeSmall(i, n);
      InTinyHeapExact(small[i].ptr);
      ViewAdds(s', small[i].ptr, n);
    }

    lemma TakeMedStep(s': State, i: int, n: nat)
      requires Valid() && Supplier(n) == FromMed
      requires 0 <= i < |med| && n <= med[i].bytes && forall j :: i < j < |med| ==> med[j].bytes < n
      requires s' == this.(med := SwapRemove(med, i), place := Moved(med, true, place, i, n))
      ensures s'.Valid() && MallocStep(s', med[i].ptr, n) && Added(View(), s'.View(), med[i].ptr, n)
    {
      TakeMed(i, n);
      InTinyHeapExact(med[i].ptr);
      ViewAdds(s', med[i].ptr, n);
    }

    lemma TakeMed(i: int, n: nat)
      requires Valid() && 0 <= i < |med| && n <= med[i].bytes
      ensures this.(med := SwapRemove(med, i), place := Moved(med, true, place, i, n)).Valid()
    {
      PoolTakes(med, true, place, mem, i, n);
      MovedKeeps(med, true, i, n);
      MovedOther(med, true, i, n, small);
      var s := this.(med := SwapRemove(med, i), place := Moved(med, true, place, i, n));
      assert s.BlocksOk();
      assert s.SizesOk();
    }

    lemma GiveKeeps(p: int, v: Place)
      requires BlocksOk() && SizesOk() && TinyMatches(tiny, place) && IsLive(p) && SizeOk(p, v) && !v.FreeSlot?
      ensures var s := this.(place := place[p := v]);
        s.BlocksOk() && s.SizesOk() && TinyMatches(tiny, s.place)
    {
      BlocksKeep(place[p := v]);
      SizesKeep(p, v);
      TinyKeeps(tiny, place, p, v);
    }

    lemma GiveSmall(p: int)
      requires Valid() && IsLive(p) && !IsSlot(p) && Header(mem, p) <= SMALL_BUFFER_SIZE
      ensures this.(small := small + [MemBlock(p, Header(mem, p))], place := place[p := Pooled(false, |small|)]).Valid()
    {
      GiveKeeps(p, Pooled(false, |small|));
      PoolGives(small, false, place, mem, p);
      PoolKeeps(med, true, place, mem, p, Pooled(false, |small|));
    }

    lemma GiveMed(p: int)
      requires Valid() && IsLive(p) && !IsSlot(p) && SMALL_BUFFER_SIZE < Header(mem, p) <= MED_BUFFER_SIZE
      ensures this.(med := med + [MemBlock(p, Header(mem, p))], place := place[p := Pooled(true, |med|)]).Valid()
    {
      GiveKeeps(p, Pooled(true, |med|));
      PoolGives(med, true, place, mem, p);
      PoolKeeps(small, false, place, mem, p, Pooled(true, |med|));
    }

    lemma Resize(p: int, n: nat)
      requires Valid() && IsLive(p) && (if IsSlot(p) then n <= TINY_BUFFER_SIZE else n <= Header(mem, p))
      ensures this.(place := place[p := Live(n)]).Valid()
    {
      GiveKeeps(p, Live(n));
      PoolKeeps(small, false, place, mem, p, Live(n));
      PoolKeeps(med, true, place, mem, p, Live(n));
    }

    lemma FreeView(s': State, p: int)
      requires IsLive(p) && s'.mem == mem && !s'.IsLive(p)
      requires s'.place == place - {p} || (p in s'.place && s'.place == place[p := s'.place[p]])
      ensures s'.View() == View() - {p}
    {
      forall q | q != p ensures SameView(s', q) {}
      ViewDrops(s', p);
    }

    /** A header is the room behind it less a multiple of 2^32. */
    lemma HeaderCut(p: int)
      requires BlocksOk() && p in place && !IsSlot(p)
      ensures exists k :: blocks[p - 4] == Header(mem, p) + 4 + Wraps(k)
    {
      assert HeaderOk(p);
      assert blocks[p - 4] == Header(mem, p) + 4 + Wraps((blocks[p - 4] - 4) / WORD32);
    }

    /** What realloc takes a buffer to have room for. */
    ghost function Room(p: int): nat
    {
      if IsSlot(p) then TINY_BUFFER_SIZE else Header(mem, p)
    }

    /** The bytes a realloc copies include those it must keep, and no others when the size was cut. */
    lemma KeptCovered(p: int, bytes: nat)
      requires Valid() && IsLive(p)
      ensures var size := place[p].size;
        bytes > Room(p) ==> Kept(size, bytes) <= Room(p) && (Cut(size, bytes) ==> Room(p) == Kept(size, bytes))
    {
      assert SizeOk(p, place[p]);
      if !IsSlot(p) { assert HeaderOk(p); }
    }

    /** What a realloc of p to n bytes does, with between the state after its malloc: the buffer moves just
        if it has not the room, the bytes that must be kept are, and when its size was cut in the header the
        new buffer keeps none of the others, but has what memory held there. */
    ghost predicate Reallocated(between: State, v': map<int, seq<byte>>, p: int, p': int, n: nat)
      requires p in View()
    {
      var old_ := View()[p];
      && Resized(View(), v', p, p', n)
      && (p' == p <==> n <= Room(p))
      && v'[p'][..Kept(|old_|, n)] == old_[..Kept(|old_|, n)]
      && (p' != p ==> MallocStep(between, p', n) && p' in between.View())
      && (Cut(|old_|, n) ==> p' != p && CutOver(old_, between.View()[p'], v'[p']))
    }

    /** A size that fits the room is not cut. */
    lemma NotCut(p: int, bytes: nat)
      requires Valid() && IsLive(p) && bytes <= Room(p)
      ensures !Cut(place[p].size, bytes)
    {
      assert SizeOk(p, place[p]);
      if !IsSlot(p) { assert HeaderOk(p); }
    }

    lemma RoomKeeps(s': State, p: int)
      requires BlocksOk() && s'.BlocksOk() && s'.tinyHeap == tinyHeap && p in place && p in s'.place
      requires p - 4 in s'.blocks && p - 4 in blocks ==> s'.blocks[p - 4] == blocks[p - 4]
      ensures s'.Room(p) == Room(p)
    {
      if !IsSlot(p) { assert HeaderOk(p) && s'.HeaderOk(p); }
    }

    /** Reading all of one buffer's room while writing another's bytes is a legal memcpy. */
    lemma CopyDisjoint(dst: int, src: int, n: nat)
      requires Valid() && IsLive(dst) && src in place && dst != src && n <= place[dst].size
      requires n <= Room(src)
      ensures dst + n <= src || src + n <= dst
    {
      if !IsSlot(src) { assert HeaderOk(src); }
      var x := if dst < src then src else dst;
      if dst <= x < dst + n && src <= x < src + n {
        LiveRange(dst, x);
        OwnersDisjoint(dst, src, x);
      }
    }

    lemma ResizeView(s': State, p: int, n: nat)
      requires Valid() && IsLive(p) && s' == this.(place := place[p := Live(n)])
      ensures Resized(View(), s'.View(), p, p, n)
    {
      InTinyHeapExact(p);
      forall q | q in View() && q != p ensures s'.View()[q] == View()[q] {}
      assert s'.View().Keys == View().Keys - {p} + {p};
    }

    lemma KeptInPlace(between: State, p: int, bytes: nat)
      requires Valid() && IsLive(p) && bytes <= Room(p)
      ensures var s' := this.(place := place[p := Live(bytes)]);
              s'.Valid() && Reallocated(between, s'.View(), p, p, bytes)
    {
      NotCut(p, bytes);
      Resize(p, bytes);
      ResizeView(this.(place := place[p := Live(bytes)]), p, bytes);
    }

    lemma ReleaseBlocks(p: int)
      requires BlocksOk() && p in place && !IsSlot(p)
      ensures this.(blocks := blocks - {p - 4}, place := place - {p}).BlocksOk()
    {
    }

    lemma ReleaseSizes(p: int)
      requires SizesOk() && p in place
      ensures this.(blocks := blocks - {p - 4}, place := place - {p}).SizesOk()
    {
      var s := this.(blocks := blocks - {p - 4}, place := place - {p});
      forall q | q in s.place ensures s.SizeOk(q, s.place[q]) {
        assert SizeOk(q, place[q]);
      }
    }

    lemma Release(p: int)
      requires Valid() && IsLive(p) && !IsSlot(p)
      ensures this.(blocks := blocks - {p - 4}, place := place - {p}).Valid()
    {
      ReleaseBlocks(p);
      ReleaseSizes(p);
    }

    lemma Released(s': State, p: int)
      requires Valid() && IsLive(p) && !IsSlot(p)
      requires Header(mem, p) <= SMALL_BUFFER_SIZE ==> |small| == MAX_SMALL_BUFFERS
      requires SMALL_BUFFER_SIZE < Header(mem, p) <= MED_BUFFER_SIZE ==> |med| == MAX_MED_BUFFERS
      requires s' == this.(blocks := blocks - {p - 4}, place := place - {p})
      ensures s'.Valid() && FreeStep(s', p) && s'.View() == View() - {p}
    {
      InTinyHeapExact(p);
      Release(p);
      FreeView(s', p);
    }

    lemma NewBlockHeaders(b: int, n: nat, m': Memory)
      requires BlocksOk() && b !in blocks && WellFormed(blocks[b := n + 4])
      requires OnlyWithin(mem, m', b, n + 4)
      ensures b + 4 !in place
      ensures forall p :: p in place && !IsSlot(p) ==> Header(m', p) == Header(mem, p)
    {
      var blocks' := blocks[b := n + 4];
      assert b in blocks' && tinyHeap in blocks';
      forall p | p in place && !IsSlot(p) ensures Header(m', p) == Header(mem, p) {
        assert p - 4 in blocks' && b in blocks';
        LoadFrame(mem, m', p - 4, 4);
      }
    }

    lemma NewBlockPlaces(b: int, n: nat)
      requires PlacesOk() && b != tinyHeap
      ensures this.(blocks := blocks[b := n + 4], place := place[b + 4 := Live(n)]).PlacesOk()
    {
      var s := this.(blocks := blocks[b := n + 4], place := place[b + 4 := Live(n)]);
      forall p ensures p in s.place <==> s.IsSlot(p) || s.IsHeapPtr(p) {
        NewBlockPlace(b, n, p);
      }
    }
    lemma NewBlockPlace(b: int, n: nat, p: int)
      requires p in place <==> IsSlot(p) || IsHeapPtr(p)
      requires b != tinyHeap
      ensures var s := this.(blocks := blocks[b := n + 4], place := place[b + 4 := Live(n)]);
          p in s.place <==> s.IsSlot(p) || s.IsHeapPtr(p)
    {
    }

    lemma NewBlockHeadersOk(b: int, n: nat, m': Memory)
      requires HeadersOk() && Load(m', b, 4) == n % WORD32
      requires forall p :: p in place && !IsSlot(p) ==> Header(m', p) == Header(mem, p)
      ensures this.(blocks := blocks[b := n + 4], place := place[b + 4 := Live(n)], mem := m').HeadersOk()
    {
      var s := this.(blocks := blocks[b := n + 4], place := place[b + 4 := Live(n)], mem := m');
      forall p | p in s.place && !s.IsSlot(p) ensures s.HeaderOk(p) {
        if p != b + 4 { assert HeaderOk(p); }
      }
    }

    lemma NewBlockBlocks(b: int, n: nat, m': Memory)
      requires BlocksOk() && b !in blocks && WellFormed(blocks[b := n + 4])
      requires Load(m', b, 4) == n % WORD32
      requires forall p :: p in place && !IsSlot(p) ==> Header(m', p) == Header(mem, p)
      ensures this.(blocks := blocks[b := n + 4], place := place[b + 4 := Live(n)], mem := m').BlocksOk()
    {
      NewBlockPlaces(b, n);
      NewBlockHeadersOk(b, n, m');
      var s := this.(blocks := blocks[b := n + 4], place := place[b + 4 := Live(n)], mem := m');
      assert s.PlacesOk();
      assert s.HeadersOk();
    }

    lemma NewBlockSizes(b: int, n: nat, m': Memory)
      requires SizesOk() && b !in blocks && b + 4 !in place && !IsSlot(b + 4)
      requires forall p :: p in place && !IsSlot(p) ==> Header(m', p) == Header(mem, p)
      ensures this.(blocks := blocks[b := n + 4], place := place[b + 4 := Live(n)], mem := m').SizesOk()
    {
      var s := this.(blocks := blocks[b := n + 4], place := place[b + 4 := Live(n)], mem := m');
      forall p | p in s.place ensures s.SizeOk(p, s.place[p]) {
        if p != b + 4 { assert SizeOk(p, place[p]); }
      }
    }

    /** The new block is outside all live buffers. */
    lemma NewBlockView(b: int, n: nat, m': Memory)
      requires Valid() && b !in blocks && WellFormed(blocks[b := n + 4])
      requires OnlyWithin(mem, m', b, n + 4)
      ensures forall p :: IsLive(p) ==> Bytes(m', p, place[p].size) == Bytes(mem, p, place[p].size)
    {
      var blocks' := blocks[b := n + 4];
      forall p | IsLive(p) ensures Bytes(m', p, place[p].size) == Bytes(mem, p, place[p].size) {
        forall x | p <= x < p + place[p].size ensures m'(x) == mem(x) {
          LiveRange(p, x);
          assert b in blocks' && tinyHeap in blocks' && (IsSlot(p) || p - 4 in blocks');
        }
      }
    }

    lemma NewBlockValid(s': State, b: int, n: nat)
      requires Valid() && b !in blocks && WellFormed(blocks[b := n + 4])
      requires OnlyWithin(mem, s'.mem, b, n + 4) && Load(s'.mem, b, 4) == n % WORD32
      requires s' == this.(blocks := blocks[b := n + 4], place := place[b + 4 := Live(n)], mem := s'.mem)
      ensures b + 4 !in place && s'.Valid()
    {
      NewBlockHeaders(b, n, s'.mem);
      NewBlockBlocks(b, n, s'.mem);
      NewBlockSizes(b, n, s'.mem);
      SameHeaders(s'.mem);
      TinyKeeps(tiny, place, b + 4, Live(n));
      PoolKeeps(small, false, place, s'.mem, b + 4, Live(n));
      PoolKeeps(med, true, place, s'.mem, b + 4, Live(n));
    }

    /** A new block of the C heap, its size written in front. */
    lemma NewBlock(s': State, b: int, n: nat)
      requires Valid() && Supplier(n) == FromCHeap
      requires b > 0 && b !in blocks && WellFormed(blocks[b := n + 4])
      requires OnlyWithin(mem, s'.mem, b, n + 4) && Load(s'.mem, b, 4) == n % WORD32
      requires s' == this.(blocks := blocks[b := n + 4], place := place[b + 4 := Live(n)], mem := s'.mem)
      ensures s'.Valid() && MallocStep(s', b + 4, n) && Added(View(), s'.View(), b + 4, n)
    {
      NewBlockValid(s', b, n);
      NewBlockView(b, n, s'.mem);
      forall q | q != b + 4 ensures SameView(s', q) {}
      ViewAdds(s', b + 4, n);
    }
  }

  lemma {:induction false} Pigeonhole(s: seq<int>, n: nat)
    requires forall i :: 0 <= i < |s| ==> 0 <= s[i] < n
    requires forall i, j :: 0 <= i < j < |s| ==> s[i] != s[j]
    ensures |s| <= n
  {
    if |s| > 0 {
      assert 0 <= s[0] < n;
      if i :| 0 <= i < |s| && s[i] == n - 1 {
        Pigeonhole(s[..i] + s[i + 1..], n - 1);
      } else {
        Pigeonhole(s, n - 1);
      }
    }
  }

  /** Every slot free. */
  ghost function AllFree(tinyHeap: int): map<int, Place>
  {
    map p | tinyHeap <= p < tinyHeap + TINY_BYTES && IsSlotOf(tinyHeap, p) :: FreeSlot(SlotIndex(tinyHeap, p))
  }

  lemma IndexOfSlot(tinyHeap: int, p: int)
    requires IsSlotOf(tinyHeap, p)
    ensures 0 <= SlotIndex(tinyHeap, p) < MAX_TINY_BUFFERS
    ensures p == SlotAddress(tinyHeap, SlotIndex(tinyHeap, p))
  {
  }

  lemma InitialTiny(tinyHeap: int, tiny: seq<int>)
    requires |tiny| == MAX_TINY_BUFFERS
    requires forall i :: 0 <= i < |tiny| ==> tiny[i] == SlotAddress(tinyHeap, i)
    ensures TinyMatches(tiny, AllFree(tinyHeap))
  {
    var place := AllFree(tinyHeap);
    forall i | 0 <= i < |tiny| ensures tiny[i] in place && place[tiny[i]] == FreeSlot(i) {
      IndexOfSlot(tinyHeap, tiny[i]);
    }
    forall p | p in place ensures 0 <= place[p].i < |tiny| && tiny[place[p].i] == p {
      IndexOfSlot(tinyHeap, p);
    }
  }
}
