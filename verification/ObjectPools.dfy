/** Pools of objects: one that constructs objects in chunks of raw memory, and one that keeps them on a list. */
module ObjectPools {
  import opened ByteValues

  const ACE_OBJECT_POOL_INIT_SIZE := 100
  const OBJECT_POOL_INIT_SIZE := 16

  // Raw memory. Chunks are numbered as they are allocated.

  /** The place for an object in a chunk. */
  datatype Slot = Slot(chunk: nat, index: nat)

  /** The places in the k-th chunk. */
  function ChunkSize(k: nat): (n: nat)
    ensures n >= 100
  {
    if k == 0 then ACE_OBJECT_POOL_INIT_SIZE else 2 * ChunkSize(k - 1)
  }

  lemma {:induction false} ChunkSizesGrow(j: nat, k: nat)
    requires j < k
    ensures ChunkSize(j) < ChunkSize(k)
    decreases k
  {
    if j < k - 1 { ChunkSizesGrow(j, k - 1); }
  }

  /** The places in all chunks below the k-th: two chunk sizes less, but for the first chunk. */
  function PlacesBelow(k: nat): nat
  {
    if k == 0 then 0 else PlacesBelow(k - 1) + ChunkSize(k - 1)
  }

  lemma {:induction false} PlacesBelowIs(k: nat)
    ensures PlacesBelow(k) + ACE_OBJECT_POOL_INIT_SIZE == ChunkSize(k)
    decreases k
  {
    if k > 0 { PlacesBelowIs(k - 1); }
  }

  predicate IsPlace(s: Slot, chunks: nat)
  {
    s.chunk < chunks && s.index < ChunkSize(s.chunk)
  }

  /** The map from sizes to chunks, once that many have been allocated. */
  function ChunksBySize(chunks: nat): map<nat, nat>
  {
    if chunks == 0 then map[] else ChunksBySize(chunks - 1)[ChunkSize(chunks - 1) := chunks - 1]
  }

  /** Sizes are keys of their own, so that no chunk is missing from the map. */
  lemma {:induction false} ChunksBySizeHas(chunks: nat)
    ensures forall n :: n in ChunksBySize(chunks) ==> ChunksBySize(chunks)[n] < chunks && n == ChunkSize(ChunksBySize(chunks)[n])
    ensures forall k: nat :: k < chunks ==> ChunkSize(k) in ChunksBySize(chunks) && ChunksBySize(chunks)[ChunkSize(k)] == k
    decreases chunks
  {
    if chunks > 0 {
      ChunksBySizeHas(chunks - 1);
      forall k: nat | k < chunks - 1
        ensures ChunkSize(k) != ChunkSize(chunks - 1)
      {
        ChunkSizesGrow(k, chunks - 1);
      }
    }
  }

  predicate NoDuplicates(s: seq<Slot>)
  {
    forall i, j :: 0 <= i < j < |s| ==> s[i] != s[j]
  }

  /** The places of the k-th chunk in order. */
  function PlacesOf(k: nat, n: nat): (s: seq<Slot>)
    ensures |s| == n && forall i :: 0 <= i < n ==> s[i] == Slot(k, i)
  {
    seq(n, i requires 0 <= i < n => Slot(k, i))
  }

  lemma PlacesOfHas(k: nat, n: nat)
    ensures forall s: Slot :: s in PlacesOf(k, n) <==> s.chunk == k && s.index < n
  {
    forall s: Slot | s.chunk == k && s.index < n
      ensures s in PlacesOf(k, n)
    {
      assert PlacesOf(k, n)[s.index] == s;
    }
  }

  class ACE_ObjectPool {
    /** sizeof(ObjectType) */
    const objSize: nat
    var mFreePointerIndexes: map<nat, nat>
    var mFreeIndexes: seq<Slot>
    var mGrowSize: nat
    var mUnusedCount: nat
    var mUsedCount: nat
    var mTotalCount: nat
    /** The chunks allocated so far, which gives the next its number. */
    var chunks: nat
    ghost var live: set<Slot>
    ghost var peakUsed: nat
    /** The chunks given back, as often as they were. */
    ghost var released: multiset<nat>

    ghost predicate Valid()
      reads this
    {
      mGrowSize == ChunkSize(chunks) && mTotalCount == PlacesBelow(chunks)
      && mFreePointerIndexes == ChunksBySize(chunks)
      && mUsedCount == |live| && mUnusedCount == |mFreeIndexes| && mUsedCount + mUnusedCount == mTotalCount
      && (forall s :: IsPlace(s, chunks) <==> s in live || s in mFreeIndexes)
      && (forall s :: s in live ==> s !in mFreeIndexes) && NoDuplicates(mFreeIndexes)
      && mUsedCount <= peakUsed
    }

    /** The pool is not much more than twice as large as it ever had to be. */
    ghost predicate Tight()
      reads this
    {
      mTotalCount <= 2 * peakUsed + ACE_OBJECT_POOL_INIT_SIZE
    }

    /** Growing keeps sizes and counts to 32 bits. */
    ghost predicate CanGrow()
      reads this
    {
      2 * mGrowSize < WORD32 && mGrowSize * objSize < WORD32
    }

    constructor (size: nat)
      requires ACE_OBJECT_POOL_INIT_SIZE * size < WORD32
      ensures Valid() && Tight() && live == {} && released == multiset{} && chunks == 1 && objSize == size && peakUsed == 0
    {
      objSize := size;
      mGrowSize, mFreePointerIndexes, mFreeIndexes := ACE_OBJECT_POOL_INIT_SIZE, map[], [];
      mUnusedCount, mUsedCount, mTotalCount := 0, 0, 0;
      live, chunks, peakUsed, released := {}, 0, 0, multiset{};
      new;
      Grow();
    }

    /** Adds a chunk of twice the size of the last. The pool is tight after that if and only if all of it
        was in use at some time, as when no place is free. */
    method Grow()
      requires Valid() && CanGrow()
      modifies this
      ensures Valid() && chunks == old(chunks) + 1 && mTotalCount < WORD32 && mGrowSize < WORD32
      ensures live == old(live) && released == old(released) && peakUsed == old(peakUsed)
      ensures mFreeIndexes == old(mFreeIndexes) + PlacesOf(old(chunks), old(mGrowSize))
      ensures Tight() <==> old(mTotalCount) <= peakUsed
      ensures old(mFreeIndexes) == [] ==> Tight()
    {
      if mGrowSize !in mFreePointerIndexes {
        mFreePointerIndexes := mFreePointerIndexes[mGrowSize := chunks];
      }
      NewSizeIsNew(chunks);
      PlacesBelowIs(chunks);
      PlacesAdded(live, mFreeIndexes, chunks, mGrowSize);
      var free := mFreeIndexes;
      for i := 0 to mGrowSize
        invariant free == mFreeIndexes + PlacesOf(chunks, i)
      {
        free := free + [Slot(chunks, i)];
      }
      mFreeIndexes := free;
      mUnusedCount := mUnusedCount + mGrowSize;
      mTotalCount := mTotalCount + mGrowSize;
      mGrowSize := mGrowSize * 2;
      chunks := chunks + 1;
    }

    /** A free place, which the caller then uses. */
    method GetFreePointer() returns (ptr: Slot)
      requires Valid() && (mFreeIndexes == [] ==> CanGrow())
      modifies this
      ensures Valid() && (old(Tight()) ==> Tight())
      ensures IsPlace(ptr, chunks) && ptr !in old(live) && live == old(live) + {ptr}
      ensures chunks == (if old(mFreeIndexes) == [] then old(chunks) + 1 else old(chunks)) && released == old(released)
      ensures peakUsed == if |live| > old(peakUsed) then |live| else old(peakUsed)
    {
      if mFreeIndexes == [] { Grow(); }
      ptr := TakeLast();
    }

    method TakeLast() returns (ptr: Slot)
      requires Valid() && mFreeIndexes != []
      modifies this
      ensures Valid() && (old(Tight()) ==> Tight())
      ensures IsPlace(ptr, chunks) && ptr !in old(live) && live == old(live) + {ptr}
      ensures chunks == old(chunks) && released == old(released)
      ensures peakUsed == if |live| > old(peakUsed) then |live| else old(peakUsed)
    {
      LastTaken(live, mFreeIndexes, chunks);
      ptr := mFreeIndexes[|mFreeIndexes| - 1];
      mFreeIndexes := mFreeIndexes[..|mFreeIndexes| - 1];
      mUsedCount := mUsedCount + 1;
      mUnusedCount := mUnusedCount - 1;
      live := live + {ptr};
      if mUsedCount > peakUsed { peakUsed := mUsedCount; }
    }

    /** Gives a place back. */
    method Dtor(ptr: Slot)
      requires Valid() && ptr in live
      modifies this
      ensures Valid() && live == old(live) - {ptr} && mFreeIndexes == old(mFreeIndexes) + [ptr]
      ensures chunks == old(chunks) && released == old(released) && peakUsed == old(peakUsed)
      ensures Tight() == old(Tight())
    {
      mFreeIndexes := mFreeIndexes + [ptr];
      mUsedCount := mUsedCount - 1;
      mUnusedCount := mUnusedCount + 1;
      live := live - {ptr};
    }

    /** Frees every chunk. The map keeps them, so that freeing again would free each once more. */
    method Gc()
      requires Valid()
      modifies this`released
      ensures Valid()
      ensures forall k: nat :: released[k] == old(released)[k] + (if k < chunks then 1 else 0)
    {
      ChunksBySizeHas(chunks);
      ghost var was := released;
      var sizes := mFreePointerIndexes.Keys;
      while sizes != {}
        invariant Valid() && sizes <= mFreePointerIndexes.Keys
        invariant Freed(was, sizes, chunks, released)
        decreases |sizes|
      {
        var n :| n in sizes;
        FreedOne(was, sizes, chunks, released, n);
        released := released + multiset{mFreePointerIndexes[n]};
        sizes := sizes - {n};
      }
    }
  }

  /** Every chunk but those of the sizes left is freed once more than it was. */
  ghost predicate Freed(was: multiset<nat>, left: set<nat>, chunks: nat, now: multiset<nat>)
  {
    forall k: nat :: now[k] == was[k] + (if k < chunks && ChunkSize(k) !in left then 1 else 0)
  }

  lemma FreedOne(was: multiset<nat>, left: set<nat>, chunks: nat, now: multiset<nat>, n: nat)
    requires Freed(was, left, chunks, now) && n in left && left <= ChunksBySize(chunks).Keys
    ensures Freed(was, left - {n}, chunks, now + multiset{ChunksBySize(chunks)[n]})
  {
    ChunksBySizeHas(chunks);
    var chunk := ChunksBySize(chunks)[n];
    forall k: nat
      ensures (now + multiset{chunk})[k] == was[k] + (if k < chunks && ChunkSize(k) !in left - {n} then 1 else 0)
    {
      if k < chunks { assert ChunksBySize(chunks)[ChunkSize(k)] == k; }
    }
  }

  /** The places of a new chunk are free and no others. */
  lemma PlacesAdded(live: set<Slot>, free: seq<Slot>, chunks: nat, n: nat)
    requires n == ChunkSize(chunks) && NoDuplicates(free)
    requires forall s :: IsPlace(s, chunks) <==> s in live || s in free
    requires forall s :: s in live ==> s !in free
    ensures var more := free + PlacesOf(chunks, n);
            NoDuplicates(more) && (forall s :: IsPlace(s, chunks + 1) <==> s in live || s in more)
            && (forall s :: s in live ==> s !in more)
  {
    PlacesOfHas(chunks, n);
    var places := PlacesOf(chunks, n);
    forall s: Slot
      ensures IsPlace(s, chunks + 1) <==> IsPlace(s, chunks) || s in places
    {
    }
    forall i, j | 0 <= i < j < |free + places|
      ensures (free + places)[i] != (free + places)[j]
    {
      if i < |free| <= j { assert free[i] in free && IsPlace(free[i], chunks); }
    }
  }

  /** The last free place goes live. */
  lemma LastTaken(live: set<Slot>, free: seq<Slot>, chunks: nat)
    requires free != [] && NoDuplicates(free)
    requires forall s :: IsPlace(s, chunks) <==> s in live || s in free
    requires forall s :: s in live ==> s !in free
    ensures var front, ptr := free[..|free| - 1], free[|free| - 1];
            ptr !in live && IsPlace(ptr, chunks) && NoDuplicates(front)
            && (forall s :: IsPlace(s, chunks) <==> s in live + {ptr} || s in front)
            && (forall s :: s in live + {ptr} ==> s !in front)
  {
    var front, ptr := free[..|free| - 1], free[|free| - 1];
    assert free == front + [ptr];
    assert forall i :: 0 <= i < |front| ==> front[i] == free[i];
    assert ptr in free;
  }

  lemma NewSizeIsNew(chunks: nat)
    ensures ChunkSize(chunks) !in ChunksBySize(chunks)
  {
    ChunksBySizeHas(chunks);
    if ChunkSize(chunks) in ChunksBySize(chunks) {
      ChunkSizesGrow(ChunksBySize(chunks)[ChunkSize(chunks)], chunks);
    }
  }

  /** A new pool that is grown is too large, as nothing was ever in use. */
  method GrowsTooFar(size: nat) returns (pool: ACE_ObjectPool)
    requires 2 * ACE_OBJECT_POOL_INIT_SIZE * size < WORD32
    ensures pool.Valid() && !pool.Tight() && pool.mFreeIndexes != [] && pool.live == {}
  {
    pool := new ACE_ObjectPool(size);
    assert PlacesBelow(1) == ACE_OBJECT_POOL_INIT_SIZE && ChunkSize(1) == 2 * ACE_OBJECT_POOL_INIT_SIZE;
    pool.Grow();
  }

  /** The chunk of a new pool is freed by each of two calls. */
  method FreesTwice(size: nat) returns (pool: ACE_ObjectPool)
    requires ACE_OBJECT_POOL_INIT_SIZE * size < WORD32
    ensures pool.Valid() && pool.chunks == 1 && pool.released[0] == 2
  {
    pool := new ACE_ObjectPool(size);
    pool.Gc();
    pool.Gc();
  }

  /** A pool of objects on a list. Objects are numbered as they are made. */
  class ObjectPool {
    var objects_: seq<nat>
    var maxCount_: nat
    var isDestroyed_: bool
    var totalAlloc_: int
    var obj_count_: nat
    /** The objects made so far, which gives the next its number. */
    var made: nat
    ghost var out: set<nat>
    /** The objects that were deleted with the list. */
    ghost var dropped: seq<nat>

    /** Objects are on the list or handed out, and not both; those that were deleted with the list are
        still counted. */
    ghost predicate Valid()
      reads this
    {
      obj_count_ == |objects_| && totalAlloc_ == |objects_| + |out| + |dropped| && (dropped != [] ==> isDestroyed_)
      && (forall i, j :: 0 <= i < j < |objects_| ==> objects_[i] != objects_[j])
      && (forall i :: 0 <= i < |objects_| ==> objects_[i] < made && objects_[i] !in out)
      && (forall o :: o in out ==> o < made)
    }

    /** The total is what its name says: the objects there are. */
    ghost predicate Exact()
      reads this
    {
      totalAlloc_ == |objects_| + |out|
    }

    constructor (max: nat)
      ensures Valid() && Exact() && objects_ == [] && out == {} && dropped == [] && !isDestroyed_
      ensures maxCount_ == if max == 0 then 1 else max
    {
      objects_, maxCount_, isDestroyed_, totalAlloc_, obj_count_, made := [], if max == 0 then 1 else max, false, 0, 0, 0;
      out, dropped := {}, [];
    }

    method AssignObjects(preAssign: nat)
      requires Valid()
      modifies this`objects_, this`totalAlloc_, this`obj_count_, this`made
      ensures Valid() && |objects_| == old(|objects_|) + preAssign && old(objects_) <= objects_
      ensures totalAlloc_ == old(totalAlloc_) + preAssign && Exact() == old(Exact())
    {
      var preAssignVal := preAssign;
      while preAssignVal > 0
        invariant Valid() && |objects_| + preAssignVal == old(|objects_|) + preAssign && old(objects_) <= objects_
        invariant 0 <= preAssignVal <= preAssign && totalAlloc_ + preAssignVal == old(totalAlloc_) + preAssign
      {
        objects_ := objects_ + [made];
        made := made + 1;
        totalAlloc_ := totalAlloc_ + 1;
        obj_count_ := obj_count_ + 1;
        preAssignVal := preAssignVal - 1;
      }
    }

    /** The first object of the list, which is filled when it is empty. */
    method CreateObject() returns (t: nat)
      requires Valid()
      modifies this
      ensures Valid() && Exact() == old(Exact())
      ensures t !in old(out) && out == old(out) + {t} && dropped == old(dropped) && isDestroyed_ == old(isDestroyed_)
      ensures if old(objects_) != [] then t == old(objects_[0]) && objects_ == old(objects_[1..]) && totalAlloc_ == old(totalAlloc_)
              else |objects_| == OBJECT_POOL_INIT_SIZE - 1 && totalAlloc_ == old(totalAlloc_) + OBJECT_POOL_INIT_SIZE
    {
      while obj_count_ == 0
        invariant Valid() && out == old(out) && dropped == old(dropped) && isDestroyed_ == old(isDestroyed_)
        invariant if old(objects_) != [] then objects_ == old(objects_) && totalAlloc_ == old(totalAlloc_)
                  else (obj_count_ == 0 && totalAlloc_ == old(totalAlloc_))
                       || (obj_count_ == OBJECT_POOL_INIT_SIZE && totalAlloc_ == old(totalAlloc_) + OBJECT_POOL_INIT_SIZE)
        decreases if obj_count_ == 0 then 1 else 0
      {
        AssignObjects(OBJECT_POOL_INIT_SIZE);
      }
      t := objects_[0];
      objects_ := objects_[1..];
      obj_count_ := obj_count_ - 1;
      out := out + {t};
    }

    /** Takes an object back, or deletes it when the list is full or gone. */
    method ReclaimObject(obj: nat)
      requires Valid() && obj in out
      modifies this
      ensures Valid() && Exact() == old(Exact())
      ensures out == old(out) - {obj} && dropped == old(dropped) && isDestroyed_ == old(isDestroyed_)
      ensures var kept := old(|objects_|) < maxCount_ && !isDestroyed_;
              objects_ == old(objects_) + (if kept then [obj] else [])
              && totalAlloc_ == old(totalAlloc_) - (if kept then 0 else 1)
    {
      if obj_count_ >= maxCount_ || isDestroyed_ {
        totalAlloc_ := totalAlloc_ - 1;
      } else {
        objects_ := objects_ + [obj];
        obj_count_ := obj_count_ + 1;
      }
      out := out - {obj};
    }

    /** Deletes what is on the list, which stays counted: an exact total stays so if and only if there was
        nothing. */
    method Destroy()
      requires Valid()
      modifies this
      ensures Valid() && isDestroyed_ && objects_ == [] && out == old(out) && totalAlloc_ == old(totalAlloc_)
      ensures dropped == old(dropped + objects_)
      ensures old(Exact()) ==> (Exact() <==> old(obj_count_) == 0)
    {
      isDestroyed_ := true;
      dropped := dropped + objects_;
      objects_ := [];
      obj_count_ := 0;
    }
  }

  /** After one object of sixteen was handed out and the rest destroyed, sixteen are counted. */
  method CountsDestroyed() returns (pool: ObjectPool)
    ensures fresh(pool) && pool.Valid() && !pool.Exact()
    ensures pool.totalAlloc_ == 16 && pool.objects_ == [] && |pool.out| == 1
  {
    pool := new ObjectPool(256);
    var t := pool.CreateObject();
    pool.Destroy();
  }
}
