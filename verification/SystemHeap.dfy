/** The C library's heap. */
module SystemHeap {
  import opened Memories

  /** ::malloc and ::free, whose choice of addresses and of initial contents is unknown.
      Allocation succeeds. */
  class CHeap {
    var mem: Memory
    var blocks: map<int, nat>
    ghost var top: nat  // every block ends below this address

    ghost predicate Valid()
      reads this
    {
      WellFormed(blocks) && forall b :: b in blocks ==> b + blocks[b] <= top
    }

    constructor ()
      ensures Valid() && blocks == map[]
    {
      mem := x => 0;
      blocks := map[];
      top := 0;
    }

    method Malloc(n: nat) returns (p: int)
      requires Valid() && n > 0
      modifies this
      ensures Valid() && p !in old(blocks) && blocks == old(blocks)[p := n]
      ensures 0 < p && Aligned(p)
      ensures forall x :: x < p || p + n <= x ==> mem(x) == old(mem(x))
    {
      assert Usable(blocks, 8 * (top / 8 + 1), n);
      p :| Usable(blocks, p, n);
      var before, after: Memory := mem, *;
      mem := x => if p <= x < p + n then after(x) else before(x);
      WellFormedInsert(blocks, p, n);
      blocks := blocks[p := n];
      top := if top < p + n then p + n else top;
    }

    method Free(p: int)
      requires Valid() && p in blocks
      modifies this
      ensures Valid() && blocks == old(blocks) - {p} && mem == old(mem)
    {
      blocks := blocks - {p};
    }
 
    /** A store to memory. */
    method Write(m: Memory)
      requires Valid()
      modifies this`mem
      ensures Valid() && mem == m
    {
      mem := m;
    }
  }
}
