/** The machine underneath the allocator: byte-addressed memory, and blocks of it. */
module Memories {
  import opened Arithmetic
  import opened ByteValues

  type Memory = int -> byte

  function Wraps(k: int): int
  {
    WORD32 * k
  }

  /** The little-endian number stored in the n bytes at address a. */
  function Load(m: Memory, a: int, n: nat): nat
    decreases n
  {
    if n == 0 then 0 else m(a) as int + 256 * Load(m, a + 1, n - 1)
  }

  /** Writes the n low bytes of v at address a. */
  function Store(m: Memory, a: int, n: nat, v: nat): Memory
    decreases n
  {
    if n == 0 then m
    else StoreByte(Store(m, a + 1, n - 1, v / 256), a, v % 256)
  }

  function StoreByte(m: Memory, a: int, b: byte): Memory
  {
    x => if x == a then b else m(x)
  }

  /** What `memcpy(dst, src, n)` leaves in memory. */
  function Copied(m: Memory, dst: int, src: int, n: nat): Memory
  {
    x => if dst <= x < dst + n then m(src + (x - dst)) else m(x)
  }

  /** The n bytes at address a. */
  function Bytes(m: Memory, a: int, n: nat): seq<byte>
  {
    seq(n, i requires 0 <= i < n => m(a + i))
  }

  /** m and m' hold the same bytes at addresses lo <= x < hi. */
  ghost predicate SameOn(m: Memory, m': Memory, lo: int, hi: int)
  {
    forall x {:trigger m(x)} {:trigger m'(x)} :: lo <= x < hi ==> m(x) == m'(x)
  }

  lemma {:induction false} LoadFrame(m: Memory, m': Memory, a: int, n: nat)
    requires SameOn(m, m', a, a + n)
    ensures Load(m, a, n) == Load(m', a, n)
    decreases n
  {
    if n > 0 {
      assert m(a) == m'(a);
      LoadFrame(m, m', a + 1, n - 1);
    }
  }

  /** The same bytes read the same elsewhere. */
  lemma {:induction false} LoadMoved(m: Memory, a: int, m': Memory, d: int, n: nat)
    requires forall x {:trigger m(x)} :: a <= x < a + n ==> m(x) == m'(x + d)
    ensures Load(m, a, n) == Load(m', a + d, n)
    decreases n
  {
    if n > 0 {
      assert m(a) == m'(a + d);
      LoadMoved(m, a + 1, m', d, n - 1);
    }
  }

  lemma {:induction false} StoreFrame(m: Memory, a: int, n: nat, v: nat)
    ensures forall x :: x < a || a + n <= x ==> Store(m, a, n, v)(x) == m(x)
    decreases n
  {
    if n > 0 {
      StoreFrame(m, a + 1, n - 1, v / 256);
    }
  }

  lemma {:induction false} LoadStore(m: Memory, a: int, n: nat, v: nat)
    ensures Load(Store(m, a, n, v), a, n) == v % Pow256(n)
    decreases n
  {
    if n > 0 {
      var m1 := Store(m, a + 1, n - 1, v / 256);
      LoadStore(m, a + 1, n - 1, v / 256);
      LoadFrame(m1, Store(m, a, n, v), a + 1, n - 1);
      DivMod256(v, Pow256(n - 1));
    }
  }

  lemma Pow256Words()
    ensures Pow256(4) == WORD32 && Pow256(8) == WORD64
  {
    assert Pow256(8) == 256 * (256 * (256 * (256 * Pow256(4))));
  }

  /** An n-byte word written at a is read back, and nothing else changes. */
  lemma StoreWord(m: Memory, a: int, n: nat, v: nat)
    requires v < Pow256(n)
    ensures Load(Store(m, a, n, v), a, n) == v
    ensures forall x :: x < a || a + n <= x ==> Store(m, a, n, v)(x) == m(x)
  {
    LoadStore(m, a, n, v);
    StoreFrame(m, a, n, v);
    DivModUnique(v, Pow256(n), 0, v);
  }

  method PutWord(m: Memory, a: int, n: nat, v: nat) returns (m': Memory)
    requires v < Pow256(n)
    ensures Load(m', a, n) == v
    ensures forall x :: x < a || a + n <= x ==> m'(x) == m(x)
  {
    StoreWord(m, a, n, v);
    m' := Store(m, a, n, v);
  }

  lemma DivMod256(v: nat, p: nat)
    requires p > 0
    ensures v % 256 + 256 * ((v / 256) % p) == v % (256 * p)
  {
    var q, r := (v / 256) / p, (v / 256) % p;
    var s := v % 256 + 256 * r;
    assert v / 256 == p * q + r;
    assert v == (256 * p) * q + s;
    assert 256 * r <= 256 * (p - 1);
    DivModUnique(v, 256 * p, q, s);
  }

  /** No two blocks share an address. */
  ghost predicate Separate(blocks: map<int, nat>)
  {
    forall a, b :: a in blocks && b in blocks && a != b ==>
      a + blocks[a] <= b || b + blocks[b] <= a
  }

  function Eight(k: int): int
  {
    8 * k
  }

  /** malloc returns storage suitably aligned for any object with fundamental alignment. */
  ghost predicate Aligned(p: int)
  {
    exists k :: p == Eight(k)
  }

  ghost predicate WellFormed(blocks: map<int, nat>)
  {
    && (forall b :: b in blocks ==> 0 < b && Aligned(b) && 0 < blocks[b])
    && Separate(blocks)
  }

  /** Total size of the blocks. */
  ghost function Total(blocks: map<int, nat>): nat
  {
    if b :| b in blocks then blocks[b] + Total(blocks - {b}) else 0
  }

  lemma {:induction false} TotalRemove(blocks: map<int, nat>, b: int)
    requires b in blocks
    ensures Total(blocks) == blocks[b] + Total(blocks - {b})
    decreases blocks
  {
    var c :| c in blocks && Total(blocks) == blocks[c] + Total(blocks - {c});
    if c != b {
      TotalRemove(blocks - {c}, b);
      TotalRemove(blocks - {b}, c);
      assert blocks - {c} - {b} == blocks - {b} - {c};
    }
  }

  lemma TotalInsert(blocks: map<int, nat>, b: int, n: nat)
    requires b !in blocks
    ensures Total(blocks[b := n]) == Total(blocks) + n
  {
    TotalRemove(blocks[b := n], b);
    assert blocks[b := n] - {b} == blocks;
  }

  /** An address where malloc could place n bytes: aligned, and outside every block. */
  predicate Usable(blocks: map<int, nat>, p: int, n: nat)
  {
    && 0 < p && p % 8 == 0
    && p !in blocks
    && forall b :: b in blocks ==> b + blocks[b] <= p || p + n <= b
  }

  lemma WellFormedInsert(blocks: map<int, nat>, p: int, n: nat)
    requires WellFormed(blocks) && Usable(blocks, p, n) && n > 0
    ensures WellFormed(blocks[p := n]) && Aligned(p)
  {
    assert p == Eight(p / 8);
  }
}
