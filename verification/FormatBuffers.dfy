/** The growing character buffer behind the writers. */
module FormatBuffers {

  /** s with its characters from at replaced by those of t. */
  function Spliced(s: string, at: nat, t: string): (r: string)
    requires at + |t| <= |s|
    ensures |r| == |s|
  {
    s[..at] + t + s[at + |t|..]
  }

  lemma SplicedBefore(s: string, at: nat, t: string, u: string)
    requires at + |t| + |u| <= |s|
    ensures Spliced(Spliced(s, at + |t|, u), at, t) == Spliced(s, at, t + u)
  {
  }

  lemma SplicedAfter(s: string, at: nat, t: string, u: string)
    requires at + |t| + |u| <= |s|
    ensures Spliced(Spliced(s, at, t), at + |t|, u) == Spliced(s, at, t + u)
  {
  }

  lemma Associate(a: string, b: string, c: string)
    ensures a + (b + c) == (a + b) + c
  {
  }

  function Repeat(c: char, n: nat): (s: string)
    ensures |s| == n
  {
    seq(n, _ => c)
  }

  /** std::fill_n */
  method Fill(a: array<char>, at: nat, n: nat, c: char)
    requires at + n <= a.Length
    modifies a
    ensures a[..] == Spliced(old(a[..]), at, Repeat(c, n))
  {
    for i := 0 to n
      invariant forall k :: at <= k < at + i ==> a[k] == c
      invariant forall k :: 0 <= k < at || at + i <= k < a.Length ==> a[k] == old(a[k])
    {
      a[at + i] := c;
    }
  }

  /** std::copy */
  method CopyTo(a: array<char>, at: nat, s: string)
    requires at + |s| <= a.Length
    modifies a
    ensures a[..] == Spliced(old(a[..]), at, s)
  {
    for i := 0 to |s|
      invariant forall k :: 0 <= k < i ==> a[at + k] == s[k]
      invariant forall k :: 0 <= k < at || at + i <= k < a.Length ==> a[k] == old(a[k])
    {
      a[at + i] := s[i];
    }
  }

  /** The capacity once size characters have room. */
  function CapacityFor(size: nat, capacity: nat): (c: nat)
    ensures capacity <= c && size <= c
  {
    if size <= capacity then capacity
    else if size < capacity + capacity / 2 then capacity + capacity / 2 else size
  }

  const INLINE_BUFFER_SIZE := 500

  class MemoryBuffer {
    var ptr_: array<char>
    var size_: nat
    var capacity_: nat

    ghost predicate Valid()
      reads this
    {
      capacity_ == ptr_.Length && size_ <= capacity_
    }

    ghost function Contents(): (s: string)
      reads this, ptr_
      requires Valid()
      ensures |s| == size_
    {
      ptr_[..size_]
    }

    constructor ()
      ensures Valid() && fresh(ptr_) && Contents() == [] && capacity_ == INLINE_BUFFER_SIZE
    {
      ptr_ := new char[INLINE_BUFFER_SIZE];
      size_ := 0;
      capacity_ := INLINE_BUFFER_SIZE;
    }

    method Grow(size: nat)
      requires Valid() && size > capacity_
      modifies this`ptr_, this`capacity_
      ensures Valid() && fresh(ptr_) && capacity_ == CapacityFor(size, old(capacity_))
      ensures var half_more := old(capacity_ + capacity_ / 2); capacity_ == if size > half_more then size else half_more
      ensures Contents() == old(Contents())
    {
      var new_capacity := capacity_ + capacity_ / 2;
      if size > new_capacity { new_capacity := size; }
      var new_ptr := new char[new_capacity];
      CopyTo(new_ptr, 0, ptr_[..size_]);
      capacity_ := new_capacity;
      ptr_ := new_ptr;
    }

    method Reserve(capacity: nat)
      requires Valid()
      modifies this`ptr_, this`capacity_
      ensures Valid() && capacity_ == CapacityFor(capacity, old(capacity_))
      ensures if capacity_ == old(capacity_) then ptr_ == old(ptr_) else fresh(ptr_)
      ensures Contents() == old(Contents())
    {
      if capacity > capacity_ { Grow(capacity); }
    }

    /** New characters are not initialized. */
    method Resize(new_size: nat)
      requires Valid()
      modifies this
      ensures Valid() && size_ == new_size && capacity_ == CapacityFor(new_size, old(capacity_))
      ensures if capacity_ == old(capacity_) then ptr_ == old(ptr_) else fresh(ptr_)
      ensures if new_size >= old(size_) then Contents()[..old(size_)] == old(Contents())
              else Contents() == old(Contents()[..new_size])
    {
      ghost var was := Contents();
      if new_size > capacity_ { Grow(new_size); }
      assert Contents() == was;
      size_ := new_size;
    }

    method Append(s: string)
      requires Valid()
      modifies this, ptr_
      ensures Valid() && Contents() == old(Contents()) + s
      ensures ptr_ == old(ptr_) || fresh(ptr_)
    {
      ghost var was := Contents();
      if size_ + |s| > capacity_ { Grow(size_ + |s|); }
      assert Contents() == was;
      CopyTo(ptr_, size_, s);
      size_ := size_ + |s|;
    }
  }
}
