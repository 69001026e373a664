// The "only once" bump allocator (C `OnlyOnceAllocator_*`): a static pool
// of kONLY_ONCE_ALLOCATOR_SIZE_MAX bytes handed out front to back in blocks
// rounded up to 8 bytes, never released. Its state is three globals, the
// `next_` and `end_` pointers and a running total, which become the fields
// of one object here. Addresses are `uintptr_t`, 32 bits on the soft cores;
// the pool's address is a parameter.
module OnlyOnceAllocator {
  import opened CTypes
  import A = Allocator

  /** kONLY_ONCE_ALLOCATOR_SIZE_MAX: the pool size in bytes. */
  const SIZE_MAX: nat := 1024 * 16
  /** kALIGNMENT_UNIT: a power of two. */
  const ALIGNMENT_UNIT: nat := 8

  /**
   * next_aligned_address: `(addr + 7) & ~7` in uintptr_t arithmetic. The
   * mask clears the three low bits, that is, rounds down to a multiple of 8.
   * Away from the top of the address space the result is the smallest
   * multiple of 8 not below `addr`; within 7 bytes of the top it wraps to 0.
   */
  function NextAlignedAddress(addr: U32): (r: U32)
    ensures r % ALIGNMENT_UNIT == 0
    ensures addr + (ALIGNMENT_UNIT - 1) < TWO_32 ==> addr <= r < addr + ALIGNMENT_UNIT
    ensures addr + (ALIGNMENT_UNIT - 1) >= TWO_32 ==> r == 0
  {
    var s := Wrap32(addr + (ALIGNMENT_UNIT - 1));
    s - s % ALIGNMENT_UNIT
  }

  /** Rounding up is monotone away from the top of the address space. */
  lemma AlignMonotone(a: U32, b: U32)
    requires a <= b && b + (ALIGNMENT_UNIT - 1) < TWO_32
    ensures NextAlignedAddress(a) <= NextAlignedAddress(b)
  {
    var sa, sb := a + (ALIGNMENT_UNIT - 1), b + (ALIGNMENT_UNIT - 1);
    assert NextAlignedAddress(a) == sa / ALIGNMENT_UNIT * ALIGNMENT_UNIT;
    assert NextAlignedAddress(b) == sb / ALIGNMENT_UNIT * ALIGNMENT_UNIT;
    assert sa / ALIGNMENT_UNIT <= sb / ALIGNMENT_UNIT;
  }

  /** Shifting by a whole number of alignment units shifts the rounded address by the same. */
  lemma AlignShift(a: U32, k: nat)
    requires a + k * ALIGNMENT_UNIT + (ALIGNMENT_UNIT - 1) < TWO_32
    ensures NextAlignedAddress(a + k * ALIGNMENT_UNIT) == NextAlignedAddress(a) + k * ALIGNMENT_UNIT
  {
    var s := a + (ALIGNMENT_UNIT - 1);
    assert (s + k * ALIGNMENT_UNIT) % ALIGNMENT_UNIT == s % ALIGNMENT_UNIT;
  }

  /** OnlyOnceAllocator_allocatableSizeMax: the pool size rounded down to a multiple of 8. */
  function AllocatableSizeMax(): (r: nat)
    ensures r % ALIGNMENT_UNIT == 0 && r <= SIZE_MAX < r + ALIGNMENT_UNIT
  {
    SIZE_MAX - SIZE_MAX % ALIGNMENT_UNIT
  }

  /** The pool lies far enough below the top of the address space that its end can be rounded up. */
  predicate PoolFits(pool: U32)
  {
    pool + SIZE_MAX + ALIGNMENT_UNIT < TWO_32
  }

  class OnlyOnceAllocator {
    /** The address of memoryPool_[0]. */
    const pool: U32
    /** The front end this allocator installs itself into. */
    const allocator: A.Allocator
    var next: U32
    var end: U32
    var totalAllocatedSize: U32
    /** `next` when the running total was last zeroed (by initialize or terminate). */
    ghost var start: U32

    /**
     * `next` stays aligned, between the aligned pool start and the rounded
     * pool end, and the running total is exactly how far it has moved since
     * the total was zeroed.
     */
    ghost predicate Valid()
      reads this, allocator
    {
      allocator.installed && PoolFits(pool) &&
      end == pool + SIZE_MAX &&
      NextAlignedAddress(pool) <= start <= next <= NextAlignedAddress(end) &&
      start % ALIGNMENT_UNIT == 0 && next % ALIGNMENT_UNIT == 0 &&
      totalAllocatedSize == next - start
    }

    /** The static initialisers: both pointers and the total are 0. */
    constructor (poolAddress: U32, frontEnd: A.Allocator)
      ensures pool == poolAddress && allocator == frontEnd
      ensures next == 0 && end == 0 && totalAllocatedSize == 0
    {
      pool := poolAddress;
      allocator := frontEnd;
      next, end, totalAllocatedSize := 0, 0, 0;
      start := 0;
    }

    /**
     * OnlyOnceAllocator_initialize: installs itself as the back end
     * (zeroing the request counters), points `next` at the first aligned
     * pool byte and `end` one past the pool, and zeroes the total.
     */
    method Initialize()
      requires PoolFits(pool)
      modifies this, allocator
      ensures Valid()
      ensures next == NextAlignedAddress(pool) && end == pool + SIZE_MAX && totalAllocatedSize == 0
      ensures allocator.counters == A.Counters(0, 0)
    {
      allocator.Initialize(true);
      next := NextAlignedAddress(pool);
      end := pool + SIZE_MAX;
      totalAllocatedSize := 0;
      start := next;
      AlignMonotone(pool, end);
    }

    /** OnlyOnceAllocator_terminate: zeroes the total and the request counters; `next` stays. */
    method Terminate()
      requires Valid()
      modifies this`totalAllocatedSize, this`start, allocator`counters
      ensures Valid()
      ensures totalAllocatedSize == 0 && next == old(next) && allocator.counters == A.Counters(0, 0)
    {
      totalAllocatedSize := 0;
      start := next;
      allocator.Terminate();
    }

    /** OnlyOnceAllocator_totalAllocatedSize: never more than the pool can give. */
    function TotalAllocatedSize(): (r: U32)
      reads this, allocator
      requires Valid()
      ensures r == totalAllocatedSize <= AllocatableSizeMax()
    {
      AlignShift(pool, SIZE_MAX / ALIGNMENT_UNIT);
      totalAllocatedSize
    }

    /** The request counters, read through the front end. */
    function TotalAllocationRequests(): (r: U32)
      reads this, allocator
      ensures r == allocator.counters.allocations
    {
      allocator.TotalAllocationRequests()
    }

    function TotalDeallocationRequests(): (r: U32)
      reads this, allocator
      ensures r == allocator.counters.deallocations
    {
      allocator.TotalDeallocationRequests()
    }

    /**
     * allocate, with the block-fits assertion evaluated without wrap-around
     * (`size <= end_ - next_`): the block starts at `next`, ends at or below
     * the new `next`, which stays aligned and only moves forward, and the
     * total grows by exactly that move. Blocks handed out one after the
     * other therefore never overlap.
     */
    method Allocate(size: U32) returns (ptr: U32)
      requires Valid() && size <= end - next
      modifies this`next, this`totalAllocatedSize
      ensures Valid()
      ensures ptr == old(next) && ptr + size <= next < ptr + size + ALIGNMENT_UNIT
      ensures next == NextAlignedAddress(old(next) + size)
      ensures totalAllocatedSize == old(totalAllocatedSize) + (next - old(next))
    {
      ptr := next;
      next := NextAlignedAddress(next + size);
      totalAllocatedSize := totalAllocatedSize + (next - ptr);
      AlignMonotone(ptr + size, end);
    }

    /**
     * allocate as written: the assertion compares `next_ + size` computed
     * in uintptr_t, which wraps for a large `size`, and `next_` is then
     * rounded from the wrapped sum.
     */
    method AllocateAsWritten(size: U32) returns (ptr: U32)
      requires Valid() && Wrap32(next + size) <= end
      modifies this`next, this`totalAllocatedSize
      ensures ptr == old(next)
      ensures next == NextAlignedAddress(Wrap32(old(next) + size))
      ensures totalAllocatedSize == Wrap32(old(totalAllocatedSize) + (next - old(next)))
    {
      ptr := next;
      next := NextAlignedAddress(Wrap32(next + size));
      totalAllocatedSize := Wrap32(totalAllocatedSize + (next - ptr));
    }
  }

  /**
   * deallocate: releasing is not supported; the call always fails its
   * assertion, whatever the address, and changes nothing.
   */
  function Deallocate(ptr: U32): (assertionFails: bool)
    ensures assertionFails
  {
    true
  }

  /**
   * For a pool at 0x1000, a request of 0xFFFF_F000 bytes right after
   * initialize: the wrapped sum is 0, so the assertion as written passes
   * although the block would run far past the pool, and `next_` falls back
   * to address 0, below the pool. The corrected assertion rejects it.
   */
  lemma WrappedRequestPassesAssertion()
    ensures var next, end, size := NextAlignedAddress(0x1000), 0x1000 + SIZE_MAX, 0xFFFF_F000;
      Wrap32(next + size) <= end && next + size > end &&
      NextAlignedAddress(Wrap32(next + size)) == 0 < next &&
      !(size <= end - next)
  {
  }

  /** The same request through the object: the as-written step moves `next` backwards. */
  method WrappedRequestScenario() returns (ptr: U32, nextAfter: U32)
    ensures ptr == 0x1000 && nextAfter == 0
  {
    var a := new A.Allocator();
    var o := new OnlyOnceAllocator(0x1000, a);
    o.Initialize();
    ptr := o.AllocateAsWritten(0xFFFF_F000);
    nextAfter := o.next;
  }

  /**
   * Two requests of 5 and 3 bytes from a pool at 0x1003: the first block
   * starts at the aligned 0x1008, the second 8 bytes later, and 16 bytes of
   * the pool are accounted for.
   */
  method TwoBlocksScenario() returns (first: U32, second: U32, total: U32)
    ensures first == 0x1008 && second == 0x1010 && total == 16
    ensures first + 5 <= second
  {
    var a := new A.Allocator();
    var o := new OnlyOnceAllocator(0x1003, a);
    o.Initialize();
    first := o.Allocate(5);
    second := o.Allocate(3);
    total := o.TotalAllocatedSize();
  }
}
