// The allocator front end (C `Allocator_*`): one installed back end, reached
// through a table of function pointers, and two request counters. The back
// end's allocate and deallocate are calls into code this module does not
// see, so the address a back end returns is a parameter here, 0 standing for
// NULL. The counters are `unsigned long`, 32 bits on the soft cores, and
// wrap.
module Allocator {
  import opened CTypes

  /** The two request counters. */
  datatype Counters = Counters(allocations: U32, deallocations: U32)

  /** An allocation request is counted only when the back end returned a block. */
  function AfterAllocation(c: Counters, returned: U32): (r: Counters)
    ensures r.deallocations == c.deallocations
    ensures returned == 0 ==> r == c
    ensures returned != 0 && c.allocations < UINT32_MAX ==> r.allocations == c.allocations + 1
    ensures returned != 0 && c.allocations == UINT32_MAX ==> r.allocations == 0
  {
    if returned != 0 then c.(allocations := Wrap32(c.allocations + 1)) else c
  }

  /** Every deallocation request is counted, before the back end is called. */
  function AfterDeallocation(c: Counters): (r: Counters)
    ensures r.allocations == c.allocations
    ensures c.deallocations < UINT32_MAX ==> r.deallocations == c.deallocations + 1
    ensures c.deallocations == UINT32_MAX ==> r.deallocations == 0
  {
    c.(deallocations := Wrap32(c.deallocations + 1))
  }

  /**
   * The number of blocks handed out by a run of allocation requests that
   * starts from zeroed counters: the number of non-NULL results.
   */
  function Successes(returned: seq<U32>): (n: nat)
    ensures n <= |returned|
  {
    if returned == [] then 0
    else Successes(returned[..|returned| - 1]) + (if returned[|returned| - 1] != 0 then 1 else 0)
  }

  function AfterAllocations(c: Counters, returned: seq<U32>): Counters
  {
    if returned == [] then c
    else AfterAllocation(AfterAllocations(c, returned[..|returned| - 1]), returned[|returned| - 1])
  }

  /**
   * Starting from zero, the allocation counter counts exactly the requests
   * that returned a block (modulo 2^32), and allocation requests never move
   * the deallocation counter.
   */
  lemma {:induction false} AllocationCounterCountsSuccesses(returned: seq<U32>)
    ensures AfterAllocations(Counters(0, 0), returned) == Counters(Wrap32(Successes(returned)), 0)
  {
    if returned != [] {
      var init := returned[..|returned| - 1];
      AllocationCounterCountsSuccesses(init);
      var n := Successes(init);
      assert Wrap32(Wrap32(n) + 1) == Wrap32(n + 1) by {
        assert Wrap32(n) == n % TWO_32;
      }
    }
  }

  class Allocator {
    /** Whether a back end is installed (the `allocator_` pointer is not NULL). */
    var installed: bool
    var counters: Counters

    /** The static initialisers: no back end and zeroed counters. */
    constructor ()
      ensures !installed && counters == Counters(0, 0)
    {
      installed := false;
      counters := Counters(0, 0);
    }

    /** Allocator_initialize: installs the back end (possibly NULL) and zeroes both counters. */
    method Initialize(backEnd: bool)
      modifies this
      ensures installed == backEnd && counters == Counters(0, 0)
    {
      installed := backEnd;
      counters := Counters(0, 0);
    }

    /** Allocator_terminate: zeroes both counters and leaves the back end installed. */
    method Terminate()
      modifies this`counters
      ensures counters == Counters(0, 0)
    {
      counters := Counters(0, 0);
    }

    /**
     * Allocator_allocate: `returned` is what the back end's allocate gave.
     * The result is passed on unchanged and counted when it is not NULL.
     */
    method Allocate(returned: U32) returns (p: U32)
      requires installed
      modifies this`counters
      ensures p == returned
      ensures counters == AfterAllocation(old(counters), returned)
    {
      p := returned;
      if p != 0 {
        counters := counters.(allocations := Wrap32(counters.allocations + 1));
      }
    }

    /** Allocator_deallocate: counts the request, then hands the block to the back end. */
    method Deallocate()
      requires installed
      modifies this`counters
      ensures counters == AfterDeallocation(old(counters))
    {
      counters := counters.(deallocations := Wrap32(counters.deallocations + 1));
    }

    /** Allocator_totalAllocationRequests. */
    function TotalAllocationRequests(): (r: U32)
      reads this
      ensures r == counters.allocations
    {
      counters.allocations
    }

    /** Allocator_totalDeallocationRequests. */
    function TotalDeallocationRequests(): (r: U32)
      reads this
      ensures r == counters.deallocations
    {
      counters.deallocations
    }
  }

  /**
   * After initialize, a NULL result, two blocks and one release leave the
   * counters at two allocations and one deallocation; terminate zeroes them.
   */
  method CountingScenario() returns (allocations: U32, deallocations: U32, afterTerminate: U32)
    ensures allocations == 2 && deallocations == 1 && afterTerminate == 0
  {
    var a := new Allocator();
    a.Initialize(true);
    var p := a.Allocate(0);
    p := a.Allocate(0x1000);
    p := a.Allocate(0x1008);
    a.Deallocate();
    allocations := a.TotalAllocationRequests();
    deallocations := a.TotalDeallocationRequests();
    a.Terminate();
    afterTerminate := a.TotalAllocationRequests();
  }
}
