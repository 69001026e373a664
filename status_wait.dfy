// The poll loop every UART driver uses to wait for its device: read the
// status register until it shows the awaited condition; once the counter
// says the timeout has passed, read the status once more and give up unless
// the condition holds now. The Nios driver waits for bits to be set
// (waitStatusReady), the MicroBlaze driver for "transmit FIFO not full" and
// "transmit FIFO empty" (waitTxFifoReady, waitTxFifoEmpty). A status
// register value is the set of its bits that read 1.
module StatusWait {
  import opened CTypes
  import opened FreeRunCounter

  /** What a wait is for: every bit of a mask set, or one bit clear. */
  datatype Await<B> = AllSet(bits: set<B>) | BitClear(bit: B)

  predicate Satisfied<B(==)>(cond: Await<B>, status: set<B>)
  {
    match cond
    case AllSet(bits) => bits <= status
    case BitClear(bit) => bit !in status
  }

  /**
   * One pass of the loop: the status read that tests the condition, the
   * counter read made when it does not hold, and the status read made when
   * that counter read has timed out.
   */
  datatype StatusPoll<B> = StatusPoll(status: set<B>, now: U32, recheck: set<B>)
  /** `base` is the counter read on entry; `polls` are the loop's passes, in order. */
  datatype WaitTrace<B> = WaitTrace(base: U32, polls: seq<StatusPoll<B>>)

  /** The loop leaves at a pass whose status shows the condition or whose counter read has timed out. */
  predicate StopsAt<B(==)>(c: Counter, timeoutCount: U32, cond: Await<B>, base: U32, p: StatusPoll<B>)
  {
    Satisfied(cond, p.status) || Timeout(c, base, p.now, timeoutCount)
  }

  /** The environment eventually ends the wait (the hardware or the clock makes progress). */
  predicate Ends<B(==)>(c: Counter, timeoutCount: U32, cond: Await<B>, t: WaitTrace<B>)
  {
    exists i :: 0 <= i < |t.polls| && StopsAt(c, timeoutCount, cond, t.base, t.polls[i])
  }

  /** The pass at which the loop leaves, searching from pass `from`. */
  function FirstStop<B(==)>(c: Counter, timeoutCount: U32, cond: Await<B>, t: WaitTrace<B>, from: nat): (k: nat)
    requires from <= |t.polls|
    requires exists i :: from <= i < |t.polls| && StopsAt(c, timeoutCount, cond, t.base, t.polls[i])
    ensures from <= k < |t.polls| && StopsAt(c, timeoutCount, cond, t.base, t.polls[k])
    ensures forall i :: from <= i < k ==> !StopsAt(c, timeoutCount, cond, t.base, t.polls[i])
    decreases |t.polls| - from
  {
    if StopsAt(c, timeoutCount, cond, t.base, t.polls[from]) then from
    else FirstStop(c, timeoutCount, cond, t, from + 1)
  }

  /**
   * The result of the wait: 0 when the condition was seen, 1 on a stall:
   * the counter had reached the timeout and the re-check still showed the
   * condition false.
   */
  function WaitResult<B(==)>(c: Counter, timeoutCount: U32, cond: Await<B>, t: WaitTrace<B>): (rc: int)
    requires Ends(c, timeoutCount, cond, t)
    ensures rc == 0 || rc == 1
    ensures var k := FirstStop(c, timeoutCount, cond, t, 0);
      rc == 1 <==> Diff(c, t.base, t.polls[k].now) >= timeoutCount &&
                   !Satisfied(cond, t.polls[k].status) && !Satisfied(cond, t.polls[k].recheck)
  {
    var k := FirstStop(c, timeoutCount, cond, t, 0);
    if Satisfied(cond, t.polls[k].status) then 0
    else if Satisfied(cond, t.polls[k].recheck) then 0
    else 1
  }

  /** A device that never shows the condition makes the wait report a stall, at the first timed-out pass. */
  lemma NeverReadyStalls<B>(c: Counter, timeoutCount: U32, cond: Await<B>, t: WaitTrace<B>)
    requires Ends(c, timeoutCount, cond, t)
    requires forall i :: 0 <= i < |t.polls| ==> !Satisfied(cond, t.polls[i].status) && !Satisfied(cond, t.polls[i].recheck)
    ensures WaitResult(c, timeoutCount, cond, t) == 1
    ensures var k := FirstStop(c, timeoutCount, cond, t, 0);
      Diff(c, t.base, t.polls[k].now) >= timeoutCount &&
      forall i :: 0 <= i < k ==> Diff(c, t.base, t.polls[i].now) < timeoutCount
  {
  }

  /** A device already showing the condition at the first read never stalls, whatever the clock does. */
  lemma ReadyAtOnceSucceeds<B>(c: Counter, timeoutCount: U32, cond: Await<B>, t: WaitTrace<B>)
    requires |t.polls| > 0 && Satisfied(cond, t.polls[0].status)
    ensures Ends(c, timeoutCount, cond, t)
    ensures WaitResult(c, timeoutCount, cond, t) == 0
  {
    assert StopsAt(c, timeoutCount, cond, t.base, t.polls[0]);
  }

  /**
   * The loop itself, given the timeout already converted to counts. Each
   * driver's wait converts its own duration and calls this.
   */
  method PollStatus<B(==)>(c: Counter, timeoutCount: U32, cond: Await<B>, t: WaitTrace<B>) returns (rc: int)
    requires Ends(c, timeoutCount, cond, t)
    ensures rc == WaitResult(c, timeoutCount, cond, t)
  {
    ghost var k := FirstStop(c, timeoutCount, cond, t, 0);
    var i := 0;
    while !Satisfied(cond, t.polls[i].status)
      invariant i <= k
      decreases k - i
    {
      if Timeout(c, t.base, t.polls[i].now, timeoutCount) {
        if Satisfied(cond, t.polls[i].recheck) { break; }
        return 1;
      }
      i := i + 1;
    }
    return 0;
  }
}
