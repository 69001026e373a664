// The C++ binding of the Nios II UART driver (class NiosUart). Its logic is
// that of the C binding, with two differences: the queues are the generic
// FixedQueue<uint8_t>, built even with capacity 0, and setup reports
// success whether or not the ISR could be registered.
//
// Hardware is modelled through parameters (the value a register read
// returns, the byte in the receive register) and through `control`, the
// last value written to the control register. `txLog` records every byte
// written to the transmit register.
module NiosUartCpp {
  import opened CTypes
  import opened FreeRunCounter
  import opened AvalonUart
  import opened StatusWait
  import SP = SerialParams
  import FQ = FixedQueue

  class NiosUart {
    const txQueue: FQ.FixedQueue<bv8>
    const rxQueue: FQ.FixedQueue<bv8>
    const counter: Counter
    var interruptFlags: Register
    var errorMask: Register
    var lastError: Register
    var framePeriodUsec: U32
    /** The last value written to the control register. */
    var control: Register
    /** Every byte written to the transmit data register, in order. */
    ghost var txLog: seq<bv8>

    /**
     * Besides the queues' own invariants: a byte is never stranded in the
     * transmit queue, because whenever it holds one the transmit-ready
     * interrupt is among the enabled sources.
     */
    ghost predicate Valid()
      reads this, txQueue, txQueue.elements, rxQueue, rxQueue.elements
    {
      QueuesValid() &&
      framePeriodUsec <= MAX_FRAME_PERIOD_USEC &&
      (txQueue.Contents != [] ==> TRDY in interruptFlags)
    }

    /** Two distinct queues, each consistent with its storage. */
    ghost predicate QueuesValid()
      reads txQueue, txQueue.elements, rxQueue, rxQueue.elements
    {
      txQueue != rxQueue && txQueue.elements != rxQueue.elements &&
      txQueue.Valid() && rxQueue.Valid()
    }

    /** The bytes accepted for transmission: those already sent, then those still queued. */
    ghost function Outgoing(): seq<bv8>
      reads this, txQueue
    {
      txLog + txQueue.Contents
    }

    /** The ctor's member initialisers; either buffer may have capacity 0. */
    constructor (txBuffSz: nat, rxBuffSz: nat, frc: Counter)
      ensures Valid() && fresh(txQueue) && fresh(txQueue.elements) && fresh(rxQueue) && fresh(rxQueue.elements)
      ensures txQueue.kSizeMax == txBuffSz && rxQueue.kSizeMax == rxBuffSz && counter == frc
      ensures txQueue.Contents == [] && rxQueue.Contents == [] && txLog == []
      ensures interruptFlags == {} && errorMask == {} && lastError == {} && framePeriodUsec == 0 && control == {}
    {
      txQueue := new FQ.FixedQueue<bv8>(txBuffSz);
      rxQueue := new FQ.FixedQueue<bv8>(rxBuffSz);
      counter := frc;
      interruptFlags, errorMask, lastError := {}, {}, {};
      framePeriodUsec := 0;
      control := {};
      txLog := [];
    }

    /**
     * setup: rejected settings change nothing. Accepted ones set the frame
     * period, empty both queues, clear the latched errors and program the
     * interrupt sources. The result of setupInterrupt is not looked at:
     * accepted settings always give 0.
     */
    method Setup(params: SP.SerialParams, registered: bool) returns (rc: int)
      requires Valid()
      modifies this`framePeriodUsec, this`interruptFlags, this`errorMask, this`lastError, this`control, txQueue, rxQueue
      ensures Valid()
      ensures ValidateSerialParams(params) != 0 ==>
        rc == 1 && framePeriodUsec == old(framePeriodUsec) && interruptFlags == old(interruptFlags) &&
        errorMask == old(errorMask) && lastError == old(lastError) && control == old(control) &&
        txQueue.Contents == old(txQueue.Contents) && rxQueue.Contents == old(rxQueue.Contents)
      ensures ValidateSerialParams(params) == 0 ==>
        rc == 0 && framePeriodUsec == SP.CalcFramePeriodUsec(params) &&
        txQueue.Contents == [] && rxQueue.Contents == [] && lastError == {} &&
        interruptFlags == SETUP_INTERRUPT_FLAGS && errorMask == ERROR_MASK &&
        control == (if registered then SETUP_INTERRUPT_FLAGS else {})
    {
      if ValidateSerialParams(params) != 0 { return 1; }
      AcceptedSettingsFramePeriod(params);
      framePeriodUsec := SP.CalcFramePeriodUsec(params);
      ClearBuffer();
      lastError := {};
      var _ := SetupInterrupt(registered);
      return 0;
    }

    /**
     * setupInterrupt: writes 0 to the control register, computes the
     * interrupt sources and the error mask, and enables those sources only
     * when the ISR could be registered.
     */
    method SetupInterrupt(registered: bool) returns (rc: int)
      requires Valid() && txQueue.Contents == []
      modifies this`interruptFlags, this`errorMask, this`control
      ensures Valid()
      ensures interruptFlags == SETUP_INTERRUPT_FLAGS && errorMask == ERROR_MASK
      ensures TRDY !in interruptFlags
      ensures rc == 0 <==> registered
      ensures control == if registered then interruptFlags else {}
    {
      control := {};
      interruptFlags := {PE, FE, ROE, RRDY};
      errorMask := {PE, FE, ROE};
      if !registered { return 1; }
      control := interruptFlags;
      return 0;
    }

    /** get: the oldest received byte, or 1 when nothing has been received. */
    method Get() returns (rc: int, data: bv8)
      requires Valid()
      modifies rxQueue
      ensures Valid()
      ensures old(rxQueue.Contents) == [] ==> rc == 1 && rxQueue.Contents == []
      ensures old(rxQueue.Contents) != [] ==>
        rc == 0 && data == old(rxQueue.Contents)[0] && rxQueue.Contents == old(rxQueue.Contents)[1..]
    {
      rc, data := 1, 0;
      if !rxQueue.Empty() {
        data := rxQueue.Peek();
        rxQueue.Pop();
        rc := 0;
      }
    }

    /**
     * put: `status` is the status register as read. With the transmitter
     * ready the byte goes out at once, or, when bytes are queued, the oldest
     * goes out and the new one is queued behind the rest; otherwise it is
     * queued if there is room. Either way transmit-ready interrupts are
     * enabled. Order is kept: what is accepted follows everything before it.
     */
    method Put(data: bv8, status: Register) returns (rc: int)
      requires Valid()
      modifies this`interruptFlags, this`control, this`txLog, txQueue, txQueue.elements
      ensures rc == 0 || rc == 1
      ensures Valid()
      ensures rc == 0 <==> TRDY in status || |old(txQueue.Contents)| < txQueue.kSizeMax
      ensures rc == 0 ==> Outgoing() == old(Outgoing()) + [data]
      ensures rc != 0 ==> txLog == old(txLog) && txQueue.Contents == old(txQueue.Contents)
      ensures TRDY !in status ==> txLog == old(txLog)
      ensures TRDY in status ==>
        |txLog| == |old(txLog)| + 1 && |txQueue.Contents| == |old(txQueue.Contents)|
      ensures interruptFlags == old(interruptFlags) + {TRDY}
      ensures control == interruptFlags
    {
      rc := 1;
      if TRDY in status {
        if txQueue.Empty() {
          txLog := txLog + [data];
        } else {
          ghost var before := txQueue.Contents;
          txLog := txLog + [txQueue.Peek()];
          txQueue.Pop();
          txQueue.Push(data);
          assert txLog + txQueue.Contents == old(txLog) + before + [data] by {
            assert before == [before[0]] + before[1..];
          }
        }
        rc := 0;
      } else if !txQueue.Full() {
        txQueue.Push(data);
        rc := 0;
      }
      EnableTransmitInterrupt();
    }

    /** Adds transmit-ready to the enabled interrupt sources and writes them to the control register. */
    method EnableTransmitInterrupt()
      modifies this`interruptFlags, this`control
      ensures interruptFlags == old(interruptFlags) + {TRDY} && control == interruptFlags
      ensures TRDY in interruptFlags
    {
      interruptFlags := interruptFlags + {TRDY};
      control := interruptFlags;
    }

    /** Removes transmit-ready from the enabled interrupt sources and writes them to the control register. */
    method DisableTransmitInterrupt()
      modifies this`interruptFlags, this`control
      ensures interruptFlags == old(interruptFlags) - {TRDY} && control == interruptFlags
      ensures TRDY !in interruptFlags
    {
      interruptFlags := interruptFlags - {TRDY};
      control := interruptFlags;
    }

    /** read: all `count` bytes, oldest first, or nothing at all when fewer are queued. */
    method Read(buff: array<bv8>, count: nat) returns (rc: int)
      requires Valid() && count <= buff.Length
      requires buff != rxQueue.elements && buff != txQueue.elements
      modifies rxQueue, buff
      ensures rc == 0 || rc == 1
      ensures Valid()
      ensures rc == 0 <==> count <= |old(rxQueue.Contents)|
      ensures rc == 0 ==> (buff[..count] == old(rxQueue.Contents)[..count] &&
        rxQueue.Contents == old(rxQueue.Contents)[count..] && buff[count..] == old(buff[count..]))
      ensures rc != 0 ==> rxQueue.Contents == old(rxQueue.Contents) && buff[..] == old(buff[..])
    {
      rc := 1;
      if rxQueue.Size() >= count {
        var i := 0;
        while i < count
          invariant 0 <= i <= count && Valid()
          invariant rxQueue.Contents == old(rxQueue.Contents)[i..]
          invariant buff[..i] == old(rxQueue.Contents)[..i]
          invariant buff[count..] == old(buff[count..])
        {
          buff[i] := rxQueue.Peek();
          rxQueue.Pop();
          i := i + 1;
        }
        rc := 0;
      }
    }

    /** write: all `count` bytes queued in order, or none when they do not all fit. */
    method Write(buff: seq<bv8>, count: nat) returns (rc: int)
      requires Valid() && count <= |buff|
      modifies this`interruptFlags, this`control, txQueue, txQueue.elements
      ensures rc == 0 || rc == 1
      ensures Valid()
      ensures rc == 0 <==> count <= txQueue.kSizeMax - |old(txQueue.Contents)|
      ensures txQueue.Contents == if rc == 0 then old(txQueue.Contents) + buff[..count] else old(txQueue.Contents)
      ensures interruptFlags == old(interruptFlags) + {TRDY} && control == interruptFlags
    {
      rc := 1;
      ghost var flags := interruptFlags;
      if txQueue.AvailableSize() >= count {
        var i := 0;
        while i < count
          invariant 0 <= i <= count && QueuesValid()
          invariant txQueue.Contents == old(txQueue.Contents) + buff[..i]
          modifies txQueue, txQueue.elements
        {
          txQueue.Push(buff[i]);
          i := i + 1;
        }
        rc := 0;
      }
      assert interruptFlags == flags;
      EnableTransmitInterrupt();
    }

    /** clear: both queues emptied and the latched errors forgotten. */
    method Clear()
      requires Valid()
      modifies this`lastError, txQueue, rxQueue
      ensures Valid()
      ensures txQueue.Contents == [] && rxQueue.Contents == [] && lastError == {}
    {
      ClearBuffer();
      lastError := {};
    }

    /** clearBuffer: both queues emptied. */
    method ClearBuffer()
      requires Valid()
      modifies txQueue, rxQueue
      ensures Valid()
      ensures txQueue.Contents == [] && rxQueue.Contents == []
    {
      txQueue.Clear();
      rxQueue.Clear();
    }

    /**
     * flush: with the interrupt held off, each queued byte is written once
     * the transmitter is ready; then it waits for ready and for the shift
     * register to empty. `waits[j]` is what the j-th wait observes. It
     * succeeds exactly when no wait stalls; then the queue is empty, every
     * accepted byte has gone out in order, and transmit-ready interrupts are
     * off. A stall leaves the bytes not yet written in the queue.
     */
    method Flush(waits: seq<WaitTrace<Bit>>) returns (rc: int)
      requires Valid()
      requires counter.countsPerUsec > 0 && framePeriodUsec < UINT32_MAX / counter.countsPerUsec
      requires |waits| >= |txQueue.Contents| + 2
      requires forall j :: 0 <= j < |txQueue.Contents| + 2 ==>
        Ends(counter, ConvertUsecToCount(counter, framePeriodUsec), FlushCondition(j, |txQueue.Contents|), waits[j])
      modifies this`interruptFlags, this`control, this`txLog, txQueue
      ensures rc == 0 || rc == 1
      ensures Valid() && Outgoing() == old(Outgoing())
      ensures rc == 0 <==> forall j :: 0 <= j < |old(txQueue.Contents)| + 2 ==>
        WaitResult(counter, ConvertUsecToCount(counter, framePeriodUsec), FlushCondition(j, |old(txQueue.Contents)|), waits[j]) == 0
      ensures rc == 0 ==> (txQueue.Contents == [] && txLog == old(txLog + txQueue.Contents) &&
        interruptFlags == old(interruptFlags) - {TRDY} && control == interruptFlags)
      ensures rc != 0 ==> interruptFlags == old(interruptFlags) && control == old(control)
    {
      ghost var n := |txQueue.Contents|;
      var j := 0;
      while !txQueue.Empty()
        invariant Valid() && Outgoing() == old(Outgoing())
        invariant j <= n && |txQueue.Contents| == n - j
        invariant forall i :: 0 <= i < j ==> WaitResult(counter, ConvertUsecToCount(counter, framePeriodUsec), FlushCondition(i, n), waits[i]) == 0
        invariant interruptFlags == old(interruptFlags) && control == old(control)
        decreases |txQueue.Contents|
      {
        var r := WaitStatusReady(counter, framePeriodUsec, {TRDY}, waits[j]);
        if r != 0 { return 1; }
        TransmitFront();
        j := j + 1;
      }
      var r := WaitStatusReady(counter, framePeriodUsec, {TRDY}, waits[j]);
      if r != 0 { return 1; }
      r := WaitStatusReady(counter, framePeriodUsec, {TMT}, waits[j + 1]);
      if r != 0 { return 1; }
      DisableTransmitInterrupt();
      rc := 0;
    }

    /** getFramePeriodUsec: never longer than that of the slowest accepted setting. */
    function GetFramePeriodUsec(): (r: U32)
      reads this, txQueue, txQueue.elements, rxQueue, rxQueue.elements
      requires Valid()
      ensures r == framePeriodUsec <= MAX_FRAME_PERIOD_USEC
    {
      framePeriodUsec
    }

    /** overrunErrorOccurred: the overrun bit of the latched errors. */
    function OverrunErrorOccurred(): (r: bool)
      reads this
      ensures r <==> ROE in lastError
    {
      ROE in lastError
    }

    /** framingErrorOccurred: the framing bit of the latched errors. */
    function FramingErrorOccurred(): (r: bool)
      reads this
      ensures r <==> FE in lastError
    {
      FE in lastError
    }

    /** parityErrorOccurred: the parity bit of the latched errors. */
    function ParityErrorOccurred(): (r: bool)
      reads this
      ensures r <==> PE in lastError
    {
      PE in lastError
    }

    /**
     * The interrupt service routine for one interrupt whose status register
     * reads `status`; `rxData` is the receive register. Errors are latched
     * (never cleared here), a received byte is queued or, with the queue
     * full, dropped as an overrun, and a transmit-ready interrupt sends the
     * next queued byte or, with none left, turns itself off.
     */
    method InterruptServiceRoutine(status: Register, rxData: bv8)
      requires Valid()
      modifies this`lastError, this`interruptFlags, this`control, this`txLog, txQueue, rxQueue, rxQueue.elements
      ensures Valid() && Outgoing() == old(Outgoing())
      ensures RRDY in status && |old(rxQueue.Contents)| == rxQueue.kSizeMax ==>
        lastError == old(lastError) + status * errorMask + {ROE}
      ensures RRDY !in status || |old(rxQueue.Contents)| < rxQueue.kSizeMax ==>
        lastError == old(lastError) + status * errorMask
      ensures rxQueue.Contents ==
        if RRDY in status && |old(rxQueue.Contents)| < rxQueue.kSizeMax
        then old(rxQueue.Contents) + [rxData] else old(rxQueue.Contents)
      ensures TRDY in status && old(txQueue.Contents) != [] ==>
        txLog == old(txLog) + [old(txQueue.Contents)[0]] && txQueue.Contents == old(txQueue.Contents)[1..] &&
        interruptFlags == old(interruptFlags) && control == old(control)
      ensures TRDY in status && old(txQueue.Contents) == [] ==>
        txLog == old(txLog) && txQueue.Contents == [] &&
        interruptFlags == old(interruptFlags) - {TRDY} && control == interruptFlags
      ensures TRDY !in status ==>
        txQueue.Contents == old(txQueue.Contents) && interruptFlags == old(interruptFlags) && control == old(control)
    {
      if status * errorMask != {} {
        lastError := lastError + status * errorMask;
      }
      if RRDY in status { ReceiveInterrupt(rxData); }
      if TRDY in status { TransmitInterrupt(); }
    }

    /** transmitInterrupt: send the oldest queued byte, or turn transmit-ready interrupts off. */
    method TransmitInterrupt()
      requires Valid()
      modifies this`interruptFlags, this`control, this`txLog, txQueue
      ensures Valid() && Outgoing() == old(Outgoing())
      ensures old(txQueue.Contents) != [] ==>
        txLog == old(txLog) + [old(txQueue.Contents)[0]] && txQueue.Contents == old(txQueue.Contents)[1..] &&
        interruptFlags == old(interruptFlags) && control == old(control)
      ensures old(txQueue.Contents) == [] ==>
        txLog == old(txLog) && txQueue.Contents == [] &&
        interruptFlags == old(interruptFlags) - {TRDY} && control == interruptFlags
    {
      if txQueue.Empty() {
        DisableTransmitInterrupt();
      } else {
        TransmitFront();
      }
    }

    /** Writes the oldest queued byte to the transmit register and drops it from the queue. */
    method TransmitFront()
      requires Valid() && txQueue.Contents != []
      modifies this`txLog, txQueue
      ensures Valid() && Outgoing() == old(Outgoing())
      ensures txLog == old(txLog) + [old(txQueue.Contents)[0]] && txQueue.Contents == old(txQueue.Contents)[1..]
    {
      ghost var before := txQueue.Contents;
      txLog := txLog + [txQueue.Peek()];
      txQueue.Pop();
      assert txLog + txQueue.Contents == old(Outgoing()) by {
        assert before == [before[0]] + before[1..];
      }
    }

    /** receiveInterrupt: queue the received byte, or latch an overrun when the queue is full. */
    method ReceiveInterrupt(rxData: bv8)
      requires Valid()
      modifies this`lastError, rxQueue, rxQueue.elements
      ensures Valid()
      ensures |old(rxQueue.Contents)| == rxQueue.kSizeMax ==>
        lastError == old(lastError) + {ROE} && rxQueue.Contents == old(rxQueue.Contents)
      ensures |old(rxQueue.Contents)| < rxQueue.kSizeMax ==>
        lastError == old(lastError) && rxQueue.Contents == old(rxQueue.Contents) + [rxData]
    {
      if rxQueue.Full() {
        lastError := lastError + {ROE};
      } else {
        rxQueue.Push(rxData);
      }
    }
  }

  /** What flush waits for: transmit-ready before each byte and once more, then empty. */
  function FlushCondition(j: nat, n: nat): (cond: Await<Bit>)
    ensures j <= n ==> cond == AllSet({TRDY})
    ensures j > n ==> cond == AllSet({TMT})
  {
    if j <= n then AllSet({TRDY}) else AllSet({TMT})
  }

  /**
   * The constructor as a whole: member initialisation, then setup with the
   * default line settings, whose result is dropped. The object is usable
   * whatever the registration did; without it no interrupt source is on.
   */
  method Create(txBuffSz: nat, rxBuffSz: nat, frc: Counter, registered: bool) returns (u: NiosUart)
    ensures fresh(u) && u.Valid() && u.txQueue.Contents == [] && u.rxQueue.Contents == []
    ensures u.txQueue.kSizeMax == txBuffSz && u.rxQueue.kSizeMax == rxBuffSz
    ensures u.lastError == {} && u.interruptFlags == SETUP_INTERRUPT_FLAGS
    ensures u.control == if registered then SETUP_INTERRUPT_FLAGS else {}
    ensures u.framePeriodUsec == SP.CalcFramePeriodUsec(SP.Default())
  {
    u := new NiosUart(txBuffSz, rxBuffSz, frc);
    AllowListEdges(SP.Default());
    var _ := u.Setup(SP.Default(), registered);
  }

  /**
   * A receive queue of two bytes: three read-ready interrupts queue the
   * first two bytes and latch an overrun for the third; the bytes come out
   * in arrival order, and clear forgets the overrun.
   */
  method OverrunScenario(frc: Counter) returns (first: bv8, second: bv8, overrunBefore: bool, overrunAfterClear: bool)
    ensures first == 'a' as bv8 && second == 'b' as bv8
    ensures overrunBefore && !overrunAfterClear
  {
    var u := new NiosUart(4, 2, frc);
    AllowListEdges(SP.Default());
    var rc := u.Setup(SP.Default(), true);
    u.InterruptServiceRoutine({RRDY}, 'a' as bv8);
    u.InterruptServiceRoutine({RRDY}, 'b' as bv8);
    u.InterruptServiceRoutine({RRDY}, 'c' as bv8);
    overrunBefore := u.OverrunErrorOccurred();
    rc, first := u.Get();
    rc, second := u.Get();
    u.Clear();
    overrunAfterClear := u.OverrunErrorOccurred();
  }

  /**
   * With a transmit buffer of capacity 0, put still sends a byte straight
   * out when the transmitter is ready, and refuses it otherwise.
   */
  method ZeroBufferScenario(frc: Counter) returns (whenReady: int, whenBusy: int)
    ensures whenReady == 0 && whenBusy == 1
  {
    var u := new NiosUart(0, 0, frc);
    whenReady := u.Put('x' as bv8, {TRDY});
    whenBusy := u.Put('y' as bv8, {});
  }
}
