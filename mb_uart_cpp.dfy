// The C++ binding of the MicroBlaze UART Lite driver (class MbUart). Its
// logic is that of the C binding, with two differences: the queues are the
// generic FixedQueue<uint8_t>, built even with capacity 0, and the interrupt
// handler, on an error, resets the receive FIFO, re-enables the core's
// interrupt and returns without serving reception or transmission.
//
// Hardware is modelled through parameters (status register reads, the bytes
// the receive FIFO yields) and through `control`, the last value written to
// the control register. `txLog` records every byte written to the transmit
// FIFO.
module MbUartCpp {
  import opened CTypes
  import opened FreeRunCounter
  import opened StatusWait
  import opened UartLite
  import SP = SerialParams
  import FQ = FixedQueue

  class MbUart {
    const txQueue: FQ.FixedQueue<bv8>
    const rxQueue: FQ.FixedQueue<bv8>
    const counter: Counter
    var errorMask: Register
    var lastError: Register
    var framePeriodUsec: U32
    /** The last value written to the control register. */
    var control: Control
    /** Every byte written to the transmit FIFO, in order. */
    ghost var txLog: seq<bv8>

    ghost predicate Valid()
      reads this, txQueue, txQueue.elements, rxQueue, rxQueue.elements
    {
      QueuesValid() && framePeriodUsec <= MAX_FRAME_PERIOD_USEC
    }

    /** Two distinct queues, each consistent with its storage. */
    ghost predicate QueuesValid()
      reads txQueue, txQueue.elements, rxQueue, rxQueue.elements
    {
      txQueue != rxQueue && txQueue.elements != rxQueue.elements &&
      txQueue.Valid() && rxQueue.Valid()
    }

    /** The bytes accepted for transmission: those already sent, then those still queued. */
    ghost function Outgoing(): seq<bv8>
      reads this, txQueue
    {
      txLog + txQueue.Contents
    }

    /** The ctor's member initialisers; either buffer may have capacity 0. */
    constructor (txBuffSz: nat, rxBuffSz: nat, frc: Counter)
      ensures Valid() && fresh(txQueue) && fresh(txQueue.elements) && fresh(rxQueue) && fresh(rxQueue.elements)
      ensures txQueue.kSizeMax == txBuffSz && rxQueue.kSizeMax == rxBuffSz && counter == frc
      ensures txQueue.Contents == [] && rxQueue.Contents == [] && txLog == []
      ensures errorMask == {} && lastError == {} && framePeriodUsec == 0 && control == {}
    {
      txQueue := new FQ.FixedQueue<bv8>(txBuffSz);
      rxQueue := new FQ.FixedQueue<bv8>(rxBuffSz);
      counter := frc;
      errorMask, lastError := {}, {};
      framePeriodUsec := 0;
      control := {};
      txLog := [];
    }

    /**
     * setup: rejected settings change nothing. Accepted ones set the frame
     * period, empty both queues, clear the latched errors and set up the
     * interrupt, which leaves the core's interrupt enabled.
     */
    method Setup(params: SP.SerialParams) returns (rc: int)
      requires Valid()
      modifies this`framePeriodUsec, this`errorMask, this`lastError, this`control, txQueue, rxQueue
      ensures Valid()
      ensures rc == 0 <==> ValidateSerialParams(params) == 0
      ensures rc != 0 ==>
        rc == 1 && framePeriodUsec == old(framePeriodUsec) && errorMask == old(errorMask) &&
        lastError == old(lastError) && control == old(control) &&
        txQueue.Contents == old(txQueue.Contents) && rxQueue.Contents == old(rxQueue.Contents)
      ensures rc == 0 ==>
        framePeriodUsec == SP.CalcFramePeriodUsec(params) &&
        txQueue.Contents == [] && rxQueue.Contents == [] && lastError == {} &&
        errorMask == ERROR_MASK && control == {ENABLE_INTR}
    {
      if ValidateSerialParams(params) != 0 { return 1; }
      AcceptedSettingsFramePeriod(params);
      framePeriodUsec := SP.CalcFramePeriodUsec(params);
      ClearBuffer();
      lastError := {};
      SetupInterrupt();
      return 0;
    }

    /**
     * setupInterrupt: disables the core's interrupt, sets the error mask,
     * resets both FIFOs and enables the interrupt again; registering the
     * handler cannot fail.
     */
    method SetupInterrupt()
      modifies this`errorMask, this`control
      ensures errorMask == ERROR_MASK && control == {ENABLE_INTR}
    {
      control := {};
      errorMask := {PARITY, FRAMING, OVERRUN};
      control := {RST_RX, RST_TX};
      control := {ENABLE_INTR};
    }

    /** get: the oldest received byte, or 1 when nothing has been received. */
    method Get() returns (rc: int, data: bv8)
      requires Valid()
      modifies rxQueue
      ensures Valid()
      ensures old(rxQueue.Contents) == [] ==> rc == 1 && rxQueue.Contents == []
      ensures old(rxQueue.Contents) != [] ==>
        rc == 0 && data == old(rxQueue.Contents)[0] && rxQueue.Contents == old(rxQueue.Contents)[1..]
    {
      rc, data := 1, 0;
      if !rxQueue.Empty() {
        data := rxQueue.Peek();
        rxQueue.Pop();
        rc := 0;
      }
    }

    /**
     * put: `status` is the status register as read. With the transmit FIFO
     * not full the byte goes out at once, or, when bytes are queued, the
     * oldest goes out and the new one is queued behind the rest; otherwise
     * it is queued if there is room. Order is kept: what is accepted
     * follows everything before it.
     */
    method Put(data: bv8, status: Register) returns (rc: int)
      requires Valid()
      modifies this`txLog, txQueue, txQueue.elements
      ensures rc == 0 || rc == 1
      ensures Valid()
      ensures rc == 0 <==> TX_FULL !in status || |old(txQueue.Contents)| < txQueue.kSizeMax
      ensures rc == 0 ==> Outgoing() == old(Outgoing()) + [data]
      ensures rc != 0 ==> txLog == old(txLog) && txQueue.Contents == old(txQueue.Contents)
      ensures TX_FULL in status ==> txLog == old(txLog)
      ensures TX_FULL !in status ==>
        |txLog| == |old(txLog)| + 1 && |txQueue.Contents| == |old(txQueue.Contents)|
    {
      rc := 1;
      if TX_FULL !in status {
        if txQueue.Empty() {
          txLog := txLog + [data];
        } else {
          ghost var before := txQueue.Contents;
          txLog := txLog + [txQueue.Peek()];
          txQueue.Pop();
          txQueue.Push(data);
          assert txLog + txQueue.Contents == old(txLog) + before + [data] by {
            assert before == [before[0]] + before[1..];
          }
        }
        rc := 0;
      } else if !txQueue.Full() {
        txQueue.Push(data);
        rc := 0;
      }
    }

    /** read: all `count` bytes, oldest first, or nothing at all when fewer are queued. */
    method Read(buff: array<bv8>, count: nat) returns (rc: int)
      requires Valid() && count <= buff.Length
      requires buff != rxQueue.elements && buff != txQueue.elements
      modifies rxQueue, buff
      ensures rc == 0 || rc == 1
      ensures Valid()
      ensures rc == 0 <==> count <= |old(rxQueue.Contents)|
      ensures rc == 0 ==> (buff[..count] == old(rxQueue.Contents)[..count] &&
        rxQueue.Contents == old(rxQueue.Contents)[count..] && buff[count..] == old(buff[count..]))
      ensures rc != 0 ==> rxQueue.Contents == old(rxQueue.Contents) && buff[..] == old(buff[..])
    {
      rc := 1;
      if rxQueue.Size() >= count {
        var i := 0;
        while i < count
          invariant 0 <= i <= count && Valid()
          invariant rxQueue.Contents == old(rxQueue.Contents)[i..]
          invariant buff[..i] == old(rxQueue.Contents)[..i]
          invariant buff[count..] == old(buff[count..])
        {
          buff[i] := rxQueue.Peek();
          rxQueue.Pop();
          i := i + 1;
        }
        rc := 0;
      }
    }

    /**
     * write: all `count` bytes queued in order, or none when they do not all
     * fit; either way the FIFO is then topped up from the queue. `fifo` are
     * the status reads of that top-up.
     */
    method Write(buff: seq<bv8>, count: nat, fifo: seq<Register>) returns (rc: int)
      requires Valid() && count <= |buff| && |fifo| >= FIFO_SIZE
      modifies this`txLog, txQueue, txQueue.elements
      ensures rc == 0 || rc == 1
      ensures Valid()
      ensures rc == 0 <==> count <= txQueue.kSizeMax - |old(txQueue.Contents)|
      ensures Outgoing() == if rc == 0 then old(Outgoing()) + buff[..count] else old(Outgoing())
      ensures var queued := if rc == 0 then old(txQueue.Contents) + buff[..count] else old(txQueue.Contents);
        var k := Moved(fifo, |queued|);
        txLog == old(txLog) + queued[..k] && txQueue.Contents == queued[k..]
    {
      rc := 1;
      if txQueue.AvailableSize() >= count {
        var i := 0;
        while i < count
          invariant 0 <= i <= count && QueuesValid()
          invariant txQueue.Contents == old(txQueue.Contents) + buff[..i]
          modifies txQueue, txQueue.elements
        {
          txQueue.Push(buff[i]);
          i := i + 1;
        }
        rc := 0;
      }
      WriteToTxFifo(fifo);
    }

    /**
     * writeToTxFifo: moves queued bytes, oldest first, into the transmit
     * FIFO until a status read shows it full, the queue runs dry, or
     * FIFO_SIZE bytes have gone.
     */
    method WriteToTxFifo(fifo: seq<Register>)
      requires Valid() && |fifo| >= FIFO_SIZE
      modifies this`txLog, txQueue
      ensures Valid() && Outgoing() == old(Outgoing())
      ensures var k := Moved(fifo, |old(txQueue.Contents)|);
        txLog == old(txLog) + old(txQueue.Contents)[..k] && txQueue.Contents == old(txQueue.Contents)[k..]
    {
      ghost var k := Moved(fifo, |txQueue.Contents|);
      var i := 0;
      while i < FIFO_SIZE
        invariant i <= k
        invariant Valid() && Outgoing() == old(Outgoing())
        invariant txLog == old(txLog) + old(txQueue.Contents)[..i] && txQueue.Contents == old(txQueue.Contents)[i..]
      {
        if TX_FULL in fifo[i] { break; }
        if txQueue.Empty() { break; }
        TransmitFront();
        i := i + 1;
      }
    }

    /** Writes the oldest queued byte to the transmit FIFO and drops it from the queue. */
    method TransmitFront()
      requires Valid() && txQueue.Contents != []
      modifies this`txLog, txQueue
      ensures Valid() && Outgoing() == old(Outgoing())
      ensures txLog == old(txLog) + [old(txQueue.Contents)[0]] && txQueue.Contents == old(txQueue.Contents)[1..]
    {
      ghost var before := txQueue.Contents;
      txLog := txLog + [txQueue.Peek()];
      txQueue.Pop();
      assert txLog + txQueue.Contents == old(Outgoing()) by {
        assert before == [before[0]] + before[1..];
      }
    }

    /** clear: both queues emptied and the latched errors forgotten. */
    method Clear()
      requires Valid()
      modifies this`lastError, txQueue, rxQueue
      ensures Valid()
      ensures txQueue.Contents == [] && rxQueue.Contents == [] && lastError == {}
    {
      ClearBuffer();
      lastError := {};
    }

    /** clearBuffer: both queues emptied. */
    method ClearBuffer()
      requires Valid()
      modifies txQueue, rxQueue
      ensures Valid()
      ensures txQueue.Contents == [] && rxQueue.Contents == []
    {
      txQueue.Clear();
      rxQueue.Clear();
    }

    /**
     * flush: with the interrupt held off, each queued byte is written once
     * the FIFO reads not full (`waits[j]` for the j-th byte); then it waits
     * for the FIFO to drain (`waits[n]`) and for one more frame period, the
     * last byte leaving the shift register (`settle` are that wait's counter
     * reads). It succeeds exactly when no FIFO wait stalls; then every
     * accepted byte has gone out in order. A stall leaves the bytes not yet
     * written in the queue.
     */
    method Flush(waits: seq<WaitTrace<Bit>>, settleBase: U32, settle: seq<U32>) returns (rc: int)
      requires Valid()
      requires counter.countsPerUsec > 0 && framePeriodUsec * FIFO_SIZE < UINT32_MAX / counter.countsPerUsec
      requires |waits| > |txQueue.Contents|
      requires forall j :: 0 <= j < |txQueue.Contents| ==>
        Ends(counter, ConvertUsecToCount(counter, framePeriodUsec), BitClear(TX_FULL), waits[j])
      requires Ends(counter, ConvertUsecToCount(counter, framePeriodUsec * FIFO_SIZE), AllSet({TX_EMPTY}), waits[|txQueue.Contents|])
      requires exists i :: 0 <= i < |settle| && Diff(counter, settleBase, settle[i]) >= ConvertUsecToCount(counter, framePeriodUsec)
      modifies this`txLog, txQueue
      ensures rc == 0 || rc == 1
      ensures Valid() && Outgoing() == old(Outgoing())
      ensures rc == 0 <==>
        (forall j :: 0 <= j < |old(txQueue.Contents)| ==>
          WaitResult(counter, ConvertUsecToCount(counter, framePeriodUsec), BitClear(TX_FULL), waits[j]) == 0) &&
        WaitResult(counter, ConvertUsecToCount(counter, framePeriodUsec * FIFO_SIZE), AllSet({TX_EMPTY}), waits[|old(txQueue.Contents)|]) == 0
      ensures rc == 0 ==> txQueue.Contents == [] && txLog == old(txLog + txQueue.Contents)
    {
      ghost var n := |txQueue.Contents|;
      var j := 0;
      while !txQueue.Empty()
        invariant Valid() && Outgoing() == old(Outgoing())
        invariant j <= n && |txQueue.Contents| == n - j
        invariant forall i :: 0 <= i < j ==> WaitResult(counter, ConvertUsecToCount(counter, framePeriodUsec), BitClear(TX_FULL), waits[i]) == 0
        decreases |txQueue.Contents|
      {
        var r := WaitTxFifoReady(counter, framePeriodUsec, waits[j]);
        if r != 0 { return 1; }
        TransmitFront();
        j := j + 1;
      }
      var r := WaitTxFifoEmpty(counter, framePeriodUsec, waits[j]);
      if r != 0 { return 1; }
      var _ := WaitUsec(counter, framePeriodUsec, settleBase, settle);
      rc := 0;
    }

    /** getFramePeriodUsec: never longer than that of the slowest accepted setting. */
    function GetFramePeriodUsec(): (r: U32)
      reads this, txQueue, txQueue.elements, rxQueue, rxQueue.elements
      requires Valid()
      ensures r == framePeriodUsec <= MAX_FRAME_PERIOD_USEC
    {
      framePeriodUsec
    }

    /** overrunErrorOccurred: the overrun bit of the latched errors. */
    function OverrunErrorOccurred(): (r: bool)
      reads this
      ensures r <==> OVERRUN in lastError
    {
      OVERRUN in lastError
    }

    /** framingErrorOccurred: the framing bit of the latched errors. */
    function FramingErrorOccurred(): (r: bool)
      reads this
      ensures r <==> FRAMING in lastError
    {
      FRAMING in lastError
    }

    /** parityErrorOccurred: the parity bit of the latched errors. */
    function ParityErrorOccurred(): (r: bool)
      reads this
      ensures r <==> PARITY in lastError
    {
      PARITY in lastError
    }

    /**
     * interruptHandler: with an error bit set, the errors are latched, the
     * receive FIFO is reset and the core's interrupt enabled again, and
     * nothing else is done. Otherwise received bytes are drained and, with
     * the transmit FIFO not full, the FIFO is topped up. `rxStatus`/`rxData`
     * are the receive passes' reads, `fifo` the transmit passes' status
     * reads.
     */
    method InterruptHandler(status: Register, rxStatus: seq<Register>, rxData: seq<bv8>, fifo: seq<Register>)
      requires Valid() && |rxStatus| >= FIFO_SIZE && |rxData| >= FIFO_SIZE && |fifo| >= FIFO_SIZE
      modifies this`lastError, this`control, this`txLog, txQueue, rxQueue, rxQueue.elements
      ensures Valid() && Outgoing() == old(Outgoing())
      ensures status * errorMask != {} ==>
        lastError == old(lastError) + status * errorMask && control == {ENABLE_INTR} &&
        rxQueue.Contents == old(rxQueue.Contents) && txQueue.Contents == old(txQueue.Contents)
      ensures status * errorMask == {} ==> control == old(control)
      ensures status * errorMask == {} ==> (lastError == old(lastError) +
        (if RX_VALID in status && Overflows(rxStatus, rxQueue.kSizeMax - |old(rxQueue.Contents)|) then {OVERRUN} else {}))
      ensures status * errorMask == {} ==> (rxQueue.Contents == old(rxQueue.Contents) +
        (if RX_VALID in status then Accepted(rxStatus, rxData, rxQueue.kSizeMax - |old(rxQueue.Contents)|) else []))
      ensures status * errorMask == {} ==> (txQueue.Contents ==
        if TX_FULL !in status then old(txQueue.Contents)[Moved(fifo, |old(txQueue.Contents)|)..] else old(txQueue.Contents))
    {
      if status * errorMask != {} {
        lastError := lastError + status * errorMask;
        control := {RST_RX};
        control := {ENABLE_INTR};
        return;
      }
      if RX_VALID in status { ReceiveInterrupt(rxStatus, rxData); }
      assert RX_VALID !in status ==> lastError == old(lastError);
      if TX_FULL !in status { TransmitInterrupt(fifo); }
    }

    /** transmitInterrupt: tops up the transmit FIFO from the queue. */
    method TransmitInterrupt(fifo: seq<Register>)
      requires Valid() && |fifo| >= FIFO_SIZE
      modifies this`txLog, txQueue
      ensures Valid() && Outgoing() == old(Outgoing())
      ensures var k := Moved(fifo, |old(txQueue.Contents)|);
        txLog == old(txLog) + old(txQueue.Contents)[..k] && txQueue.Contents == old(txQueue.Contents)[k..]
    {
      WriteToTxFifo(fifo);
    }

    /**
     * receiveInterrupt: for at most FIFO_SIZE passes while the status shows
     * a received byte, reads it and queues it, or, with the queue full,
     * throws it away and latches an overrun.
     */
    method ReceiveInterrupt(rxStatus: seq<Register>, rxData: seq<bv8>)
      requires Valid() && |rxStatus| >= FIFO_SIZE && |rxData| >= FIFO_SIZE
      modifies this`lastError, rxQueue, rxQueue.elements
      ensures Valid()
      ensures var free := rxQueue.kSizeMax - |old(rxQueue.Contents)|;
        rxQueue.Contents == old(rxQueue.Contents) + Accepted(rxStatus, rxData, free) &&
        lastError == old(lastError) + (if Overflows(rxStatus, free) then {OVERRUN} else {})
    {
      ghost var free := rxQueue.kSizeMax - |rxQueue.Contents|;
      ghost var k := Arrived(rxStatus);
      var i := 0;
      while i < FIFO_SIZE
        invariant i <= k
        invariant Valid()
        invariant rxQueue.Contents == old(rxQueue.Contents) + rxData[..Min(i, free)]
        invariant lastError == old(lastError) + (if i > free then {OVERRUN} else {})
      {
        if RX_VALID !in rxStatus[i] { break; }
        ReceiveByte(rxData[i]);
        i := i + 1;
      }
    }

    /** One receive pass: queue the byte read, or throw it away and latch an overrun when the queue is full. */
    method ReceiveByte(data: bv8)
      requires Valid()
      modifies this`lastError, rxQueue, rxQueue.elements
      ensures Valid()
      ensures |old(rxQueue.Contents)| == rxQueue.kSizeMax ==>
        lastError == old(lastError) + {OVERRUN} && rxQueue.Contents == old(rxQueue.Contents)
      ensures |old(rxQueue.Contents)| < rxQueue.kSizeMax ==>
        lastError == old(lastError) && rxQueue.Contents == old(rxQueue.Contents) + [data]
    {
      if rxQueue.Full() {
        lastError := lastError + {OVERRUN};
      } else {
        rxQueue.Push(data);
      }
    }
  }

  /**
   * The constructor as a whole: member initialisation, then setup with the
   * default line settings, which the allow-list accepts.
   */
  method Create(txBuffSz: nat, rxBuffSz: nat, frc: Counter) returns (u: MbUart)
    ensures fresh(u) && fresh(u.txQueue) && fresh(u.txQueue.elements) && fresh(u.rxQueue) && fresh(u.rxQueue.elements)
    ensures u.Valid() && u.txQueue.kSizeMax == txBuffSz && u.rxQueue.kSizeMax == rxBuffSz
    ensures u.txQueue.Contents == [] && u.rxQueue.Contents == [] && u.txLog == []
    ensures u.lastError == {} && u.errorMask == ERROR_MASK && u.control == {ENABLE_INTR}
    ensures u.framePeriodUsec == SP.CalcFramePeriodUsec(SP.Default())
  {
    u := new MbUart(txBuffSz, rxBuffSz, frc);
    AllowListEdges(SP.Default());
    var _ := u.Setup(SP.Default());
  }

  /**
   * A parity error arriving together with a received byte: the error is
   * latched and the interrupt stays enabled, but the byte is not taken
   * into the receive queue by this interrupt.
   */
  method ErrorSkipsReception(frc: Counter, rx: seq<Register>, fifo: seq<Register>, data: seq<bv8>)
    returns (parity: bool, enabledAfter: bool, received: nat)
    requires |rx| >= FIFO_SIZE && |fifo| >= FIFO_SIZE && |data| >= FIFO_SIZE
    requires RX_VALID in rx[0]
    ensures parity && enabledAfter && received == 0
  {
    var u := Create(8, 8, frc);
    u.InterruptHandler({PARITY, RX_VALID}, rx, data, fifo);
    parity := u.ParityErrorOccurred();
    enabledAfter := ENABLE_INTR in u.control;
    received := u.rxQueue.Size();
  }

  /**
   * A 32-byte transmit queue and a FIFO that never reads full: a write of
   * 20 bytes hands the first 16 to the FIFO at once and leaves the last 4 queued.
   */
  method BurstScenario(frc: Counter, buff: seq<bv8>, fifo: seq<Register>) returns (rc: int, queued: nat)
    requires |buff| == 20 && |fifo| >= FIFO_SIZE
    requires forall i :: 0 <= i < FIFO_SIZE ==> TX_FULL !in fifo[i]
    ensures rc == 0 && queued == 4
  {
    var u := Create(32, 8, frc);
    EmptyFifoTakesUpToDepth(fifo, 20);
    rc := u.Write(buff, 20, fifo);
    queued := u.txQueue.Size();
  }

  /**
   * With a transmit buffer of capacity 0, put still hands a byte straight
   * to a FIFO that is not full, and refuses it when the FIFO is full.
   */
  method ZeroBufferScenario(frc: Counter) returns (whenReady: int, whenFull: int)
    ensures whenReady == 0 && whenFull == 1
  {
    var u := new MbUart(0, 0, frc);
    whenReady := u.Put('x' as bv8, {});
    whenFull := u.Put('y' as bv8, {TX_FULL});
  }
}
