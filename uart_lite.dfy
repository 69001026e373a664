// What the MicroBlaze UART drivers (C and C++) share: the Xilinx UART Lite
// register bits they use, the allow-list of line settings, the two transmit
// FIFO waits, and the bounded passes of writeToTxFifo and receiveInterrupt,
// whose outcome depends only on the status reads they make.
module UartLite {
  import opened CTypes
  import opened FreeRunCounter
  import opened StatusWait
  import SP = SerialParams
  import AU = AvalonUart

  /** Status register bits. A status value is the set of its bits that read 1. */
  datatype Bit = RX_VALID | RX_FULL | TX_EMPTY | TX_FULL | INTR_ENABLED | OVERRUN | FRAMING | PARITY
  type Register = set<Bit>

  /**
   * Control register bits. Every write sets the whole register, so a write
   * of the FIFO reset bits alone turns the interrupt enable off.
   */
  datatype ControlBit = RST_TX | RST_RX | ENABLE_INTR
  type Control = set<ControlBit>

  /** Depth of the transmit and receive FIFOs of the core. */
  const FIFO_SIZE: nat := 16
  /** setupInterrupt: the status bits the interrupt handler latches into lastError. */
  const ERROR_MASK: Register := {PARITY, FRAMING, OVERRUN}
  /** The longest frame period any accepted setting produces (9600 bps, 8 data bits, parity, 2 stop bits). */
  const MAX_FRAME_PERIOD_USEC: nat := 1250

  /**
   * validateSerialParams: 0 when every field is on the MicroBlaze
   * allow-list, 1 at the first field that is not.
   */
  function ValidateSerialParams(p: SP.SerialParams): (rc: int)
    ensures rc == 0 || rc == 1
    ensures rc == 0 ==> 9600 <= p.bitrate <= 230400 && 5 <= p.databit <= 8 && 1 <= p.stopbit <= 2
    ensures rc == 0 ==> p.parity <= SP.PARITY_EVEN && p.flowControl == SP.FLOW_CONTROL_NONE
    ensures rc == 0 <==>
      p.bitrate in {9600, 19200, 38400, 57600, 115200, 230400} && p.databit in {5, 6, 7, 8} &&
      p.parity in {SP.PARITY_NONE, SP.PARITY_ODD, SP.PARITY_EVEN} && p.stopbit in {1, 2} &&
      p.flowControl == SP.FLOW_CONTROL_NONE
  {
    if p.bitrate !in {9600, 19200, 38400, 57600, 115200, 230400} then 1
    else if p.databit !in {5, 6, 7, 8} then 1
    else if p.parity !in {SP.PARITY_NONE, SP.PARITY_ODD, SP.PARITY_EVEN} then 1
    else if p.stopbit !in {1, 2} then 1
    else if p.flowControl != SP.FLOW_CONTROL_NONE then 1
    else 0
  }

  /** Accepted settings give a frame period the flush timeouts can be computed from. */
  lemma AcceptedSettingsFramePeriod(p: SP.SerialParams)
    requires ValidateSerialParams(p) == 0
    ensures p.bitrate > 0 && SP.CalcFramePeriodUsec(p) <= MAX_FRAME_PERIOD_USEC
  {
    SP.FramePeriodAtMost1250(p);
  }

  /**
   * The MicroBlaze allow-list is the Nios one widened by 230400 bps and by
   * 5 and 6 data bits: everything the Nios driver accepts is accepted here,
   * and exactly those two widenings separate the lists.
   */
  lemma AllowListWidensNios(p: SP.SerialParams)
    ensures AU.ValidateSerialParams(p) == 0 ==> ValidateSerialParams(p) == 0
    ensures ValidateSerialParams(p) == 0 && AU.ValidateSerialParams(p) != 0 ==>
      p.bitrate == 230400 || p.databit == 5 || p.databit == 6
  {
  }

  /**
   * The defaults the constructors apply pass validation, and so does an
   * uncommon listed setting; a bitrate between listed ones, 9 data bits and
   * any flow control do not.
   */
  lemma AllowListEdges(p: SP.SerialParams)
    ensures ValidateSerialParams(SP.Default()) == 0
    ensures ValidateSerialParams(SP.SerialParams(19200, 7, SP.PARITY_ODD, 2, SP.FLOW_CONTROL_NONE)) == 0
    ensures ValidateSerialParams(SP.Default().(bitrate := 10000)) == 1
    ensures p.databit == 9 ==> ValidateSerialParams(p) == 1
    ensures p.flowControl != SP.FLOW_CONTROL_NONE ==> ValidateSerialParams(p) == 1
  {
  }

  /**
   * waitTxFifoReady: waits up to one frame period for the transmit FIFO to
   * read not full.
   */
  method WaitTxFifoReady(c: Counter, framePeriodUsec: U32, t: WaitTrace<Bit>) returns (rc: int)
    requires c.countsPerUsec > 0 && framePeriodUsec < UINT32_MAX / c.countsPerUsec
    requires Ends(c, ConvertUsecToCount(c, framePeriodUsec), BitClear(TX_FULL), t)
    ensures rc == 0 || rc == 1
    ensures rc == WaitResult(c, ConvertUsecToCount(c, framePeriodUsec), BitClear(TX_FULL), t)
  {
    var timeoutCount := ConvertUsecToCount(c, framePeriodUsec);
    rc := PollStatus(c, timeoutCount, BitClear(TX_FULL), t);
  }

  /**
   * waitTxFifoEmpty: waits up to the time a full FIFO takes to drain (one
   * frame period per entry) for the transmit FIFO to read empty. The
   * unsigned product does not wrap under the first requires.
   */
  method WaitTxFifoEmpty(c: Counter, framePeriodUsec: U32, t: WaitTrace<Bit>) returns (rc: int)
    requires c.countsPerUsec > 0 && framePeriodUsec * FIFO_SIZE < UINT32_MAX / c.countsPerUsec
    requires Ends(c, ConvertUsecToCount(c, framePeriodUsec * FIFO_SIZE), AllSet({TX_EMPTY}), t)
    ensures rc == 0 || rc == 1
    ensures rc == WaitResult(c, ConvertUsecToCount(c, framePeriodUsec * FIFO_SIZE), AllSet({TX_EMPTY}), t)
  {
    var timeoutCount := ConvertUsecToCount(c, framePeriodUsec * FIFO_SIZE);
    rc := PollStatus(c, timeoutCount, AllSet({TX_EMPTY}), t);
  }

  /**
   * For a counter built from any frequency whose constructor arithmetic does
   * not wrap, the frame periods of accepted settings satisfy the assertions
   * of both conversions flush makes, and the FIFO-drain product does not
   * wrap.
   */
  lemma FifoTimeoutFits(freq: U32, countUp: bool, framePeriodUsec: U32)
    requires 0 < freq && freq + (USEC_DIVISOR - 1) < TWO_32 && framePeriodUsec <= MAX_FRAME_PERIOD_USEC
    ensures var c := FromFrequency(freq, countUp);
      c.countsPerUsec > 0 && framePeriodUsec * FIFO_SIZE < UINT32_MAX / c.countsPerUsec &&
      framePeriodUsec < UINT32_MAX / c.countsPerUsec
  {
    var c := FromFrequency(freq, countUp);
    var cpu: int := c.countsPerUsec;
    ConstantsAreCeilingsAndFloors(freq, countUp);
    assert cpu > 0;
    assert cpu <= 4294;
    DivAntitone(UINT32_MAX, cpu, 4294);
  }

  // ---------------------------------------------------------------------------
  // The bounded FIFO passes. writeToTxFifo and receiveInterrupt each make at
  // most FIFO_SIZE passes, and each pass begins with a status read; the
  // status reads are a parameter with one entry per possible pass.

  /** The number of leading passes, at most FIFO_SIZE, whose status read satisfies `cond`. */
  function PassesWhile(statuses: seq<Register>, cond: Await<Bit>): (k: nat)
    requires |statuses| >= FIFO_SIZE
    ensures k <= FIFO_SIZE
    ensures forall i :: 0 <= i < k ==> Satisfied(cond, statuses[i])
    ensures k < FIFO_SIZE ==> !Satisfied(cond, statuses[k])
  {
    PassesWhileFrom(statuses, cond, 0)
  }

  function PassesWhileFrom(statuses: seq<Register>, cond: Await<Bit>, from: nat): (k: nat)
    requires |statuses| >= FIFO_SIZE && from <= FIFO_SIZE
    requires forall i :: 0 <= i < from ==> Satisfied(cond, statuses[i])
    ensures from <= k <= FIFO_SIZE
    ensures forall i :: 0 <= i < k ==> Satisfied(cond, statuses[i])
    ensures k < FIFO_SIZE ==> !Satisfied(cond, statuses[k])
    decreases FIFO_SIZE - from
  {
    if from == FIFO_SIZE || !Satisfied(cond, statuses[from]) then from
    else PassesWhileFrom(statuses, cond, from + 1)
  }

  /**
   * writeToTxFifo: the number of queued bytes a call moves to the FIFO when
   * `queued` bytes wait: it stops at the first pass that reads the FIFO full
   * or finds the queue empty, and after FIFO_SIZE passes.
   */
  function Moved(fifo: seq<Register>, queued: nat): (k: nat)
    requires |fifo| >= FIFO_SIZE
    ensures k <= queued && k <= FIFO_SIZE
    ensures forall i :: 0 <= i < k ==> TX_FULL !in fifo[i]
    ensures k == queued || k == FIFO_SIZE || TX_FULL in fifo[k]
  {
    Min(PassesWhile(fifo, BitClear(TX_FULL)), queued)
  }

  /** receiveInterrupt: the number of passes that find a received byte waiting. */
  function Arrived(rxStatus: seq<Register>): (k: nat)
    requires |rxStatus| >= FIFO_SIZE
    ensures k <= FIFO_SIZE
    ensures forall i :: 0 <= i < k ==> RX_VALID in rxStatus[i]
    ensures k < FIFO_SIZE ==> RX_VALID !in rxStatus[k]
  {
    PassesWhile(rxStatus, AllSet({RX_VALID}))
  }

  /**
   * receiveInterrupt with `free` places left in the receive queue: the bytes
   * it queues, in arrival order. The ones beyond `free` are read and thrown
   * away.
   */
  function Accepted(rxStatus: seq<Register>, rxData: seq<bv8>, free: nat): (r: seq<bv8>)
    requires |rxStatus| >= FIFO_SIZE && |rxData| >= FIFO_SIZE
    ensures |r| <= free && |r| <= Arrived(rxStatus)
    ensures |r| == free || |r| == Arrived(rxStatus)
    ensures r == rxData[..|r|]
  {
    rxData[..Min(Arrived(rxStatus), free)]
  }

  /** receiveInterrupt latches an overrun exactly when more bytes arrive than there is room for. */
  predicate Overflows(rxStatus: seq<Register>, free: nat)
    requires |rxStatus| >= FIFO_SIZE
  {
    Arrived(rxStatus) > free
  }

  /**
   * Nothing received is lost silently: each byte a receive pass reads is
   * either queued or, when the queue has no room, accounted for by the
   * overrun flag.
   */
  lemma ReceiveAccountsForEveryByte(rxStatus: seq<Register>, rxData: seq<bv8>, free: nat)
    requires |rxStatus| >= FIFO_SIZE && |rxData| >= FIFO_SIZE
    ensures |Accepted(rxStatus, rxData, free)| == Arrived(rxStatus) <==> !Overflows(rxStatus, free)
    ensures Overflows(rxStatus, free) ==> |Accepted(rxStatus, rxData, free)| == free
  {
  }

  /** A FIFO that reads not full on every pass takes min(queued, FIFO_SIZE) bytes in one call. */
  lemma EmptyFifoTakesUpToDepth(fifo: seq<Register>, queued: nat)
    requires |fifo| >= FIFO_SIZE
    requires forall i :: 0 <= i < FIFO_SIZE ==> TX_FULL !in fifo[i]
    ensures Moved(fifo, queued) == Min(queued, FIFO_SIZE)
  {
  }
}
