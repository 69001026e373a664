// What the Nios II UART drivers (C and C++) share: the Altera Avalon UART
// register bits they use, the allow-list of line settings, and
// waitStatusReady, which is the same code in both bindings.
module AvalonUart {
  import opened CTypes
  import opened FreeRunCounter
  import opened StatusWait
  import SP = SerialParams

  /**
   * The status and control register bits the driver uses. A register value
   * is the set of its bits that are 1; a control bit enables the interrupt
   * for the status bit of the same name.
   */
  datatype Bit = PE | FE | ROE | TMT | TRDY | RRDY
  type Register = set<Bit>

  /** setupInterrupt: the interrupt sources enabled after setup (errors and read-ready, not transmit-ready). */
  const SETUP_INTERRUPT_FLAGS: Register := {PE, FE, ROE, RRDY}
  /** setupInterrupt: the status bits the interrupt handler latches into lastError. */
  const ERROR_MASK: Register := {PE, FE, ROE}

  /** The longest frame period any accepted setting produces (9600 bps, 8 data bits, parity, 2 stop bits). */
  const MAX_FRAME_PERIOD_USEC: nat := 1250

  /**
   * validateSerialParams: 0 when every field is on the Nios allow-list,
   * 1 at the first field that is not.
   */
  function ValidateSerialParams(p: SP.SerialParams): (rc: int)
    ensures rc == 0 || rc == 1
    ensures rc == 0 ==> 9600 <= p.bitrate <= 115200 && 7 <= p.databit <= 8 && 1 <= p.stopbit <= 2
    ensures rc == 0 ==> p.parity <= SP.PARITY_EVEN && p.flowControl == SP.FLOW_CONTROL_NONE
    ensures rc == 0 <==>
      p.bitrate in {9600, 19200, 38400, 57600, 115200} && p.databit in {7, 8} &&
      p.parity in {SP.PARITY_NONE, SP.PARITY_ODD, SP.PARITY_EVEN} && p.stopbit in {1, 2} &&
      p.flowControl == SP.FLOW_CONTROL_NONE
  {
    if p.bitrate !in {9600, 19200, 38400, 57600, 115200} then 1
    else if p.databit !in {7, 8} then 1
    else if p.parity !in {SP.PARITY_NONE, SP.PARITY_ODD, SP.PARITY_EVEN} then 1
    else if p.stopbit !in {1, 2} then 1
    else if p.flowControl != SP.FLOW_CONTROL_NONE then 1
    else 0
  }

  /** Accepted settings give a frame period the flush timeouts can be computed from. */
  lemma AcceptedSettingsFramePeriod(p: SP.SerialParams)
    requires ValidateSerialParams(p) == 0
    ensures p.bitrate > 0 && SP.CalcFramePeriodUsec(p) <= MAX_FRAME_PERIOD_USEC
  {
    SP.FramePeriodAtMost1250(p);
  }

  /**
   * The defaults the constructors apply pass validation, and so does an
   * uncommon listed setting; a bitrate between listed ones, 9 data bits and
   * any flow control do not.
   */
  lemma AllowListEdges(p: SP.SerialParams)
    ensures ValidateSerialParams(SP.Default()) == 0
    ensures ValidateSerialParams(SP.SerialParams(19200, 7, SP.PARITY_ODD, 2, SP.FLOW_CONTROL_NONE)) == 0
    ensures ValidateSerialParams(SP.Default().(bitrate := 10000)) == 1
    ensures p.databit == 9 ==> ValidateSerialParams(p) == 1
    ensures p.flowControl != SP.FLOW_CONTROL_NONE ==> ValidateSerialParams(p) == 1
    ensures p.bitrate == 230400 ==> ValidateSerialParams(p) == 1
  {
  }

  /**
   * waitStatusReady: waits up to one frame period for every bit of `mask`
   * to read 1. The count conversion asserts that the frame period fits,
   * hence the first requires.
   */
  method WaitStatusReady(c: Counter, framePeriodUsec: U32, mask: Register, t: WaitTrace<Bit>) returns (rc: int)
    requires c.countsPerUsec > 0 && framePeriodUsec < UINT32_MAX / c.countsPerUsec
    requires Ends(c, ConvertUsecToCount(c, framePeriodUsec), AllSet(mask), t)
    ensures rc == 0 || rc == 1
    ensures rc == WaitResult(c, ConvertUsecToCount(c, framePeriodUsec), AllSet(mask), t)
  {
    var timeoutCount := ConvertUsecToCount(c, framePeriodUsec);
    rc := PollStatus(c, timeoutCount, AllSet(mask), t);
  }

  /**
   * For a counter built from any frequency whose constructor arithmetic does
   * not wrap, the frame periods of accepted settings satisfy the
   * conversion's assertion.
   */
  lemma FrameTimeoutFits(freq: U32, countUp: bool, framePeriodUsec: U32)
    requires 0 < freq && freq + (USEC_DIVISOR - 1) < TWO_32 && framePeriodUsec <= MAX_FRAME_PERIOD_USEC
    ensures var c := FromFrequency(freq, countUp);
      c.countsPerUsec > 0 && framePeriodUsec < UINT32_MAX / c.countsPerUsec
  {
    var c := FromFrequency(freq, countUp);
    var cpu: int := c.countsPerUsec;
    ConstantsAreCeilingsAndFloors(freq, countUp);
    assert cpu > 0;
    assert cpu <= 4294;
    DivAntitone(UINT32_MAX, cpu, 4294);
  }
}
