// Serial line settings and the per-byte frame period derived from them
// (C `SerialParams` struct with SerialParams_calcFramePeriodUsec, C++ struct
// `SerialParams`). The enumerations are plain numbers here, so a value
// outside an enumeration, which the validators must reject, can be expressed.
module SerialParams {
  import opened CTypes

  const PARITY_NONE: U32 := 0
  const PARITY_ODD: U32 := 1
  const PARITY_EVEN: U32 := 2

  const FLOW_CONTROL_NONE: U32 := 0
  const FLOW_CONTROL_HARDWARE: U32 := 1
  const FLOW_CONTROL_XON_XOFF: U32 := 2

  datatype SerialParams = SerialParams(bitrate: U32, databit: U32, parity: U32, stopbit: U32, flowControl: U32)

  /** The C++ default constructor: 115200 bps, 8 data bits, no parity, 1 stop bit, no flow control. */
  function Default(): (p: SerialParams)
    ensures NoWrap(p) && BitsPerFrame(p) == 10
  {
    SerialParams(115200, 8, PARITY_NONE, 1, FLOW_CONTROL_NONE)
  }

  /** Start bit, data bits, a parity bit unless parity is NONE, and stop bits (as `unsigned int`). */
  function BitsPerFrame(p: SerialParams): (r: U32)
    ensures p.databit <= 8 && p.stopbit <= 2 ==>
      r == 1 + p.databit + (if p.parity == PARITY_NONE then 0 else 1) + p.stopbit <= 12
  {
    Wrap32(1 + p.databit + (if p.parity == PARITY_NONE then 0 else 1) + p.stopbit)
  }

  /** `((1000000U * bitsPerFrame) + (bitrate - 1)) / bitrate` in 32-bit unsigned arithmetic. */
  function CalcFramePeriodUsec(p: SerialParams): (r: U32)
    requires p.bitrate > 0
    ensures r as int * p.bitrate < 1_000_000 * BitsPerFrame(p) + p.bitrate
  {
    DivU32(Wrap32(Wrap32(1_000_000 * BitsPerFrame(p)) + (p.bitrate - 1)), p.bitrate)
  }

  /** The line settings for which none of the 32-bit operations wraps. */
  predicate NoWrap(p: SerialParams)
  {
    p.bitrate > 0 &&
    1_000_000 * (2 + p.databit + p.stopbit) + p.bitrate - 1 < TWO_32
  }

  /**
   * Without wrap-around the frame period is the ceiling of 10^6 * bits /
   * bitrate microseconds, where bits counts a parity bit iff parity is not NONE.
   */
  lemma FramePeriodIsCeiling(p: SerialParams)
    requires NoWrap(p)
    ensures var r: int, bits: int := CalcFramePeriodUsec(p), 1 + p.databit + (if p.parity != PARITY_NONE then 1 else 0) + p.stopbit;
      r * p.bitrate >= 1_000_000 * bits && (r - 1) * p.bitrate < 1_000_000 * bits
  {
    var bits: int := BitsPerFrame(p);
    assert 1_000_000 * bits + p.bitrate - 1 < TWO_32;
    CeilDiv(1_000_000 * bits, p.bitrate);
  }

  /** A frame with more bits at the same bitrate never has a shorter period. */
  lemma FramePeriodMonotone(p: SerialParams, q: SerialParams)
    requires NoWrap(p) && NoWrap(q) && p.bitrate == q.bitrate
    requires BitsPerFrame(p) <= BitsPerFrame(q)
    ensures CalcFramePeriodUsec(p) <= CalcFramePeriodUsec(q)
  {
    var bp: int, bq: int := BitsPerFrame(p), BitsPerFrame(q);
    assert 1_000_000 * bp + p.bitrate - 1 < TWO_32;
    assert 1_000_000 * bq + p.bitrate - 1 < TWO_32;
    DivMono(1_000_000 * bp + p.bitrate - 1, 1_000_000 * bq + p.bitrate - 1, p.bitrate);
  }

  /** Adding a parity bit or a second stop bit never shortens the frame period; odd and even cost the same. */
  lemma ParityAndStopBitLengthenFrame(p: SerialParams)
    requires NoWrap(p.(stopbit := 2)) && p.parity == PARITY_NONE && p.stopbit == 1
    ensures CalcFramePeriodUsec(p) <= CalcFramePeriodUsec(p.(parity := PARITY_ODD))
    ensures CalcFramePeriodUsec(p.(parity := PARITY_ODD)) == CalcFramePeriodUsec(p.(parity := PARITY_EVEN))
    ensures CalcFramePeriodUsec(p) <= CalcFramePeriodUsec(p.(stopbit := 2))
  {
    FramePeriodMonotone(p, p.(parity := PARITY_ODD));
    FramePeriodMonotone(p, p.(stopbit := 2));
  }

  /** The default settings give 87 µs per byte; 9600 bps 8N1 gives 1042 µs. */
  lemma DefaultFramePeriod()
    ensures CalcFramePeriodUsec(Default()) == 87
    ensures CalcFramePeriodUsec(Default().(bitrate := 9600)) == 1042
  {
    assert BitsPerFrame(Default()) == 10;
    assert (10_000_000 + 115199) / 115200 == 87;
    assert (10_000_000 + 9599) / 9600 == 1042;
  }

  /**
   * Every setting either UART driver accepts (at least 9600 bps, at most 8
   * data bits, at most 2 stop bits) has a frame period of at most 1250 µs.
   */
  lemma FramePeriodAtMost1250(p: SerialParams)
    requires 9600 <= p.bitrate <= 921600 && p.databit <= 8 && p.stopbit <= 2
    ensures CalcFramePeriodUsec(p) <= 1250
  {
    var bits: int := BitsPerFrame(p);
    var r: int := CalcFramePeriodUsec(p);
    assert bits <= 12;
    assert r * p.bitrate <= 1_000_000 * bits + p.bitrate - 1;
    if r >= 1251 {
      MulMono(p.bitrate, 1251, r);
      assert false;
    }
  }
}
