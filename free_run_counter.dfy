// The free-running counter service (C `FreeRunCounter_*` and C++ class
// `FreeRunCounter`). A hardware timer is set to count over the full 32-bit
// range with auto-reload; the service turns durations into relative counts
// and back, and busy-waits on the counter.
//
// The two bindings compute the same expressions, so one definition serves
// both; they differ only in construction (CtorC versus FromFrequency).
// The counting direction, a build-time macro in the source, is the Boolean
// `countUp` of the Counter value. Counter reads are parameters: a busy-wait
// consumes a finite sequence of samples and requires that one of them ends it.
module FreeRunCounter {
  import opened CTypes

  /** 1024 ns expressed in counts is frequency / 976562.5; the source divides by 976562. */
  const NSEC_DIVISOR: nat := 976562
  const USEC_DIVISOR: nat := 1000000
  const MSEC_DIVISOR: nat := 1000
  /** Bits 22..31 of a count: a difference with one of them set would overflow `<< 10`. */
  const LARGE_DIFF: nat := 0x40_0000

  datatype CountMethod = CountUp | CountDown

  /** What the constructor passes to the timer's setup. */
  datatype TimerCountParams = TimerCountParams(countMethod: CountMethod, reloadEnable: bool, loadCountValue: U32)

  /** The constants fixed once at construction. */
  datatype Counter = Counter(
    countUp: bool,
    frequency: U32,
    countsPer1024Nsec: U32,
    countsPerUsec: U32,
    countsPerMsec: U32,
    unit1024Nsec: U32,
    unitUsec: U32,
    unitMsec: U32)

  /**
   * `(freq + (d - 1)) / d` evaluated in uint32: the ceiling of freq / d when
   * the rounding addition fits, and never more than that ceiling.
   */
  function CeilQuot32(freq: U32, d: nat): (r: U32)
    requires d > 0
    ensures r as int * d < freq + d
    ensures freq + (d - 1) < TWO_32 ==> r as int * d >= freq
  {
    DivU32(Wrap32(freq + (d - 1)), d)
  }

  /** The C++ constructor's member initialisers for a timer of frequency `freq`. */
  function FromFrequency(freq: U32, countUp: bool): (c: Counter)
    ensures c.countUp == countUp && c.frequency == freq
    ensures c.unit1024Nsec * NSEC_DIVISOR <= freq < (c.unit1024Nsec + 1) * NSEC_DIVISOR
    ensures c.unitUsec * USEC_DIVISOR <= freq < (c.unitUsec + 1) * USEC_DIVISOR
    ensures c.unitMsec * MSEC_DIVISOR <= freq < (c.unitMsec + 1) * MSEC_DIVISOR
  {
    FloorDiv(freq, NSEC_DIVISOR);
    FloorDiv(freq, USEC_DIVISOR);
    FloorDiv(freq, MSEC_DIVISOR);
    Counter(countUp, freq,
      CeilQuot32(freq, NSEC_DIVISOR), CeilQuot32(freq, USEC_DIVISOR), CeilQuot32(freq, MSEC_DIVISOR),
      freq / NSEC_DIVISOR, freq / USEC_DIVISOR, freq / MSEC_DIVISOR)
  }

  /** The timer configuration both constructors request: full range, auto-reload. */
  function TimerParams(countUp: bool): (p: TimerCountParams)
    ensures p.loadCountValue == UINT32_MAX && p.reloadEnable
    ensures p.countMethod.CountUp? <==> countUp
  {
    TimerCountParams(if countUp then CountUp else CountDown, true, 0xFFFF_FFFF)
  }

  /**
   * The C ctor. It fails when no timer is available, when the timer's setup
   * returns non-zero, or when three consecutive reads after start are all
   * equal (the timer is not running); otherwise the constants are those of
   * FromFrequency.
   */
  function CtorC(freq: U32, countUp: bool, timerFound: bool, setupResult: int,
                 count1: U32, count2: U32, count3: U32): (r: Option<Counter>)
    ensures r.Some? <==> timerFound && setupResult == 0 && !(count1 == count2 && count1 == count3)
    ensures r.Some? ==> r.value.countUp == countUp && r.value.frequency == freq
  {
    if !timerFound then None
    else if setupResult != 0 then None
    else if count1 == count2 && count1 == count3 then None
    else Some(FromFrequency(freq, countUp))
  }

  /** The Nios timer's setup refuses to count up. */
  function NiosTimerSetup(params: TimerCountParams): (rc: int)
    ensures rc == 0 <==> params.countMethod.CountDown?
  {
    if params.countMethod.CountUp? then 1 else 0
  }

  /** On Nios a count-up counter can never be constructed by the C binding. */
  lemma NiosCounterCountsDown(freq: U32, countUp: bool, c1: U32, c2: U32, c3: U32)
    ensures CtorC(freq, countUp, true, NiosTimerSetup(TimerParams(countUp)), c1, c2, c3).Some?
            ==> !countUp
  {
  }

  // ---------------------------------------------------------------------------
  // Constants.

  /**
   * When the additions do not wrap, the counts-per-unit constants are the
   * ceilings of freq / divisor and the measurement units are the floors.
   */
  lemma ConstantsAreCeilingsAndFloors(freq: U32, countUp: bool)
    requires freq + (USEC_DIVISOR - 1) < TWO_32
    ensures var c := FromFrequency(freq, countUp);
      c.countsPer1024Nsec * NSEC_DIVISOR >= freq > (c.countsPer1024Nsec - 1) * NSEC_DIVISOR &&
      c.countsPerUsec * USEC_DIVISOR >= freq > (c.countsPerUsec - 1) * USEC_DIVISOR &&
      c.countsPerMsec * MSEC_DIVISOR >= freq > (c.countsPerMsec - 1) * MSEC_DIVISOR &&
      c.unit1024Nsec * NSEC_DIVISOR <= freq < (c.unit1024Nsec + 1) * NSEC_DIVISOR &&
      c.unitUsec * USEC_DIVISOR <= freq < (c.unitUsec + 1) * USEC_DIVISOR &&
      c.unitMsec * MSEC_DIVISOR <= freq < (c.unitMsec + 1) * MSEC_DIVISOR
  {
    CeilDiv(freq, NSEC_DIVISOR);
    CeilDiv(freq, USEC_DIVISOR);
    CeilDiv(freq, MSEC_DIVISOR);
    FloorDiv(freq, NSEC_DIVISOR);
    FloorDiv(freq, USEC_DIVISOR);
    FloorDiv(freq, MSEC_DIVISOR);
  }

  /**
   * The additions in the constructor are 32-bit: at the top of the frequency
   * range `freq + 999999` wraps and counts-per-microsecond becomes 0.
   */
  lemma CountsPerUsecWrapsAtTopFrequency(countUp: bool)
    ensures FromFrequency(UINT32_MAX, countUp).countsPerUsec == 0
    ensures FromFrequency(UINT32_MAX, countUp).countsPerMsec == 0
  {
  }

  // ---------------------------------------------------------------------------
  // Differences and timeouts.

  /** Elapsed counts from `start` to `end`, in the counting direction, modulo 2^32. */
  function Diff(c: Counter, start: U32, end: U32): (r: U32)
    ensures Advance(c, start, r) == end
  {
    if c.countUp then Wrap32(end - start) else Wrap32(start - end)
  }

  /** The raw counter value `k` counts after `start`, wrapping past the end of the range. */
  function Advance(c: Counter, start: U32, k: U32): U32
  {
    if c.countUp then Wrap32(start + k) else Wrap32(start - k)
  }

  /** Whatever the wrap-around, the difference recovers an elapsed count below 2^32. */
  lemma DiffIsWrapSafe(c: Counter, start: U32, k: U32)
    ensures Diff(c, start, Advance(c, start, k)) == k
  {
    if c.countUp {
      if start + k >= TWO_32 {
        assert Advance(c, start, k) == start + k - TWO_32;
        assert Wrap32(start + k - TWO_32 - start) == Wrap32(k - TWO_32) == k;
      }
    } else {
      if start - k < 0 {
        assert Advance(c, start, k) == start - k + TWO_32;
        assert Wrap32(start - (start - k + TWO_32)) == Wrap32(k - TWO_32) == k;
      }
    }
  }

  /** A concrete straddle of the wrap point: up-counting from 0xFFFF_FFF0 to 0x10 is 0x20 counts. */
  lemma DiffAcrossWrapPoint()
    ensures Diff(FromFrequency(100_000_000, true), 0xFFFF_FFF0, 0x10) == 0x20
    ensures Diff(FromFrequency(100_000_000, false), 0x10, 0xFFFF_FFF0) == 0x20
  {
  }

  /** `timeout(base, t)` given the counter read `now`. */
  function Timeout(c: Counter, base: U32, now: U32, timeoutCount: U32): (r: bool)
    ensures !r <==> Diff(c, base, now) < timeoutCount
    ensures timeoutCount == 0 ==> r
    ensures now == base && timeoutCount > 0 ==> !r
  {
    if Diff(c, base, now) < timeoutCount then false else true
  }

  /** Once the counter has advanced k counts past base, timeout is reached exactly when k >= t. */
  lemma TimeoutAfterElapsed(c: Counter, base: U32, k: U32, t: U32)
    ensures Timeout(c, base, Advance(c, base, k), t) <==> k >= t
  {
    DiffIsWrapSafe(c, base, k);
  }

  // ---------------------------------------------------------------------------
  // Conversions from durations to counts.

  function ConvertNsecToCount(c: Counter, nsec: U32): (r: U32)
    requires c.countsPer1024Nsec > 0 && nsec < (UINT32_MAX - 1023) / c.countsPer1024Nsec
    ensures r as int * 1024 >= c.countsPer1024Nsec as int * nsec
    ensures r as int * 1024 < c.countsPer1024Nsec as int * nsec + 1024
  {
    var product: int := c.countsPer1024Nsec as int * nsec;
    ProductBelow(c.countsPer1024Nsec, nsec, UINT32_MAX - 1023);
    CeilDiv(product, 1024);
    DivU32(Wrap32(Wrap32(product) + 1023), 1024)
  }

  function ConvertUsecToCount(c: Counter, usec: U32): (r: U32)
    requires c.countsPerUsec > 0 && usec < UINT32_MAX / c.countsPerUsec
    ensures r == c.countsPerUsec as int * usec && r as int + c.countsPerUsec <= UINT32_MAX
  {
    var product: int := c.countsPerUsec as int * usec;
    ProductBelow(c.countsPerUsec, usec, UINT32_MAX);
    Wrap32(product)
  }

  function ConvertMsecToCount(c: Counter, msec: U32): (r: U32)
    requires c.countsPerMsec > 0 && msec < UINT32_MAX / c.countsPerMsec
    ensures r == c.countsPerMsec as int * msec && r as int + c.countsPerMsec <= UINT32_MAX
  {
    var product: int := c.countsPerMsec as int * msec;
    ProductBelow(c.countsPerMsec, msec, UINT32_MAX);
    Wrap32(product)
  }

  /** A count of `k` per unit, with k * d >= f, covers `u` units: (k * u) * d >= u * f. */
  lemma ScaledCeilingCovers(k: nat, u: nat, d: nat, f: nat)
    requires k * d >= f
    ensures k * u * d >= u * f
  {
    calc {
      k * u * d;
    ==
      u * (k * d);
    >= { MulMono(u, f, k * d); }
      u * f;
    }
  }

  /** Waiting ConvertUsecToCount counts lasts at least `usec` microseconds. */
  lemma {:induction false} ConvertUsecCoversDuration(freq: U32, countUp: bool, usec: U32)
    requires 0 < freq && freq + (USEC_DIVISOR - 1) < TWO_32
    requires usec < UINT32_MAX / FromFrequency(freq, countUp).countsPerUsec
    ensures ConvertUsecToCount(FromFrequency(freq, countUp), usec) * USEC_DIVISOR >= usec as int * freq
  {
    var c := FromFrequency(freq, countUp);
    var k: nat := c.countsPerUsec;
    assert k * USEC_DIVISOR >= freq by { ConstantsAreCeilingsAndFloors(freq, countUp); }
    assert ConvertUsecToCount(c, usec) == k * usec;
    ScaledCeilingCovers(k, usec, USEC_DIVISOR, freq);
  }

  /** Waiting ConvertMsecToCount counts lasts at least `msec` milliseconds. */
  lemma {:induction false} ConvertMsecCoversDuration(freq: U32, countUp: bool, msec: U32)
    requires 0 < freq && freq + (USEC_DIVISOR - 1) < TWO_32
    requires msec < UINT32_MAX / FromFrequency(freq, countUp).countsPerMsec
    ensures ConvertMsecToCount(FromFrequency(freq, countUp), msec) * MSEC_DIVISOR >= msec as int * freq
  {
    var c := FromFrequency(freq, countUp);
    var k: nat := c.countsPerMsec;
    assert k * MSEC_DIVISOR >= freq by { ConstantsAreCeilingsAndFloors(freq, countUp); }
    assert ConvertMsecToCount(c, msec) == k * msec;
    ScaledCeilingCovers(k, msec, MSEC_DIVISOR, freq);
  }

  /**
   * Waiting ConvertNsecToCount counts lasts at least `nsec` nanoseconds:
   * 1024 * 976562 = 999999488 does not exceed 10^9.
   */
  lemma {:induction false} ConvertNsecCoversDuration(freq: U32, countUp: bool, nsec: U32)
    requires 0 < freq && freq + (USEC_DIVISOR - 1) < TWO_32
    requires nsec < (UINT32_MAX - 1023) / FromFrequency(freq, countUp).countsPer1024Nsec
    ensures ConvertNsecToCount(FromFrequency(freq, countUp), nsec) * 1_000_000_000 >= nsec as int * freq
  {
    var c := FromFrequency(freq, countUp);
    ConstantsAreCeilingsAndFloors(freq, countUp);
    NsecChain(ConvertNsecToCount(c, nsec), c.countsPer1024Nsec, nsec, freq);
  }

  lemma NsecChain(r: nat, cp: nat, nsec: nat, freq: nat)
    requires r * 1024 >= cp * nsec && cp * NSEC_DIVISOR >= freq
    ensures r * 1_000_000_000 >= nsec * freq
  {
    MulMono(r, 999_999_488, 1_000_000_000);
    assert r * 999_999_488 == (r * 1024) * 976562;
    assert (r * 1024) * 976562 >= (cp * nsec) * 976562;
    assert (cp * nsec) * 976562 == nsec * (cp * 976562);
    MulMono(nsec, freq, cp * NSEC_DIVISOR);
  }

  // ---------------------------------------------------------------------------
  // Busy-waits. `base` is the read taken on entry; `samples` are the reads the
  // loop makes afterwards, in order.

  /** The spin shared by the three waits: returns the index of the read that ends it. */
  method SpinUntil(c: Counter, base: U32, timeoutCount: U32, samples: seq<U32>) returns (k: nat)
    requires exists i :: 0 <= i < |samples| && Diff(c, base, samples[i]) >= timeoutCount
    ensures k < |samples| && Diff(c, base, samples[k]) >= timeoutCount
    ensures forall i :: 0 <= i < k ==> Diff(c, base, samples[i]) < timeoutCount
  {
    k := 0;
    while Diff(c, base, samples[k]) < timeoutCount
      invariant k < |samples|
      invariant exists i :: k <= i < |samples| && Diff(c, base, samples[i]) >= timeoutCount
      invariant forall i :: 0 <= i < k ==> Diff(c, base, samples[i]) < timeoutCount
      decreases |samples| - k
    {
      k := k + 1;
    }
  }

  method WaitNsec(c: Counter, nsec: U32, base: U32, samples: seq<U32>) returns (k: nat)
    requires c.countsPer1024Nsec > 0 && nsec < (UINT32_MAX - 1023) / c.countsPer1024Nsec
    requires exists i :: 0 <= i < |samples| && Diff(c, base, samples[i]) >= ConvertNsecToCount(c, nsec)
    ensures k < |samples| && Diff(c, base, samples[k]) >= ConvertNsecToCount(c, nsec)
    ensures forall i :: 0 <= i < k ==> Diff(c, base, samples[i]) < ConvertNsecToCount(c, nsec)
  {
    var timeoutCount := Wrap32(Wrap32(c.countsPer1024Nsec * nsec) + 1023) / 1024;
    k := SpinUntil(c, base, timeoutCount, samples);
  }

  method WaitUsec(c: Counter, usec: U32, base: U32, samples: seq<U32>) returns (k: nat)
    requires c.countsPerUsec > 0 && usec < UINT32_MAX / c.countsPerUsec
    requires exists i :: 0 <= i < |samples| && Diff(c, base, samples[i]) >= ConvertUsecToCount(c, usec)
    ensures k < |samples| && Diff(c, base, samples[k]) >= ConvertUsecToCount(c, usec)
    ensures forall i :: 0 <= i < k ==> Diff(c, base, samples[i]) < ConvertUsecToCount(c, usec)
  {
    var timeoutCount := Wrap32(c.countsPerUsec * usec);
    k := SpinUntil(c, base, timeoutCount, samples);
  }

  method WaitMsec(c: Counter, msec: U32, base: U32, samples: seq<U32>) returns (k: nat)
    requires c.countsPerMsec > 0 && msec < UINT32_MAX / c.countsPerMsec
    requires exists i :: 0 <= i < |samples| && Diff(c, base, samples[i]) >= ConvertMsecToCount(c, msec)
    ensures k < |samples| && Diff(c, base, samples[k]) >= ConvertMsecToCount(c, msec)
    ensures forall i :: 0 <= i < k ==> Diff(c, base, samples[i]) < ConvertMsecToCount(c, msec)
  {
    var timeoutCount := Wrap32(c.countsPerMsec * msec);
    k := SpinUntil(c, base, timeoutCount, samples);
  }

  // ---------------------------------------------------------------------------
  // Measurements from counts back to durations, as written (32-bit arithmetic).

  /** As written, the ns measurement never exceeds the duration by a whole unit, however the arithmetic wraps. */
  function MeasureDurationNsec(c: Counter, start: U32, end: U32): (r: U32)
    requires c.unit1024Nsec > 0
    ensures r as int * c.unit1024Nsec < (Diff(c, start, end) + c.unit1024Nsec) * 1024
  {
    var d: int := Diff(c, start, end);
    if d >= LARGE_DIFF then
      var quotient: int := DivU32(Wrap32(d + (c.unit1024Nsec - 1)), c.unit1024Nsec);
      var r := Wrap32(quotient * 1024);
      QuotientTimes1024Bound(d, c.unit1024Nsec, quotient, r);
      r
    else
      DivU32(Wrap32(Wrap32(d * 1024) + (c.unit1024Nsec - 1)), c.unit1024Nsec)
  }

  /** A rounded-up quotient scaled by 1024, or anything below it, stays under (d + u) * 1024 units. */
  lemma QuotientTimes1024Bound(d: nat, u: nat, q: nat, r: nat)
    requires u > 0 && q * u <= d + u - 1 && r <= q * 1024
    ensures r * u < (d + u) * 1024
  {
    MulMono(u, r, q * 1024);
    assert u * (q * 1024) == (q * u) * 1024;
  }

  /** As written, the µs measurement never exceeds the ceiling of diff / unit, however the addition wraps. */
  function MeasureDurationUsec(c: Counter, start: U32, end: U32): (r: U32)
    requires c.unitUsec > 0
    ensures r as int * c.unitUsec < Diff(c, start, end) + c.unitUsec
  {
    DivU32(Wrap32(Diff(c, start, end) + (c.unitUsec - 1)), c.unitUsec)
  }

  /** As written, the ms measurement never exceeds the ceiling of diff / unit, however the addition wraps. */
  function MeasureDurationMsec(c: Counter, start: U32, end: U32): (r: U32)
    requires c.unitMsec > 0
    ensures r as int * c.unitMsec < Diff(c, start, end) + c.unitMsec
  {
    DivU32(Wrap32(Diff(c, start, end) + (c.unitMsec - 1)), c.unitMsec)
  }

  /** Below 2^22 counts the ns measurement is ceil(diff * 1024 / unit), provided the rounding add fits. */
  lemma MeasureDurationNsecSmall(c: Counter, start: U32, end: U32)
    requires c.unit1024Nsec > 0 && Diff(c, start, end) < LARGE_DIFF
    requires Diff(c, start, end) * 1024 + c.unit1024Nsec - 1 < TWO_32
    ensures var r: int, d: int := MeasureDurationNsec(c, start, end), Diff(c, start, end);
      r * c.unit1024Nsec >= d * 1024 && r * c.unit1024Nsec < d * 1024 + c.unit1024Nsec
  {
    CeilDiv(Diff(c, start, end) * 1024, c.unit1024Nsec);
  }

  /**
   * From 2^22 counts on, the ns measurement divides first and then shifts:
   * it is 1024 * ceil(diff / unit), never less than diff * 1024 / unit.
   */
  lemma MeasureDurationNsecLarge(c: Counter, start: U32, end: U32)
    requires c.unit1024Nsec > 0 && Diff(c, start, end) >= LARGE_DIFF
    requires Diff(c, start, end) + c.unit1024Nsec - 1 < TWO_32
    requires (Diff(c, start, end) + c.unit1024Nsec - 1) / c.unit1024Nsec < LARGE_DIFF
    ensures var r: int, d: int, u: int := MeasureDurationNsec(c, start, end), Diff(c, start, end), c.unit1024Nsec;
      r == ((d + u - 1) / u) * 1024 && r * u >= d * 1024
  {
    var d: int, u: int := Diff(c, start, end), c.unit1024Nsec;
    var q := (d + u - 1) / u;
    CeilDiv(d, u);
    assert q * 1024 < TWO_32;
    calc {
      (q * 1024) * u;
    ==
      (q * u) * 1024;
    >= { MulMono(1024, d, q * u); }
      d * 1024;
    }
  }

  /** When diff + unit - 1 does not wrap, the µs measurement is ceil(diff / unit). */
  lemma MeasureDurationUsecIsCeiling(c: Counter, start: U32, end: U32)
    requires c.unitUsec > 0 && Diff(c, start, end) + c.unitUsec - 1 < TWO_32
    ensures var r: int, d: int, u: int := MeasureDurationUsec(c, start, end), Diff(c, start, end), c.unitUsec;
      r * u >= d && r * u < d + u
  {
    CeilDiv(Diff(c, start, end), c.unitUsec);
  }

  /** When diff + unit - 1 does not wrap, the ms measurement is ceil(diff / unit). */
  lemma MeasureDurationMsecIsCeiling(c: Counter, start: U32, end: U32)
    requires c.unitMsec > 0 && Diff(c, start, end) + c.unitMsec - 1 < TWO_32
    ensures var r: int, d: int, u: int := MeasureDurationMsec(c, start, end), Diff(c, start, end), c.unitMsec;
      r * u >= d && r * u < d + u
  {
    CeilDiv(Diff(c, start, end), c.unitMsec);
  }

  /**
   * The rounding add wraps for a difference within `unit` of 2^32: at 100 MHz
   * an interval of 0xFFFF_FFFF counts (about 42.9 s) measures as 0 µs and 0 ms.
   */
  lemma MeasureDurationWrapsNearFullRange()
    ensures MeasureDurationUsec(FromFrequency(100_000_000, true), 1, 0) == 0
    ensures MeasureDurationMsec(FromFrequency(100_000_000, true), 1, 0) == 0
  {
    var c := FromFrequency(100_000_000, true);
    assert c.unitUsec == 100 && c.unitMsec == 100_000;
    assert Diff(c, 1, 0) == UINT32_MAX;
    assert Wrap32(UINT32_MAX + 99) == 98;
    assert Wrap32(UINT32_MAX + 99_999) == 99_998;
  }

  /** The same interval measured by the corrected definitions. */
  lemma MeasureDurationCorrectedNearFullRange()
    ensures MeasureDurationUsecCorrected(FromFrequency(100_000_000, true), 1, 0) == 42949673
    ensures MeasureDurationMsecCorrected(FromFrequency(100_000_000, true), 1, 0) == 42950
  {
    var c := FromFrequency(100_000_000, true);
    assert c.unitUsec == 100 && c.unitMsec == 100_000;
    assert Diff(c, 1, 0) == UINT32_MAX;
    assert UINT32_MAX % 100 == 95 && UINT32_MAX / 100 == 42949672;
    assert UINT32_MAX % 100_000 == 67295 && UINT32_MAX / 100_000 == 42949;
  }

  /** ceil(diff / unit) computed without an add that can wrap. */
  function CeilQuotNoWrap(d: U32, u: nat): (r: U32)
    requires u > 0
    ensures r as int * u >= d && r as int * u < d + u
  {
    FloorDiv(d, u);
    if d % u == 0 then d / u else d / u + 1
  }

  /** measureDurationUsec as intended: ceil(diff / unit) for every difference. */
  function MeasureDurationUsecCorrected(c: Counter, start: U32, end: U32): (r: U32)
    requires c.unitUsec > 0
    ensures var d: int := Diff(c, start, end); r as int * c.unitUsec >= d && r as int * c.unitUsec < d + c.unitUsec
  {
    CeilQuotNoWrap(Diff(c, start, end), c.unitUsec)
  }

  /** measureDurationMsec as intended: ceil(diff / unit) for every difference. */
  function MeasureDurationMsecCorrected(c: Counter, start: U32, end: U32): (r: U32)
    requires c.unitMsec > 0
    ensures var d: int := Diff(c, start, end); r as int * c.unitMsec >= d && r as int * c.unitMsec < d + c.unitMsec
  {
    CeilQuotNoWrap(Diff(c, start, end), c.unitMsec)
  }
}
