# sdpses driver core in Dafny

This project models the core of SDPSES (Software Development Platform for
Small-scale Embedded Systems), a set of drivers for FPGA soft cores. It covers
Nios II and MicroBlaze, and each driver exists as a C binding and a C++ binding.
The model covers these parts:

- the fixed-capacity circular queues the UART drivers buffer through
  (`FixedQueue8` in C, `FixedQueue<T>` in C++);
- the free-running counter: 32-bit wrap-safe count differences, conversions
  from durations to counts, timeouts, busy-waits and duration measurement;
- the UART frame-period formula of `SerialParams`;
- the four UART transport drivers (Nios and MicroBlaze, each in C and C++):
  - the allow-list check on line settings;
  - `get`/`put`/`read`/`write` over the transmit and receive queues;
  - `clear` and `flush`, and the status-register waits;
  - the sticky error latch;
  - the interrupt handlers;
- the allocator front end with its request counters, and the "only once" bump
  allocator behind it;
- the read-modify-write helpers of the GPIO base class.

Each queue, driver and allocator is a Dafny `class` whose fields are the
source's fields, and its methods update them in place. Pure helpers such as
the frame period, the counter arithmetic and the allow-lists are functions
with lemmas.

Hardware registers are modelled as follows:

- A status register value is the set of its bits that read 1.
- Bytes written to a transmit register go to a ghost log, `txLog`.
- The key invariant of every UART is that `txLog` followed by the transmit
  queue equals every byte accepted by a successful `put` or `write`, in
  order (`Outgoing()`).
- Status reads, received bytes and counter reads are parameters of the
  methods that make them.
- A busy-wait consumes a finite sequence of such reads, and a precondition
  says that some read in it ends the wait.

Files:

| file | module | models |
|---|---|---|
| ctypes.dfy | CTypes | 32-bit unsigned values, `Wrap32`, arithmetic helper lemmas |
| fixed_queue8.dfy | FixedQueue8 | `FixedQueue8` (C), class over `array<bv8>` |
| fixed_queue.dfy | FixedQueue | `FixedQueue<T>` (C++), generic class over `array<T>` |
| free_run_counter.dfy | FreeRunCounter | counter constants, `diff_count`, conversions, `timeout`, `wait*`, `measureDuration*` |
| serial_params.dfy | SerialParams | `SerialParams` defaults and `calcFramePeriodUsec` |
| status_wait.dfy | StatusWait | the poll-status-until-timeout loop every UART wait uses |
| avalon_uart.dfy | AvalonUart | Nios (Altera Avalon UART) register bits, allow-list, `waitStatusReady` |
| nios_uart_c.dfy / nios_uart_cpp.dfy | NiosUartC / NiosUartCpp | the Nios UART drivers |
| uart_lite.dfy | UartLite | MicroBlaze (UART Lite) register bits, allow-list, FIFO waits, bounded FIFO passes |
| mb_uart_c.dfy / mb_uart_cpp.dfy | MbUartC / MbUartCpp | the MicroBlaze UART drivers |
| allocator.dfy | Allocator | allocator front end and request counters |
| only_once_allocator.dfy | OnlyOnceAllocator | the only-once bump allocator |
| gpio.dfy | Gpio | GPIO base read-modify-write helpers and default stubs |

Three behaviours of the code shape the model:

- The C UART constructors leave a queue NULL when its size is 0, and the
  operations then dereference it. The C models therefore require positive
  buffer sizes. The C++ queue has no such check, so the C++ models allow a
  capacity of 0.
- The C++ MicroBlaze interrupt handler returns early on an error. It skips
  reception, transmission and the interrupt acknowledge.
- The Nios C++ `setup` ignores the result of `setupInterrupt`, so it returns
  0 for any accepted setting. The Nios C `setup` returns that result.

## Model

| member | source | states |
|---|---|---|
| FixedQueue8.FixedQueue8.constructor | container/queue/fixed/_clang/fixed_queue8.c:83-97 | a queue of capacity `size_max > 0` starts empty with head = tail = size = 0 |
| FixedQueue8.Create | container/queue/fixed/_clang/fixed_queue8.c:83-97 | construction fails (non-zero result, no queue) exactly when the capacity is 0; otherwise the queue is empty with that capacity |
| FixedQueue8.FixedQueue8.Clear | container/queue/fixed/_clang/fixed_queue8.c:116-121 | afterwards the queue is empty, head = tail = size = 0, and the invariant holds |
| FixedQueue8.FixedQueue8.Push | container/queue/fixed/_clang/fixed_queue8.c:131-138 | when not full: the element is appended to the logical contents, size grows by one, head is unchanged, and the ring invariant is kept |
| FixedQueue8.FixedQueue8.Pop | container/queue/fixed/_clang/fixed_queue8.c:148-154 | when not empty: the oldest element is removed, size shrinks by one, tail is unchanged |
| FixedQueue8.FixedQueue8.Front | container/queue/fixed/_clang/fixed_queue8.c:163-168 | when not empty: the oldest element of the logical contents (the FIFO law with Push/Pop) |
| FixedQueue8.FixedQueue8.Empty | container/queue/fixed/_clang/fixed_queue8.c:176-179 | true iff the contents are empty |
| FixedQueue8.FixedQueue8.Full | container/queue/fixed/_clang/fixed_queue8.c:187-190 | true iff the contents fill the capacity |
| FixedQueue8.FixedQueue8.Size | container/queue/fixed/_clang/fixed_queue8.c:197-200 | the number of queued elements, never above the capacity |
| FixedQueue8.FixedQueue8.AvailableSize | container/queue/fixed/_clang/fixed_queue8.c:207-210 | free places plus queued elements equal the capacity |
| FixedQueue8.FixedQueue8.MaxSize | container/queue/fixed/_clang/fixed_queue8.c:217-220 | the (positive, fixed) capacity, the length of the element array |
| FixedQueue8.ContentsAt | container/queue/fixed/_clang/fixed_queue8.c:131-154 | the i-th queued element is stored at slot (head + i) mod capacity |
| FixedQueue8.TailFollowsHead | container/queue/fixed/_clang/fixed_queue8.c:116-154 | tail == (head + size) mod capacity in every valid state |
| FixedQueue8.Scenario | container/queue/fixed/_clang/fixed_queue8.c:131-168 | four pushes into a queue of four fill it; after a pop the front is the second byte pushed; wrap-around refills to four |
| FixedQueue.FixedQueue.constructor | container/queue/fixed/fixed_queue_inline.h:31-43 | a queue of capacity `size_max` (0 allowed) starts empty with head = tail = size = 0 |
| FixedQueue.FixedQueue.Clear | container/queue/fixed/fixed_queue_inline.h:65-71 | head, tail and size return to 0 and the contents are empty |
| FixedQueue.FixedQueue.Push | container/queue/fixed/fixed_queue_inline.h:80-86 | when not full: appends the element, size + 1, head unchanged |
| FixedQueue.FixedQueue.Pop | container/queue/fixed/fixed_queue_inline.h:94-99 | when not empty: drops the oldest element, size - 1, tail unchanged |
| FixedQueue.FixedQueue.Peek | container/queue/fixed/fixed_queue_inline.h:107-117 | when not empty: the oldest element, without removing it |
| FixedQueue.FixedQueue.Empty | container/queue/fixed/fixed_queue_inline.h:124-128 | true iff the contents are empty |
| FixedQueue.FixedQueue.Full | container/queue/fixed/fixed_queue_inline.h:135-139 | true iff the contents fill the capacity |
| FixedQueue.FixedQueue.Size | container/queue/fixed/fixed_queue_inline.h:145-149 | the number of queued elements, at most the capacity |
| FixedQueue.FixedQueue.AvailableSize | container/queue/fixed/fixed_queue_inline.h:155-159 | free places plus queued elements equal the capacity |
| FixedQueue.FixedQueue.MaxSize | container/queue/fixed/fixed_queue_inline.h:165-169 | the capacity given at construction |
| FixedQueue.ZeroCapacity | container/queue/fixed/fixed_queue_inline.h:124-139 | a queue built with capacity 0 is at once empty and full, so no push or pop is ever allowed on it |
| FreeRunCounter.CeilQuot32 | device/free_run_counter/_clang/free_run_counter.c:116-118 | the rounded-up 32-bit quotient `(freq + (d - 1)) / d` is never above the ceiling of freq / d, and equals it when the addition fits |
| FreeRunCounter.FromFrequency | device/free_run_counter/_clang/free_run_counter.c:116-121 | keeps the direction and frequency; the three measurement units are the floors of freq / 976562, freq / 10^6 and freq / 10^3; the counterpart at device/free_run_counter/free_run_counter.cpp:41-46 behaves the same |
| FreeRunCounter.TimerParams | device/free_run_counter/_clang/free_run_counter.c:102-109 | the timer is configured with load value 0xFFFFFFFF, reload enabled, and counts up iff the build selects count-up; the counterpart at device/free_run_counter/free_run_counter.cpp:48-56 behaves the same |
| FreeRunCounter.CtorC | device/free_run_counter/_clang/free_run_counter.c:95-134 | the C constructor succeeds iff a timer exists, its setup returns 0 and three consecutive counter reads are not all equal; the counter keeps the build's direction and the timer's frequency |
| FreeRunCounter.NiosTimerSetup | device/timer/nios_timer/_clang/nios_timer.c:204 | the Nios timer accepts a configuration iff it counts down |
| FreeRunCounter.NiosCounterCountsDown | device/timer/nios_timer/_clang/nios_timer.c:204 | on a Nios timer the C constructor can only succeed for a down-counting build |
| FreeRunCounter.ConstantsAreCeilingsAndFloors | device/free_run_counter/_clang/free_run_counter.c:116-121 | the counts-per-1024 ns/µs/ms constants are the ceilings of freq/976562, freq/10^6, freq/10^3 and the measurement units their floors (when the rounding addition does not wrap); the counterpart at device/free_run_counter/free_run_counter.cpp:41-46 behaves the same |
| FreeRunCounter.CountsPerUsecWrapsAtTopFrequency | device/free_run_counter/_clang/free_run_counter.c:117-118 | at frequency 0xFFFFFFFF the rounding addition wraps and countsPerUsec and countsPerMsec come out 0 |
| FreeRunCounter.Diff | device/free_run_counter/_clang/free_run_counter.c:49-55 | advancing the start by the difference, in the counting direction with 32-bit wrap, reaches the end value: the partner of DiffIsWrapSafe; the counterpart at device/free_run_counter/free_run_counter.cpp:72-78 behaves the same |
| FreeRunCounter.DiffIsWrapSafe | device/free_run_counter/_clang/free_run_counter.c:49-55 | for either count direction, the difference between a start value and the value k counts later is k, across the 32-bit wrap; the counterpart at device/free_run_counter/free_run_counter.cpp:72-78 behaves the same |
| FreeRunCounter.DiffAcrossWrapPoint | device/free_run_counter/_clang/free_run_counter.c:49-55 | concrete: 0xFFFFFFF0 to 0x10 is 0x20 counts up, and 0x10 to 0xFFFFFFF0 is 0x20 counts down |
| FreeRunCounter.Timeout | device/free_run_counter/_clang/free_run_counter.c:191-195 | false iff the elapsed difference is below the timeout count; a zero timeout has always passed; no time elapsed means a positive timeout has not passed; the counterpart at device/free_run_counter/free_run_counter.cpp:129-133 behaves the same |
| FreeRunCounter.TimeoutAfterElapsed | device/free_run_counter/_clang/free_run_counter.c:191-195 | after exactly k counts the timeout t has passed iff k >= t |
| FreeRunCounter.ConvertNsecToCount | device/free_run_counter/_clang/free_run_counter.c:156-160 | under the source's assertion: the ceiling of countsPer1024Nsec * nsec / 1024, computed without wrap; the counterpart at device/free_run_counter/free_run_counter.cpp:94-98 behaves the same |
| FreeRunCounter.ConvertUsecToCount | device/free_run_counter/_clang/free_run_counter.c:167-171 | under the assertion: the exact product countsPerUsec * usec, with room for one more unit below 2^32; the counterpart at device/free_run_counter/free_run_counter.cpp:105-109 behaves the same |
| FreeRunCounter.ConvertMsecToCount | device/free_run_counter/_clang/free_run_counter.c:178-182 | under the assertion: the exact product countsPerMsec * msec; the counterpart at device/free_run_counter/free_run_counter.cpp:116-120 behaves the same |
| FreeRunCounter.ConvertUsecCoversDuration | device/free_run_counter/_clang/free_run_counter.c:167-171 | the converted count is at least usec * freq / 10^6: a wait never ends early |
| FreeRunCounter.ConvertMsecCoversDuration | device/free_run_counter/_clang/free_run_counter.c:178-182 | the converted count is at least msec * freq / 10^3 |
| FreeRunCounter.ConvertNsecCoversDuration | device/free_run_counter/_clang/free_run_counter.c:156-160 | the converted count is at least nsec * freq / 10^9 |
| FreeRunCounter.SpinUntil | device/free_run_counter/_clang/free_run_counter.c:202-209 | the busy-wait returns at the first counter read whose difference from the base reaches the count, and not before |
| FreeRunCounter.WaitNsec | device/free_run_counter/_clang/free_run_counter.c:202-209 | waitNsec returns only once the elapsed difference reaches the converted count, at the first such read; the counterpart at device/free_run_counter/free_run_counter.cpp:140-147 behaves the same |
| FreeRunCounter.WaitUsec | device/free_run_counter/_clang/free_run_counter.c:216-223 | waitUsec returns only once the elapsed difference reaches the converted count; the counterpart at device/free_run_counter/free_run_counter.cpp:154-161 behaves the same |
| FreeRunCounter.WaitMsec | device/free_run_counter/_clang/free_run_counter.c:230-237 | waitMsec returns only once the elapsed difference reaches the converted count; the counterpart at device/free_run_counter/free_run_counter.cpp:168-175 behaves the same |
| FreeRunCounter.MeasureDurationNsec | device/free_run_counter/_clang/free_run_counter.c:245-252 | as written, in both branches and however the arithmetic wraps, result * unit < (diff + unit) * 1024: it never overstates the duration by a whole unit; the counterpart at device/free_run_counter/free_run_counter.cpp:183-190 behaves the same |
| FreeRunCounter.MeasureDurationUsec | device/free_run_counter/_clang/free_run_counter.c:260-264 | as written, result * unit < diff + unit whatever the wrap, so never above the ceiling of diff / unit (the wrap makes it fall below; see Findings); the counterpart at device/free_run_counter/free_run_counter.cpp:198-202 behaves the same |
| FreeRunCounter.MeasureDurationMsec | device/free_run_counter/_clang/free_run_counter.c:272-276 | as written, result * unit < diff + unit whatever the wrap; the counterpart at device/free_run_counter/free_run_counter.cpp:210-214 behaves the same |
| FreeRunCounter.MeasureDurationNsecSmall | device/free_run_counter/_clang/free_run_counter.c:245-252 | below 2^22 counts the result is the ceiling of diff * 1024 / unit1024Nsec |
| FreeRunCounter.MeasureDurationNsecLarge | device/free_run_counter/_clang/free_run_counter.c:245-252 | from 2^22 counts it divides first: ceil(diff / unit) * 1024, which still covers diff * 1024 / unit |
| FreeRunCounter.MeasureDurationUsecIsCeiling | device/free_run_counter/_clang/free_run_counter.c:260-264 | when the rounding addition does not wrap, the result is the ceiling of diff / unitUsec |
| FreeRunCounter.MeasureDurationMsecIsCeiling | device/free_run_counter/_clang/free_run_counter.c:272-276 | when the rounding addition does not wrap, the result is the ceiling of diff / unitMsec |
| FreeRunCounter.MeasureDurationWrapsNearFullRange | device/free_run_counter/_clang/free_run_counter.c:260-264 | at 100 MHz counting up, from 1 to 0 (2^32 - 1 counts) the µs and ms results as written are 0 |
| FreeRunCounter.MeasureDurationCorrectedNearFullRange | device/free_run_counter/_clang/free_run_counter.c:260-276 | the corrected measurement of the same interval is 42949673 µs and 42950 ms |
| FreeRunCounter.MeasureDurationUsecCorrected | device/free_run_counter/_clang/free_run_counter.c:260-264 | for every interval the result is the ceiling of diff / unitUsec |
| FreeRunCounter.MeasureDurationMsecCorrected | device/free_run_counter/_clang/free_run_counter.c:272-276 | for every interval the result is the ceiling of diff / unitMsec |
| SerialParams.Default | device/uart/base/serial_params.h:84-93 | the default settings (115200 bps, 8N1, no flow control) make a 10-bit frame and stay clear of 32-bit wrap |
| SerialParams.BitsPerFrame | device/uart/base/_clang/serial_params.c:26-28 | for up to 8 data bits and 2 stop bits: 1 start bit + data bits + one parity bit unless parity is NONE + stop bits, at most 12 |
| SerialParams.CalcFramePeriodUsec | device/uart/base/_clang/serial_params.c:24-30 | as written, whatever the 32-bit wrap, period * bitrate < 10^6 * bits + bitrate: never above the exact ceiling; the counterpart at device/uart/base/serial_params.h:100-105 behaves the same |
| SerialParams.FramePeriodIsCeiling | device/uart/base/_clang/serial_params.c:24-30 | the frame period r satisfies r * bitrate >= 10^6 * bits > (r - 1) * bitrate, bits = 1 start + data + parity (iff not NONE) + stop; the counterpart at device/uart/base/serial_params.h:100-105 behaves the same |
| SerialParams.FramePeriodMonotone | device/uart/base/_clang/serial_params.c:24-30 | at one bitrate, more bits per frame never give a shorter frame period |
| SerialParams.ParityAndStopBitLengthenFrame | device/uart/base/_clang/serial_params.c:27-29 | adding a parity bit or a second stop bit never shortens the frame; odd and even parity give the same period |
| SerialParams.DefaultFramePeriod | device/uart/base/serial_params.h:84-93 | the defaults (115200 bps, 8 data bits, no parity, 1 stop bit) give 87 µs; 9600 bps 8N1 gives 1042 µs |
| SerialParams.FramePeriodAtMost1250 | device/uart/base/_clang/serial_params.c:24-30 | any bitrate from 9600, up to 8 data bits and 2 stop bits gives at most 1250 µs |
| AvalonUart.ValidateSerialParams | device/uart/nios_uart/_clang/nios_uart.c:247-299 | 0 or 1, and 0 exactly when the bitrate is one of 9600, 19200, 38400, 57600, 115200, the data bits 7 or 8, the parity none, odd or even, the stop bits 1 or 2 and there is no flow control; the counterpart at device/uart/nios_uart/nios_uart.cpp:114-166 behaves the same |
| AvalonUart.AllowListEdges | device/uart/nios_uart/_clang/nios_uart.c:247-299 | the defaults and 19200 bps 7O2 pass; 10000 bps, 9 data bits, any flow control and 230400 bps are rejected |
| AvalonUart.AcceptedSettingsFramePeriod | device/uart/nios_uart/_clang/nios_uart.c:219-239 | an accepted setting has a positive bitrate and a frame period of at most 1250 µs |
| AvalonUart.FrameTimeoutFits | device/uart/nios_uart/_clang/nios_uart.c:472-485 | for any counter frequency whose constants do not wrap, an accepted frame period meets the conversion's assertion |
| AvalonUart.WaitStatusReady | device/uart/nios_uart/_clang/nios_uart.c:472-485 | waits one frame period for all mask bits; 0 or 1, exactly the result of the poll loop specification; the counterpart at device/uart/nios_uart/nios_uart.cpp:324-337 behaves the same |
| StatusWait.FirstStop | device/uart/nios_uart/_clang/nios_uart.c:472-485 | the first poll at which the loop leaves: the condition holds or the timeout has passed, and no earlier poll stops |
| StatusWait.WaitResult | device/uart/nios_uart/_clang/nios_uart.c:472-485 | 1 exactly when, at the first stopping poll, the timeout has passed and neither the status nor the re-check shows the condition; the MicroBlaze waits at device/uart/mb_uart/_clang/mb_uart.c:454-488 run the same loop |
| StatusWait.NeverReadyStalls | device/uart/nios_uart/_clang/nios_uart.c:472-485 | a device that never shows the condition makes the wait fail, at the first poll past the timeout |
| StatusWait.ReadyAtOnceSucceeds | device/uart/nios_uart/_clang/nios_uart.c:472-485 | a device already ready at the first read makes the wait succeed, whatever the clock |
| StatusWait.PollStatus | device/uart/nios_uart/_clang/nios_uart.c:472-485 | the loop returns WaitResult of the reads it makes |
| NiosUartC.NiosUart.constructor | device/uart/nios_uart/_clang/nios_uart.c:126-190 | both queues empty with the given sizes, flags, mask and latched errors zero, the log empty |
| NiosUartC.Create | device/uart/nios_uart/_clang/nios_uart.c:82-97 | construction plus default setup: result 0 iff the interrupt is registered, and then the UART is set up with the default frame period and setup interrupt flags |
| NiosUartC.NiosUart.Setup | device/uart/nios_uart/_clang/nios_uart.c:219-239 | invalid settings: 1 and nothing changes; valid: frame period recomputed, both queues emptied, errors cleared, interrupt flags and mask set, result 0 iff registration succeeded |
| NiosUartC.NiosUart.SetupInterrupt | device/uart/nios_uart/_clang/nios_uart.c:554-580 | flags become PE/FE/ROE/RRDY (TRDY off), error mask PE/FE/ROE; the control register is cleared first and receives the flags only when registration succeeds, so a failed registration leaves every UART interrupt off; rc is 0 iff registered |
| NiosUartC.NiosUart.Get | device/uart/nios_uart/_clang/nios_uart.c:308-322 | empty receive queue: 1, nothing changes; otherwise 0, the oldest byte, and exactly that byte removed |
| NiosUartC.NiosUart.Put | device/uart/nios_uart/_clang/nios_uart.c:331-355 | fails iff TRDY is clear and the queue is full; success appends the byte to log + queue; TRDY ready sends one byte (the fast or rotate path) keeping the queue length; with TRDY clear nothing is sent, so a success only queues the byte; TRDY interrupt bit set even on failure |
| NiosUartC.NiosUart.EnableTransmitInterrupt | device/uart/nios_uart/_clang/nios_uart.c:350-351 | adds TRDY to the interrupt flags and writes them to the control register |
| NiosUartC.NiosUart.DisableTransmitInterrupt | device/uart/nios_uart/_clang/nios_uart.c:609-610 | removes TRDY from the interrupt flags and writes them to the control register |
| NiosUartC.NiosUart.Read | device/uart/nios_uart/_clang/nios_uart.c:365-381 | succeeds iff count bytes are queued; then the first count bytes are copied in order and removed; otherwise nothing changes |
| NiosUartC.NiosUart.Write | device/uart/nios_uart/_clang/nios_uart.c:391-408 | succeeds iff count places are free; then all count bytes are appended in order; TRDY interrupt enabled in both cases |
| NiosUartC.NiosUart.Clear | device/uart/nios_uart/_clang/nios_uart.c:415-423 | empties both queues and the latched errors |
| NiosUartC.NiosUart.ClearBuffer | device/uart/nios_uart/_clang/nios_uart.c:430-434 | empties both queues |
| NiosUartC.NiosUart.Flush | device/uart/nios_uart/_clang/nios_uart.c:442-463 | 0 iff every TRDY wait (one per queued byte plus one) and the TMT wait succeed; then the queue is drained to the log in order and TRDY disabled; on failure the flags are unchanged; log + queue never change |
| NiosUartC.FlushCondition | device/uart/nios_uart/_clang/nios_uart.c:442-463 | flush waits for TRDY before each byte and once more, then for TMT |
| NiosUartC.NiosUart.GetFramePeriodUsec | device/uart/nios_uart/_clang/nios_uart.c:492-495 | the frame period, at most 1250 µs |
| NiosUartC.NiosUart.OverrunErrorOccurred | device/uart/nios_uart/_clang/nios_uart.c:503-512 | true iff ROE is latched |
| NiosUartC.NiosUart.FramingErrorOccurred | device/uart/nios_uart/_clang/nios_uart.c:520-529 | true iff FE is latched |
| NiosUartC.NiosUart.ParityErrorOccurred | device/uart/nios_uart/_clang/nios_uart.c:537-546 | true iff PE is latched |
| NiosUartC.NiosUart.InterruptServiceRoutine | device/uart/nios_uart/_clang/nios_uart.c:587-599 | latches status errors (sticky), receives on RRDY (or latches ROE when full), on TRDY sends the front byte and pops it with the control register unchanged, or, with an empty queue, sends nothing and clears TRDY from flags and control; log + queue unchanged |
| NiosUartC.NiosUart.TransmitInterrupt | device/uart/nios_uart/_clang/nios_uart.c:606-615 | empty queue: TRDY interrupt disabled; otherwise the front byte moves to the log and is popped |
| NiosUartC.NiosUart.TransmitFront | device/uart/nios_uart/_clang/nios_uart.c:612-613 | the front byte moves to the log and is popped, log + queue unchanged |
| NiosUartC.NiosUart.ReceiveInterrupt | device/uart/nios_uart/_clang/nios_uart.c:622-630 | full queue: ROE latched and the byte dropped; otherwise the byte appended |
| NiosUartC.OverrunScenario | device/uart/nios_uart/_clang/nios_uart.c:622-630 | with a receive queue of two, a third byte sets ROE, the first two come out in order, and clear resets the flag |
| NiosUartCpp.NiosUart.constructor | device/uart/nios_uart/nios_uart.cpp:36-68 | both queues empty with the given sizes (0 allowed), flags and errors zero |
| NiosUartCpp.Create | device/uart/nios_uart/nios_uart.cpp:36-68 | the constructor's default setup leaves the UART set up with the default frame period whether or not registration succeeds |
| NiosUartCpp.NiosUart.Setup | device/uart/nios_uart/nios_uart.cpp:88-106 | invalid settings: 1, no change; valid: 0 (the registration result is ignored), frame period, empty queues, cleared errors |
| NiosUartCpp.NiosUart.SetupInterrupt | device/uart/nios_uart/nios_uart.cpp:392-418 | flags PE/FE/ROE/RRDY (TRDY off), mask PE/FE/ROE; the control register is cleared first and receives the flags only when registration succeeds; result 0 iff registered |
| NiosUartCpp.NiosUart.Get | device/uart/nios_uart/nios_uart.cpp:174-187 | pops and returns the oldest received byte iff there is one |
| NiosUartCpp.NiosUart.Put | device/uart/nios_uart/nios_uart.cpp:195-218 | fails iff not TRDY and the queue is full; success appends to log + queue in order; TRDY ready sends one byte keeping the queue length, TRDY clear sends nothing; TRDY interrupt bit always set |
| NiosUartCpp.NiosUart.EnableTransmitInterrupt | device/uart/nios_uart/nios_uart.cpp:213 | adds TRDY to the flags and the control register |
| NiosUartCpp.NiosUart.DisableTransmitInterrupt | device/uart/nios_uart/nios_uart.cpp:446 | removes TRDY from the flags and the control register |
| NiosUartCpp.NiosUart.Read | device/uart/nios_uart/nios_uart.cpp:227-242 | all or nothing on the queued count; bytes copied in order |
| NiosUartCpp.NiosUart.Write | device/uart/nios_uart/nios_uart.cpp:251-267 | all or nothing on the free places; bytes appended in order; TRDY enabled |
| NiosUartCpp.NiosUart.Clear | device/uart/nios_uart/nios_uart.cpp:273-279 | empties both queues and the latched errors |
| NiosUartCpp.NiosUart.ClearBuffer | device/uart/nios_uart/nios_uart.cpp:285-289 | empties both queues |
| NiosUartCpp.NiosUart.Flush | device/uart/nios_uart/nios_uart.cpp:296-316 | 0 iff all TRDY waits and the TMT wait succeed; then the queue is drained in order and TRDY disabled |
| NiosUartCpp.FlushCondition | device/uart/nios_uart/nios_uart.cpp:296-316 | TRDY before each byte and once more, then TMT |
| NiosUartCpp.NiosUart.GetFramePeriodUsec | device/uart/nios_uart/nios_uart.cpp:343-346 | the frame period, at most 1250 µs |
| NiosUartCpp.NiosUart.OverrunErrorOccurred | device/uart/nios_uart/nios_uart.cpp:353-359 | true iff ROE is latched |
| NiosUartCpp.NiosUart.FramingErrorOccurred | device/uart/nios_uart/nios_uart.cpp:366-372 | true iff FE is latched |
| NiosUartCpp.NiosUart.ParityErrorOccurred | device/uart/nios_uart/nios_uart.cpp:379-385 | true iff PE is latched |
| NiosUartCpp.NiosUart.InterruptServiceRoutine | device/uart/nios_uart/nios_uart.cpp:425-437 | latches errors, receives on RRDY (or latches ROE when full); on TRDY sends and pops the front byte with control unchanged, or with an empty queue sends nothing and clears TRDY; log + queue unchanged, as in C |
| NiosUartCpp.NiosUart.TransmitInterrupt | device/uart/nios_uart/nios_uart.cpp:443-452 | empty queue: TRDY disabled; otherwise the front byte is sent and popped |
| NiosUartCpp.NiosUart.TransmitFront | device/uart/nios_uart/nios_uart.cpp:449-450 | the front byte is sent and popped, log + queue unchanged |
| NiosUartCpp.NiosUart.ReceiveInterrupt | device/uart/nios_uart/nios_uart.cpp:458-466 | full queue: ROE latched, byte dropped; otherwise appended |
| NiosUartCpp.OverrunScenario | device/uart/nios_uart/nios_uart.cpp:458-466 | a third byte into a queue of two sets ROE; the bytes come out in order; clear resets the flag |
| NiosUartCpp.ZeroBufferScenario | device/uart/nios_uart/nios_uart.cpp:195-218 | with zero-size queues, put still succeeds when TRDY is set (the fast path) and fails otherwise |
| UartLite.ValidateSerialParams | device/uart/mb_uart/_clang/mb_uart.c:231-286 | 0 or 1, and 0 exactly when the bitrate is one of 9600, 19200, 38400, 57600, 115200, 230400, the data bits 5 to 8, the parity none, odd or even, the stop bits 1 or 2 and there is no flow control; the counterpart at device/uart/mb_uart/mb_uart.cpp:96-151 behaves the same |
| UartLite.AllowListWidensNios | device/uart/mb_uart/_clang/mb_uart.c:231-286 | every Nios-accepted setting is accepted here, and any setting only this list accepts uses 230400 bps or 5 or 6 data bits |
| UartLite.AllowListEdges | device/uart/mb_uart/_clang/mb_uart.c:231-286 | the defaults and 19200 bps 7O2 pass; 10000 bps, 9 data bits and flow control are rejected |
| UartLite.AcceptedSettingsFramePeriod | device/uart/mb_uart/_clang/mb_uart.c:207-223 | an accepted setting has a frame period of at most 1250 µs |
| UartLite.WaitTxFifoReady | device/uart/mb_uart/_clang/mb_uart.c:454-467 | waits one frame period for TX_FULL to clear; the poll loop's result; the counterpart at device/uart/mb_uart/mb_uart.cpp:302-315 behaves the same |
| UartLite.WaitTxFifoEmpty | device/uart/mb_uart/_clang/mb_uart.c:475-488 | waits FIFO_SIZE frame periods for TX_EMPTY; the poll loop's result; the counterpart at device/uart/mb_uart/mb_uart.cpp:322-335 behaves the same |
| UartLite.FifoTimeoutFits | device/uart/mb_uart/_clang/mb_uart.c:475-488 | for accepted settings the FIFO-drain product does not wrap and both conversions meet their assertion |
| UartLite.PassesWhile | device/uart/mb_uart/_clang/mb_uart.c:495-503 | the number of leading passes (at most 16) whose status satisfies the condition, and the next one does not |
| UartLite.Moved | device/uart/mb_uart/_clang/mb_uart.c:495-503 | writeToTxFifo moves at most min(queued, 16) bytes, stopping at the first pass that reads the FIFO full |
| UartLite.Arrived | device/uart/mb_uart/_clang/mb_uart.c:624-635 | the passes that find a received byte, at most 16 |
| UartLite.Accepted | device/uart/mb_uart/_clang/mb_uart.c:624-635 | the bytes queued are the first min(arrived, free) received, in order |
| UartLite.ReceiveAccountsForEveryByte | device/uart/mb_uart/_clang/mb_uart.c:624-635 | all received bytes are queued iff no overrun is flagged; with an overrun the queue fills exactly |
| UartLite.EmptyFifoTakesUpToDepth | device/uart/mb_uart/_clang/mb_uart.c:495-503 | a FIFO never full takes min(queued, 16) bytes |
| MbUartC.MbUart.constructor | device/uart/mb_uart/_clang/mb_uart.c:126-180 | both queues empty with the given sizes, the log empty |
| MbUartC.Create | device/uart/mb_uart/_clang/mb_uart.c:83-98 | construction plus default setup: default frame period, empty queues, error mask set, interrupts enabled |
| MbUartC.MbUart.Setup | device/uart/mb_uart/_clang/mb_uart.c:207-223 | 0 iff the settings are accepted; invalid: nothing changes; valid: frame period, empty queues, cleared errors, mask, interrupts enabled |
| MbUartC.MbUart.SetupInterrupt | device/uart/mb_uart/_clang/mb_uart.c:571-586 | error mask PARITY/FRAMING/OVERRUN; the control register ends with interrupts enabled |
| MbUartC.MbUart.Get | device/uart/mb_uart/_clang/mb_uart.c:295-309 | pops and returns the oldest received byte iff there is one |
| MbUartC.MbUart.Put | device/uart/mb_uart/_clang/mb_uart.c:318-340 | fails iff the FIFO reads full and the queue is full; success appends to log + queue in order; with room in the FIFO one byte is sent and the queue length kept; with the FIFO full nothing is sent, so a success only queues the byte |
| MbUartC.MbUart.Read | device/uart/mb_uart/_clang/mb_uart.c:350-367 | all or nothing on the queued count; bytes copied in order |
| MbUartC.MbUart.Write | device/uart/mb_uart/_clang/mb_uart.c:377-394 | all or nothing on the free places, appended in order; then writeToTxFifo moves Moved(...) bytes from the queue front to the log |
| MbUartC.MbUart.WriteToTxFifo | device/uart/mb_uart/_clang/mb_uart.c:495-503 | moves exactly the first Moved(fifo, queued) bytes of the queue to the log, in order |
| MbUartC.MbUart.TransmitFront | device/uart/mb_uart/_clang/mb_uart.c:495-503 | one pass: the front byte is written to the log and popped |
| MbUartC.MbUart.Clear | device/uart/mb_uart/_clang/mb_uart.c:401-409 | empties both queues and the latched errors |
| MbUartC.MbUart.ClearBuffer | device/uart/mb_uart/_clang/mb_uart.c:416-420 | empties both queues |
| MbUartC.MbUart.Flush | device/uart/mb_uart/_clang/mb_uart.c:428-446 | 0 iff every ready wait (one per queued byte) and the FIFO-empty wait succeed; then the queue is drained to the log in order; log + queue never change |
| MbUartC.MbUart.GetFramePeriodUsec | device/uart/mb_uart/_clang/mb_uart.c:510-513 | the frame period, at most 1250 µs |
| MbUartC.MbUart.OverrunErrorOccurred | device/uart/mb_uart/_clang/mb_uart.c:521-530 | true iff OVERRUN is latched |
| MbUartC.MbUart.FramingErrorOccurred | device/uart/mb_uart/_clang/mb_uart.c:538-547 | true iff FRAMING is latched |
| MbUartC.MbUart.ParityErrorOccurred | device/uart/mb_uart/_clang/mb_uart.c:555-564 | true iff PARITY is latched |
| MbUartC.MbUart.InterruptHandler | device/uart/mb_uart/_clang/mb_uart.c:593-607 | as written: errors latched (sticky) and the control register left at RX reset only, interrupts off; then reception of Accepted(...) bytes with overrun, then transmission of Moved(...) bytes |
| MbUartC.MbUart.InterruptHandlerReenabling | device/uart/mb_uart/_clang/mb_uart.c:593-607 | corrected: the same, but interrupts stay enabled whenever they were |
| MbUartC.FramingErrorSilencesInterrupt | device/uart/mb_uart/_clang/mb_uart.c:598-601 | after one framing error the C handler leaves the UART interrupt disabled |
| MbUartC.FramingErrorKeepsInterrupt | device/uart/mb_uart/_clang/mb_uart.c:598-601 | with the corrected handler the framing error is latched and interrupts stay enabled |
| MbUartC.MbUart.TransmitInterrupt | device/uart/mb_uart/_clang/mb_uart.c:614-617 | moves the first Moved(fifo, queued) bytes to the log |
| MbUartC.MbUart.ReceiveInterrupt | device/uart/mb_uart/_clang/mb_uart.c:624-635 | appends Accepted(...) to the receive queue and latches OVERRUN iff more bytes arrived than places were free |
| MbUartC.MbUart.ReceiveByte | device/uart/mb_uart/_clang/mb_uart.c:628-633 | one pass: full queue latches OVERRUN and drops the byte, otherwise appends it |
| MbUartC.BurstScenario | device/uart/mb_uart/_clang/mb_uart.c:377-394 | writing 20 bytes into a 32-byte queue with an empty FIFO succeeds and leaves 4 queued (16 go to the FIFO) |
| MbUartCpp.MbUart.constructor | device/uart/mb_uart/mb_uart.cpp:35-57 | both queues empty with the given sizes (0 allowed) |
| MbUartCpp.Create | device/uart/mb_uart/mb_uart.cpp:35-57 | default setup: default frame period, empty queues, error mask, interrupts enabled |
| MbUartCpp.MbUart.Setup | device/uart/mb_uart/mb_uart.cpp:74-88 | 0 iff accepted; invalid: nothing changes; valid: frame period, empty queues, cleared errors |
| MbUartCpp.MbUart.SetupInterrupt | device/uart/mb_uart/mb_uart.cpp:403-418 | error mask set and interrupts enabled |
| MbUartCpp.MbUart.Get | device/uart/mb_uart/mb_uart.cpp:159-172 | pops and returns the oldest received byte iff there is one |
| MbUartCpp.MbUart.Put | device/uart/mb_uart/mb_uart.cpp:180-201 | fails iff FIFO full and queue full; order kept across the three paths; with room in the FIFO one byte is sent, with the FIFO full nothing is |
| MbUartCpp.MbUart.Read | device/uart/mb_uart/mb_uart.cpp:210-225 | all or nothing, order-preserving |
| MbUartCpp.MbUart.Write | device/uart/mb_uart/mb_uart.cpp:234-249 | all or nothing, then writeToTxFifo moves Moved(...) bytes |
| MbUartCpp.MbUart.WriteToTxFifo | device/uart/mb_uart/mb_uart.cpp:341-349 | moves the first Moved(fifo, queued) bytes to the log, in order |
| MbUartCpp.MbUart.TransmitFront | device/uart/mb_uart/mb_uart.cpp:341-349 | one pass: the front byte is sent and popped |
| MbUartCpp.MbUart.Clear | device/uart/mb_uart/mb_uart.cpp:255-261 | empties both queues and the latched errors |
| MbUartCpp.MbUart.ClearBuffer | device/uart/mb_uart/mb_uart.cpp:267-271 | empties both queues |
| MbUartCpp.MbUart.Flush | device/uart/mb_uart/mb_uart.cpp:278-295 | 0 iff every ready wait and the FIFO-empty wait succeed; then the queue is drained in order |
| MbUartCpp.MbUart.GetFramePeriodUsec | device/uart/mb_uart/mb_uart.cpp:355-358 | the frame period, at most 1250 µs |
| MbUartCpp.MbUart.OverrunErrorOccurred | device/uart/mb_uart/mb_uart.cpp:365-371 | true iff OVERRUN is latched |
| MbUartCpp.MbUart.FramingErrorOccurred | device/uart/mb_uart/mb_uart.cpp:378-384 | true iff FRAMING is latched |
| MbUartCpp.MbUart.ParityErrorOccurred | device/uart/mb_uart/mb_uart.cpp:391-397 | true iff PARITY is latched |
| MbUartCpp.MbUart.InterruptHandler | device/uart/mb_uart/mb_uart.cpp:425-441 | on an error: latch, RX reset then interrupts re-enabled, and return with both queues untouched; otherwise reception and transmission as in C |
| MbUartCpp.ErrorSkipsReception | device/uart/mb_uart/mb_uart.cpp:430-435 | a parity error with a byte waiting: the error is latched, interrupts stay on, and nothing is received |
| MbUartCpp.MbUart.TransmitInterrupt | device/uart/mb_uart/mb_uart.cpp:447-450 | moves the first Moved(fifo, queued) bytes to the log |
| MbUartCpp.MbUart.ReceiveInterrupt | device/uart/mb_uart/mb_uart.cpp:456-467 | appends Accepted(...) and latches OVERRUN iff more arrived than fit |
| MbUartCpp.MbUart.ReceiveByte | device/uart/mb_uart/mb_uart.cpp:460-465 | one pass: full queue latches OVERRUN, otherwise appends |
| MbUartCpp.BurstScenario | device/uart/mb_uart/mb_uart.cpp:234-249 | 20 bytes into a 32-byte queue with an empty FIFO: success, 4 left queued (16 go to the FIFO) |
| MbUartCpp.ZeroBufferScenario | device/uart/mb_uart/mb_uart.cpp:180-201 | with zero-size queues put succeeds iff the FIFO has room |
| Allocator.AfterAllocation | kernel/memory/allocator/base/_clang/allocator.c:54-64 | the allocation count goes up by one (wrapping at 2^32) iff the back end returned a block; the deallocation count is untouched |
| Allocator.AfterDeallocation | kernel/memory/allocator/base/_clang/allocator.c:71-77 | every deallocation request is counted (wrapping); the allocation count is untouched |
| Allocator.AllocationCounterCountsSuccesses | kernel/memory/allocator/base/_clang/allocator.c:54-64 | from zero, a run of requests leaves the allocation count at the number of non-NULL results mod 2^32 and the deallocation count at 0 |
| Allocator.Allocator.constructor | kernel/memory/allocator/base/_clang/allocator.c:20-23 | no back end, counters zero |
| Allocator.Allocator.Initialize | kernel/memory/allocator/base/_clang/allocator.c:30-36 | installs the back end and zeroes both counters |
| Allocator.Allocator.Terminate | kernel/memory/allocator/base/_clang/allocator.c:42-46 | zeroes both counters |
| Allocator.Allocator.Allocate | kernel/memory/allocator/base/_clang/allocator.c:54-64 | requires an installed back end; returns its result and counts it per AfterAllocation |
| Allocator.Allocator.Deallocate | kernel/memory/allocator/base/_clang/allocator.c:71-77 | requires an installed back end; counts the request |
| Allocator.Allocator.TotalAllocationRequests | kernel/memory/allocator/base/_clang/allocator.c:83-86 | the allocation counter |
| Allocator.Allocator.TotalDeallocationRequests | kernel/memory/allocator/base/_clang/allocator.c:92-95 | the deallocation counter |
| Allocator.CountingScenario | kernel/memory/allocator/base/_clang/allocator.c:54-77 | a NULL result, two blocks and one release give counts 2 and 1; terminate zeroes them |
| OnlyOnceAllocator.NextAlignedAddress | kernel/memory/allocator/only_once/_clang/only_once_allocator.c:41-43 | a multiple of 8; the smallest one not below addr, except within 7 of 2^32 where it wraps to 0 |
| OnlyOnceAllocator.AlignMonotone | kernel/memory/allocator/only_once/_clang/only_once_allocator.c:41-43 | rounding up is monotone below the top of the address space |
| OnlyOnceAllocator.AlignShift | kernel/memory/allocator/only_once/_clang/only_once_allocator.c:41-43 | shifting the address by whole units shifts the rounded address by the same |
| OnlyOnceAllocator.AllocatableSizeMax | kernel/memory/allocator/only_once/_clang/only_once_allocator.c:101-104 | the pool size rounded down to a multiple of 8 |
| OnlyOnceAllocator.OnlyOnceAllocator.constructor | kernel/memory/allocator/only_once/_clang/only_once_allocator.c:34-36 | both pointers and the total start at 0 |
| OnlyOnceAllocator.OnlyOnceAllocator.Initialize | kernel/memory/allocator/only_once/_clang/only_once_allocator.c:49-58 | installs itself with zeroed counters; next is the aligned pool start, end one past the pool, total 0 |
| OnlyOnceAllocator.OnlyOnceAllocator.Terminate | kernel/memory/allocator/only_once/_clang/only_once_allocator.c:64-68 | zeroes the total and the counters; next stays |
| OnlyOnceAllocator.OnlyOnceAllocator.TotalAllocatedSize | kernel/memory/allocator/only_once/_clang/only_once_allocator.c:92-95 | the total, never more than AllocatableSizeMax |
| OnlyOnceAllocator.OnlyOnceAllocator.TotalAllocationRequests | kernel/memory/allocator/only_once/_clang/only_once_allocator.c:74-77 | the front end's allocation counter |
| OnlyOnceAllocator.OnlyOnceAllocator.TotalDeallocationRequests | kernel/memory/allocator/only_once/_clang/only_once_allocator.c:83-86 | the front end's deallocation counter |
| OnlyOnceAllocator.OnlyOnceAllocator.Allocate | kernel/memory/allocator/only_once/_clang/only_once_allocator.c:112-121 | corrected guard: the block starts at the old next and ends at or below the new next (under 8 bytes of padding), next stays aligned inside the pool and only grows, the total grows by exactly the move |
| OnlyOnceAllocator.OnlyOnceAllocator.AllocateAsWritten | kernel/memory/allocator/only_once/_clang/only_once_allocator.c:112-121 | as written: next is rounded from the wrapped sum next + size, the total wraps |
| OnlyOnceAllocator.Deallocate | kernel/memory/allocator/only_once/_clang/only_once_allocator.c:128-134 | releasing always fails its assertion |
| OnlyOnceAllocator.WrappedRequestPassesAssertion | kernel/memory/allocator/only_once/_clang/only_once_allocator.c:114-117 | pool at 0x1000, size 0xFFFFF000: the wrapped sum passes the assertion, the block overruns the pool, next falls to 0, and the corrected guard rejects it |
| OnlyOnceAllocator.WrappedRequestScenario | kernel/memory/allocator/only_once/_clang/only_once_allocator.c:112-121 | the same request through the object returns 0x1000 and moves next back to 0 |
| OnlyOnceAllocator.TwoBlocksScenario | kernel/memory/allocator/only_once/_clang/only_once_allocator.c:112-121 | pool at 0x1003: blocks of 5 and 3 bytes start at 0x1008 and 0x1010, total 16, no overlap |
| Gpio.SetBits | device/gpio/base/gpio.cpp:42-46 | the mask bits become 1 and the other bits are those of the old word |
| Gpio.ClearBits | device/gpio/base/gpio.cpp:53-57 | the mask bits become 0 and the other bits are those of the old word |
| Gpio.MaskContractsDetermineResult | device/gpio/base/gpio.cpp:37-57 | those two properties determine the result: any word with them is SetBits (ClearBits) |
| Gpio.SetClearIdempotent | device/gpio/base/gpio.cpp:42-57 | setting or clearing the same mask twice equals doing it once |
| Gpio.SetThenClear | device/gpio/base/gpio.cpp:42-57 | set then clear equals clear alone: mask bits 0, the others as before |
| Gpio.ClearThenSet | device/gpio/base/gpio.cpp:42-57 | clear then set equals set alone |
| Gpio.MaskEdges | device/gpio/base/gpio.cpp:42-57 | mask 0 changes nothing; an all-ones mask saturates or clears the word |
| Gpio.Gpio.constructor | device/gpio/base/gpio.cpp:26-28 | the registers hold what the hardware holds |
| Gpio.Gpio.SetDataBit | device/gpio/base/gpio.cpp:42-46 | the data register becomes SetBits(old, mask); the counterpart at device/gpio/base/_clang/gpio.c:89-93 behaves the same |
| Gpio.Gpio.ClearDataBit | device/gpio/base/gpio.cpp:53-57 | the data register becomes ClearBits(old, mask); the counterpart at device/gpio/base/_clang/gpio.c:101-105 behaves the same |
| Gpio.Gpio.SetOutputBit | device/gpio/base/gpio.cpp:64-68 | the mask pins become outputs (direction bits 1), the others keep their direction; the counterpart at device/gpio/base/_clang/gpio.c:134-138 behaves the same |
| Gpio.Gpio.SetInputBit | device/gpio/base/gpio.cpp:75-79 | the mask pins become inputs (direction bits 0), the others keep their direction; the counterpart at device/gpio/base/_clang/gpio.c:146-150 behaves the same |
| Gpio.Gpio.SetupInterrupt | device/gpio/base/_clang/gpio.c:218-222 | the default reports failure (1) |
| Gpio.Gpio.EnableMultipleInterrupts | device/gpio/base/_clang/gpio.c:230-232 | the default changes nothing |
| Gpio.Gpio.DisableMultipleInterrupts | device/gpio/base/_clang/gpio.c:240-242 | the default changes nothing |
| Gpio.Gpio.EnableInterrupt | device/gpio/base/_clang/gpio.c:249-251 | the default changes nothing |
| Gpio.Gpio.DisableInterrupt | device/gpio/base/_clang/gpio.c:258-260 | the default changes nothing |
| Gpio.Destroy | device/gpio/base/_clang/gpio.c:33-37 | a NULL handle gives NULL without dispatching; any other is handed to the driver's destroy and its result returned |
| Gpio.PinScenario | device/gpio/base/gpio.cpp:42-68 | making pin 3 an output, driving it high then low leaves it an output at 0 and every other pin as it was |

## Left out

- Register access, the interrupt controllers and concurrency are not modelled.
  These are the vendor `IORD_*`/`IOWR_*`, `XUartLite_*`, `XIntc_*` and
  `alt_ic_*` calls. Each foreground call and each interrupt handler run is one
  atomic step. Interrupt registration is a boolean parameter. The interrupt
  acknowledge is not modelled.
- The vendor register bit values are not modelled. Registers are sets of named
  bits, and only the distinctness of the bits matters to the proofs.
- The Nios `setup` baud divisor is computed in floating point, and the model
  leaves it out.
- The create/destroy functions of the queues and UARTs, and the `_dtor`s, only
  allocate and free memory. Allocation is assumed to succeed, and `Create`
  models construction followed by the default setup.
- Process-wide singletons (`getInstance`) are not modelled. The counter is an
  explicit parameter: its direction and its frequency.
- StatusWait.PollStatus: requires that some poll in the trace ends the wait.
  The spin loops have no termination argument of their own. The same applies
  to FreeRunCounter.SpinUntil, WaitNsec, WaitUsec and WaitMsec, and to the
  waits the flushes make.
- NiosUartC.NiosUart.constructor and MbUartC.MbUart.constructor: they require
  positive buffer sizes. A zero size leaves a NULL queue that the C code then
  dereferences.
- MbUartC.MbUart.Flush and MbUartCpp.MbUart.Flush: they require the unsigned
  product `framePeriodUsec * FIFO_SIZE` to fit the conversion's assertion.
  UartLite.FifoTimeoutFits shows that every accepted setting meets it.
- NiosUartC.NiosUart.Flush and NiosUartCpp.NiosUart.Flush: they require
  `countsPerUsec > 0 && framePeriodUsec < UINT32_MAX / countsPerUsec`, the
  assertion of `convertUsecToCount` (free_run_counter.c:169), which also rules
  out the division by zero when countsPerUsec wraps to 0 at the top frequency.
  AvalonUart.FrameTimeoutFits shows that every accepted setting meets it at
  every frequency whose constants do not wrap.
- FreeRunCounter.MeasureDurationUsecIsCeiling and MeasureDurationMsecIsCeiling:
  they state the ceiling only where the rounding addition does not wrap. The
  wrapped case is the first finding below.
- FreeRunCounter.MeasureDurationNsecSmall and MeasureDurationNsecLarge: they
  state the ceiling only where the 32-bit intermediate results do not wrap.
- SerialParams.FramePeriodIsCeiling and FramePeriodMonotone: they assume the
  32-bit product `1000000 * bits` and the rounding addition do not wrap. This
  holds for every setting the drivers accept.
- OnlyOnceAllocator.OnlyOnceAllocator.Allocate, Allocator.Allocator.Allocate
  and Allocator.Allocator.Deallocate: the `ASSERT_` checks of the source become
  preconditions.
- OnlyOnceAllocator.OnlyOnceAllocator.Valid: the pool address is a parameter,
  and the pool is assumed to lie at least 16 KiB + 8 bytes below the top of
  the 32-bit address space (`PoolFits`).
- OnlyOnceAllocator.Deallocate: the model returns only the assertion outcome.
  It does not compose the only-once back end with the front end's counting
  `deallocate` and `allocate`.
- Gpio.Gpio.SetDataBit, ClearDataBit, SetOutputBit and SetInputBit: they
  assume the data and direction registers read back what was last written.
  The driver-specific accessors are not part of this model.
- The timer drivers and the platform GPIO drivers are left out. The one fact
  used from them is that the Nios timer accepts only counting down.

## Findings

| source | as written | input that shows it | evidently intended | confidence | as-written member | corrected member |
|---|---|---|---|---|---|---|
| device/free_run_counter/_clang/free_run_counter.c:260-276 | `(diffCount + (unit - 1)) / unit` in 32-bit arithmetic wraps when diffCount is within unit - 1 of 2^32 | 100 MHz up-counter, start 1, end 0: diff 0xFFFFFFFF, and the result is 0 µs and 0 ms | the ceiling of diff / unit for every diff (the same expression is in free_run_counter.cpp:198-214) | high (not executed) | FreeRunCounter.MeasureDurationWrapsNearFullRange | FreeRunCounter.MeasureDurationUsecCorrected |
| kernel/memory/allocator/only_once/_clang/only_once_allocator.c:114-117 | the guard `next_ + size <= end_` is computed in uintptr_t and wraps for large sizes, and `next_` is then rounded from the wrapped sum | pool at 0x1000, first request of 0xFFFFF000 bytes: the sum wraps to 0, the guard passes, and `next_` becomes 0 | reject any request larger than `end_ - next_` | high (not executed) | OnlyOnceAllocator.WrappedRequestPassesAssertion | OnlyOnceAllocator.OnlyOnceAllocator.Allocate |
| device/uart/mb_uart/_clang/mb_uart.c:598-601 | on an error the handler writes only the RX-FIFO-reset bit to the control register, which also clears the interrupt-enable bit | any status with a framing, parity or overrun bit: the interrupt enable ends off | re-enable interrupts after the reset, as the C++ handler does at mb_uart.cpp:432-433 | medium: rests on the UART Lite control-register semantics, which are not in this source (not executed) | MbUartC.FramingErrorSilencesInterrupt | MbUartC.FramingErrorKeepsInterrupt |
