# STM32F4_SIM900 firmware core in Dafny

This project models the communication and timing core of the STM32F4 SIM900
firmware and proves properties of the model. The core has these parts:

- **FIFO** (`fifo.dfy`, module `Fifo`): the circular byte buffer `FIFO_TypeDef`. It has a
  caller-owned buffer of `len` slots and the uint16 fields `head`, `tail` and `count`. A
  ghost sequence `Contents` is the queue the buffer represents.
- **Frame reading** (`framing.dfy`, module `Framing`): the `while (1)` frame loop shared by
  `COMM_GetFrame` and `SIM900_GetFrame`. It pops bytes into the caller's buffer at
  `buf[(*len)++]` until it reaches the terminator. `*len` is a `uint8_t`, so the index wraps at
  256. This is modelled exactly by the specification function `DrainFrame`.
- **Host terminal link** (`comm.dfy`, module `Comm`): two 2048-byte FIFOs, the frame counter
  `gotFrame` and frames ending in `'\r'`.
- **Modem link** (`sim900.dfy`, module `Sim900`): the same design with 4096-byte FIFOs and
  frames ending in `'\n'`. It adds two things:
  - a filter that drops the empty lines `"\r\n"` the modem sends;
  - `SIM900_PutFrame`, which sends a NUL-terminated string.
- **Timers** (`timers.dfy`, module `Timers`):
  - the wrap-safe delay test `TIMER_DelayTimer`;
  - the tick bookkeeping of `TIMER_SoftTimersUpdate`;
  - the ten-entry software timer table.
- **Keypad** (`keys.dfy`, module `Keys`): the 4x4 keypad debouncer `KEYS_Update`.
- **LEDs** (`led.dfy`, module `Led`): the LED state table `ledState[4]`.

`stdint.dfy` gives the C integer types as subset types.

The imperative code is modelled as classes over arrays. The FIFO, the two links, the timer
table, the keypad state and the LED table each have their fields updated in place by methods.
Each method is proved against a pure specification function, or states its new state in full.
The properties the firmware promises are then proved as lemmas about those functions.

Some things outside the core are passed in as inputs or recorded as logs:

| Outside thing | How the model handles it |
|---|---|
| System tick | the parameter `now` |
| Keypad row | the parameter `row` |
| Timer callback invocations | the log `fired` of timer ids |
| LED hardware layer calls | the log `hal` |
| UART transmitter enable | the flag `txEnabled`: the HAL enable has been called since init; the interrupt handler disabling it again when TX runs empty is not modelled |

Behaviour of the code that the model reproduces and that a reader might not expect:

- **Frame error counter.** When RX runs dry before the terminator, `GetFrame` returns 2 and
  leaves `gotFrame` as it was, because `return 2` (comm.c:142, sim900.c:140) comes before
  `gotFrame--` (comm.c:155, sim900.c:161).
- **Tick delta across a wrap.** Across a wrap of the tick counter, `TIMER_SoftTimersUpdate`
  hands the timers `UINT32_MAX - prevVal + now`, one tick less than the modular difference:
  31, not 32, from 0xFFFFFFF0 to 0x10. `prevVal` then ends one tick behind `now`. At most one
  tick is ever outstanding (`Timers.PrevTrailsNow`), and it is handed over by the first later
  update that does not itself wrap (`Timers.ElapsedAccounted`). An update that wraps onto
  tick 0 leaves `prevVal` at 0xFFFFFFFF, so the next update wraps again and the tick stays
  outstanding until then (`Timers.WrapAtZeroExample`).
- **Frame counter wrap.** `gotFrame` is a `uint8_t`. With 255 frames pending, one more stored
  terminator wraps it to 0 while 256 terminators are queued, and `GetFrame` then returns 1
  ("no frame"). This is why `RxCallback` keeps the counter invariant only below 255 pending
  frames.
- **Long lines taken for empty ones.** `*len` is a `uint8_t`, so a modem line with 257 bytes
  before its `'\n'`, the last of them `'\r'`, leaves `*len == 1` and `buf[0] == '\r'`. The
  empty-line filter of `SIM900_GetFrame` (sim900.c:151) then drops it like an empty line
  (`Sim900.LongLineDropped`).

## Model

| member | source | states |
|---|---|---|
| Fifo.Fifo.constructor | STM32F4_SIM900/app/inc/fifo.h:36-42 | An empty FIFO whose `buf` and `len` are set by its owner. `head`, `tail` and `count` are zero, as for a C static. |
| Fifo.Fifo.Add | STM32F4_SIM900/app/src/fifo.c:49-61 | Returns 1 and changes nothing when `len == 0`; otherwise zeroes `head`, `tail` and `count`, giving the empty queue, and returns 0. |
| Fifo.Fifo.Push | STM32F4_SIM900/app/src/fifo.c:69-86 | When `count == len`, returns 1 and changes nothing. Otherwise writes `c` at `buf[head]` and changes no other slot, increments `count`, advances `head` with wrap at `len`, and appends `c` to the queue. The FIFO invariant is preserved. |
| Fifo.Fifo.Pop | STM32F4_SIM900/app/src/fifo.c:94-109 | When the FIFO is empty, returns 1 and leaves the state and `*c` unchanged. Otherwise yields `buf[tail]`, the oldest queued byte. It removes that byte from the queue, decrements `count` and advances `tail` with wrap. The FIFO invariant is preserved. |
| Fifo.Fifo.IsEmpty | STM32F4_SIM900/app/src/fifo.c:116-123 | Returns 1 exactly when the queue is empty, and 0 exactly when it holds a byte. |
| Framing.FirstIndex | STM32F4_SIM900/app/src/comm.c:136-151 | The position of the first terminator: no earlier byte is the terminator, and the byte there is the terminator when it lies inside the queue. |
| Framing.ReadFrame | STM32F4_SIM900/app/src/comm.c:136-151 | The frame loop leaves RX, the caller's buffer and `*len` exactly as `DrainFrame` describes. The buffer is written at the uint8 index `(*len)++`. |
| Framing.DrainedPayload | STM32F4_SIM900/app/src/comm.c:144-150 | For a frame under 256 bytes: `*len` is its length, `buf` holds its bytes and then NUL, the payload has no terminator, and only the part after the terminator stays in RX. |
| Framing.DrainedBeyond | STM32F4_SIM900/app/src/comm.c:144-145 | Buffer slots at or above min(bytes popped, 256) are never written. |
| Framing.DrainedNoFrame | STM32F4_SIM900/app/src/comm.c:139-143 | With no terminator queued, the frame is not found, `*len` is 0 and every queued byte is lost. |
| Framing.DrainedFound | STM32F4_SIM900/app/src/comm.c:147-151 | When the byte popped `j`-th is the first terminator, the drained result is found, with `*len` stepped back to `Pred8(j mod 256)`, NUL written there and the bytes after the terminator left in RX. |
| Framing.DrainedDry | STM32F4_SIM900/app/src/comm.c:139-143 | When RX runs dry with no terminator popped, the drained result is not found, `*len` is 0 and RX is empty. |
| Framing.DrainedCount | STM32F4_SIM900/app/src/comm.c:135-156 | When a terminator is queued, the frame is found and exactly one terminator leaves RX. |
| Framing.DrainRoundTrip | STM32F4_SIM900/app/src/comm.c:136-156 | A terminator-free payload under 256 bytes, received with its terminator ahead of more data, is read back whole and NUL-terminated. The later data stays queued. |
| Framing.FrameRoundTrip | STM32F4_SIM900/app/src/comm.c:144-148 | The first terminator of `p + [t] + rest` is at the length of `p`; the bytes before it are `p` and those after it are `rest`. |
| Framing.CountPush | STM32F4_SIM900/app/src/comm.c:168-176 | Queuing one byte adds one to the terminator count exactly when the byte is the terminator. |
| Framing.CountFrame | STM32F4_SIM900/app/src/comm.c:135-156 | Removing a frame removes exactly one terminator from the queue. |
| Framing.DrainedSingle | STM32F4_SIM900/app/src/sim900.c:146-151 | After a found frame with `*len == 1`, `buf[0]` holds the byte just before the terminator, for every frame length. |
| Framing.ClipStep | STM32F4_SIM900/app/src/sim900.c:179-181 | Sending one more byte into a bounded queue appends it only while there is room. |
| Framing.Count | STM32F4_SIM900/app/src/comm.c:168-176 | The number of terminators in the queue, the quantity `gotFrame` is meant to hold. It is at most the queue length. |
| Framing.CountNone | STM32F4_SIM900/app/src/comm.c:135 | The count is 0 exactly when no queued byte is the terminator, so `gotFrame == 0` means no complete frame is queued. |
| Framing.Fill | STM32F4_SIM900/app/src/comm.c:145 | The caller's buffer after `j` pops keeps its length, and the slot of the last pop, index `j - 1` mod 256, holds the byte popped last. |
| Framing.DrainFrame | STM32F4_SIM900/app/src/comm.c:136-156 | The result of the frame loop: the frame is found exactly when a terminator is queued. Then `*len` is the frame length mod 256, `buf[*len]` is NUL and RX keeps the bytes after the terminator. Otherwise `*len` is 0 and RX is empty. |
| Framing.PopInto | STM32F4_SIM900/app/src/comm.c:144-145 | One loop step: the oldest RX byte is removed and written at `buf[*len]`, no other slot changes, and `*len` advances with uint8 wrap. |
| Framing.Succ8 | STM32F4_SIM900/app/src/comm.c:145 | The uint8 `(*len)++`: the result is `*len + 1` modulo 256. |
| Framing.Pred8 | STM32F4_SIM900/app/src/comm.c:149 | The uint8 `(*len)--`: one more than the result, modulo 256, is `*len`. |
| Framing.Pred8Succ8 | STM32F4_SIM900/app/src/comm.c:145-149 | Stepping `*len` back after stepping it forward restores it, and the other way round, at every value including the wrap. |
| Comm.CommLink.Init | STM32F4_SIM900/app/src/comm.c:65-82 | Both FIFOs have length 2048 and are empty, `gotFrame` is 0, and the counter invariant holds. |
| Comm.CommLink.Putc | STM32F4_SIM900/app/src/comm.c:91-100 | Appends `c` to TX unless TX is full, in which case the byte is dropped silently. Enables the transmitter. |
| Comm.CommLink.Getc | STM32F4_SIM900/app/src/comm.c:106-120 | Pops the oldest RX byte and leaves `gotFrame` unchanged, so the counter invariant survives exactly when the byte is not `'\r'`. |
| Comm.CommLink.GetFrame | STM32F4_SIM900/app/src/comm.c:130-163 | With `gotFrame == 0`, returns 1 with `*len` 0 and nothing changed. Otherwise drains as `DrainFrame` describes. It returns 0 and consumes one frame from the counter when the frame is found, and 2 with the counter kept when RX runs dry. While `gotFrame` counts the queued `'\r'` bytes, it never returns 2 and the count stays exact. |
| Comm.CommLink.RxCallback | STM32F4_SIM900/app/src/comm.c:168-176 | Queues the byte if RX has room. Increments `gotFrame` (uint8, wrapping) exactly when the byte is `'\r'` and it was stored. Keeps the counter invariant below 255 frames. |
| Comm.CommLink.TxCallback | STM32F4_SIM900/app/src/comm.c:183-191 | Returns 1 with the oldest TX byte, removing it, or returns 0 with TX and `*c` unchanged when TX is empty. |
| Comm.CommLink.Synced | STM32F4_SIM900/app/src/comm.c:135-176 | The invariant `gotFrame` depends on: it equals the number of `'\r'` bytes queued in RX. Init establishes it and GetFrame keeps it. RxCallback keeps it while fewer than 255 frames are pending. |
| Comm.HelloFrame | STM32F4_SIM900/app/src/comm.c:130-176 | A fresh link that receives `"HELLO\r"` returns frame `"HELLO"` with return 0 and `*len == 5`, and no frame is left pending. |
| Comm.ReceiveHello | STM32F4_SIM900/app/src/comm.c:168-176 | A fresh link that receives `"HELLO\r"` holds exactly those bytes in RX and has one frame pending. |
| Sim900.EmptyLineIff | STM32F4_SIM900/app/src/sim900.c:150-151 | The empty-line filter fires exactly when a frame was found whose length is 1 modulo 256 and whose byte before `'\n'` is `'\r'`. |
| Sim900.EmptyLineShort | STM32F4_SIM900/app/src/sim900.c:150-151 | For frames under 256 bytes, the filter fires exactly on the frame `"\r"`. |
| Sim900.LoneCarriageReturn | STM32F4_SIM900/app/src/sim900.c:150 | A frame under 256 bytes has length 1 modulo 256 and ends in `'\r'` exactly when it is `"\r"`. |
| Sim900.EmptyLine | STM32F4_SIM900/app/src/sim900.c:151 | The filter's test on the drained frame: a frame was found, `*len == 1` and `buf[0] == '\r'`. Its meaning in terms of the received bytes is `Sim900.EmptyLineIff`. |
| Sim900.LongLineDropped | STM32F4_SIM900/app/src/sim900.c:145-155 | A line of 257 bytes before its `'\n'`, the last of them `'\r'`, passes the empty-line test after the uint8 wrap of `*len`, and only the bytes after its `'\n'` stay queued. |
| Sim900.Sim900Link.Init | STM32F4_SIM900/app/src/sim900.c:67-84 | Both FIFOs have length 4096 and are empty, `gotFrame` is 0, and the counter invariant holds. |
| Sim900.Sim900Link.Putc | STM32F4_SIM900/app/src/sim900.c:93-102 | Appends `c` to TX unless TX is full, in which case the byte is dropped. Enables the transmitter. |
| Sim900.Sim900Link.Getc | STM32F4_SIM900/app/src/sim900.c:108-118 | Pops the oldest RX byte; `gotFrame` is unchanged. |
| Sim900.Sim900Link.GetFrame | STM32F4_SIM900/app/src/sim900.c:128-169 | Like the terminal link with terminator `'\n'`, with the empty-line filter as intended. A `"\r"` line is consumed with return 1 and `*len` 0. Other frames return 0 and keep a preceding `'\r'` in the payload. A dry RX returns 2 with the counter kept. No pending frame returns 1. |
| Sim900.Sim900Link.GetFrameAsWritten | STM32F4_SIM900/app/src/sim900.c:128-169 | The code as written: a dropped `"\r"` line returns 1 but leaves `*len` at 1. |
| Sim900.Sim900Link.PutFrame | STM32F4_SIM900/app/src/sim900.c:175-183 | TX receives the bytes before the string's NUL, in order, up to `strlen` mod 65536 bytes (the `uint16_t` length). Bytes that find TX full are dropped. The transmitter is enabled when any byte is sent. |
| Sim900.Sim900Link.RxCallback | STM32F4_SIM900/app/src/sim900.c:189-197 | Queues the byte if RX has room. Increments `gotFrame` (uint8, wrapping) exactly when the byte is `'\n'` and it was stored. Keeps the counter invariant below 255 frames. |
| Sim900.Sim900Link.TxCallback | STM32F4_SIM900/app/src/sim900.c:204-212 | Returns 1 with the oldest TX byte, removing it, or 0 with TX unchanged when TX is empty. |
| Sim900.Sim900Link.Synced | STM32F4_SIM900/app/src/sim900.c:133-197 | `gotFrame` equals the number of `'\n'` bytes queued in RX. Init establishes it and GetFrame keeps it. RxCallback keeps it while fewer than 255 frames are pending. |
| Sim900.ReceiveEmptyLine | STM32F4_SIM900/app/src/sim900.c:189-197 | A fresh link that receives `"\r\n"` holds exactly those bytes and has one frame pending. |
| Sim900.EmptyLineAsWritten | STM32F4_SIM900/app/src/sim900.c:150-155 | As written, the modem's empty line makes `SIM900_GetFrame` return 1 with `*len == 1`. |
| Sim900.EmptyLineDropped | STM32F4_SIM900/app/src/sim900.c:150-155 | Corrected, the empty line is reported as return 1 with `*len == 0`, and no frame is left pending. |
| Timers.Elapsed | STM32F4_SIM900/app/src/timers.c:136-141 | The ticks from `start` to `now` on the wrapping 32-bit clock: adding it to `start` modulo 2^32 gives `now`, and it is 0 only when `now == start`. |
| Timers.DelayTimer | STM32F4_SIM900/app/src/timers.c:132-147 | Holds exactly when more than `ms` ticks have elapsed on the 32-bit clock, or more than `ms + 1` across a wrap. It never holds at `now == start`. The wrapped difference fits a `uint32_t`. |
| Timers.Delta | STM32F4_SIM900/app/src/timers.c:212-222 | The elapsed ticks without a wrap, and one tick fewer across a wrap. |
| Timers.NextPrev | STM32F4_SIM900/app/src/timers.c:224 | `prevVal` becomes `now`, or `now - 1` modulo 2^32 after a wrap. |
| Timers.NoTimeLost | STM32F4_SIM900/app/src/timers.c:212-224 | Over any run of updates, the deltas handed to the timers add up, modulo 2^32, to exactly how far `prevVal` moved. |
| Timers.PrevTrailsNow | STM32F4_SIM900/app/src/timers.c:212-224 | After any run of updates, `prevVal` is at most one tick behind the latest `now`. |
| Timers.ElapsedAccounted | STM32F4_SIM900/app/src/timers.c:212-224 | Over any run of updates the deltas add up, modulo 2^32, to the time that passed from the first `prevVal` to the latest `now` when the last update did not wrap, and to one tick less otherwise. |
| Timers.WrapDeltaExample | STM32F4_SIM900/app/src/timers.c:216-224 | From 0xFFFFFFF0 to 0x10 (32 ticks) the delta is 31 and `prevVal` ends at 0x0F. A later update at 0x11, which does not wrap, hands over the missing tick. |
| Timers.WrapAtZeroExample | STM32F4_SIM900/app/src/timers.c:216-224 | A wrap onto tick 0 leaves `prevVal` at 0xFFFFFFFF, the update at 5 wraps again, and the update at 6 brings the total to the 22 ticks that passed. |
| Timers.Step | STM32F4_SIM900/app/src/timers.c:229-239 | An inactive timer is unchanged. An overflowing timer restarts at 0. Otherwise the value grows by `delta` with uint32 wrap and stays below `max`. Id, period, activity and callback never change. |
| Timers.OverflowDiscardsExcess | STM32F4_SIM900/app/src/timers.c:233-234 | A delta spanning two or more periods still resets the value to 0: the extra periods are discarded, not carried. |
| Timers.AddWrap | STM32F4_SIM900/app/src/timers.c:231 | `value += delta` on a `uint32_t`: the plain sum when it fits, the sum less 2^32 otherwise. |
| Timers.Overflows | STM32F4_SIM900/app/src/timers.c:229-233 | The overflow test: the timer is active and its value after the wrapping add has reached `max`. |
| Timers.FiredIds | STM32F4_SIM900/app/src/timers.c:227-240 | The callbacks fired by one update are in strictly increasing index order, each once. Timer `i` is among them exactly when it is active, overflows and has a non-NULL callback. |
| Timers.StepFirst | STM32F4_SIM900/app/src/timers.c:227-240 | The table after the loop: timers below the count are stepped and the others are unchanged. |
| Timers.EleventhTimerAdmittedAsWritten | STM32F4_SIM900/app/src/timers.c:156-161 | The guard as written admits every count up to and including 10. Count 10 indexes past the 10-entry table. |
| Timers.AdmitsAsWritten | STM32F4_SIM900/app/src/timers.c:158 | The guard as written: the call goes ahead unless `softTimerCount > MAX_SOFT_TIMERS`. |
| Timers.SoftTimerTable.constructor | STM32F4_SIM900/app/src/timers.c:44-59 | The zero-initialised statics: no timers, `prevVal` 0. |
| Timers.SoftTimerTable.AddSoftTimer | STM32F4_SIM900/app/src/timers.c:156-172 | With the corrected guard it returns -1 exactly when the table is full, and then changes nothing. Otherwise it fills the next slot with an inactive timer at 0 with the given period and callback, bumps the count and returns the slot. |
| Timers.SoftTimerTable.Start | STM32F4_SIM900/app/src/timers.c:178-182 | Only timer `id` changes: value 0, active. |
| Timers.SoftTimerTable.Pause | STM32F4_SIM900/app/src/timers.c:187-190 | Only timer `id` changes: inactive, value kept. |
| Timers.SoftTimerTable.Resume | STM32F4_SIM900/app/src/timers.c:195-198 | Only timer `id` changes: active, value kept. |
| Timers.SoftTimerTable.Update | STM32F4_SIM900/app/src/timers.c:206-241 | `prevVal` moves as `NextPrev` says. Every registered timer is stepped by `Delta`, in index order, and the fired log grows by exactly `FiredIds`. |
| Timers.SoftTimerTable.StepAll | STM32F4_SIM900/app/src/timers.c:226-240 | The `for` loop steps timers `0 .. count-1` and logs their callbacks in order. |
| Timers.SoftTimerTable.StepOne | STM32F4_SIM900/app/src/timers.c:229-238 | The loop body for timer `i`: only that entry changes, to `Step` of it, and its id is logged exactly when it overflows with a non-NULL callback. |
| Keys.KeyCode | STM32F4_SIM900/app/src/keys.c:79 | The key code `(column << 4) OR row` is `16 * column + row`. It is at most 0x33 and never `KEY_NONE`. |
| Keys.KeyCodeDecode | STM32F4_SIM900/app/src/keys.c:79 | The high nibble of a key code is its column and the low nibble its row, so distinct keys have distinct codes. |
| Keys.Update | STM32F4_SIM900/app/src/keys.c:67-106 | One scan keeps the column in 0..3 and advances it by one modulo 4. A latched key is always a genuine key code. |
| Keys.NewKeyLatches | STM32F4_SIM900/app/src/keys.c:84-87 | A pressed key different from the latch replaces it and restarts the debounce timer at `now`. It is not reported in the same call. |
| Keys.NoChangeKeepsLatch | STM32F4_SIM900/app/src/keys.c:84-93 | The same key, or no key, keeps the debounce start. It also keeps the latch unless the latch is reported now. |
| Keys.ReportedAfterDebounce | STM32F4_SIM900/app/src/keys.c:89-93 | A reported key is the latched key, held for strictly more than 200 ticks. Reporting clears the latch. |
| Keys.HeldKeyReported | STM32F4_SIM900/app/src/keys.c:84-93 | A latched key that is still held is reported exactly when `TIMER_DelayTimer(DEBOUNCE_TIME, debounceTimer)` holds, and not before. |
| Keys.ReleaseKeepsKey | STM32F4_SIM900/app/src/keys.c:78-93 | With no row pressed, the latched key is reported exactly when its debounce time has passed: release does not cancel it. |
| Keys.ReportedOnce | STM32F4_SIM900/app/src/keys.c:92 | After a report the latch is empty, so the next scan reports nothing, whatever row it reads. |
| Keys.ColumnsCycle | STM32F4_SIM900/app/src/keys.c:96-100 | Four scans visit all four columns and return to the first. |
| Keys.Keypad.constructor | STM32F4_SIM900/app/src/keys.c:50-73 | The statics start as `keyId = KEY_NONE`, `debounceTimer = 0` and column 0. |
| Keys.Keypad.Init | STM32F4_SIM900/app/src/keys.c:52-60 | Selects column 0 and leaves the latch alone. |
| Keys.Keypad.KeysUpdate | STM32F4_SIM900/app/src/keys.c:67-106 | The new state and the returned key are exactly those of `Keys.Update`. |
| Led.Toggled | STM32F4_SIM900/app/src/led.c:107-111 | Toggling an initialised LED flips it and never yields `LED_UNUSED`. |
| Led.ToggleTwice | STM32F4_SIM900/app/src/led.c:107-111 | Toggling twice restores the state. |
| Led.ChangeStateCalls | STM32F4_SIM900/app/src/led.c:82-86 | New state off drives level 0 and on drives level 1. `LED_UNUSED` makes no HAL call. |
| Led.LedTable.constructor | STM32F4_SIM900/app/src/led.c:48 | Every LED starts `LED_UNUSED`. |
| Led.LedTable.Init | STM32F4_SIM900/app/src/led.c:54-64 | LEDs 0..3 are set up in the HAL and set off. Numbers 4..9 change nothing. No other entry changes. |
| Led.LedTable.ChangeState | STM32F4_SIM900/app/src/led.c:71-90 | Out-of-range or uninitialised LEDs change nothing. Otherwise the HAL calls of `ChangeStateCalls` are made and only `ledState[led]` takes the new state. |
| Led.LedTable.Toggle | STM32F4_SIM900/app/src/led.c:96-114 | Out-of-range or uninitialised LEDs change nothing. Otherwise only `ledState[led]` flips and exactly one HAL toggle is made. |

## Left out

- **Register-level hardware layers** (UART, GPIO, SysTick, TIMER14) are not modelled. Their
  effects are inputs (`now`, `row`), the `txEnabled` flag or the `hal` log. This covers
  `COMM_HAL_Init`/`SIM900_HAL_Init` inside the init functions, `KEYS_HAL_Init` and
  `KEYS_HAL_SelectColumn`.
- **Repeated init.** `COMM_Init` and `SIM900_Init` are modelled as the first call after reset,
  as constructors. A later call empties both FIFOs through `FIFO_Add` but does not reset
  `gotFrame`, so with frames pending the counter would no longer match the empty RX. That
  second call is not modelled.
- **Interrupt concurrency.** Each call and each callback is one atomic step. The IRQ masking
  around `FIFO_Push` in `Putc` is therefore not modelled.
- **Busy-waits.** The spin loops of `COMM_Getc`/`SIM900_Getc` become a precondition that RX
  holds a byte. `TIMER_Delay` and `TIMER_DelayUS` are not modelled: their exit test is
  `Timers.DelayTimer`.
- **`TIMER_Init` and `TIMER_GetTime`** only wrap the hardware clock. The tick is the parameter
  `now`.
- **Callback bodies** are foreign code. A callback is an opaque handle, and calling it appends
  the timer id to `fired`.
- **Debug output and utilities** (`printf`/`println`, `hexdump`, the newlib stubs and the
  assert handler) have no logic in the core.
- Comm.CommLink.Getc: requires RX to hold a byte, in place of the busy-wait. The same holds for Sim900.Sim900Link.Getc.
- Comm.CommLink.GetFrame: requires the caller's buffer to hold every byte the loop writes, `min(bytes popped, 256)`, because the C code does not check. The same holds for Sim900.Sim900Link.GetFrame, Sim900.Sim900Link.GetFrameAsWritten and Framing.ReadFrame.
- Keys.Keypad.KeysUpdate: takes one tick `now` for both `TIMER_GetTime` readings within a call, because the clock is an input.
- Keys.Keypad.KeysUpdate: requires a row of -1 or 0..3, which is what `KEYS_HAL_ReadRow` returns. It does not log `KEYS_HAL_SelectColumn`; the selected column is `currentColumn`.
- Timers.SoftTimerTable.Start: requires `id < 10`. The C code does not check the index, and a larger one writes outside the table. The same holds for Timers.SoftTimerTable.Pause and Timers.SoftTimerTable.Resume.

## Findings

| source | as written | input that shows it | evidently intended | confidence | as-written member | corrected member |
|---|---|---|---|---|---|---|
| STM32F4_SIM900/app/src/sim900.c:152 | `len = 0;` clears the local pointer, so the caller's `*len` stays 1 while the call returns 1 ("no frame") | RX holds `"\r\n"` and `gotFrame == 1`; `SIM900_GetFrame` returns 1 with `*len == 1` and `buf == "\r", NUL` | `*len = 0;`, a dropped empty line reported with zero length | high (not executed) | Sim900.EmptyLineAsWritten | Sim900.EmptyLineDropped |
| STM32F4_SIM900/app/src/timers.c:158 | The guard `softTimerCount > MAX_SOFT_TIMERS` admits the call at `softTimerCount == 10` | The eleventh `TIMER_AddSoftTimer` call writes `softTimers[10]`, one past the 10-entry array | `softTimerCount >= MAX_SOFT_TIMERS`, refusing the eleventh timer | high (not executed) | Timers.EleventhTimerAdmittedAsWritten | Timers.SoftTimerTable.AddSoftTimer |
