# PSX GPIO controller emulator: status LED and button sampling

This project models, in Dafny, the two sequential components of a Raspberry Pi
Pico firmware that emulates a PlayStation controller:

- **The status-LED blink state machine** (`src/psx_led_status.h`), module
  `LedStatus` in `led_status.dfy`. A context record holds the current status
  (IDLE, READY, POLL, CONFIG, ERROR), a blink count, an unused blink index, the
  LED level and the time of the last transition. A status request resets the
  pattern when the status changes. A periodic tick toggles the LED once the
  time elapsed since the last transition reaches the threshold of the current
  status: READY every 200 ms, ERROR every 50 ms, POLL and CONFIG two and three
  100 ms blinks followed by a 300 ms pause; IDLE only holds the LED off.
  The behaviour is written twice. `Tick` and `SetStatusStep` are a
  table-driven specification (`PatternOf`: held off, toggle with a half
  period, or burst of n blinks then a pause). The class `LedIndicator` follows
  the firmware's per-status branching, with the context as fields, a ghost
  `pin` holding the last level written to the LED output and a ghost count of
  pin writes. Its methods are proved to agree with the specification and to
  keep the invariant `Valid()`: the pin equals `ledOn`, and the blink counters
  stay in range.
- **The GPIO-to-snapshot mapping** (`poll_buttons` in
  `src/psx_gpio_simulator.c`), module `GpioSimulator` in `gpio_simulator.dfy`.
  A sampling pass starts both active-low button bytes at 0xFF. It clears the
  bit of every configured slot (index below `btn_count`) whose line reads low.
  Slots 0-7 (face buttons, L1/R1, L2/R2) go into `buttons2`; slots 8-13
  (D-pad, Start, Select) go into `buttons1`. The L2/R2 trigger bytes are set to
  0xFF or 0x00 from the lines of slots 6 and 7. The four stick axes are fixed
  at 0x80. `Poll` is the pure mapping. The class `ButtonPoller` holds the
  file-scope `state` and `btn_count`, and its method `PollButtons` stores a
  fresh snapshot.

Modelling decisions:

- Time is a parameter. The methods take `nowUs`, the 32-bit microsecond
  counter reading, and derive milliseconds as `nowUs / 1000`, as the firmware
  does. The elapsed time is the unsigned 32-bit difference `WrapSub`, which
  wraps modulo 2^32. Because the millisecond value comes from a 32-bit
  microsecond counter, it wraps at 4294967, not at 2^32. A tick just after that
  wrap therefore sees a huge elapsed time and acts at once
  (`MicrosecondWrapActsAtOnce`). The model keeps this behaviour.
- `uint8_t` counters are the newtype `u8` and `uint32_t` times the newtype
  `u32`. READY's `++flash_count` is written with its 8-bit wrap-around.
- Line levels are a `Sample`: the 14 slot levels as read first, plus the
  second readings of the L2 and R2 lines. The firmware reads those two lines
  twice per pass: once for the trigger byte and once for the button bit.
  `Steady` is the assumption that both readings agree. The trigger/button
  agreement (`TriggersMirrorButtons`) is proved under it, and
  `TriggerReadingsMayDisagree` shows what happens without it. Lines 6 and 7
  are read twice per pass (`src/psx_gpio_simulator.c:53-56`); the model
  follows the code.
- The `PSX_GAMEPAD_*` mask values are defined in a header that is not part of
  this model. They are a parameter (`Masks`), and every result about button
  bits assumes only `ValidMasks`: each mask is a single bit, and the masks of
  one button byte are pairwise distinct.
- `src/psx_shared.h` defines a sequence-counter buffer, but `main` hands
  `&state` to the protocol responder directly
  (`src/psx_gpio_simulator.c:119`). `poll_buttons` writes that file-scope
  `state`, and `PollButtons` models this.

## Model

| member | source | states |
|---|---|---|
| LedStatus.PatternOf | src/psx_led_status.h:79-144 | the pattern table: READY toggles every 200 ms, ERROR every 50 ms, POLL and CONFIG blink 2 and 3 times at 100 ms with a 300 ms pause; a burst has at least one blink and fewer than 255, so its count fits the 8-bit counter |
| LedStatus.WrapSub | src/psx_led_status.h:66 | the elapsed time is the unique 32-bit value that, added to the last update time modulo 2^32, gives the current time; without wrap it is the plain difference |
| LedStatus.Initial | src/psx_led_status.h:36-42 | after initialisation the status is IDLE, both counters are 0, the LED is off and the last update time is 0, and the context is well formed |
| LedStatus.SetStatusStep | src/psx_led_status.h:46-55 | requesting the active status changes nothing and writes no pin; requesting another adopts it, zeroes both counters, turns the LED off, writes 0 to the pin and restamps the timer; well-formedness is preserved |
| LedStatus.Tick | src/psx_led_status.h:64-146 | a tick never changes the status or the blink index; a pin write always writes the new LED level; a tick that writes no pin changes nothing at all |
| LedStatus.TickKeepsWellFormed | src/psx_led_status.h:91-134 | every tick preserves the invariant: POLL/CONFIG count at most 2/3 blinks and reach that count only with the LED off; other statuses keep the count at 0 |
| LedStatus.PinMirrorsLed | src/psx_led_status.h:46-146 | if the pin level equals `led_on` before a tick or a status request, it equals `led_on` after it |
| LedStatus.SetStatusIdempotent | src/psx_led_status.h:46-47 | a second request for the status just set changes nothing and writes no pin |
| LedStatus.IdleTick | src/psx_led_status.h:71-77 | in IDLE a tick only forces the LED off, writing the pin only if it was on; the timer and the count are untouched |
| LedStatus.ReadyTick | src/psx_led_status.h:79-89 | in READY a tick toggles exactly when the elapsed time is at least 200 ms; a toggle inverts the LED and restamps the timer; the count stays 0 |
| LedStatus.ErrorTick | src/psx_led_status.h:137-144 | in ERROR a tick toggles exactly when the elapsed time is at least 50 ms; a toggle inverts the LED and restamps the timer |
| LedStatus.BurstFlashingTick | src/psx_led_status.h:93-102 | in POLL or CONFIG below the blink count, a tick toggles exactly when at least 100 ms have elapsed; a toggle restamps the timer; the count rises by one exactly on an on-to-off toggle |
| LedStatus.BurstPauseTick | src/psx_led_status.h:103-111 | in POLL or CONFIG at the blink count, a tick acts exactly when at least 300 ms have elapsed; it then zeroes the count, forces the LED off, writes 0 and restamps the timer |
| LedStatus.ElapsedAcrossWrap | src/psx_led_status.h:66 | a property of the `uint32_t` subtraction alone: for any two values d1 <= d2 steps after any t0 on the full 2^32 scale, the difference is d2 - d1 even across the 2^32 wrap (the firmware's millisecond values never reach that wrap; see the next row) |
| LedStatus.ElapsedWithoutMicrosecondWrap | src/psx_led_status.h:65-66 | for two microsecond readings u1 <= u2 with no wrap of the microsecond counter between them, the elapsed time is exactly u2/1000 - u1/1000 ms |
| LedStatus.PollBlinkScenario | src/psx_led_status.h:91-112 | after switching to POLL, ticks spaced 100, 100, 100, 100, 300, 100 ms give LED levels on, off, on, off, off, on: two blinks, a pause, then the pattern restarts |
| LedStatus.MicrosecondWrapActsAtOnce | src/psx_led_status.h:65-66 | when the microsecond counter wraps just after a transition, the next ERROR tick toggles at once, because the millisecond value wraps at 4294967 rather than at 2^32 |
| LedStatus.LedIndicator.constructor | src/psx_led_status.h:33-43 | initialisation writes 0 to the pin and yields the initial context, with the invariant established |
| LedStatus.LedIndicator.SetStatus | src/psx_led_status.h:46-55 | the fields become `SetStatusStep` of the old context at `nowUs / 1000`; the pin writes are counted; the invariant is kept; requesting the current status leaves the object unchanged |
| LedStatus.LedIndicator.Update | src/psx_led_status.h:64-146 | the per-status branching of the firmware gives the same context as the table-driven `Tick` at `nowUs / 1000`; at most one pin write per call; the pin still mirrors `led_on` and the counters stay in range |
| GpioSimulator.Poll | src/psx_gpio_simulator.c:24-76 | a pass sets all four stick axes to 0x80 and each trigger byte to either 0xFF or 0x00 |
| GpioSimulator.ClearedIsMaskedOut | src/psx_gpio_simulator.c:43-66 | clearing the masks one by one in slot order equals clearing the union of the pressed masks at once |
| GpioSimulator.UnionAt | src/psx_gpio_simulator.c:43-66 | with distinct single-bit masks, a mask lies in the union of the pressed masks exactly when its slot is pressed |
| GpioSimulator.Buttons2Bit | src/psx_gpio_simulator.c:43-56 | for slots 0-7, the slot's bit of `buttons2` is 0 exactly when the slot index is below `btn_count` and the line reads low |
| GpioSimulator.Buttons1Bit | src/psx_gpio_simulator.c:59-66 | for slots 8-13, the slot's bit of `buttons1` is 0 exactly when the slot index is below `btn_count` and the line reads low |
| GpioSimulator.UnmappedBitsStaySet | src/psx_gpio_simulator.c:33-34 | bits of a button byte that no mask covers stay 1 whatever the input |
| GpioSimulator.NothingPressedIsReleased | src/psx_gpio_simulator.c:33-75 | with every line high, or with `btn_count <= 0`, the snapshot is both button bytes 0xFF, both triggers 0x00 and all sticks 0x80 |
| GpioSimulator.TriggersMirrorButtons | src/psx_gpio_simulator.c:53-56 | when the two readings of each trigger line agree, L2 is 0xFF exactly when `btn_count > 6` and line 6 is low, and exactly then the L2 bit of `buttons2` is 0; likewise R2 with line 7 |
| GpioSimulator.TriggerReadingsMayDisagree | src/psx_gpio_simulator.c:53-55 | if line 6 reads low and then high within one pass, L2 reports 0xFF while its button bit reports released |
| GpioSimulator.Buttons2DependsOnlyOnSlots0To7 | src/psx_gpio_simulator.c:43-56 | `buttons2`, L2 and R2 depend only on slots 0-7 |
| GpioSimulator.Buttons1DependsOnlyOnSlots8To13 | src/psx_gpio_simulator.c:59-66 | `buttons1` depends only on slots 8-13 |
| GpioSimulator.UnconfiguredSlotsIgnored | src/psx_gpio_simulator.c:43-66 | two samples that agree on every slot below `btn_count` give the same snapshot: the lines of unconfigured slots never matter |
| GpioSimulator.OnlyCircleReleasedScenario | src/psx_gpio_simulator.c:43-66 | all 14 slots configured and every line low except Circle's: Circle's bit reads released, every other mapped bit reads pressed, and both triggers are 0xFF |
| GpioSimulator.ButtonPoller.constructor | src/psx_gpio_simulator.c:111-115 | the emulator starts with the released snapshot and the given slot count and masks |
| GpioSimulator.ButtonPoller.PollButtons | src/psx_gpio_simulator.c:24-76 | the stored snapshot is exactly `Poll` of the current levels and `btn_count`; nothing of the previous snapshot is latched |

## Left out

- The sequence-counter shared buffer (`src/psx_shared.h`): its purpose is torn-read freedom between two cores under C11 memory orderings, which a sequential model cannot express, and `main` does not use it.
- `main` (`src/psx_gpio_simulator.c:78-132`): the slot-to-pin table, GPIO direction and pull-up setup, starting the protocol responder on the second core, and the endless poll-and-sleep loop. These are hardware bring-up and scheduling. The constructor of `ButtonPoller` takes the slot count and starts from the released snapshot.
- `src/psxSPI.pio.h`: include selection and fallback pin numbers only.
- Hardware calls: `gpio_get` becomes the `Sample` parameter, `time_us_32` becomes the `nowUs` parameter, and `gpio_put` becomes the ghost `pin` field. `gpio_init` and `gpio_set_dir` in `psx_led_init` are not modelled, nor is the LED pin number.
- Which physical pin each slot reads: the model works per slot.
- The write order within a pass and what a concurrent reader sees: `poll_buttons` writes `state.l2` and `state.r2` (`src/psx_gpio_simulator.c:53-54`) before `buttons1` and `buttons2` (:68-69) and the sticks (:72-75), while the responder on the second core reads the same `state` (:119, :122). `PollButtons` stores the whole snapshot in one assignment, so the field-by-field order and any torn snapshot a concurrent reader could observe are not modelled.
- The concrete `PSX_GAMEPAD_*` bit values and the full `PSXInputState` layout are in headers that are not part of this model. `InputState` holds only the eight fields that `poll_buttons` writes.
