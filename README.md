# I2C joystick driver: state synchronisation, modelled in Dafny

The driver polls a gamepad's register block over I2C and turns it into Linux
input events on a virtual uinput device. Each cycle it reads a six-byte
`I2CJoystickStatus`: a 16-bit `buttons` field, then the 8-bit `axis0`,
`axis1`, `powerDownRequest` and `audioVolume`. A read of any other length is
rejected. Otherwise the driver compares the new snapshot with the last one it
applied (`updateUInputDevice`). As built (`USE_ANALOG_DPAD` is 0), it writes
one key event per changed bit among the twelve button bits: the eight face,
shoulder, start and select buttons, then the four d-pad keys. Then it writes
one absolute event per moved stick axis. The alternative build, with
`USE_ANALOG_DPAD` set, would report the d-pad as two hat axes instead; it is
modelled too, though that branch does not compile as written. Next the
driver runs `halt` if the shutdown flag is set and forwards the volume if it
changed. Last, it stores the new snapshot.

The model has these modules:

- `Registers` (registers.dfy): the snapshot as a datatype of bounded integers,
  the struct size, the initial state, and the C conversion of `-1` to
  `uint8_t`.
- `Events` (events.dfy): key and absolute-axis codes, the bit-to-key table,
  and the axis ranges the device declares. It also defines `Slot`, a code's
  position in the fixed emission order, and `On(r, n)`, the events of `r` in
  slot `n`.
- `StateDiff` (diff.dfy): `updateUInputDevice` as the pure function
  `DiffWith(analog, p, c)`, where `analog` selects the `USE_ANALOG_DPAD`
  variant. `Diff` is the built choice (digital). Each `sendInputEvent` call is
  one element of the result.
- `DiffProperties` (diff_properties.dfy): `Expected`, a per-code reference
  definition, is proved equal to the diff slot by slot. Beside it are proofs of
  the edge-triggering, ordering, idempotence, hat and rescale properties.
- `Driver` (driver.dfy): `readI2CJoystick`'s length check and main's cycle.
  `JoystickDriver` is a class with a `status` field. Its `Step` method runs one
  loop iteration and `Run` runs a finite sequence of iterations. Both are
  proved against the functions `CycleActions`, `Replay` and `Trace`. A cycle's
  side effects form an ordered list of `Action`s: `Emit(event)`, `Halt` and
  `SetVolume(v)`.
- `DriverProperties` (driver_properties.dfy): multi-cycle properties. They
  cover rejected reads, the stored state, the forced first volume and the
  level-triggered shutdown.
- `Device` (device.dfy): which key codes the virtual device enables, and the
  finding below.

Three details of the code shape the model:

- The initial axes are 127, not the centre 128, so the first accepted
  reading of a centred stick emits ABS_X and ABS_Y with value 0
  (`FirstCentredReadingReportsAxes`).
- The shutdown flag is read as a level: every accepted cycle whose flag is
  nonzero calls `halt`, including consecutive ones (`HaltPerAcceptedFlag`).
- The analog d-pad branch computes hat values from `newValue`, which is not
  declared anywhere, so that branch does not compile as written. The model
  reads it as the new snapshot's `buttons`, the evident intent.

## Model

| member | source | states |
|---|---|---|
| `Registers.ToU8` | driver/i2c-joystick-driver.c:117 | storing an int into a `uint8_t` keeps its residue modulo 256 |
| `Registers.InitialStatus` | driver/i2c-joystick-driver.c:113-117 | the snapshot main starts from; `InitialVolumeIsSentinel` and `FirstCentredReadingReportsAxes` state what its volume and axes imply |
| `Registers.InitialVolumeIsSentinel` | driver/i2c-joystick-driver.c:113-117 | the initial stored volume, `-1` as `uint8_t`, is 255, above every volume the hardware reports (0..100) |
| `Events.KeyAt` | driver/i2c-joystick-driver.c:34-47 | bit b drives key `KeyAt(b)`: A, B, X, Y, TL, TR, START, SELECT for bits 0..7 and DPAD_UP, DOWN, LEFT, RIGHT for 8..11; `KeyBit` recovers the bit |
| `Events.KeyTableInverse` | driver/i2c-joystick-driver.c:34-47 | every key code has exactly one bit in the table |
| `Events.Slot` | driver/i2c-joystick-driver.c:34-75 | every event code has one position below 16 in the emission order; key codes take positions 0..11 |
| `StateDiff.KeyValue` | driver/i2c-joystick-driver.c:30 | a key event's value is 1 exactly when the new bit is set and 0 exactly when it is clear |
| `StateDiff.KeyEventsShape` | driver/i2c-joystick-driver.c:30-47 | the key events for a run of bits number at most one per bit, come in bit order and carry 0 or 1 |
| `StateDiff.KeyEvents` | driver/i2c-joystick-driver.c:30-47 | one `TestBitAndSendKeyEvent` per bit of a range, in bit order; `KeyEventsShape` bounds and orders it and `OnKeyEvents` gives, for each code, the one event of the bit that changed |
| `StateDiff.HatValue` | driver/i2c-joystick-driver.c:49-59 | a hat's value lies in {-1, 0, 1}; it is -1 exactly when the negative bit is set (so the negative bit wins a tie) and +1 exactly when only the positive bit is set |
| `StateDiff.HatEvent` | driver/i2c-joystick-driver.c:49-59 | one hat of the analog d-pad; `HatShape` puts it in its hat's position within range and `HatReported` states when it is emitted and with which value |
| `StateDiff.HatEvents` | driver/i2c-joystick-driver.c:49-59 | HAT0Y then HAT0X; `HatShape` puts each hat in its own position (12 and 13), `DpadShape` keeps the pair ordered, and `HatReported` states each one's emission |
| `StateDiff.Rescale` | driver/i2c-joystick-driver.c:62-75 | `(raw - 128) * 4` lies in [-512, 508], inside the device's declared [-512, 511]; it is a multiple of 4 and gives raw back, so distinct readings give distinct values |
| `StateDiff.AxisEvent` | driver/i2c-joystick-driver.c:62-75 | one stick axis, emitted only on a changed raw reading; `AxisReported` states that it is emitted exactly then, once, with the rescaled value |
| `StateDiff.AxisEvents` | driver/i2c-joystick-driver.c:62-75 | ABS_X then ABS_Y; `AxesShape` keeps them in positions 14..15, ordered and within range |
| `StateDiff.DiffWith` | driver/i2c-joystick-driver.c:32-76 | at most 16 events, each within the range the device declares, with emission positions strictly increasing: no code twice, and always in the order buttons, d-pad, ABS_X, ABS_Y |
| `StateDiff.DiffShape` | driver/i2c-joystick-driver.c:32-76 | the button part uses positions 0..7, the d-pad part 8..13 and the axes 14..15, each ordered and in device range; the three parts together stay ordered; the parts hold at most 8, 4 and 2 events |
| `StateDiff.DpadEvents` | driver/i2c-joystick-driver.c:43-60 | the `#if USE_ANALOG_DPAD` choice: the four d-pad keys, or the two hats; `DpadShape` keeps either in positions 8..13 and `DpadEncodingsExclusive` states that each build emits only its own kind |
| `StateDiff.Diff` | driver/i2c-joystick-driver.c:12 | `updateUInputDevice` as built, with the digital d-pad; `DiffWith`'s contract and the per-code lemmas apply with `analog` false |
| `DiffProperties.Expected` | driver/i2c-joystick-driver.c:30-75 | reference definition per code: at most one event, in that code's position and within the device range |
| `DiffProperties.DiffPerSlot` | driver/i2c-joystick-driver.c:32-76 | for every code, the diff's events of that code are exactly those named by the reference definition `Expected` |
| `DiffProperties.KeyReported` | driver/i2c-joystick-driver.c:30-47 | a key event for bit b is emitted exactly when bit b differs between the snapshots, exactly once, with value 1 if the new bit is set and 0 otherwise |
| `DiffProperties.DpadEncodingsExclusive` | driver/i2c-joystick-driver.c:43-60 | the analog encoding emits no d-pad key events and the digital encoding emits no hat events |
| `DiffProperties.HatReported` | driver/i2c-joystick-driver.c:49-59 | analog mode emits a HAT0Y event exactly when bit 8 or 9 changed, and then exactly one, even when both changed; the same holds for HAT0X with bits 10 and 11 |
| `DiffProperties.AxisReported` | driver/i2c-joystick-driver.c:62-75 | ABS_X is emitted exactly when `axis0` changed, once, with the rescaled new value; ABS_Y likewise for `axis1` |
| `DiffProperties.KeysPrecedeAxes` | driver/i2c-joystick-driver.c:32-75 | within one cycle every key event comes before every axis event |
| `DiffProperties.DiffOfSelf` | driver/i2c-joystick-driver.c:30-75 | diffing a snapshot against itself emits no events, in either d-pad encoding |
| `DiffProperties.SingleToggle` | driver/i2c-joystick-driver.c:30-47 | snapshots differing only in button bit k, with the sticks unmoved, give exactly one event: the key for bit k with the new bit's value |
| `DiffProperties.RescaleReferencePoints` | driver/i2c-joystick-driver.c:66 | raw 128 maps to 0, raw 0 to -512 and raw 255 to 508 |
| `DiffProperties.FirstCentredReadingReportsAxes` | driver/i2c-joystick-driver.c:114-115 | because the sticks start at 127, a first reading of 128 on both axes emits ABS_X 0 and ABS_Y 0 |
| `Driver.ReadJoystick` | driver/i2c-joystick-driver.c:22-28 | a read is accepted exactly when its byte count equals `sizeof(I2CJoystickStatus)` (6), and then yields the buffer |
| `Driver.ShutdownRequested` | driver/i2c-joystick-driver.c:133-136 | any nonzero flag requests a halt; `CycleDispatch` and `HaltPerAcceptedFlag` state that it is checked in every accepted cycle |
| `Driver.VolumeChange` | driver/i2c-joystick-driver.c:138-140 | a volume is forwarded exactly when the new one differs from the stored one, and it is the new one |
| `Driver.Dispatch` | driver/i2c-joystick-driver.c:131-140 | main's order within a cycle, for any events: `DispatchOrder` states that the events come first in order, then one halt exactly when requested, then, last, one volume change exactly when the volume changed, and nothing else |
| `Driver.CycleActions` | driver/i2c-joystick-driver.c:131-140 | the effects of one accepted cycle: the diff events dispatched as above; `CycleDispatch` states them |
| `Driver.Next` | driver/i2c-joystick-driver.c:127-142 | the stored snapshot after one loop iteration: the new buffer when the read is accepted, else unchanged; `Step` performs it on `status` |
| `Driver.Effects` | driver/i2c-joystick-driver.c:127-140 | what one loop iteration does: the cycle's actions when the read is accepted, else nothing; `Step` returns it |
| `Driver.Replay` | driver/i2c-joystick-driver.c:124-143 | the stored snapshot after a run; `RejectedReadsChangeNothing` and `ReplayIsLastAccepted` state that it is the last accepted buffer, or the start when there is none |
| `Driver.Trace` | driver/i2c-joystick-driver.c:124-143 | everything a run does, in order; `TracePrefix`, `FirstAcceptedCycle` and `HaltPerAcceptedFlag` state its prefixes, its first accepted cycle and its halts |
| `Driver.CycleDispatch` | driver/i2c-joystick-driver.c:131-140 | an accepted cycle first writes every diff event in order and nothing else before them; right after them it requests one halt exactly when the new flag is nonzero, whatever the stored snapshot; its last action sets volume v exactly when the volume changed to v; its length counts only these |
| `Driver.JoystickDriver.constructor` | driver/i2c-joystick-driver.c:112-117 | the driver starts from buttons 0, axes 127, flag 0 and volume 255 |
| `Driver.JoystickDriver.Step` | driver/i2c-joystick-driver.c:124-143 | a rejected read performs nothing and leaves `status` unchanged; an accepted read performs the cycle's actions against the old `status` and stores the new snapshot in every field |
| `Driver.JoystickDriver.Run` | driver/i2c-joystick-driver.c:124-147 | after a finite run of cycles, `status` and the performed actions are those of `Replay` and `Trace` |
| `DriverProperties.RejectedReadsChangeNothing` | driver/i2c-joystick-driver.c:127-129 | cycles whose reads are all rejected leave the stored snapshot unchanged and do nothing |
| `DriverProperties.ReplayIsLastAccepted` | driver/i2c-joystick-driver.c:142 | after a run, the stored snapshot is the buffer of the last accepted read |
| `DriverProperties.TracePrefix` | driver/i2c-joystick-driver.c:124-147 | the actions of the first k cycles are a prefix of the actions of the whole run |
| `DriverProperties.FirstAcceptedCycle` | driver/i2c-joystick-driver.c:124-143 | up to and including the first accepted read, the run does exactly that read's cycle against the starting snapshot |
| `DriverProperties.FirstVolumeForcedFrom` | driver/i2c-joystick-driver.c:138-140 | from a stored volume above 100, the first accepted read forwards its volume, in its own cycle, whenever that volume is in 0..100 |
| `DriverProperties.FirstVolumeForced` | driver/i2c-joystick-driver.c:117 | from the initial state, the first accepted read with a volume in 0..100 always sets that volume |
| `DriverProperties.HaltPerAcceptedFlag` | driver/i2c-joystick-driver.c:133-136 | a run requests as many halts as it has accepted reads with a nonzero shutdown flag: level, not edge |
| `DriverProperties.PressAndMoveScenario` | driver/i2c-joystick-driver.c:131-140 | from a stored snapshot with both sticks centred at 128 and volume 255, pressing A, moving the first stick to 64 and reporting volume 37 gives exactly: key A = 1, ABS_X = -256, volume 37 |
| `Device.LowKeysDeclared` | driver/JoystickDevice.c:22-29 | `DeclaredKeys`, the keys `createUInputDevice` enables, are exactly the keys of bits 0..7 |
| `Device.DpadKeysNotDeclared` | driver/JoystickDevice.c:22-29 | none of the four d-pad keys is among `DeclaredKeys` |
| `Device.DpadPressIsDropped` | driver/JoystickDevice.c:22-29 | as built, whenever d-pad up goes from released to pressed the cycle emits BTN_DPAD_UP, which the device never enables, so not every emitted key reaches it |
| `Device.AnalogKeysDeclared` | driver/JoystickDevice.c:22-29 | with the analog d-pad, every key event is for a key the device enables |
| `Device.DpadPressDelivered` | driver/JoystickDevice.c:22-29 | once the four d-pad keys are enabled too, the same d-pad-up press emits BTN_DPAD_UP, that key is enabled, and every key event of the cycle is for an enabled key |
| `Device.KeysDeclaredWithDpad` | driver/JoystickDevice.c:22-29 | once the four d-pad keys are enabled too, every key event of either build is for an enabled key, since those twelve keys are every key the driver can emit |

## Left out

- The I2C plumbing (`openI2C`, `readI2CSlave` in driver/I2C.c). A read is
  reduced to the byte count it returns and the struct it filled. Bytes are
  never decoded, because the driver copies the raw block into the struct.
- The uinput device lifecycle (`createUInputDevice`, `sendInputEvent` in
  driver/JoystickDevice.c). This includes the SYN_REPORT written after every
  event, twice. Only the enabled key codes and the declared axis ranges are
  taken from it.
- `SetAlsaMasterVolume`, which uses ALSA mixer calls and float arithmetic. It
  appears only as the `SetVolume(v)` action.
- `system("halt")`, which appears only as the `Halt` action. Whether the host
  actually halts is outside the model, so later cycles are still modelled.
- `usleep` and the unbounded `while(1)`, replaced by a run over a finite
  sequence of reads. The "can't read I2C device!" message is represented only
  by `Step` returning `accepted == false`.
- The `I2C_GAMEPAD_ADDRESS` and `UPDATE_FREQ` constants, which only feed the
  left-out I/O.

## Findings

| source | as written | input that shows it | evidently intended | confidence | as-written member | corrected member |
|---|---|---|---|---|---|---|
| driver/JoystickDevice.c:22-29 | with `USE_ANALOG_DPAD == 0` the driver emits BTN_DPAD_UP/DOWN/LEFT/RIGHT key events, but `createUInputDevice` enables only the eight face, shoulder, start and select keys, so the input core drops every d-pad press | any previous snapshot with bit 8 clear and new one with bit 8 set, e.g. the initial state and `buttons = 0x100` (d-pad up): the diff contains `Key(BtnDpadUp, 1)` and BtnDpadUp is not enabled | enable the four d-pad keys with `UI_SET_KEYBIT` as well | medium (not executed; rests on the input core ignoring codes not enabled on the device) | `Device.DpadPressIsDropped` | `Device.DpadPressDelivered` |
