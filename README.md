# AlpsT4USB touchpad driver core, in Dafny

This project models the protocol and decode core of `AlpsT4USBEventDriver`. That is the macOS driver for the Alps T4 USB touchpad, adapted from the Linux `hid-alps` driver. The model covers five parts:

- **T4 checksum (`t4_calc_check_sum`).** Two 16-bit accumulators start at 0xFF. They run over a byte range in chunks of at most 20 bytes. After every chunk, and once more at the end, each accumulator is folded as `(v & 0xFF) + (v >> 8)`. The result is `sum2 << 8 | sum1`. A range with `offset + length >= 50` gives 0 and reads nothing.
  - `CalcCheckSum` is the loop.
  - The function `Checksum` specifies it.
  - The lemmas prove what the folding is for: each byte of the result is the Fletcher-16 residue, in 1..255, of the unbounded sums.
- **Little-endian stores and the register-write feature frame.** `enterPrecisionTouchpadMode` builds its 51-byte frame in a zeroed array, computes the checksum over bytes 1..8 and stores it. The result is 07 07 C4 C2 00 00 01 00 78 08 A5 followed by zeros.
- **Interrupt reports.** The admission gate has four checks: the typing quiet window (a `uint64_t` difference that wraps), `ready`, the report type and the report id. The loop over the five contact slots computes:
  - x is `x_hi << 8 | x_lo`;
  - y is `3060 - y + 255` in `unsigned int`, i.e. a reflection about 3315 modulo 2^32;
  - the palm-band validity test;
  - a valid slot's update versus an invalid slot's hold-over;
  - the contact count.
- **Power states.** The `awake`/`ready` pair is driven by `setPowerState`.
- **Keystroke latch.** The `kKeyboardKeyPressTime` case of `message` stores the key time.

The driver object is the class `AlpsT4.Driver`. Its fields are the flags, the quiet window, the key time, an array of five slot records, and two logs. `sentReports` records every `setReport` call. `events` records every event handed to the multitouch consumer.

Integers are unbounded in Dafny. The C widths are subset types `uint8`…`uint64`, and every wrap-around the C code relies on is written out with `Wrap16`, `Wrap32` and `Wrap64`.

Each quantity of a slot is a (current, last) pair. This model assumes that `update(v)` makes `v` current and moves the old current to last. The multitouch helper library that defines `update` is not part of this model.

Files:

| file | contents |
|---|---|
| machine_ints.dfy | fixed-width types, truncation, `hi << 8 \| lo` |
| little_endian.dfy | `__put_unaligned_le16/32`, `put_unaligned_le32`, decoding |
| t4_layout.dfy | protocol constants, packed `t4_input_report` layout, parse/serialize |
| t4_checksum.dfy | `t4_calc_check_sum` and its Fletcher-16 meaning |
| feature_frame.dfy | the frame built by `enterPrecisionTouchpadMode` |
| transducers.dfy | slot records, per-slot decode, contact count |
| driver.dfy | the driver class, the gate, power states, messages |

## Model

| member | source | states |
|---|---|---|
| MachineInts.ShlOr16Bytes | AlpsT4USB/AlpsT4USB.cpp:219 | `sum2 << 8 \| sum1`, bitwise, of two byte-sized values is `sum2 * 256 + sum1` |
| LittleEndian.PutLe16 | AlpsT4USB/AlpsT4USB.cpp:227-231 | the two bytes at `p` become the low then the high byte of `val`; no other byte of the array changes |
| LittleEndian.PutLe32 | AlpsT4USB/AlpsT4USB.cpp:233-237 | the high half is stored at `p+2` and the low half at `p`; the array equals the old one with those four stores and no other change |
| LittleEndian.PutUnalignedLe32 | AlpsT4USB/AlpsT4USB.cpp:222-225 | the same four stores through the untyped-pointer wrapper |
| LittleEndian.Store32Bytes | AlpsT4USB/AlpsT4USB.cpp:222-237 | the stores put `val`'s bytes, least significant first, at `p[0..3]`, keep every other byte, and decoding `p[0..3]` little-endian gives `val` back |
| LittleEndian.Le32RoundTrip | AlpsT4USB/AlpsT4USB.cpp:233-237 | decoding the four little-endian bytes of a 32-bit value gives the value |
| LittleEndian.Le32Injective | AlpsT4USB/AlpsT4USB.cpp:233-237 | every four bytes are the encoding of their decoding, so the encoding is a bijection |
| LittleEndian.Le16RoundTrip | AlpsT4USB/AlpsT4USB.cpp:227-231 | decoding the two little-endian bytes of a 16-bit value gives the value |
| LittleEndian.Le16Injective | AlpsT4USB/AlpsT4USB.cpp:227-231 | every two bytes are the encoding of their decoding |
| T4Layout.Layout | AlpsT4USB/AlpsT4USB.hpp:74-84 | the packed report is 1+1+25+1+5+5+5+5+1+2 = 51 bytes, the feature length is that same size, and each member starts at its packed offset (contacts 2, button 27, time stamp 49) |
| T4Layout.ParseSerialize | AlpsT4USB/AlpsT4USB.hpp:66-84 | the bytes of a well-formed report are 51 long and read back as the same report |
| T4Layout.SerializeParse | AlpsT4USB/AlpsT4USB.hpp:66-84 | every 51-byte buffer is the serialization of the report read from it |
| T4Layout.ContactsRoundTrip | AlpsT4USB/AlpsT4USB.hpp:66-72 | contact records read back from their packed bytes unchanged |
| T4Layout.ContactsBytesRoundTrip | AlpsT4USB/AlpsT4USB.hpp:66-72 | packed contact bytes are reproduced by reading and re-packing them |
| T4Layout.ContactOffsets | AlpsT4USB/AlpsT4USB.hpp:66-78 | contact `i` is bytes `2+5i .. 6+5i` as palm, x_lo, x_hi, y_lo, y_hi; the report id is byte 0 and the button byte 27 |
| T4Checksum.Fold | AlpsT4USB/AlpsT4USB.cpp:212-213 | a fold never exceeds 0x1FE, and a folded value of at most 0x1FE is at most 0xFF |
| T4Checksum.Checksum | AlpsT4USB/AlpsT4USB.cpp:198-199 | a range with `offset + length >= 50` gives 0, and the buffer need not hold it: no byte is read |
| T4Checksum.AccumulateChunk | AlpsT4USB/AlpsT4USB.cpp:206-210 | the inner loop leaves the accumulators equal to the byte-by-byte 16-bit running sums over the chunk |
| T4Checksum.SumChunks | AlpsT4USB/AlpsT4USB.cpp:201-214 | the outer loop consumes the range in chunks of at most 20 bytes, folding after each, and leaves both accumulators at most 0x1FE |
| T4Checksum.CalcCheckSum | AlpsT4USB/AlpsT4USB.cpp:193-220 | the method returns exactly the specified checksum for every buffer, offset and length |
| T4Checksum.ChecksumIsFletcher | AlpsT4USB/AlpsT4USB.cpp:195-219 | for a range below the limit, the high byte is the Fletcher-16 residue (1..255, 0 written as 255) of the running sum of sums seeded 0xFF, and the low byte that of the byte sum seeded 0xFF |
| T4Checksum.ChecksumBytes | AlpsT4USB/AlpsT4USB.cpp:212-219 | both bytes of the result lie in 1..255 and are congruent modulo 255 to the unbounded sums |
| T4Checksum.ChecksumOfZeros | AlpsT4USB/AlpsT4USB.cpp:195-219 | a range of zero bytes that is below the limit has checksum 0xFFFF |
| T4Checksum.ChecksumLocal | AlpsT4USB/AlpsT4USB.cpp:198-210 | the checksum depends only on the bytes inside the range |
| FeatureFrame.StoreHead | AlpsT4USB/AlpsT4USB.cpp:12-19 | into the zeroed array, the stores of id, command, value, LE address and payload length, in the C order, leave exactly the head-store sequence |
| FeatureFrame.HeadStoresLayout | AlpsT4USB/AlpsT4USB.cpp:10-19 | after those stores, bytes 0..8 are id, command, LE address, 1, 0, value, and the rest are still zero |
| FeatureFrame.HeadChecksum | AlpsT4USB/AlpsT4USB.cpp:21 | `t4_calc_check_sum(buffer, 1, 8)` on the buffer is the checksum of the nine-byte head |
| FeatureFrame.StoreChecksum | AlpsT4USB/AlpsT4USB.cpp:23-25 | storing the checksum's low byte, high byte and a zero at 9, 10 and 11 turns head-plus-zeros into head, LE checksum, zeros |
| FeatureFrame.ChecksumAfterHead | AlpsT4USB/AlpsT4USB.cpp:23-25 | the same three stores, stated on sequences |
| FeatureFrame.FrameStores | AlpsT4USB/AlpsT4USB.cpp:21-25 | the head stores followed by the checksum stores give the register-write frame |
| FeatureFrame.BuildWriteFrame | AlpsT4USB/AlpsT4USB.cpp:7-25 | the whole buffer construction, for any register and value, yields the register-write frame: head, LE checksum of bytes 1..8, zeros to 51 bytes |
| FeatureFrame.BuildAbsoluteModeFrame | AlpsT4USB/AlpsT4USB.cpp:7-25 | with register 0xC2C4 and value 0x78 the buffer is 07 07 C4 C2 00 00 01 00 78 08 A5 and 40 zeros |
| FeatureFrame.WriteFrameFields | AlpsT4USB/AlpsT4USB.cpp:10-19 | every register-write frame carries id 0x07, command 0x07, the address decodable from bytes 2..5, payload length 1 and the value |
| FeatureFrame.WriteFrameChecksum | AlpsT4USB/AlpsT4USB.cpp:21-25 | recomputing the checksum over bytes 1..8 of a frame reproduces the little-endian checksum it carries in bytes 9..10, and bytes from 11 on are zero |
| FeatureFrame.AbsoluteModeHead | AlpsT4USB/AlpsT4USB.cpp:12-19 | the head for register 0xC2C4 and value 0x78 is 07 07 C4 C2 00 00 01 00 78 |
| FeatureFrame.FletcherOfAbsoluteModeBytes | AlpsT4USB/AlpsT4USB.cpp:21 | the running sums over those eight bytes reach 773 and 5010 |
| FeatureFrame.ChecksumOfAbsoluteModeBytes | AlpsT4USB/AlpsT4USB.cpp:21 | any buffer with those bytes at 1..8 has checksum 0xA508 |
| FeatureFrame.AbsoluteModeChecksum | AlpsT4USB/AlpsT4USB.cpp:21 | the checksum of the absolute-mode head is 0xA508 |
| FeatureFrame.AbsoluteModeFrame | AlpsT4USB/AlpsT4USB.cpp:10-25 | the register-write frame for 0xC2C4 := 0x78 is 07 07 C4 C2 00 00 01 00 78 08 A5 and 40 zeros |
| Transducers.JoinBytes | AlpsT4USB/AlpsT4USB.cpp:87-88 | `hi << 8 \| lo` of two bytes is `hi * 256 + lo` |
| Transducers.JoinBytesIsLittleEndian | AlpsT4USB/AlpsT4USB.cpp:87-88 | the joined value is the little-endian value of the bytes in report order (lo, hi) |
| Transducers.InvertYReflects | AlpsT4USB/AlpsT4USB.cpp:89 | `3060 - y + 255` in `unsigned int` is `(3315 - y) mod 2^32`: `3315 - y` up to 3315, wrapped to `2^32 + 3315 - y` above |
| Transducers.InvertYCorners | AlpsT4USB/AlpsT4USB.cpp:89 | raw 0 maps to 3315 and raw 3315 to 0 |
| Transducers.InvertYInvolution | AlpsT4USB/AlpsT4USB.cpp:89 | applying the transform twice gives the raw value back |
| Transducers.Pressure | AlpsT4USB/AlpsT4USB.cpp:90-91 | `z` is 0 or 62 |
| Transducers.ValidBand | AlpsT4USB/AlpsT4USB.cpp:90-93 | a contact is valid exactly when `0 < palm < 0x80`, which is exactly when `z` is 62 |
| Transducers.NewTransducer | AlpsT4USB/AlpsT4USB.cpp:343-346 | a created slot has the requested type and is not valid |
| Transducers.DecodeSlotCommon | AlpsT4USB/AlpsT4USB.cpp:78-104 | every decoded slot is a finger with id 9, secondary id `i`, the consumer's logical extents, and `is_valid` set exactly for palm in 1..0x7F |
| Transducers.DecodeValidSlot | AlpsT4USB/AlpsT4USB.cpp:95-100 | a valid contact makes x `x_hi*256 + x_lo`, y `(3315 - raw y) mod 2^32`, the button the report's byte and the tip 1; the old current values become last |
| Transducers.DecodeInvalidSlot | AlpsT4USB/AlpsT4USB.cpp:103-108 | an invalid contact re-issues the stored last x and y instead of zeroing them, and sets button 0 and tip 0, whatever the report holds |
| Transducers.HoldOverTwice | AlpsT4USB/AlpsT4USB.cpp:103-106 | two invalid reports in a row give the slot its x and y pairs back unchanged |
| Transducers.HoldOverAfterContact | AlpsT4USB/AlpsT4USB.cpp:95-106 | an invalid report right after a valid one re-issues the coordinate from before the valid one |
| Transducers.ValidCount | AlpsT4USB/AlpsT4USB.cpp:75-101 | the count of valid contacts is at most the number of contacts |
| Transducers.ValidCountIsCardinality | AlpsT4USB/AlpsT4USB.cpp:75-101 | the count equals the number of slot indices whose contact is valid |
| Transducers.ValidCountExtremes | AlpsT4USB/AlpsT4USB.cpp:75-101 | no valid contact gives 0, all valid gives the number of slots |
| Transducers.ContactCountFromBytes | AlpsT4USB/AlpsT4USB.cpp:75-101 | read off the raw 51 bytes, the count is the number of slots `i` with `0 < b[2+5i] < 0x80`, so at most 5 |
| Transducers.DecodeAllSlots | AlpsT4USB/AlpsT4USB.cpp:76-117 | slot `k` after the loop depends only on slot `k` before, contact `k` and the button byte, and is valid exactly when contact `k` is |
| Transducers.DecodePrefixStep | AlpsT4USB/AlpsT4USB.cpp:76-117 | decoding slot `i` after the first `i` extends the decoded prefix by one and leaves later slots as they were |
| AlpsT4.VendorSpecificMessage | AlpsT4USB/AlpsT4USB.hpp:61-63 | a vendor-specific message code has 0xE in its top nibble and its number in the low 14 bits |
| AlpsT4.MessageCodes | AlpsT4USB/AlpsT4USB.hpp:61-63 | `kKeyboardKeyPressTime` is 0xE3FF806E; the touch-status messages are 0xE3FF8064 and 0xE3FF8065 |
| AlpsT4.QuietWindow | AlpsT4USB/AlpsT4USB.cpp:292-293 | the configured milliseconds times 1,000,000, exact while the product fits in 64 bits |
| AlpsT4.QuietWindowWraps | AlpsT4USB/AlpsT4USB.cpp:292-293 | the multiplication wraps: 18446744073709 ms gives the exact product, one more gives a 448384 ns window |
| AlpsT4.SuppressedWithinWindow | AlpsT4USB/AlpsT4USB.cpp:50-52 | with the key press not in the future, a report is dropped iff less than the window has passed; exactly the window is processed |
| AlpsT4.SuppressedWrapped | AlpsT4USB/AlpsT4USB.cpp:51-52 | a key time later than the clock wraps the difference to `2^64 + now - key_time` |
| AlpsT4.ZeroWindowAdmits | AlpsT4USB/AlpsT4USB.cpp:51-52 | a zero window never drops a report |
| AlpsT4.InitialQuietPeriod | AlpsT4USB/AlpsT4USB.hpp:129-130 | with the default window and key time 0, reports in the first 500,000,000 ns of uptime are dropped and later ones are not |
| AlpsT4.GateConditions | AlpsT4USB/AlpsT4USB.cpp:51-64 | each of the typing window, `!ready`, a missing report, a non-input type and an id other than 0x09 drops the report alone, and a report passing all of them is admitted |
| AlpsT4.PowerTransitionSpec | AlpsT4USB/AlpsT4USB.cpp:179-189 | after a power change the device is awake iff the state is nonzero; the frame is sent iff it wakes from sleep; `ready` is never cleared and is set iff it was set or the frame was sent |
| AlpsT4.PowerTransitionIdempotent | AlpsT4USB/AlpsT4USB.cpp:179-189 | repeating a power state changes nothing and sends nothing |
| AlpsT4.SleepWakeCycle | AlpsT4USB/AlpsT4USB.cpp:179-189 | sleeping then waking, from any state, sends exactly one frame and leaves the device awake and ready |
| AlpsT4.Driver.constructor | AlpsT4USB/AlpsT4USB.hpp:128-130 | a new driver has `ready` false, a 500,000,000 ns window, key time 0, `awake` true (set by `init`), five fresh finger slots, and has sent nothing |
| AlpsT4.Driver.ConfigureQuietTime | AlpsT4USB/AlpsT4USB.cpp:290-293 | a present `QuietTimeAfterTyping` replaces the window with `ms * 1000000` wrapped to 64 bits; an absent one leaves it |
| AlpsT4.Driver.EnterPrecisionTouchpadMode | AlpsT4USB/AlpsT4USB.cpp:7-41 | one feature report with id 0x07 and the absolute-mode frame is sent, and `ready` becomes true; nothing else changes |
| AlpsT4.UpdateSlot | AlpsT4USB/AlpsT4USB.cpp:79-114 | the loop body: the slot's new state is the specified decode of its contact, and the contact counts exactly when `0 < palm < 0x80` |
| AlpsT4.Driver.DecodeSlots | AlpsT4USB/AlpsT4USB.cpp:75-117 | the slot loop leaves every slot decoded from the report and returns the number of valid contacts |
| AlpsT4.Driver.HandleInterruptReport | AlpsT4USB/AlpsT4USB.cpp:43-129 | a report the gate drops changes no slot and emits nothing; an admitted one decodes all five slots from the report's bytes and emits one event with the valid-contact count and the new slots |
| AlpsT4.Driver.SetPowerState | AlpsT4USB/AlpsT4USB.cpp:176-191 | another device gets `kIOReturnInvalid` and nothing changes; for this device the flags follow the power transition, the frame is re-sent exactly on waking from sleep, and the answer is `kIOPMAckImplied` |
| AlpsT4.Driver.Message | AlpsT4USB/AlpsT4USB.cpp:315-331 | `kKeyboardKeyPressTime` stores its argument as the key time (last write wins); every other message changes nothing; all return success |
| AlpsT4.TypingThenTouch | AlpsT4USB/AlpsT4USB.cpp:51-52 | after a keystroke at `k`, a report at `k + window - 1` is dropped and one at `k + window` is decoded, emitting exactly one event |

## Left out

- IOKit plumbing is not modelled: `start` (apart from the quiet-time setting), `handleStart`, `handleStop`, object allocation in `init`, `publishMultitouchInterface`, `getProductName`, power-management registration, the work loop and the command gate.
- The logical extents 5120 and 3072 that `handleStart` publishes are constants of the model (`LOGICAL_MAX_X`, `LOGICAL_MAX_Y`).
- The transport is not modelled. A `setReport` call is an entry appended to `sentReports`, and its result is ignored, as the C code ignores it. `readBytes` is the report given as a 51-byte sequence.
- A report shorter than 51 bytes that passes the gate is not modelled: the C code would leave the rest of the struct unset. `HandleInterruptReport` requires at least 51 bytes only of a report the gate admits, and reads the first 51 of a longer one.
- The clock (`clock_get_uptime`, `absolutetime_to_nanoseconds`) is not modelled: the time is the parameter `nowNs`.
- `IOSleep(10)` before the re-send on wake is not modelled: it has no effect on the state.
- The per-update timestamps passed to `update()` are not modelled.
- The multitouch consumer is not modelled: an event is recorded as the count plus a snapshot of the slots. In C the event shares the slot array with the driver, so any later change to the slots is visible through it. The model does not capture this aliasing.
- The transducer objects of the C code are modelled as values in an array slot of the driver. The C code's in-place field updates become updates of one record.
- The initial field values of a created transducer come from the multitouch library, which is not part of this model. `NewTransducer` uses zeros.
- The semantics of `update()` and `.last` come from MultitouchHelpers.hpp, which is not part of this model. The model assumes that `update(v)` shifts current into last.
  - Under that assumption, an invalid slot's `x.update(x.last.value)` swaps current and last (`HoldOverTwice`, `HoldOverAfterContact`).
  - So the coordinate shown for an invalid slot is the one from two reports back, not the one from the previous report.
  - The stored values are assumed to be `unsigned int`, the type of the driver's `x` and `y`; a wrapped y (raw y above 3315) is stored as the 32-bit value near 2^32 (`Series` holds `uint32`).
- The dead stores `x = y = z = 0` in the invalid branch are not modelled: they have no observable effect.
- The null check of a transducer comes after it has been dereferenced. The model leaves this check out: all five slots always exist, because `init` creates them (`Driver.Valid`).
- The `!transducers` test is always false in the model, for the same reason.
- `setPowerState` compares the device with `whatDevice != this`; the method takes an `object?` and compares it with `this`.
- T4Checksum.Checksum: buffer offsets are unbounded naturals. The C code's `offset + length` in `unsigned long` is not modelled: an overflowing sum of two huge values would wrap below 50.
- The `message` argument for `kKeyboardKeyPressTime` is a pointer to a `uint64_t` in C; the model takes the value it points to. Other message types never read the argument.
- `iokit_vendor_specific_msg` and the IOKit return codes come from IOKit headers, which are not part of this model.
  - The message codes are computed from the IOKit system and subsystem fields.
  - The return codes are the datatype `IOReturn`.
- `ready` becomes true after the send, whatever `setReport` returns (`EnterPrecisionTouchpadMode`).
- For an all-zero range `sum2` still grows by `sum1` (0xFF) on every byte; the checksum is 0xFFFF (`ChecksumOfZeros`).
- The register-read command, response validation, a thumb heuristic and a second device generation do not appear in these source files. They are not modelled.
