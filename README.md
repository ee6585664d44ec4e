# Two SPI e-paper drivers, modelled in Dafny

The repository (a MicroPython keyboard project) carries two hand-written
e-paper drivers:

- `EPD_3in7` (`lib/epd3in7.py`) drives a 3.7 inch SSD-style controller. It has:
  - command and data bus primitives;
  - a busy poll that never raises;
  - four 105-byte waveform tables (LUTs);
  - fixed 1-bit and 4-gray init sequences;
  - clears, full and partial 1-bit frame writes;
  - a 2-bit to 1-bit dual-plane packer for 4-gray frames.
- `UC8253` (`lib/uc8235.py`) drives a UC8253 controller. It has:
  - the same primitives;
  - a command writer that sends sequence data in 512-byte chunks;
  - little-endian window and cursor encoders;
  - a length-checked `display_frame`;
  - an active-low busy wait that raises on timeout;
  - a stripe test pattern;
  - fixed init, reset and sleep sequences.

The model describes everything the drivers do to the hardware as events appended to a log, held by the class `Hal.Hal`. There are three kinds of event:

- a pin set;
- one SPI write;
- one sleep.

Reading the busy line gives a fixed function of the log so far (`busyLevel`), so the panel's answer may depend on everything sent and on how long the driver has slept. The clock `ticks_ms` is the sum of the sleeps in the log.

Each driver is a class whose methods append exactly the events of a pure specification function. For example, `Epd3in7Frames.InitEvents` is the specification of the init methods, and `Uc8253Frames.DisplayFrameTrace` is the specification of `DisplayFrame`. Each driver method also returns or raises exactly as that function says.

What the panel controller receives is a separate question, which module `PanelBus` answers. It decodes a log into the command and data bytes the controller latches, by following the DC and CS lines: a byte is a command when DC is low and is latched only while CS is low. The lemmas about the specification functions are stated through this decoding. They cover:

- the exact command/data byte streams;
- the chunking;
- the encoders;
- the packer's bit layout;
- the busy waits;
- the error cases.

Files:

| file | contents |
|---|---|
| `hal.dfy` | events, log, clock, busy line, `Outcome`/`Trace` |
| `panel_bus.dfy` | the controller's view of a log |
| `epd3in7_luts.dfy` | the four LUT tables |
| `epd3in7_gray.dfy` | the 4-gray packer |
| `epd3in7_frames.dfy` | specifications and properties of `EPD_3in7` |
| `epd3in7.dfy` | the `EPD_3in7` driver class |
| `uc8253_frames.dfy` | specifications and properties of `UC8253` |
| `uc8253.dfy` | the `UC8253` driver class |

Python exceptions become the `Raised` outcome of a `Trace`:

- `IndexError` for an image shorter than a frame write reads;
- `ValueError` for a wrong-length `display_frame` buffer, as `InvalidBufferLength`;
- `ValueError` for `bytearray([v])` with v outside 0..255, as `ByteOutOfRange`;
- `RuntimeError` for the busy timeout, as `BusyTimeout`.

Integers are unbounded, as in Python. Dafny's `/` and `%` agree with Python's `//` and `& 0xFF` for the positive divisors used here, and for negative dividends too.

## Model

| member | source | states |
|---|---|---|
| Epd3in7Luts.Lut | lib/epd3in7.py:46-100 | table n exists exactly for n in 0..3, and each table has 105 entries |
| Epd3in7Luts.LutTail | lib/epd3in7.py:46-100 | the last five entries of each table are 0x22 |
| Epd3in7Driver.Epd3in7.SendCommand | lib/epd3in7.py:167-172 | appends DC low, CS low, one write of the single command byte, CS high, then a 1 ms sleep |
| Epd3in7Frames.CmdLatched | lib/epd3in7.py:167-172 | whatever the line state before, the controller latches exactly one command byte from send_command and is left with DC low and CS high |
| Epd3in7Driver.Epd3in7.SendData | lib/epd3in7.py:174-181 | appends DC high, CS low, one write of all of the list (an int as a one-byte list), CS high |
| Epd3in7Frames.DataLatched | lib/epd3in7.py:174-181 | the controller latches every byte of the list, in order, as data, and is left with DC and CS high |
| Epd3in7Driver.Epd3in7.Reset | lib/epd3in7.py:153-165 | appends reset high, 200 ms, reset low, 200 ms, reset high, 200 ms |
| Epd3in7Frames.ResetPulse | lib/epd3in7.py:153-165 | reset ends with the line high, after 200 ms slept low and 400 ms slept high, whatever its level before |
| Epd3in7Driver.Epd3in7.ModuleExit | lib/epd3in7.py:149-150 | appends reset low and nothing else |
| Epd3in7Driver.Epd3in7.ReadBusy | lib/epd3in7.py:183-200 | appends the polling sleeps that BusyPolls counts against the busy line, then 200 ms; it never raises |
| Epd3in7Frames.BusyPollsBound | lib/epd3in7.py:185-198 | the poll loop sleeps at most as often as its counter starts at, that is at most 5000 times |
| Epd3in7Frames.BusyPollsBusy | lib/epd3in7.py:190-192 | every reading the loop slept after was high (busy is active high) |
| Epd3in7Frames.BusyPollsIdle | lib/epd3in7.py:190-198 | when the loop stopped before its counter ran out, its last reading was low |
| Epd3in7Frames.BusyWaitShape | lib/epd3in7.py:183-200 | ReadBusy always ends with the 200 ms sleep, and sleeps 10 ms per poll plus 200 ms |
| Epd3in7Driver.Epd3in7.LoadLut | lib/epd3in7.py:202-214 | appends command 0x32, then one send_data per entry of table n, or no data for an unknown n |
| Epd3in7Frames.LutLatched | lib/epd3in7.py:202-214 | Load_LUT(n) delivers command 0x32 followed by the 105 bytes of table n in order, and only 0x32 when n is not 0..3 |
| Epd3in7Driver.Epd3in7.SendBytes | lib/epd3in7.py:338-340 | one send_data call per byte, in order |
| Epd3in7Frames.ByteFramesAppend | lib/epd3in7.py:338-340 | sending bytes one call each splits at any point into the two parts |
| Epd3in7Frames.ByteFramesLatched | lib/epd3in7.py:338-340 | one-byte send_data calls deliver exactly those bytes as data, in order |
| Epd3in7Driver.Epd3in7.InitWith | lib/epd3in7.py:216-321 | appends the whole init sequence with the given 0x37 display options |
| Epd3in7Driver.Epd3in7.Init4Gray | lib/epd3in7.py:216-267 | appends the init sequence with the all-zero 0x37 options |
| Epd3in7Driver.Epd3in7.Init1Gray | lib/epd3in7.py:269-321 | appends the init sequence with the 1-bit 0x37 options |
| Epd3in7Frames.InitWindowIsFixed | lib/epd3in7.py:260-264 | the init windows decode to end addresses 279 and 479, which belong to a 280x480 panel, and differ from the windows for this panel's 240 and 416 |
| Epd3in7Frames.RowBytesCeil | lib/epd3in7.py:325-328 | wide is width / 8 rounded up: the smallest byte count that covers width pixels |
| Epd3in7Driver.Epd3in7.FillRows | lib/epd3in7.py:338-340 | high rows of wide send_data calls of v, that is wide * high bytes of v in order |
| Epd3in7Driver.Epd3in7.SetCursorOrigin | lib/epd3in7.py:369-372 | appends 0x4E [0, 0] and 0x4F [0, 0] |
| Epd3in7Driver.Epd3in7.SetCursorOriginSplit | lib/epd3in7.py:396-403 | appends 0x4E, 0x00, 0x00 and 0x4F, 0x00, 0x00 with every zero in its own send_data |
| Epd3in7Driver.Epd3in7.Refresh | lib/epd3in7.py:382-386 | appends Load_LUT(lut), 0x22 [0xC7] and 0x20 |
| Epd3in7Driver.Epd3in7.Clear1Gray | lib/epd3in7.py:360-388 | appends cursor origin, 0x24, wide * high bytes of 0x00, LUT 1, 0x22 0xC7, 0x20 and ReadBusy, nothing else |
| Epd3in7Frames.Clear1GrayPlane | lib/epd3in7.py:375-379 | the plane the clear writes reaches the controller as 0x24 then wide * high data bytes 0x00 |
| Epd3in7Driver.Epd3in7.Clear4Gray | lib/epd3in7.py:323-358 | appends 0x49 [0], cursor origin, 0x24 and wide * high bytes 0xFF, cursor origin, 0x26 and as many 0xFF, LUT 0, 0x22 0xC7, 0x20 and ReadBusy |
| Epd3in7Driver.Epd3in7.SendRow | lib/epd3in7.py:511-512 | sends image bytes row .. row + wide one per call, or the rest of the image and IndexError when it runs out |
| Epd3in7Driver.Epd3in7.SendRows | lib/epd3in7.py:510-512 | Image[i + j * wide] over rows j and columns i is Image[0 .. wide * high) in order; a short image is sent to its end, then raises IndexError |
| Epd3in7Frames.RowsLatched | lib/epd3in7.py:509-512 | the frame reaches the controller as 0x24 then exactly Image[0 .. wide * high) |
| Epd3in7Frames.RowsOutcome | lib/epd3in7.py:509-520 | a frame write raises exactly when the image is shorter than wide * high, and always begins with its fixed prefix |
| Epd3in7Driver.Epd3in7.RowsAndRefresh | lib/epd3in7.py:509-520 | after its prefix, the rows, then on success the refresh with the given LUT and ReadBusy |
| Epd3in7Driver.Epd3in7.Display1Gray | lib/epd3in7.py:493-520 | 0x49 [0], cursor origin, 0x24, Image[0 .. wide * high), LUT 1, 0x22 0xC7, 0x20, ReadBusy; IndexError on a short image |
| Epd3in7Driver.Epd3in7.Display1GrayPart | lib/epd3in7.py:522-550 | the panel-sized windows to 0x44 and 0x45, cursor origin, 0x24, Image[0 .. wide * high), LUT 2, 0x22 0xC7, 0x20, ReadBusy |
| Epd3in7Frames.WindowDecodes | lib/epd3in7.py:530-533 | low + 256 * high of the partial window gives back v - 1 (mod 1024), exactly v - 1 when 1 <= v <= 1024 |
| Epd3in7Gray.PlaneBit | lib/epd3in7.py:411-419 | a pixel contributes one bit, 0 or 1, to each plane |
| Epd3in7Gray.PlaneBitSelects | lib/epd3in7.py:411-431 | plane 0x24 takes the high bit of a 2-bit pixel and plane 0x26 the low bit (3 to 1/1, 0 to 0/0, 2 to 1/0, 1 to 0/1) |
| Epd3in7Gray.PlaneBits | lib/epd3in7.py:405-438 | one bit of 0 or 1 per pixel |
| Epd3in7Gray.Packed | lib/epd3in7.py:405-438 | the packed byte of a source pair fits in a byte: seven shifts of eight bits |
| Epd3in7Gray.PackByte | lib/epd3in7.py:407-436 | the in-loop or-assignments and shifts of temp3 and temp1 compute exactly the packed byte of the source pair |
| Epd3in7Gray.PackedBits | lib/epd3in7.py:405-438 | bit 7 - n of the packed byte is the plane bit of pixel n, pixels taken from the least significant bit pair of byte 2i up, then byte 2i + 1 |
| Epd3in7Gray.ShiftedLowBits | lib/epd3in7.py:420-434 | shifting bits in one by one, the first ends most significant |
| Epd3in7Gray.PackPlane | lib/epd3in7.py:406-438 | count output bytes per plane |
| Epd3in7Gray.PackPlaneAt | lib/epd3in7.py:406-409 | output byte i is packed from source bytes 2i and 2i + 1 |
| Epd3in7Gray.FixedVector | lib/epd3in7.py:405-482 | pixels 3, 0, 2, 1 give plane 0x24 bits 1, 0, 1, 0 and plane 0x26 bits 1, 0, 0, 1 |
| Epd3in7Driver.Epd3in7.SendPacked | lib/epd3in7.py:438 | one send_data of the packed byte |
| Epd3in7Driver.Epd3in7.WritePlane | lib/epd3in7.py:405-438 | the packed bytes of a plane, one per call; on a short image the |image| / 2 bytes whose sources exist, then IndexError |
| Epd3in7Driver.Epd3in7.Display4GrayWith | lib/epd3in7.py:390-491 | 0x49 [0], split cursor, 0x24 and plane A, split cursor, 0x26 and plane B, LUT 0, 0x22 0xC7, 0x20, ReadBusy; IndexError while writing plane A on a short image |
| Epd3in7Driver.Epd3in7.Display4Gray | lib/epd3in7.py:390-491 | the 4-gray write with 16800 bytes per plane, as written |
| Epd3in7Frames.Gray4CountIsFixedPanel | lib/epd3in7.py:406 | 16800 is the plane size of a 280x480 panel and needs more source bytes than buffer_4Gray holds |
| Epd3in7Frames.Display4GrayOverruns | lib/epd3in7.py:129 | on a buffer_4Gray-sized image (24960 bytes) the as-written write raises IndexError after 12480 bytes of plane 0x24 |
| Epd3in7Driver.Epd3in7.Display4GrayCorrected | lib/epd3in7.py:390-491 | the 4-gray write with width * height / 8 bytes per plane |
| Epd3in7Frames.Display4GrayCorrectedCompletes | lib/epd3in7.py:129 | with width * height / 8 bytes per plane, a buffer_4Gray-sized image is read exactly to its end and the write completes with ReadBusy |
| Epd3in7Driver.Epd3in7.Sleep | lib/epd3in7.py:552-554 | appends 0x10 [0x03] |
| Epd3in7Driver.Epd3in7.Start | lib/epd3in7.py:133-135 | 1-bit init, 1-bit clear, 500 ms |
| Epd3in7Driver.Epd3in7.constructor | lib/epd3in7.py:103-135 | 240x416, zeroed 1-bit and 2-bit buffers of height * width / 8 and / 4 bytes, then 1-bit init, 1-bit clear and 500 ms |
| Uc8253Frames.FramesAccepted | lib/uc8235.py:53-54 | FULL_WHITE and FULL_BLACK are 52 * 240 = 12480 bytes of 0xFF and 0x00, and display_frame accepts them and the test pattern |
| Uc8253Driver.Uc8253.Reset | lib/uc8235.py:80-86 | appends reset high, 10 ms, low, 200 ms, high, 10 ms |
| Uc8253Frames.ResetPulse | lib/uc8235.py:80-86 | reset ends with the line high after 200 ms slept low and 20 ms high |
| Uc8253Driver.Uc8253.SendCommand | lib/uc8235.py:88-92 | appends CS low, DC low, one write of the command byte, CS high |
| Uc8253Frames.CommandLatched | lib/uc8235.py:88-92 | the controller latches exactly the one command byte and is left with DC low and CS high |
| Uc8253Driver.Uc8253.SendData | lib/uc8235.py:94-100 | appends CS low, DC high, a one-byte write and a 1 ms sleep per element, CS high |
| Uc8253Frames.DataWritesShape | lib/uc8235.py:97-99 | event 2k is the write of element k and event 2k + 1 a 1 ms sleep |
| Uc8253Frames.DataLatched | lib/uc8235.py:94-100 | the elements reach the controller as data bytes in order, the lines end high, and the call sleeps one ms per element |
| Uc8253Driver.Uc8253.SendCommandWithData | lib/uc8235.py:144-160 | appends exactly the events of CommandWithData and ends as it says |
| Uc8253Frames.ChunksSpec | lib/uc8235.py:155-159 | the chunks concatenate to the data; there are ceil(len / 512) of them, each of 1 to 512 bytes and all but the last 512 |
| Uc8253Frames.CommandWithDataLatched | lib/uc8235.py:144-160 | no data: only the command; int data: the command and that byte, or ValueError with DC high and CS left low when it is not a byte; sequence data: the command then all its bytes; CS high at the end of every call that returns |
| Uc8253Driver.Uc8253.WaitUntilIdle | lib/uc8235.py:163-168 | appends exactly the sleeps of Wait and returns or raises as it says |
| Uc8253Frames.WaitSpec | lib/uc8235.py:163-168 | returns exactly when the last reading was high; sleeps 10 ms only after low readings taken within the timeout; raises RuntimeError only once more than timeout ms have passed; at most timeout / 10 + 1 sleeps |
| Uc8253Frames.WaitLatched | lib/uc8235.py:163-168 | the busy wait sends nothing to the controller |
| Uc8253Driver.Uc8253.Init | lib/uc8235.py:102-118 | appends exactly the init trace, stopping at a wait that raises |
| Uc8253Frames.InitOutcome | lib/uc8235.py:102-118 | init can only raise the busy timeout |
| Uc8253Frames.InitLatched | lib/uc8235.py:102-124 | a completed init delivers 0x01 [03 10 3F 3F 0D], 0x04, 0x12, 0x10 with 12480 bytes 0xFF, 0x12, in that order |
| Uc8253Driver.Uc8253.WriteToBuffer | lib/uc8235.py:121-125 | appends command 0x10 and the buffer through send_data |
| Uc8253Driver.Uc8253.Open | lib/uc8235.py:58-77 | the pins start CS high, DC low, reset high; then reset and init, whose exception escapes construction |
| Uc8253Driver.Uc8253.constructor | lib/uc8235.py:71-76 | appends the three initial pin levels and reset |
| Uc8253Frames.Le16Decodes | lib/uc8235.py:213-221 | low + 256 * high of [y & 0xFF, (y >> 8) & 0xFF] is y mod 65536, exactly y for 0 <= y < 65536 |
| Uc8253Driver.Uc8253.SetWindow | lib/uc8235.py:211-216 | appends the set_window trace |
| Uc8253Frames.SetWindowSpec | lib/uc8235.py:211-216 | raises (before any event) exactly unless both x // 8 are bytes; else delivers 0x44 [xs // 8, xe // 8], 0x45 and the two little-endian y's |
| Uc8253Driver.Uc8253.SetCursor | lib/uc8235.py:219-221 | appends the set_cursor trace |
| Uc8253Frames.SetCursorSpec | lib/uc8235.py:219-221 | raises exactly when x // 8 is not a byte, after 0x4E with CS left low; else delivers 0x4E [x // 8], 0x4F and little-endian y |
| Uc8253Driver.Uc8253.Refresh | lib/uc8235.py:236-238 | appends 0x12 without data and a wait |
| Uc8253Frames.RefreshSpec | lib/uc8235.py:236-238 | delivers only command 0x12 and ends as the wait after it |
| Uc8253Driver.Uc8253.DisplayFrame | lib/uc8235.py:224-231 | appends exactly the display_frame trace and ends as it says |
| Uc8253Frames.DisplayFrameRejects | lib/uc8235.py:224-226 | raises ValueError exactly when the length is not 12480, and then sends nothing; otherwise it can only raise the busy timeout |
| Uc8253Frames.FrameWindowBytes | lib/uc8235.py:228 | the full-panel window sends 0x44 [0, 51] and 0x45 [0, 0, 239, 0] and does not raise |
| Uc8253Frames.FrameCursorBytes | lib/uc8235.py:229 | the origin cursor sends 0x4E 0 and 0x4F [0, 0] and does not raise |
| Uc8253Frames.DisplayFrameSends | lib/uc8235.py:224-238 | on a right-length buffer: the window, cursor, 0x24 and buffer, 0x12, then a wait whose outcome is the result |
| Uc8253Frames.DisplayFrameLatched | lib/uc8235.py:211-238 | on a right-length buffer the controller receives 0x44 [0, 51], 0x45 [0, 0, 239, 0], 0x4E 0, 0x4F [0, 0], 0x24 and the buffer, and 0x12, in that order |
| Uc8253Driver.Uc8253.Sleep | lib/uc8235.py:241-244 | appends the sleep trace |
| Uc8253Frames.SleepSpec | lib/uc8235.py:241-244 | delivers 0x02, then after the wait 0x07 [0xA5]; can only raise the busy timeout |
| Uc8253Frames.Stripes | lib/uc8235.py:248-250 | the pattern has length n |
| Uc8253Frames.StripesBlocks | lib/uc8235.py:248-250 | the pattern alternates 8 bytes of 0x00 and 8 of 0xFF from every multiple of 16 |
| Uc8253Driver.Uc8253.TestPattern | lib/uc8235.py:247-251 | fills a 12480-byte array in place with 0xFF exactly where i // 8 is odd, then displays it |

## Left out

- The HAL itself: `machine.Pin`, `machine.SPI`, `time`/`utime`, the SPI baud rate, the polarity and the pin numbers. Pins, SPI writes and sleeps are log events. The busy line is a function of the history (`busyLevel`), and `ticks_ms` is the sum of the sleeps.
- Time outside sleeps: SPI writes and pin changes take no time. So a `wait_until_idle` that exceeds its timeout after n sleeps has slept exactly 10 * n ms.
- `time.ticks_diff` wrap-around: the clock is an unbounded integer. The difference is exact for the short intervals measured.
- `delay_ms` divides by 1000.0 and calls `utime.sleep` with a float. It is modelled as an integer sleep of the same milliseconds.
- The status `print` calls in `ReadBusy`, `reset`, the clears and `write_to_buffer`.
  - The pin readings `ReadBusy` makes only to print them are left out with them.
  - Such a reading happens at the same instant as the loop's own reading, so it cannot change the loop.
- `framebuf.FrameBuffer` and its drawing. The constructor allocates the buffers but does not create the framebuffers.
- The `__main__` demo blocks, `code.py`, `main.py` and `test/lib/blink.py`.
- The commented-out alternative UC8253 init.
- SPI failures: `spi.write` is assumed to succeed.
- Arguments of the wrong Python type. Command arguments and the elements of data lists are modelled as bytes (0..255). So the `ValueError` that `bytes([x])` raises for another value is not modelled, except for `bytearray([x // 8])` in `set_window`/`set_cursor`, which is modelled.
- `display_frame` buffers are sequences of bytes. A list holding non-bytes would raise inside `spi.write`, which is not modelled.
- LoadLut: the source tests `lut` inside its 105-iteration loop. An unknown `lut` therefore only prints 105 times, and the model selects the table once. The events are the same.
- Display1Gray, Display1GrayPart: the source computes `i + j * wide` per byte, while the model sends row j as consecutive bytes from `j * wide`. The bytes are the same, and `RowIndexInside` bounds the index.
- Uc8253Driver.Uc8253.Open: a Python constructor whose `init` raises leaves no object behind. `Open` returns the object together with the outcome, and callers must not use an object whose outcome is `Raised`.
- CS stays low after `send_command_with_data` raises on a non-byte int, as in the source. The model records this level; it does not model what the controller does next.
- The Hal class methods (`SetPin`, `SpiWrite`, `SleepMs`, `Now`, `Busy`) are the platform, not source code, and have no row.

## Findings

| source | as written | input that shows it | evidently intended | confidence | as-written member | corrected member |
|---|---|---|---|---|---|---|
| lib/epd3in7.py:406 | `EPD_3IN7_4Gray_Display` packs 16800 bytes per plane, the plane size of a 280x480 panel, and so reads `Image[0 .. 33600)`. | `buffer_4Gray`, which has 240 * 416 // 4 = 24960 bytes (lib/epd3in7.py:129). After 12480 bytes of plane 0x24, `Image[24960]` raises IndexError; plane 0x26 and the refresh are never sent. | `self.width * self.height // 8` = 12480 bytes per plane, which reads the buffer exactly to its end. | not executed | Epd3in7Frames.Display4GrayOverruns | Epd3in7Frames.Display4GrayCorrectedCompletes |
