/** The event sequences the 3.7 inch SSD-style driver produces, as functions
    of their inputs and of the busy line, and what the panel controller
    latches from them. The driver methods in module Epd3in7Driver are proved
    to append exactly these sequences to the log. */
module Epd3in7Frames {
  import opened Hal
  import opened PanelBus
  import opened Epd3in7Luts
  import opened Epd3in7Gray

  /** The only exception the driver raises: an image index past its end. */
  datatype Epd3in7Error = IndexError

  /** send_command: DC low, CS low, the one command byte, CS high, 1 ms. */
  function Cmd(c: Byte): seq<Event>
  {
    [Set(DcPin, Low), Set(CsPin, Low), Write([c]), Set(CsPin, High), Delay(1)]
  }

  /** send_data: DC high, CS low, one write of all of p, CS high. An int
      argument is written as a one-byte list. */
  function Data(p: seq<Byte>): seq<Event>
  {
    [Set(DcPin, High), Set(CsPin, Low), Write(p), Set(CsPin, High)]
  }

  /** A command followed by one send_data call with payload p. */
  function CmdData(c: Byte, p: seq<Byte>): seq<Event>
  {
    Cmd(c) + Data(p)
  }

  /** One send_data call per byte of s, in order. */
  function ByteFrames(s: seq<Byte>): seq<Event>
  {
    if s == [] then [] else ByteFrames(s[..|s| - 1]) + Data([s[|s| - 1]])
  }

  /** reset: the reset line high, low and high again, 200 ms at each level. */
  const ResetEvents: seq<Event> :=
    [Set(ResetPin, High), Delay(200), Set(ResetPin, Low), Delay(200), Set(ResetPin, High), Delay(200)]

  /** The number of 10 ms sleeps ReadBusy makes when it first reads the busy
      line after history h with budget polls left: it stops at the first low
      reading, or after the sleep that brings its counter to zero. */
  function BusyPolls(busy: seq<Event> -> Level, h: seq<Event>, budget: int): nat
    decreases budget
  {
    if busy(h) == Low then 0
    else if budget <= 1 then 1
    else 1 + BusyPolls(busy, h + [Delay(10)], budget - 1)
  }

  /** ReadBusy after history h: its polling sleeps, then a 200 ms settle. */
  function BusyWaitEvents(busy: seq<Event> -> Level, h: seq<Event>): seq<Event>
  {
    Repeat(Delay(10), BusyPolls(busy, h, 5000)) + [Delay(200)]
  }

  /** The events of pre, followed by a ReadBusy that starts once pre is done
      (pre started after history h). */
  function WithBusyWait(pre: seq<Event>, busy: seq<Event> -> Level, h: seq<Event>): seq<Event>
  {
    pre + BusyWaitEvents(busy, h + pre)
  }

  /** Load_LUT(n): the 0x32 command, then the 105 bytes of table n one
      send_data call each, or no data at all for an unknown n. */
  function LutEvents(n: int): seq<Event>
  {
    Cmd(0x32) + match Lut(n) { case Some(t) => ByteFrames(t) case None => [] }
  }

  /** Data of the 0x37 display-option command in each init routine. */
  const Option1Gray: seq<Byte> := [0x00, 0xFF, 0xFF, 0xFF, 0xFF, 0x4F, 0xFF, 0xFF, 0xFF, 0xFF]
  const Option4Gray: seq<Byte> := [0x00, 0x00, 0x00, 0x00, 0x00, 0x00, 0x00, 0x00, 0x00, 0x00]

  /** The fixed RAM windows both init routines send to 0x44 and 0x45. */
  const InitWindowX: seq<Byte> := [0x00, 0x00, 0x17, 0x01]
  const InitWindowY: seq<Byte> := [0x00, 0x00, 0xDF, 0x01]

  /** EPD_3IN7_1Gray_init and EPD_3IN7_4Gray_init, which differ only in the
      data of the 0x37 command. */
  function InitEvents(option: seq<Byte>): seq<Event>
  {
    ResetEvents
    + Cmd(0x04) + [Delay(300)]
    + Cmd(0x12) + [Delay(300)]
    + CmdData(0x46, [0xF7]) + [Delay(1)]
    + CmdData(0x47, [0xF7]) + [Delay(1)]
    + CmdData(0x01, [0xDF, 0x01, 0x00])
    + CmdData(0x03, [0x00])
    + CmdData(0x04, [0x41, 0xA8, 0x32])
    + CmdData(0x11, [0x03])
    + CmdData(0x3C, [0x03])
    + CmdData(0x0C, [0xAE, 0xC7, 0xC3, 0xC0, 0xC0])
    + CmdData(0x18, [0x80])
    + CmdData(0x2C, [0x44])
    + CmdData(0x37, option)
    + CmdData(0x44, InitWindowX)
    + CmdData(0x45, InitWindowY)
    + CmdData(0x22, [0xCF])
  }

  /** wide: the bytes per row of a 1-bit frame, width / 8 rounded up. */
  function RowBytes(width: nat): nat
  {
    if width % 8 == 0 then width / 8 else width / 8 + 1
  }

  /** The RAM address origin: 0x4E [0, 0] and 0x4F [0, 0]. */
  const CursorOrigin: seq<Event> := CmdData(0x4E, [0x00, 0x00]) + CmdData(0x4F, [0x00, 0x00])

  /** The origin as EPD_3IN7_4Gray_Display sends it: every zero in its own
      send_data call. */
  const CursorOriginSplit: seq<Event> :=
    Cmd(0x4E) + Data([0x00]) + Data([0x00]) + Cmd(0x4F) + Data([0x00]) + Data([0x00])

  /** The refresh that ends every frame write: LUT lut, 0x22 [0xC7], 0x20. */
  function RefreshEvents(lut: int): seq<Event>
  {
    LutEvents(lut) + CmdData(0x22, [0xC7]) + Cmd(0x20)
  }

  /** EPD_3IN7_1Gray_Clear: plane 0x24 filled with black (0x00), refreshed with
      LUT 1. */
  function Clear1GrayEvents(wide: nat, high: nat, busy: seq<Event> -> Level, h: seq<Event>): seq<Event>
  {
    WithBusyWait(CursorOrigin + Cmd(0x24) + ByteFrames(Fill(0x00, wide * high)) + RefreshEvents(1), busy, h)
  }

  /** EPD_3IN7_4Gray_Clear: both planes filled with white (0xFF), refreshed
      with LUT 0. */
  function Clear4GrayEvents(wide: nat, high: nat, busy: seq<Event> -> Level, h: seq<Event>): seq<Event>
  {
    WithBusyWait(
      CmdData(0x49, [0x00]) + CursorOrigin + Cmd(0x24) + ByteFrames(Fill(0xFF, wide * high))
      + CursorOrigin + Cmd(0x26) + ByteFrames(Fill(0xFF, wide * high)) + RefreshEvents(0),
      busy, h)
  }

  /** The rows of a 1-bit image as EPD_3IN7_1Gray_Display and
      EPD_3IN7_1Gray_Display_Part send them after `pre`: Image[i + j*wide]
      for each row j and column i, which is Image[0 .. wide*high) in order; an
      image shorter than that raises IndexError after its last byte. */
  function RowsTrace(pre: seq<Event>, image: seq<Byte>, count: nat, lut: int, busy: seq<Event> -> Level, h: seq<Event>)
    : Trace<Epd3in7Error>
  {
    if |image| < count then Trace(pre + ByteFrames(image), Raised(IndexError))
    else Trace(WithBusyWait(pre + ByteFrames(image[..count]) + RefreshEvents(lut), busy, h), Done)
  }

  /** EPD_3IN7_1Gray_Display: the full frame through plane 0x24 with LUT 1. */
  function Display1GrayTrace(image: seq<Byte>, wide: nat, high: nat, busy: seq<Event> -> Level, h: seq<Event>)
    : Trace<Epd3in7Error>
  {
    RowsTrace(CmdData(0x49, [0x00]) + CursorOrigin + Cmd(0x24), image, wide * high, 1, busy, h)
  }

  /** The four bytes of a RAM window whose end address is v - 1: start 0,
      then the end's low byte and its two high bits. */
  function WindowBytes(v: int): seq<Byte>
  {
    [0x00, 0x00, (v - 1) % 256, (v - 1) / 256 % 4]
  }

  /** EPD_3IN7_1Gray_Display_Part: a window of the panel's own size, then the
      frame through plane 0x24 with LUT 2. */
  function DisplayPartTrace(image: seq<Byte>, width: nat, height: nat, busy: seq<Event> -> Level, h: seq<Event>)
    : Trace<Epd3in7Error>
  {
    var pre := CmdData(0x44, WindowBytes(width)) + CmdData(0x45, WindowBytes(height)) + CursorOrigin + Cmd(0x24);
    RowsTrace(pre, image, RowBytes(width) * height, 2, busy, h)
  }

  /** EPD_3IN7_4Gray_Display with count output bytes per plane: plane 0x24
      and then plane 0x26, each packed from image bytes 2i and 2i+1. An
      image shorter than 2 * count raises IndexError while plane 0x24 is
      being written, after the |image| / 2 bytes whose sources exist. */
  function Display4GrayTrace(image: seq<Byte>, count: nat, busy: seq<Event> -> Level, h: seq<Event>): Trace<Epd3in7Error>
  {
    var pre := CmdData(0x49, [0x00]) + CursorOriginSplit + Cmd(0x24);
    if |image| < 2 * count then
      Trace(pre + ByteFrames(PackPlane(PlaneA, image, |image| / 2)), Raised(IndexError))
    else
      Trace(WithBusyWait(
        pre + ByteFrames(PackPlane(PlaneA, image, count))
        + CursorOriginSplit + Cmd(0x26) + ByteFrames(PackPlane(PlaneB, image, count))
        + RefreshEvents(0), busy, h), Done)
  }

  /** Output bytes per plane in EPD_3IN7_4Gray_Display as written. */
  const Gray4Count: nat := 16800

  /** Sleep: deep sleep mode 0x03 through command 0x10. */
  const SleepEvents: seq<Event> := CmdData(0x10, [0x03])

  // ---------------------------------------------------------------------
  // Properties

  /** send_command latches exactly its command byte, whatever the lines were,
      and leaves DC low and CS high. */
  lemma CmdLatched(l: Lines, c: Byte)
    ensures Latched(l, Cmd(c)) == [CommandByte(c)]
    ensures Final(l, Cmd(c)) == Lines(Low, High)
  {
    var w := [Write([c]), Set(CsPin, High), Delay(1)];
    assert Cmd(c) == [Set(DcPin, Low)] + ([Set(CsPin, Low)] + w);
    LatchedCons(l, Set(DcPin, Low), [Set(CsPin, Low)] + w);
    LatchedCons(Lines(Low, l.cs), Set(CsPin, Low), w);
    LatchedCons(Lines(Low, Low), Write([c]), w[1..]);
    LatchedCons(Lines(Low, Low), Set(CsPin, High), w[2..]);
    LatchedCons(Lines(Low, High), Delay(1), []);
  }

  /** send_data latches exactly its payload as data, whatever the lines were,
      and leaves DC and CS high. */
  lemma DataLatched(l: Lines, p: seq<Byte>)
    ensures Latched(l, Data(p)) == DataTokens(p)
    ensures Final(l, Data(p)) == Lines(High, High)
  {
    var w := [Write(p), Set(CsPin, High)];
    assert Data(p) == [Set(DcPin, High)] + ([Set(CsPin, Low)] + w);
    LatchedCons(l, Set(DcPin, High), [Set(CsPin, Low)] + w);
    LatchedCons(Lines(High, l.cs), Set(CsPin, Low), w);
    LatchedCons(Lines(High, Low), Write(p), w[1..]);
    LatchedCons(Lines(High, Low), Set(CsPin, High), []);
  }

  lemma {:induction false} ByteFramesAppend(a: seq<Byte>, b: seq<Byte>)
    ensures ByteFrames(a + b) == ByteFrames(a) + ByteFrames(b)
    decreases |b|
  {
    if b == [] {
      assert a + b == a;
    } else {
      var b' := b[..|b| - 1];
      assert (a + b)[..|a + b| - 1] == a + b';
      ByteFramesAppend(a, b');
    }
  }

  lemma ByteFramesSnoc(s: seq<Byte>, b: Byte)
    ensures ByteFrames(s + [b]) == ByteFrames(s) + Data([b])
  {
    assert (s + [b])[..|s|] == s;
  }

  /** One send_data call per byte latches the bytes in order, as one data
      call would. */
  lemma {:induction false} ByteFramesLatched(l: Lines, s: seq<Byte>)
    ensures Latched(l, ByteFrames(s)) == DataTokens(s)
    ensures Final(l, ByteFrames(s)) == if s == [] then l else Lines(High, High)
    decreases |s|
  {
    if s != [] {
      var s' := s[..|s| - 1];
      ByteFramesLatched(l, s');
      LatchedAppend(l, ByteFrames(s'), Data([s[|s| - 1]]));
      DataLatched(Final(l, ByteFrames(s')), [s[|s| - 1]]);
      DataTokensAppend(s', [s[|s| - 1]]);
      assert s' + [s[|s| - 1]] == s;
    }
  }

  /** Load_LUT(n) latches the 0x32 command and then exactly the 105 bytes of
      table n, in order, for n in 0..3, and no data at all for any other n. */
  lemma LutLatched(l: Lines, n: int)
    ensures Latched(l, LutEvents(n)) == [CommandByte(0x32)] + if 0 <= n < 4 then DataTokens(Lut(n).value) else []
  {
    CmdLatched(l, 0x32);
    var rest := match Lut(n) { case Some(t) => ByteFrames(t) case None => [] };
    LatchedAppend(l, Cmd(0x32), rest);
    if 0 <= n < 4 {
      ByteFramesLatched(Final(l, Cmd(0x32)), Lut(n).value);
    }
  }

  /** ReadBusy makes at most as many sleeps as its budget: 5000 at most, so
      never more than 50 s of polling. */
  lemma {:induction false} BusyPollsBound(busy: seq<Event> -> Level, h: seq<Event>, budget: int)
    requires budget >= 1
    ensures BusyPolls(busy, h, budget) <= budget
    decreases budget
  {
    if busy(h) == High && budget > 1 {
      BusyPollsBound(busy, h + [Delay(10)], budget - 1);
    }
  }

  lemma RepeatStep(h: seq<Event>, e: Event, i: nat)
    ensures h + [e] + Repeat(e, i) == h + Repeat(e, i + 1)
  {
    assert [e] + Repeat(e, i) == Repeat(e, i + 1);
  }

  /** Every sleep follows a reading of busy high. */
  lemma {:induction false} BusyPollsBusy(busy: seq<Event> -> Level, h: seq<Event>, budget: int, i: nat)
    requires i < BusyPolls(busy, h, budget)
    ensures busy(h + Repeat(Delay(10), i)) == High
    decreases budget
  {
    if i == 0 {
      assert h + Repeat(Delay(10), 0) == h;
    } else {
      BusyPollsBusy(busy, h + [Delay(10)], budget - 1, i - 1);
      RepeatStep(h, Delay(10), i - 1);
    }
  }

  /** Stopping before the budget runs out means the last reading was idle
      (low); running it out is the timeout, which only ends the wait. */
  lemma {:induction false} BusyPollsIdle(busy: seq<Event> -> Level, h: seq<Event>, budget: int)
    requires BusyPolls(busy, h, budget) < budget
    ensures busy(h + Repeat(Delay(10), BusyPolls(busy, h, budget))) == Low
    decreases budget
  {
    if busy(h) == High {
      BusyPollsIdle(busy, h + [Delay(10)], budget - 1);
      RepeatStep(h, Delay(10), BusyPolls(busy, h, budget) - 1);
    } else {
      assert h + Repeat(Delay(10), 0) == h;
    }
  }

  /** ReadBusy never raises and always ends with the 200 ms settle; it takes
      10 ms per poll plus that settle. */
  lemma BusyWaitShape(busy: seq<Event> -> Level, h: seq<Event>)
    ensures BusyWaitEvents(busy, h)[|BusyWaitEvents(busy, h)| - 1] == Delay(200)
    ensures Elapsed(BusyWaitEvents(busy, h)) == 10 * BusyPolls(busy, h, 5000) + 200
  {
    var n := BusyPolls(busy, h, 5000);
    ElapsedRepeat(10, n);
    ElapsedAppend(Repeat(Delay(10), n), [Delay(200)]);
    assert [Delay(200)][..0] == [];
  }

  /** wide is width / 8 rounded up: the fewest bytes that hold a row. */
  lemma RowBytesCeil(width: nat)
    ensures 8 * RowBytes(width) >= width
    ensures RowBytes(width) > 0 ==> 8 * (RowBytes(width) - 1) < width
  {
  }

  /** The window bytes give back v - 1 through low + 256 * high up to ten
      bits: exactly v - 1 for 1 <= v <= 1024. */
  lemma WindowDecodes(v: int)
    ensures Word(WindowBytes(v)[2], WindowBytes(v)[3]) == (v - 1) % 1024
    ensures 1 <= v <= 1024 ==> Word(WindowBytes(v)[2], WindowBytes(v)[3]) == v - 1
  {
  }

  /** Both init routines send the window of a 280 x 480 panel whatever the
      driver's width and height, while Display_Part sends the window of the
      240 x 416 panel the driver is configured for. */
  lemma InitWindowIsFixed()
    ensures Word(InitWindowX[2], InitWindowX[3]) == 280 - 1
    ensures Word(InitWindowY[2], InitWindowY[3]) == 480 - 1
    ensures WindowBytes(240) == [0x00, 0x00, 0xEF, 0x00]
    ensures WindowBytes(416) == [0x00, 0x00, 0x9F, 0x01]
  {
  }

  /** EPD_3IN7_1Gray_Clear sends the 0x24 command and then wide*high black
      bytes, as data. */
  lemma Clear1GrayPlane(l: Lines, wide: nat, high: nat)
    ensures Latched(l, Cmd(0x24) + ByteFrames(Fill(0x00, wide * high)))
      == [CommandByte(0x24)] + DataTokens(Fill(0x00, wide * high))
  {
    CmdLatched(l, 0x24);
    LatchedAppend(l, Cmd(0x24), ByteFrames(Fill(0x00, wide * high)));
    ByteFramesLatched(Final(l, Cmd(0x24)), Fill(0x00, wide * high));
  }

  /** A 1-bit frame write that does not raise sends the 0x24 command and then
      exactly Image[0 .. wide*high), in order, as data; a short image raises. */
  lemma RowsLatched(l: Lines, image: seq<Byte>, count: nat)
    requires count <= |image|
    ensures Latched(l, Cmd(0x24) + ByteFrames(image[..count])) == [CommandByte(0x24)] + DataTokens(image[..count])
  {
    CmdLatched(l, 0x24);
    LatchedAppend(l, Cmd(0x24), ByteFrames(image[..count]));
    ByteFramesLatched(Final(l, Cmd(0x24)), image[..count]);
  }

  /** A frame write raises exactly when the image is shorter than the frame. */
  lemma RowsOutcome(pre: seq<Event>, image: seq<Byte>, count: nat, lut: int, busy: seq<Event> -> Level, h: seq<Event>)
    ensures RowsTrace(pre, image, count, lut, busy, h).outcome.Raised? <==> |image| < count
    ensures |pre| <= |RowsTrace(pre, image, count, lut, busy, h).events|
    ensures RowsTrace(pre, image, count, lut, busy, h).events[..|pre|] == pre
  {
  }

  /** An image shorter than two source bytes per output byte stops the
      4-gray write inside plane 0x24. */
  lemma Display4GrayShort(image: seq<Byte>, count: nat, busy: seq<Event> -> Level, h: seq<Event>)
    requires |image| < 2 * count
    ensures Display4GrayTrace(image, count, busy, h)
         == Trace(CmdData(0x49, [0x00]) + CursorOriginSplit + Cmd(0x24) + ByteFrames(PackPlane(PlaneA, image, |image| / 2)),
                  Raised(IndexError))
  {
  }

  /** EPD_3IN7_4Gray_Display as written, given an image the size of the
      driver's own 2-bit buffer (240 * 416 / 4 bytes): it raises IndexError
      after plane 0x24, so plane 0x26 and the refresh are never sent. */
  lemma Display4GrayOverruns(image: seq<Byte>, busy: seq<Event> -> Level, h: seq<Event>)
    requires |image| == 240 * 416 / 4
    ensures Display4GrayTrace(image, Gray4Count, busy, h).outcome == Raised(IndexError)
    ensures Display4GrayTrace(image, Gray4Count, busy, h).events
         == CmdData(0x49, [0x00]) + CursorOriginSplit + Cmd(0x24) + ByteFrames(PackPlane(PlaneA, image, 240 * 416 / 8))
  {
    assert |image| == 24960 && 24960 / 2 == 240 * 416 / 8;
    Display4GrayShort(image, Gray4Count, busy, h);
  }

  /** The count 16800 is the per-plane size of a 280 x 480 panel, the size
      the init windows describe, not of the 240 x 416 one the driver is
      configured for. */
  lemma Gray4CountIsFixedPanel()
    ensures Gray4Count == 280 * 480 / 8
    ensures 2 * Gray4Count > 240 * 416 / 4
  {
  }

  /** With the per-plane count taken from the configured size, a buffer of
      240 * 416 / 4 bytes is read exactly to its end, both planes are
      written, and the refresh and busy wait follow. */
  lemma Display4GrayCorrectedCompletes(image: seq<Byte>, busy: seq<Event> -> Level, h: seq<Event>)
    requires |image| == 240 * 416 / 4
    ensures 2 * (240 * 416 / 8) == |image|
    ensures Display4GrayTrace(image, 240 * 416 / 8, busy, h).outcome == Done
    ensures Display4GrayTrace(image, 240 * 416 / 8, busy, h).events[|Display4GrayTrace(image, 240 * 416 / 8, busy, h).events| - 1] == Delay(200)
  {
    var pre := CmdData(0x49, [0x00]) + CursorOriginSplit + Cmd(0x24) + ByteFrames(PackPlane(PlaneA, image, 12480))
      + CursorOriginSplit + Cmd(0x26) + ByteFrames(PackPlane(PlaneB, image, 12480)) + RefreshEvents(0);
    BusyWaitShape(busy, h + pre);
  }

  /** reset leaves the reset line high after holding it low for 200 ms, with
      200 ms high before and after. */
  lemma ResetPulse(start: Level)
    ensures LevelAfter(ResetPin, start, ResetEvents) == High
    ensures TimeAtLevel(ResetPin, Low, start, ResetEvents) == 200
    ensures TimeAtLevel(ResetPin, High, start, ResetEvents) == 400
  {
    var r := ResetEvents;
    forall m | 0 < m <= 6
      ensures r[..m][..m - 1] == r[..m - 1]
    {
    }
    assert LevelAfter(ResetPin, start, r[..1]) == High && TimeAtLevel(ResetPin, Low, start, r[..1]) == 0;
    assert TimeAtLevel(ResetPin, High, start, r[..1]) == 0;
    assert LevelAfter(ResetPin, start, r[..2]) == High && TimeAtLevel(ResetPin, High, start, r[..2]) == 200;
    assert LevelAfter(ResetPin, start, r[..3]) == Low && TimeAtLevel(ResetPin, Low, start, r[..3]) == 0;
    assert TimeAtLevel(ResetPin, High, start, r[..3]) == 200;
    assert TimeAtLevel(ResetPin, Low, start, r[..4]) == 200 && TimeAtLevel(ResetPin, High, start, r[..4]) == 200;
    assert LevelAfter(ResetPin, start, r[..5]) == High;
    assert TimeAtLevel(ResetPin, Low, start, r[..5]) == 200 && TimeAtLevel(ResetPin, High, start, r[..5]) == 200;
    assert r[..6] == r;
  }
}
