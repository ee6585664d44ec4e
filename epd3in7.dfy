/** The EPD_3in7 driver: every method appends to the HAL log exactly the
    events the matching function of Epd3in7Frames describes. */
module Epd3in7Driver {
  import opened Hal
  import opened Epd3in7Luts
  import opened Epd3in7Gray
  import opened Epd3in7Frames

  /** Display resolution the driver is configured with. */
  const EpdWidth: nat := 240
  const EpdHeight: nat := 416

  /** Row j of a frame of wide * high bytes ends inside it. */
  lemma RowIndexInside(i: nat, j: nat, wide: nat, high: nat)
    requires i <= wide && j < high
    ensures i + j * wide <= wide * high
  {
    assert (j + 1) * wide <= high * wide by {
      assert j + 1 <= high;
    }
  }

  /** The rows sent so far and a row that ran off the end of the image
      together sent the whole image. */
  lemma RowsRaised(log: seq<Event>, log0: seq<Event>, image: seq<Byte>, row: nat)
    requires row <= |image|
    requires log == log0 + ByteFrames(image[..row]) + ByteFrames(image[row..])
    ensures log == log0 + ByteFrames(image)
  {
    var done, rest := image[..row], image[row..];
    assert done + rest == image;
    ByteFramesAppend(done, rest);
    Extend(log, log0, ByteFrames(done), ByteFrames(rest));
  }

  /** The rows sent so far and one complete row more. */
  lemma RowsNext(log: seq<Event>, log0: seq<Event>, image: seq<Byte>, row: nat, wide: nat)
    requires row + wide <= |image|
    requires log == log0 + ByteFrames(image[..row]) + ByteFrames(image[row..row + wide])
    ensures log == log0 + ByteFrames(image[..row + wide])
  {
    var done, next := image[..row], image[row..row + wide];
    assert done + next == image[..row + wide];
    ByteFramesAppend(done, next);
    Extend(log, log0, ByteFrames(done), ByteFrames(next));
  }

  /** The plane bytes sent so far and the next one packed. */
  lemma PlaneNext(log: seq<Event>, log0: seq<Event>, plane: Plane, image: seq<Byte>, i: nat)
    requires 2 * i + 2 <= |image|
    requires log == log0 + ByteFrames(PackPlane(plane, image, i)) + Data([Packed(plane, image[2 * i], image[2 * i + 1])])
    ensures log == log0 + ByteFrames(PackPlane(plane, image, i + 1))
  {
    var out, b := PackPlane(plane, image, i), Packed(plane, image[2 * i], image[2 * i + 1]);
    assert PackPlane(plane, image, i + 1) == out + [b];
    ByteFramesSnoc(out, b);
    Extend(log, log0, ByteFrames(out), Data([b]));
  }

  lemma NextRow(j: nat, wide: nat)
    ensures (j + 1) * wide == j * wide + wide
  {
  }

  class Epd3in7 {
    const hal: Hal
    const width: nat
    const height: nat
    /** The 1-bit and 2-bit frame buffers the drawing library fills. */
    var buffer1Gray: seq<Byte>
    var buffer4Gray: seq<Byte>

    /** __init__: the buffers are allocated zeroed, then the panel is
        initialised for 1-bit mode, cleared, and given 500 ms. */
    constructor (hal: Hal)
      modifies hal
      ensures this.hal == hal && width == EpdWidth && height == EpdHeight
      ensures buffer1Gray == Fill(0x00, EpdHeight * EpdWidth / 8)
      ensures buffer4Gray == Fill(0x00, EpdHeight * EpdWidth / 4)
      ensures hal.log == old(hal.log) + InitEvents(Option1Gray)
        + Clear1GrayEvents(RowBytes(EpdWidth), EpdHeight, hal.busyLevel, old(hal.log) + InitEvents(Option1Gray))
        + [Delay(500)]
    {
      this.hal := hal;
      width := EpdWidth;
      height := EpdHeight;
      buffer1Gray := Fill(0x00, EpdHeight * EpdWidth / 8);
      buffer4Gray := Fill(0x00, EpdHeight * EpdWidth / 4);
      new;
      Start();
    }

    /** What __init__ does once the fields are set: 1-gray init, a clear to
        white and a 500 ms pause. */
    method Start()
      requires width == EpdWidth && height == EpdHeight
      modifies hal
      ensures hal.log == old(hal.log) + InitEvents(Option1Gray)
        + Clear1GrayEvents(RowBytes(EpdWidth), EpdHeight, hal.busyLevel, old(hal.log) + InitEvents(Option1Gray))
        + [Delay(500)]
    {
      ghost var log0 := hal.log;
      Init1Gray();
      ghost var acc := InitEvents(Option1Gray);
      Clear1Gray();
      Extend(hal.log, log0, acc, Clear1GrayEvents(RowBytes(EpdWidth), EpdHeight, hal.busyLevel, log0 + acc));
      acc := acc + Clear1GrayEvents(RowBytes(EpdWidth), EpdHeight, hal.busyLevel, log0 + acc);
      hal.SleepMs(500);
      Extend(hal.log, log0, acc, [Delay(500)]);
    }

    method ModuleExit()
      modifies hal
      ensures hal.log == old(hal.log) + [Set(ResetPin, Low)]
    {
      hal.SetPin(ResetPin, Low);
    }

    method Reset()
      modifies hal
      ensures hal.log == old(hal.log) + ResetEvents
    {
      hal.SetPin(ResetPin, High);
      hal.SleepMs(200);
      hal.SetPin(ResetPin, Low);
      hal.SleepMs(200);
      hal.SetPin(ResetPin, High);
      hal.SleepMs(200);
    }

    method SendCommand(command: Byte)
      modifies hal
      ensures hal.log == old(hal.log) + Cmd(command)
    {
      hal.SetPin(DcPin, Low);
      hal.SetPin(CsPin, Low);
      hal.SpiWrite([command]);
      hal.SetPin(CsPin, High);
      hal.SleepMs(1);
    }

    method SendData(data: seq<Byte>)
      modifies hal
      ensures hal.log == old(hal.log) + Data(data)
    {
      hal.SetPin(DcPin, High);
      hal.SetPin(CsPin, Low);
      hal.SpiWrite(data);
      hal.SetPin(CsPin, High);
    }

    /** Polls the busy line every 10 ms while it reads high, for at most 5000
        polls, then waits 200 ms; a timeout only ends the polling. */
    method ReadBusy()
      modifies hal
      ensures hal.log == old(hal.log) + BusyWaitEvents(hal.busyLevel, old(hal.log))
    {
      ghost var busy := hal.busyLevel;
      var timeout := 5000;
      while hal.Busy() == High
        invariant 0 < timeout <= 5000
        invariant hal.log == old(hal.log) + Repeat(Delay(10), 5000 - timeout)
        invariant BusyPolls(busy, old(hal.log), 5000) == (5000 - timeout) + BusyPolls(busy, hal.log, timeout)
        decreases timeout
      {
        hal.SleepMs(10);
        timeout := timeout - 1;
        Extend(hal.log, old(hal.log), Repeat(Delay(10), 4999 - timeout), [Delay(10)]);
        assert Repeat(Delay(10), 4999 - timeout) + [Delay(10)] == Repeat(Delay(10), 5000 - timeout);
        if timeout <= 0 {
          break;
        }
      }
      hal.SleepMs(200);
    }

    /** Load_LUT: the 0x32 command, then one of the four tables byte by byte. */
    method LoadLut(lut: int)
      modifies hal
      ensures hal.log == old(hal.log) + LutEvents(lut)
    {
      SendCommand(0x32);
      if lut == 0 {
        SendBytes(Lut4GrayGc);
      } else if lut == 1 {
        SendBytes(Lut1GrayGc);
      } else if lut == 2 {
        SendBytes(Lut1GrayDu);
      } else if lut == 3 {
        SendBytes(Lut1GrayA2);
      }
    }

    /** One send_data call per byte of s, in order. */
    method SendBytes(s: seq<Byte>)
      modifies hal
      ensures hal.log == old(hal.log) + ByteFrames(s)
    {
      for i := 0 to |s|
        invariant hal.log == old(hal.log) + ByteFrames(s[..i])
      {
        SendData([s[i]]);
        assert s[..i + 1] == s[..i] + [s[i]];
      }
      assert s[..|s|] == s;
    }

    /** The init sequence shared by both init routines. */
    method InitWith(option: seq<Byte>)
      modifies hal
      ensures hal.log == old(hal.log) + InitEvents(option)
    {
      ghost var log0 := hal.log;
      Reset();
      ghost var acc := ResetEvents;
      SendCommand(0x04);
      Extend(hal.log, log0, acc, Cmd(0x04));
      acc := acc + Cmd(0x04);
      hal.SleepMs(300);
      Extend(hal.log, log0, acc, [Delay(300)]);
      acc := acc + [Delay(300)];
      SendCommand(0x12);
      Extend(hal.log, log0, acc, Cmd(0x12));
      acc := acc + Cmd(0x12);
      hal.SleepMs(300);
      Extend(hal.log, log0, acc, [Delay(300)]);
      acc := acc + [Delay(300)];
      SendCommand(0x46);
      SendData([0xF7]);
      ExtendPair(hal.log, log0, acc, Cmd(0x46), Data([0xF7]));
      acc := acc + CmdData(0x46, [0xF7]);
      hal.SleepMs(1);
      Extend(hal.log, log0, acc, [Delay(1)]);
      acc := acc + [Delay(1)];
      SendCommand(0x47);
      SendData([0xF7]);
      ExtendPair(hal.log, log0, acc, Cmd(0x47), Data([0xF7]));
      acc := acc + CmdData(0x47, [0xF7]);
      hal.SleepMs(1);
      Extend(hal.log, log0, acc, [Delay(1)]);
      acc := acc + [Delay(1)];
      SendCommand(0x01);
      SendData([0xDF, 0x01, 0x00]);
      ExtendPair(hal.log, log0, acc, Cmd(0x01), Data([0xDF, 0x01, 0x00]));
      acc := acc + CmdData(0x01, [0xDF, 0x01, 0x00]);
      SendCommand(0x03);
      SendData([0x00]);
      ExtendPair(hal.log, log0, acc, Cmd(0x03), Data([0x00]));
      acc := acc + CmdData(0x03, [0x00]);
      SendCommand(0x04);
      SendData([0x41, 0xA8, 0x32]);
      ExtendPair(hal.log, log0, acc, Cmd(0x04), Data([0x41, 0xA8, 0x32]));
      acc := acc + CmdData(0x04, [0x41, 0xA8, 0x32]);
      SendCommand(0x11);
      SendData([0x03]);
      ExtendPair(hal.log, log0, acc, Cmd(0x11), Data([0x03]));
      acc := acc + CmdData(0x11, [0x03]);
      SendCommand(0x3C);
      SendData([0x03]);
      ExtendPair(hal.log, log0, acc, Cmd(0x3C), Data([0x03]));
      acc := acc + CmdData(0x3C, [0x03]);
      SendCommand(0x0C);
      SendData([0xAE, 0xC7, 0xC3, 0xC0, 0xC0]);
      ExtendPair(hal.log, log0, acc, Cmd(0x0C), Data([0xAE, 0xC7, 0xC3, 0xC0, 0xC0]));
      acc := acc + CmdData(0x0C, [0xAE, 0xC7, 0xC3, 0xC0, 0xC0]);
      SendCommand(0x18);
      SendData([0x80]);
      ExtendPair(hal.log, log0, acc, Cmd(0x18), Data([0x80]));
      acc := acc + CmdData(0x18, [0x80]);
      SendCommand(0x2C);
      SendData([0x44]);
      ExtendPair(hal.log, log0, acc, Cmd(0x2C), Data([0x44]));
      acc := acc + CmdData(0x2C, [0x44]);
      SendCommand(0x37);
      SendData(option);
      ExtendPair(hal.log, log0, acc, Cmd(0x37), Data(option));
      acc := acc + CmdData(0x37, option);
      SendCommand(0x44);
      SendData(InitWindowX);
      ExtendPair(hal.log, log0, acc, Cmd(0x44), Data(InitWindowX));
      acc := acc + CmdData(0x44, InitWindowX);
      SendCommand(0x45);
      SendData(InitWindowY);
      ExtendPair(hal.log, log0, acc, Cmd(0x45), Data(InitWindowY));
      acc := acc + CmdData(0x45, InitWindowY);
      SendCommand(0x22);
      SendData([0xCF]);
      ExtendPair(hal.log, log0, acc, Cmd(0x22), Data([0xCF]));
      acc := acc + CmdData(0x22, [0xCF]);
    }

    method Init4Gray()
      modifies hal
      ensures hal.log == old(hal.log) + InitEvents(Option4Gray)
    {
      InitWith(Option4Gray);
    }

    method Init1Gray()
      modifies hal
      ensures hal.log == old(hal.log) + InitEvents(Option1Gray)
    {
      InitWith(Option1Gray);
    }

    /** high rows of wide copies of v, one send_data call per byte. */
    method FillRows(v: Byte, wide: nat, high: nat)
      modifies hal
      ensures hal.log == old(hal.log) + ByteFrames(Fill(v, wide * high))
    {
      for j := 0 to high
        invariant hal.log == old(hal.log) + ByteFrames(Fill(v, j * wide))
      {
        for i := 0 to wide
          invariant hal.log == old(hal.log) + ByteFrames(Fill(v, j * wide + i))
        {
          SendData([v]);
          assert Fill(v, j * wide + i + 1)[..j * wide + i] == Fill(v, j * wide + i);
        }
        assert j * wide + wide == (j + 1) * wide;
      }
    }

    /** Image[i + j * wide] for each row j and column i; raises at the first
        index past the end of the image. */
    method SendRows(image: seq<Byte>, wide: nat, high: nat) returns (outcome: Outcome<Epd3in7Error>)
      modifies hal
      ensures |image| < wide * high ==> outcome == Raised(IndexError) && hal.log == old(hal.log) + ByteFrames(image)
      ensures |image| >= wide * high ==> outcome == Done && hal.log == old(hal.log) + ByteFrames(image[..wide * high])
    {
      ghost var row := 0;
      for j := 0 to high
        invariant row == j * wide
        invariant row <= |image|
        invariant hal.log == old(hal.log) + ByteFrames(image[..row])
      {
        outcome := SendRow(image, j * wide, wide);
        if outcome.Raised? {
          RowIndexInside(wide, j, wide, high);
          RowsRaised(hal.log, old(hal.log), image, row);
          return;
        }
        RowsNext(hal.log, old(hal.log), image, row, wide);
        NextRow(j, wide);
        row := row + wide;
      }
      return Done;
    }

    /** One row of a 1-bit frame, starting at offset row = j * wide: the
        bytes Image[i + row] for each column i. */
    method SendRow(image: seq<Byte>, row: nat, wide: nat) returns (outcome: Outcome<Epd3in7Error>)
      requires row <= |image|
      modifies hal
      ensures |image| < row + wide ==>
                outcome == Raised(IndexError) && hal.log == old(hal.log) + ByteFrames(image[row..])
      ensures |image| >= row + wide ==>
                outcome == Done && hal.log == old(hal.log) + ByteFrames(image[row..row + wide])
    {
      for i := 0 to wide
        invariant row + i <= |image|
        invariant hal.log == old(hal.log) + ByteFrames(image[row..row + i])
      {
        if i + row >= |image| {
          assert image[row..row + i] == image[row..];
          return Raised(IndexError);
        }
        SendData([image[i + row]]);
        ByteFramesSnoc(image[row..row + i], image[row + i]);
        assert image[row..row + i + 1] == image[row..row + i] + [image[row + i]];
      }
      return Done;
    }

    /** One plane of EPD_3IN7_4Gray_Display: count packed bytes; raises at
        the first source index past the end of the image. */
    method WritePlane(plane: Plane, image: seq<Byte>, count: nat) returns (outcome: Outcome<Epd3in7Error>)
      modifies hal
      ensures |image| < 2 * count ==>
                outcome == Raised(IndexError) && hal.log == old(hal.log) + ByteFrames(PackPlane(plane, image, |image| / 2))
      ensures |image| >= 2 * count ==>
                outcome == Done && hal.log == old(hal.log) + ByteFrames(PackPlane(plane, image, count))
    {
      for i := 0 to count
        invariant 2 * i <= |image|
        invariant hal.log == old(hal.log) + ByteFrames(PackPlane(plane, image, i))
      {
        if i * 2 + 1 >= |image| {
          ghost var half := |image| / 2;
          assert half == i;
          return Raised(IndexError);
        }
        SendPacked(plane, image[i * 2], image[i * 2 + 1]);
        PlaneNext(hal.log, old(hal.log), plane, image, i);
      }
      return Done;
    }

    /** The body of the outer packing loop: temp3 from one pair of source
        bytes, then send_data(temp3). */
    method SendPacked(plane: Plane, first: Byte, second: Byte)
      modifies hal
      ensures hal.log == old(hal.log) + Data([Packed(plane, first, second)])
    {
      var temp3 := PackByte(plane, first, second);
      SendData([temp3]);
    }

    /** The refresh after a frame: Load_LUT(lut), 0x22 [0xC7], 0x20. */
    method Refresh(lut: int)
      modifies hal
      ensures hal.log == old(hal.log) + RefreshEvents(lut)
    {
      ghost var log0 := hal.log;
      LoadLut(lut);
      SendCommand(0x22);
      SendData([0xC7]);
      ExtendPair(hal.log, log0, LutEvents(lut), Cmd(0x22), Data([0xC7]));
      SendCommand(0x20);
      Extend(hal.log, log0, LutEvents(lut) + CmdData(0x22, [0xC7]), Cmd(0x20));
    }

    /** Sends the RAM address origin, 0x4E [0, 0] and 0x4F [0, 0]. */
    method SetCursorOrigin()
      modifies hal
      ensures hal.log == old(hal.log) + CursorOrigin
    {
      ghost var log0 := hal.log;
      SendCommand(0x4E);
      SendData([0x00, 0x00]);
      SendCommand(0x4F);
      SendData([0x00, 0x00]);
      ExtendPair(hal.log, log0, CmdData(0x4E, [0x00, 0x00]), Cmd(0x4F), Data([0x00, 0x00]));
    }

    /** The origin as EPD_3IN7_4Gray_Display sends it, one zero per call. */
    method SetCursorOriginSplit()
      modifies hal
      ensures hal.log == old(hal.log) + CursorOriginSplit
    {
      ghost var log0 := hal.log;
      SendCommand(0x4E);
      SendData([0x00]);
      Extend(hal.log, log0, Cmd(0x4E), Data([0x00]));
      SendData([0x00]);
      Extend(hal.log, log0, Cmd(0x4E) + Data([0x00]), Data([0x00]));
      ghost var acc := Cmd(0x4E) + Data([0x00]) + Data([0x00]);
      SendCommand(0x4F);
      Extend(hal.log, log0, acc, Cmd(0x4F));
      acc := acc + Cmd(0x4F);
      SendData([0x00]);
      Extend(hal.log, log0, acc, Data([0x00]));
      acc := acc + Data([0x00]);
      SendData([0x00]);
      Extend(hal.log, log0, acc, Data([0x00]));
    }

    method Clear4Gray()
      modifies hal
      ensures hal.log == old(hal.log) + Clear4GrayEvents(RowBytes(width), height, hal.busyLevel, old(hal.log))
    {
      var high := height;
      var wide := if width % 8 == 0 then width / 8 else width / 8 + 1;
      ghost var log0 := hal.log;
      SendCommand(0x49);
      SendData([0x00]);
      ghost var acc := CmdData(0x49, [0x00]);
      SetCursorOrigin();
      Extend(hal.log, log0, acc, CursorOrigin);
      acc := acc + CursorOrigin;
      SendCommand(0x24);
      Extend(hal.log, log0, acc, Cmd(0x24));
      acc := acc + Cmd(0x24);
      FillRows(0xFF, wide, high);
      Extend(hal.log, log0, acc, ByteFrames(Fill(0xFF, wide * high)));
      acc := acc + ByteFrames(Fill(0xFF, wide * high));
      SetCursorOrigin();
      Extend(hal.log, log0, acc, CursorOrigin);
      acc := acc + CursorOrigin;
      SendCommand(0x26);
      Extend(hal.log, log0, acc, Cmd(0x26));
      acc := acc + Cmd(0x26);
      FillRows(0xFF, wide, high);
      Extend(hal.log, log0, acc, ByteFrames(Fill(0xFF, wide * high)));
      acc := acc + ByteFrames(Fill(0xFF, wide * high));
      Refresh(0);
      Extend(hal.log, log0, acc, RefreshEvents(0));
      acc := acc + RefreshEvents(0);
      ReadBusy();
      Extend(hal.log, log0, acc, BusyWaitEvents(hal.busyLevel, log0 + acc));
    }

    method Clear1Gray()
      modifies hal
      ensures hal.log == old(hal.log) + Clear1GrayEvents(RowBytes(width), height, hal.busyLevel, old(hal.log))
    {
      var high := height;
      var wide := if width % 8 == 0 then width / 8 else width / 8 + 1;
      ghost var log0 := hal.log;
      SetCursorOrigin();
      ghost var acc := CursorOrigin;
      SendCommand(0x24);
      Extend(hal.log, log0, acc, Cmd(0x24));
      acc := acc + Cmd(0x24);
      FillRows(0x00, wide, high);
      Extend(hal.log, log0, acc, ByteFrames(Fill(0x00, wide * high)));
      acc := acc + ByteFrames(Fill(0x00, wide * high));
      Refresh(1);
      Extend(hal.log, log0, acc, RefreshEvents(1));
      acc := acc + RefreshEvents(1);
      ReadBusy();
      Extend(hal.log, log0, acc, BusyWaitEvents(hal.busyLevel, log0 + acc));
    }

    /** The body of EPD_3IN7_4Gray_Display with count bytes per plane. */
    method Display4GrayWith(image: seq<Byte>, count: nat) returns (outcome: Outcome<Epd3in7Error>)
      modifies hal
      ensures hal.log == old(hal.log) + Display4GrayTrace(image, count, hal.busyLevel, old(hal.log)).events
      ensures outcome == Display4GrayTrace(image, count, hal.busyLevel, old(hal.log)).outcome
    {
      ghost var log0 := hal.log;
      SendCommand(0x49);
      SendData([0x00]);
      ghost var acc := CmdData(0x49, [0x00]);
      SetCursorOriginSplit();
      Extend(hal.log, log0, acc, CursorOriginSplit);
      acc := acc + CursorOriginSplit;
      SendCommand(0x24);
      Extend(hal.log, log0, acc, Cmd(0x24));
      acc := acc + Cmd(0x24);
      outcome := WritePlane(PlaneA, image, count);
      if outcome.Raised? {
        Extend(hal.log, log0, acc, ByteFrames(PackPlane(PlaneA, image, |image| / 2)));
        return;
      }
      Extend(hal.log, log0, acc, ByteFrames(PackPlane(PlaneA, image, count)));
      acc := acc + ByteFrames(PackPlane(PlaneA, image, count));
      SetCursorOriginSplit();
      Extend(hal.log, log0, acc, CursorOriginSplit);
      acc := acc + CursorOriginSplit;
      SendCommand(0x26);
      Extend(hal.log, log0, acc, Cmd(0x26));
      acc := acc + Cmd(0x26);
      outcome := WritePlane(PlaneB, image, count);
      Extend(hal.log, log0, acc, ByteFrames(PackPlane(PlaneB, image, count)));
      acc := acc + ByteFrames(PackPlane(PlaneB, image, count));
      Refresh(0);
      Extend(hal.log, log0, acc, RefreshEvents(0));
      acc := acc + RefreshEvents(0);
      ReadBusy();
      Extend(hal.log, log0, acc, BusyWaitEvents(hal.busyLevel, log0 + acc));
    }

    /** EPD_3IN7_4Gray_Display as written: 16800 bytes per plane, which reads
        33600 image bytes. */
    method Display4Gray(image: seq<Byte>) returns (outcome: Outcome<Epd3in7Error>)
      modifies hal
      ensures hal.log == old(hal.log) + Display4GrayTrace(image, Gray4Count, hal.busyLevel, old(hal.log)).events
      ensures outcome == Display4GrayTrace(image, Gray4Count, hal.busyLevel, old(hal.log)).outcome
    {
      outcome := Display4GrayWith(image, 16800);
    }

    /** EPD_3IN7_4Gray_Display with the per-plane count taken from the
        configured size, width * height / 8. */
    method Display4GrayCorrected(image: seq<Byte>) returns (outcome: Outcome<Epd3in7Error>)
      modifies hal
      ensures hal.log == old(hal.log) + Display4GrayTrace(image, width * height / 8, hal.busyLevel, old(hal.log)).events
      ensures outcome == Display4GrayTrace(image, width * height / 8, hal.busyLevel, old(hal.log)).outcome
    {
      outcome := Display4GrayWith(image, width * height / 8);
    }

    /** The common tail of both 1-bit frame writes, once `pre` is logged
        after history log0. */
    method RowsAndRefresh(ghost pre: seq<Event>, ghost log0: seq<Event>, image: seq<Byte>, wide: nat, high: nat, lut: int)
      returns (outcome: Outcome<Epd3in7Error>)
      requires hal.log == log0 + pre
      modifies hal
      ensures hal.log == log0 + RowsTrace(pre, image, wide * high, lut, hal.busyLevel, log0).events
      ensures outcome == RowsTrace(pre, image, wide * high, lut, hal.busyLevel, log0).outcome
    {
      outcome := SendRows(image, wide, high);
      if outcome.Raised? {
        Extend(hal.log, log0, pre, ByteFrames(image));
        return;
      }
      Extend(hal.log, log0, pre, ByteFrames(image[..wide * high]));
      ghost var acc := pre + ByteFrames(image[..wide * high]);
      Refresh(lut);
      Extend(hal.log, log0, acc, RefreshEvents(lut));
      acc := acc + RefreshEvents(lut);
      ReadBusy();
      Extend(hal.log, log0, acc, BusyWaitEvents(hal.busyLevel, log0 + acc));
    }

    method Display1Gray(image: seq<Byte>) returns (outcome: Outcome<Epd3in7Error>)
      modifies hal
      ensures hal.log == old(hal.log) + Display1GrayTrace(image, RowBytes(width), height, hal.busyLevel, old(hal.log)).events
      ensures outcome == Display1GrayTrace(image, RowBytes(width), height, hal.busyLevel, old(hal.log)).outcome
    {
      var high := height;
      var wide := if width % 8 == 0 then width / 8 else width / 8 + 1;
      ghost var log0 := hal.log;
      SendCommand(0x49);
      SendData([0x00]);
      ghost var acc := CmdData(0x49, [0x00]);
      SetCursorOrigin();
      Extend(hal.log, log0, acc, CursorOrigin);
      acc := acc + CursorOrigin;
      SendCommand(0x24);
      Extend(hal.log, log0, acc, Cmd(0x24));
      acc := acc + Cmd(0x24);
      outcome := RowsAndRefresh(acc, log0, image, wide, high, 1);
    }

    method Display1GrayPart(image: seq<Byte>) returns (outcome: Outcome<Epd3in7Error>)
      modifies hal
      ensures hal.log == old(hal.log) + DisplayPartTrace(image, width, height, hal.busyLevel, old(hal.log)).events
      ensures outcome == DisplayPartTrace(image, width, height, hal.busyLevel, old(hal.log)).outcome
    {
      var high := height;
      var wide := if width % 8 == 0 then width / 8 else width / 8 + 1;
      ghost var log0 := hal.log;
      SendCommand(0x44);
      SendData([0x00, 0x00, (width - 1) % 256, (width - 1) / 256 % 4]);
      ghost var acc := CmdData(0x44, WindowBytes(width));
      SendCommand(0x45);
      SendData([0x00, 0x00, (height - 1) % 256, (height - 1) / 256 % 4]);
      ExtendPair(hal.log, log0, acc, Cmd(0x45), Data(WindowBytes(height)));
      acc := acc + CmdData(0x45, WindowBytes(height));
      SetCursorOrigin();
      Extend(hal.log, log0, acc, CursorOrigin);
      acc := acc + CursorOrigin;
      SendCommand(0x24);
      Extend(hal.log, log0, acc, Cmd(0x24));
      acc := acc + Cmd(0x24);
      outcome := RowsAndRefresh(acc, log0, image, wide, high, 2);
    }

    method Sleep()
      modifies hal
      ensures hal.log == old(hal.log) + SleepEvents
    {
      SendCommand(0x10);
      SendData([0x03]);
    }
  }
}
