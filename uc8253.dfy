/** The UC8253 driver: every method appends to the HAL log exactly the
    events the matching function of Uc8253Frames describes, and returns or
    raises as that function says. */
module Uc8253Driver {
  import opened Hal
  import opened Uc8253Frames

  class Uc8253 {
    const hal: Hal

    /** __init__ up to init: the SPI bus, the pins created CS high, DC low
        and reset high, then reset. */
    constructor (hal: Hal)
      modifies hal
      ensures this.hal == hal
      ensures hal.log == old(hal.log) + PinSetup + ResetEvents
    {
      this.hal := hal;
      new;
      hal.SetPin(CsPin, High);
      hal.SetPin(DcPin, Low);
      hal.SetPin(ResetPin, High);
      Reset();
    }

    /** UC8253(): construction, then init, whose exception escapes the
        constructor. */
    static method Open(hal: Hal) returns (epd: Uc8253, outcome: Outcome<UcError>)
      modifies hal
      ensures fresh(epd) && epd.hal == hal
      ensures hal.log == old(hal.log) + OpenTrace(hal.busyLevel, old(hal.log)).events
      ensures outcome == OpenTrace(hal.busyLevel, old(hal.log)).outcome
    {
      ghost var log0 := hal.log;
      epd := new Uc8253(hal);
      Extend(hal.log, log0, PinSetup, ResetEvents);
      ghost var pre := PinSetup + ResetEvents;
      outcome := epd.Init();
      Extend(hal.log, log0, pre, InitTrace(hal.busyLevel, log0 + pre).events);
    }

    method Reset()
      modifies hal
      ensures hal.log == old(hal.log) + ResetEvents
    {
      hal.SetPin(ResetPin, High);
      hal.SleepMs(10);
      hal.SetPin(ResetPin, Low);
      hal.SleepMs(200);
      hal.SetPin(ResetPin, High);
      hal.SleepMs(10);
    }

    method SendCommand(c: Byte)
      modifies hal
      ensures hal.log == old(hal.log) + CommandEvents(c)
    {
      hal.SetPin(CsPin, Low);
      hal.SetPin(DcPin, Low);
      hal.SpiWrite([c]);
      hal.SetPin(CsPin, High);
    }

    method SendData(data: seq<Byte>)
      modifies hal
      ensures hal.log == old(hal.log) + DataEvents(data)
    {
      hal.SetPin(CsPin, Low);
      hal.SetPin(DcPin, High);
      ghost var open := [Set(CsPin, Low), Set(DcPin, High)];
      for i := 0 to |data|
        invariant hal.log == old(hal.log) + open + DataWrites(data[..i])
      {
        hal.SpiWrite([data[i]]);
        hal.SleepMs(1);
        assert data[..i + 1][..i] == data[..i];
      }
      assert data[..|data|] == data;
      hal.SetPin(CsPin, High);
    }

    method SendCommandWithData(c: Byte, data: Payload) returns (outcome: Outcome<UcError>)
      modifies hal
      ensures hal.log == old(hal.log) + CommandWithData(c, data).events
      ensures outcome == CommandWithData(c, data).outcome
    {
      ghost var log0 := hal.log;
      ghost var head := [Set(CsPin, Low), Set(DcPin, Low), Write([c])];
      hal.SetPin(CsPin, Low);
      hal.SetPin(DcPin, Low);
      hal.SpiWrite([c]);
      assert hal.log == log0 + head;
      if data.NoData? {
        hal.SetPin(CsPin, High);
        Extend(hal.log, log0, head, [Set(CsPin, High)]);
        return Done;
      }
      hal.SetPin(DcPin, High);
      ghost var log1 := hal.log;
      if data.IntData? {
        if !(0 <= data.v < 256) {
          Extend(hal.log, log0, head, [Set(DcPin, High)]);
          return Raised(ByteOutOfRange);
        }
        hal.SpiWrite([data.v]);
        hal.SetPin(CsPin, High);
        assert hal.log == log0 + (head + [Set(DcPin, High), Write([data.v]), Set(CsPin, High)]);
        return Done;
      }
      var s := data.s;
      ghost var done: seq<seq<Byte>> := [];
      var i := 0;
      assert [] + ChunksFrom(s, 0) == ChunksFrom(s, 0);
      while i < |s|
        invariant Chunks(s) == done + ChunksFrom(s, i)
        invariant hal.log == log1 + Writes(done)
        decreases |s| - i
      {
        var chunk := s[i..Min(i + ChunkSize, |s|)];
        hal.SpiWrite(chunk);
        assert Writes(done + [chunk]) == Writes(done) + [Write(chunk)];
        assert done + ([chunk] + ChunksFrom(s, i + ChunkSize)) == done + [chunk] + ChunksFrom(s, i + ChunkSize);
        done := done + [chunk];
        i := i + ChunkSize;
      }
      assert done == Chunks(s);
      hal.SetPin(CsPin, High);
      ExtendThree(hal.log, log0, head, [Set(DcPin, High)], Writes(Chunks(s)), [Set(CsPin, High)]);
      return Done;
    }

    /** wait_until_idle(timeout_ms): polls while the busy line reads low. */
    method WaitUntilIdle(timeout: int) returns (outcome: Outcome<UcError>)
      modifies hal
      ensures hal.log == old(hal.log) + Wait(hal.busyLevel, old(hal.log), timeout).events
      ensures outcome == Wait(hal.busyLevel, old(hal.log), timeout).outcome
    {
      ghost var h := hal.log;
      ghost var busy := hal.busyLevel;
      var start := hal.Now();
      ghost var k: nat := 0;
      assert h + Repeat(Delay(10), 0) == h;
      while hal.Busy() == Low
        invariant hal.log == h + Repeat(Delay(10), k)
        invariant hal.Now() == start + 10 * k
        invariant Wait(busy, h, timeout).events == Repeat(Delay(10), k) + WaitFrom(busy, h, timeout, k).events
        invariant Wait(busy, h, timeout).outcome == WaitFrom(busy, h, timeout, k).outcome
        decreases WaitMeasure(timeout, k)
      {
        if hal.Now() - start > timeout {
          WaitStops(busy, h, timeout, k);
          return Raised(BusyTimeout);
        }
        WaitAdvance(busy, h, timeout, k);
        ghost var before := hal.log;
        hal.SleepMs(10);
        ElapsedAppend(before, [Delay(10)]);
        assert Elapsed([Delay(10)]) == 10 by {
          assert [Delay(10)][..0] == [];
        }
        assert Repeat(Delay(10), k) + [Delay(10)] == Repeat(Delay(10), k + 1);
        k := k + 1;
      }
      WaitStops(busy, h, timeout, k);
      return Done;
    }

    method Init() returns (outcome: Outcome<UcError>)
      modifies hal
      ensures hal.log == old(hal.log) + InitTrace(hal.busyLevel, old(hal.log)).events
      ensures outcome == InitTrace(hal.busyLevel, old(hal.log)).outcome
    {
      ghost var log0 := hal.log;
      ghost var busy := hal.busyLevel;
      SendCommand(0x01);
      SendData(PowerSetting);
      Extend(hal.log, log0, CommandEvents(0x01), DataEvents(PowerSetting));
      SendCommand(0x04);
      Extend(hal.log, log0, CommandEvents(0x01) + DataEvents(PowerSetting), CommandEvents(0x04));
      ghost var p1 := CommandEvents(0x01) + DataEvents(PowerSetting) + CommandEvents(0x04);
      assert [] + p1 == p1;
      outcome := WaitUntilIdle(DefaultTimeout);
      Extend(hal.log, log0, p1, Wait(busy, log0 + p1, DefaultTimeout).events);
      ghost var t1 := ThenWait(Trace([], Done), p1, busy, log0);
      if outcome.Raised? {
        return;
      }
      SendCommand(0x12);
      Extend(hal.log, log0, t1.events, CommandEvents(0x12));
      outcome := WaitUntilIdle(DefaultTimeout);
      Extend(hal.log, log0, t1.events + CommandEvents(0x12), Wait(busy, log0 + (t1.events + CommandEvents(0x12)), DefaultTimeout).events);
      ghost var t2 := ThenWait(t1, CommandEvents(0x12), busy, log0);
      if outcome.Raised? {
        return;
      }
      WriteToBuffer(FullWhite);
      SendCommand(0x12);
      ExtendPair(hal.log, log0, t2.events, WriteToBufferEvents(FullWhite), CommandEvents(0x12));
      ghost var p3 := WriteToBufferEvents(FullWhite) + CommandEvents(0x12);
      outcome := WaitUntilIdle(DefaultTimeout);
      Extend(hal.log, log0, t2.events + p3, Wait(busy, log0 + (t2.events + p3), DefaultTimeout).events);
    }

    /** write_to_buffer: the buffer after DISPLAY_START_TRANSMISSION_1. */
    method WriteToBuffer(buffer: seq<Byte>)
      modifies hal
      ensures hal.log == old(hal.log) + WriteToBufferEvents(buffer)
    {
      SendCommand(0x10);
      SendData(buffer);
    }

    method SetWindow(xStart: int, yStart: int, xEnd: int, yEnd: int) returns (outcome: Outcome<UcError>)
      modifies hal
      ensures hal.log == old(hal.log) + SetWindowTrace(xStart, yStart, xEnd, yEnd).events
      ensures outcome == SetWindowTrace(xStart, yStart, xEnd, yEnd).outcome
    {
      var a, b := ByteOf(xStart / 8), ByteOf(xEnd / 8);
      if a.None? || b.None? {
        return Raised(ByteOutOfRange);
      }
      outcome := SendCommandWithData(0x44, Bytes([a.value, b.value]));
      var y: seq<Byte> := [yStart % 256, yStart / 256 % 256, yEnd % 256, yEnd / 256 % 256];
      assert y == Le16(yStart) + Le16(yEnd);
      outcome := SendCommandWithData(0x45, Bytes(y));
    }

    method SetCursor(x: int, y: int) returns (outcome: Outcome<UcError>)
      modifies hal
      ensures hal.log == old(hal.log) + SetCursorTrace(x, y).events
      ensures outcome == SetCursorTrace(x, y).outcome
    {
      outcome := SendCommandWithData(0x4E, IntData(x / 8));
      if outcome.Raised? {
        return;
      }
      var row: seq<Byte> := [y % 256, y / 256 % 256];
      assert row == Le16(y);
      outcome := SendCommandWithData(0x4F, Bytes(row));
    }

    /** display_frame. The window and cursor it sets are constant and never
        raise, so their outcomes are not inspected. */
    method DisplayFrame(buffer: seq<Byte>) returns (outcome: Outcome<UcError>)
      modifies hal
      ensures hal.log == old(hal.log) + DisplayFrameTrace(buffer, hal.busyLevel, old(hal.log)).events
      ensures outcome == DisplayFrameTrace(buffer, hal.busyLevel, old(hal.log)).outcome
    {
      if |buffer| != EpdWidthBytes * EpdHeight {
        return Raised(InvalidBufferLength);
      }
      ghost var log0 := hal.log;
      ghost var busy := hal.busyLevel;
      FrameWindowBytes();
      FrameCursorBytes();
      outcome := SetWindow(0, 0, EpdWidth - 1, EpdHeight - 1);
      outcome := SetCursor(0, 0);
      outcome := SendCommandWithData(0x24, Bytes(buffer));
      ghost var prev := hal.log;
      outcome := Refresh();
      DisplayFrameStep(hal.log, log0, prev, buffer, busy, outcome);
    }

    method Refresh() returns (outcome: Outcome<UcError>)
      modifies hal
      ensures hal.log == old(hal.log) + RefreshTrace(hal.busyLevel, old(hal.log)).events
      ensures outcome == RefreshTrace(hal.busyLevel, old(hal.log)).outcome
    {
      ghost var log0 := hal.log;
      ghost var f := CommandWithData(0x12, NoData).events;
      RefreshUnfold(hal.busyLevel, log0);
      outcome := SendCommandWithData(0x12, NoData);
      outcome := WaitUntilIdle(DefaultTimeout);
      Extend(hal.log, log0, f, Wait(hal.busyLevel, log0 + f, DefaultTimeout).events);
    }

    method Sleep() returns (outcome: Outcome<UcError>)
      modifies hal
      ensures hal.log == old(hal.log) + SleepTrace(hal.busyLevel, old(hal.log)).events
      ensures outcome == SleepTrace(hal.busyLevel, old(hal.log)).outcome
    {
      ghost var log0 := hal.log;
      ghost var off := CommandWithData(0x02, NoData).events;
      SleepUnfold(hal.busyLevel, log0);
      outcome := SendCommandWithData(0x02, NoData);
      outcome := WaitUntilIdle(DefaultTimeout);
      ghost var w := Wait(hal.busyLevel, log0 + off, DefaultTimeout).events;
      Extend(hal.log, log0, off, w);
      if outcome.Raised? {
        return;
      }
      outcome := SendCommandWithData(0x07, IntData(0xA5));
      Extend(hal.log, log0, off + w, CommandWithData(0x07, IntData(0xA5)).events);
    }

    /** test_pattern: a frame-sized bytearray filled with the stripes in
        place, then displayed. */
    method TestPattern() returns (outcome: Outcome<UcError>)
      modifies hal
      ensures hal.log == old(hal.log) + DisplayFrameTrace(Stripes(FrameBytes), hal.busyLevel, old(hal.log)).events
      ensures outcome == DisplayFrameTrace(Stripes(FrameBytes), hal.busyLevel, old(hal.log)).outcome
    {
      var buf := new Byte[EpdWidthBytes * EpdHeight](_ => 0x00);
      for i := 0 to buf.Length
        modifies buf
        invariant forall j | 0 <= j < i :: buf[j] == Stripes(FrameBytes)[j]
      {
        buf[i] := if i / 8 % 2 == 1 then 0xFF else 0x00;
      }
      assert buf[..] == Stripes(FrameBytes);
      outcome := DisplayFrame(buf[..]);
    }
  }
}
