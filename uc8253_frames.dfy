/** The event sequences the UC8253 driver produces, as functions of their
    inputs and of the busy line, and what the panel controller latches from
    them. The methods of class Uc8253Driver.Uc8253 are proved to append
    exactly these sequences to the log. */
module Uc8253Frames {
  import opened Hal
  import opened PanelBus

  /** Display resolution; a row is width / 8 bytes. */
  const EpdWidth: nat := 416
  const EpdHeight: nat := 240
  const EpdWidthBytes: nat := EpdWidth / 8

  /** The length display_frame accepts: one byte per 8 pixels of the frame. */
  const FrameBytes: nat := EpdWidthBytes * EpdHeight

  /** SPI_CHUNK_SIZE: the most bytes send_command_with_data writes at once. */
  const ChunkSize: nat := 512

  /** The default timeout_ms of wait_until_idle. */
  const DefaultTimeout: int := 5000

  /** FULL_WHITE and FULL_BLACK. */
  const FullWhite: seq<Byte> := Fill(0xFF, FrameBytes)
  const FullBlack: seq<Byte> := Fill(0x00, FrameBytes)

  /** The data of the POWER_SETTING_PWR (0x01) command in init. */
  const PowerSetting: seq<Byte> := [0x03, 0x10, 0x3F, 0x3F, 0x0D]

  /** The exceptions the driver raises. */
  datatype UcError =
    | InvalidBufferLength  // ValueError of display_frame for a buffer of the wrong size
    | ByteOutOfRange       // ValueError of bytearray([v]) for v outside 0..255
    | BusyTimeout          // RuntimeError of wait_until_idle

  /** The data argument of send_command_with_data: None, an int, or a buffer
      of bytes. */
  datatype Payload = NoData | IntData(v: int) | Bytes(s: seq<Byte>)

  function Min(a: int, b: int): int
  {
    if a <= b then a else b
  }

  /** reset: the reset line high for 10 ms, low for 200 ms, high again for
      10 ms. */
  const ResetEvents: seq<Event> :=
    [Set(ResetPin, High), Delay(10), Set(ResetPin, Low), Delay(200), Set(ResetPin, High), Delay(10)]

  /** The pins __init__ creates: CS high, DC low, reset high. */
  const PinSetup: seq<Event> := [Set(CsPin, High), Set(DcPin, Low), Set(ResetPin, High)]

  /** send_command: CS low, DC low, the one command byte, CS high. */
  function CommandEvents(c: Byte): seq<Event>
  {
    [Set(CsPin, Low), Set(DcPin, Low), Write([c]), Set(CsPin, High)]
  }

  /** The loop of send_data: a one-byte write and a 1 ms sleep per element. */
  function DataWrites(s: seq<Byte>): seq<Event>
  {
    if s == [] then [] else DataWrites(s[..|s| - 1]) + [Write([s[|s| - 1]]), Delay(1)]
  }

  /** send_data: CS low, DC high, the loop, CS high. */
  function DataEvents(s: seq<Byte>): seq<Event>
  {
    [Set(CsPin, Low), Set(DcPin, High)] + DataWrites(s) + [Set(CsPin, High)]
  }

  /** The slices data[i:i + SPI_CHUNK_SIZE] for i = start, start + 512, ...
      below len(data). */
  function ChunksFrom(data: seq<Byte>, start: nat): seq<seq<Byte>>
    decreases |data| - start
  {
    if start >= |data| then []
    else [data[start..Min(start + ChunkSize, |data|)]] + ChunksFrom(data, start + ChunkSize)
  }

  /** The chunks send_command_with_data writes for a buffer. */
  function Chunks(data: seq<Byte>): seq<seq<Byte>>
  {
    ChunksFrom(data, 0)
  }

  /** One spi.write per chunk. */
  function Writes(chunks: seq<seq<Byte>>): seq<Event>
  {
    seq(|chunks|, k requires 0 <= k < |chunks| => Write(chunks[k]))
  }

  /** The chunks laid end to end. */
  function Flatten(chunks: seq<seq<Byte>>): seq<Byte>
  {
    if chunks == [] then [] else chunks[0] + Flatten(chunks[1..])
  }

  /** send_command_with_data(c, p): CS low, DC low, the command byte; then,
      unless p is None, DC high and the data: an int as one byte, a buffer
      in chunks; CS high. An int outside 0..255 raises once DC is high, so
      CS is left low. */
  function CommandWithData(c: Byte, p: Payload): Trace<UcError>
  {
    var head := [Set(CsPin, Low), Set(DcPin, Low), Write([c])];
    match p
    case NoData => Trace(head + [Set(CsPin, High)], Done)
    case IntData(v) =>
      if 0 <= v < 256 then Trace(head + [Set(DcPin, High), Write([v]), Set(CsPin, High)], Done)
      else Trace(head + [Set(DcPin, High)], Raised(ByteOutOfRange))
    case Bytes(s) => Trace(head + [Set(DcPin, High)] + Writes(Chunks(s)) + [Set(CsPin, High)], Done)
  }

  /** The measure of wait_until_idle: it shrinks with each 10 ms sleep until
      the elapsed time passes the timeout. */
  function WaitMeasure(timeout: int, k: nat): nat
  {
    if 10 * k <= timeout then timeout - 10 * k + 1 else 0
  }

  /** wait_until_idle from its k-th reading of the busy line, taken after
      the history h and k sleeps of 10 ms, that is 10 * k ms after start:
      it returns on a high reading; on a low one it raises once the elapsed
      time exceeds the timeout, and sleeps 10 ms otherwise. */
  function WaitFrom(busy: seq<Event> -> Level, h: seq<Event>, timeout: int, k: nat): Trace<UcError>
    decreases WaitMeasure(timeout, k)
  {
    if busy(h + Repeat(Delay(10), k)) == High then Trace([], Done)
    else if 10 * k > timeout then Trace([], Raised(BusyTimeout))
    else
      var rest := WaitFrom(busy, h, timeout, k + 1);
      Trace([Delay(10)] + rest.events, rest.outcome)
  }

  /** wait_until_idle(timeout) after history h. */
  function Wait(busy: seq<Event> -> Level, h: seq<Event>, timeout: int): Trace<UcError>
  {
    WaitFrom(busy, h, timeout, 0)
  }

  /** t, then the events more and a wait_until_idle with the default
      timeout, unless t raised; t started after history h. */
  function ThenWait(t: Trace<UcError>, more: seq<Event>, busy: seq<Event> -> Level, h: seq<Event>): Trace<UcError>
  {
    if t.outcome.Raised? then t
    else
      var pre := t.events + more;
      var w := Wait(busy, h + pre, DefaultTimeout);
      Trace(pre + w.events, w.outcome)
  }

  /** write_to_buffer: DISPLAY_START_TRANSMISSION_1 (0x10) and the buffer. */
  function WriteToBufferEvents(buffer: seq<Byte>): seq<Event>
  {
    CommandEvents(0x10) + DataEvents(buffer)
  }

  /** init: the power setting, POWER_ON and a wait, DISPLAY_REFRESH and a
      wait, an all-white frame through write_to_buffer, DISPLAY_REFRESH and a
      wait. */
  function InitTrace(busy: seq<Event> -> Level, h: seq<Event>): Trace<UcError>
  {
    var t1 := ThenWait(Trace([], Done), CommandEvents(0x01) + DataEvents(PowerSetting) + CommandEvents(0x04), busy, h);
    var t2 := ThenWait(t1, CommandEvents(0x12), busy, h);
    ThenWait(t2, WriteToBufferEvents(FullWhite) + CommandEvents(0x12), busy, h)
  }

  /** __init__: the pins, reset, then init. */
  function OpenTrace(busy: seq<Event> -> Level, h: seq<Event>): Trace<UcError>
  {
    var pre := PinSetup + ResetEvents;
    var t := InitTrace(busy, h + pre);
    Trace(pre + t.events, t.outcome)
  }

  /** The little-endian pair [v & 0xFF, (v >> 8) & 0xFF]. */
  function Le16(v: int): seq<Byte>
  {
    [v % 256, v / 256 % 256]
  }

  /** bytearray([v]) holds v when it is a byte and raises otherwise. */
  function ByteOf(v: int): Option<Byte>
  {
    if 0 <= v < 256 then Some(v) else None
  }

  /** set_window: the x range as byte columns x // 8 to 0x44 (raising before
      any event when one is not a byte), then the y range as two
      little-endian pairs to 0x45. */
  function SetWindowTrace(xStart: int, yStart: int, xEnd: int, yEnd: int): Trace<UcError>
  {
    match (ByteOf(xStart / 8), ByteOf(xEnd / 8))
    case (Some(a), Some(b)) =>
      Trace(CommandWithData(0x44, Bytes([a, b])).events
            + CommandWithData(0x45, Bytes(Le16(yStart) + Le16(yEnd))).events, Done)
    case _ => Trace([], Raised(ByteOutOfRange))
  }

  /** set_cursor: the byte column x // 8 as an int to 0x4E, then y as a
      little-endian pair to 0x4F. */
  function SetCursorTrace(x: int, y: int): Trace<UcError>
  {
    Then(CommandWithData(0x4E, IntData(x / 8)), CommandWithData(0x4F, Bytes(Le16(y))))
  }

  /** refresh: DISPLAY_REFRESH (0x12) without data, then a wait. */
  function RefreshTrace(busy: seq<Event> -> Level, h: seq<Event>): Trace<UcError>
  {
    ThenWait(Trace([], Done), CommandWithData(0x12, NoData).events, busy, h)
  }

  /** display_frame: a buffer of the wrong length raises before any event;
      otherwise the whole-panel window, the cursor at the origin, the buffer
      after 0x24, and a refresh. */
  function DisplayFrameTrace(buffer: seq<Byte>, busy: seq<Event> -> Level, h: seq<Event>): Trace<UcError>
  {
    if |buffer| != FrameBytes then Trace([], Raised(InvalidBufferLength))
    else
      var t := Then(Then(SetWindowTrace(0, 0, EpdWidth - 1, EpdHeight - 1), SetCursorTrace(0, 0)),
                    CommandWithData(0x24, Bytes(buffer)));
      ThenWait(t, CommandWithData(0x12, NoData).events, busy, h)
  }

  /** sleep: POWER_OFF (0x02) and a wait, then DEEP_SLEEP (0x07) with the
      check code 0xA5. */
  function SleepTrace(busy: seq<Event> -> Level, h: seq<Event>): Trace<UcError>
  {
    Then(ThenWait(Trace([], Done), CommandWithData(0x02, NoData).events, busy, h),
         CommandWithData(0x07, IntData(0xA5)))
  }

  /** The stripes of test_pattern: byte i is 0xFF when i // 8 is odd. */
  function Stripes(n: nat): (s: seq<Byte>)
    ensures |s| == n
  {
    seq(n, i requires 0 <= i < n => if i / 8 % 2 == 1 then 0xFF else 0x00)
  }

  /** The bytes a payload sends when it does not raise. */
  function PayloadBytes(p: Payload): seq<Byte>
    requires !(p.IntData? && !(0 <= p.v < 256))
  {
    match p
    case NoData => []
    case IntData(v) => [v]
    case Bytes(s) => s
  }

  // ---------------------------------------------------------------------
  // Properties

  /** send_command latches exactly its command byte, whatever the lines
      were, and leaves DC low and CS high. */
  lemma CommandLatched(l: Lines, c: Byte)
    ensures Latched(l, CommandEvents(c)) == [CommandByte(c)]
    ensures Final(l, CommandEvents(c)) == Lines(Low, High)
  {
    var w := [Write([c]), Set(CsPin, High)];
    assert CommandEvents(c) == [Set(CsPin, Low)] + ([Set(DcPin, Low)] + w);
    LatchedCons(l, Set(CsPin, Low), [Set(DcPin, Low)] + w);
    LatchedCons(Lines(l.dc, Low), Set(DcPin, Low), w);
    LatchedCons(Lines(Low, Low), Write([c]), w[1..]);
    LatchedCons(Lines(Low, Low), Set(CsPin, High), []);
  }

  /** The send_data loop writes element k alone at position 2k, each write
      followed by a 1 ms sleep. */
  lemma {:induction false} DataWritesShape(s: seq<Byte>)
    ensures |DataWrites(s)| == 2 * |s|
    ensures forall k | 0 <= k < |s| :: DataWrites(s)[2 * k] == Write([s[k]]) && DataWrites(s)[2 * k + 1] == Delay(1)
  {
    if s != [] {
      var s' := s[..|s| - 1];
      DataWritesShape(s');
      assert forall k | 0 <= k < |s'| :: s'[k] == s[k];
    }
  }

  /** With DC high and CS low, the loop latches the elements as data and
      leaves the lines as they were. */
  lemma {:induction false} DataWritesLatched(s: seq<Byte>)
    ensures Latched(Lines(High, Low), DataWrites(s)) == DataTokens(s)
    ensures Final(Lines(High, Low), DataWrites(s)) == Lines(High, Low)
  {
    if s != [] {
      var l := Lines(High, Low);
      var s', b := s[..|s| - 1], s[|s| - 1];
      DataWritesLatched(s');
      LatchedAppend(l, DataWrites(s'), [Write([b]), Delay(1)]);
      LatchedCons(l, Write([b]), [Delay(1)]);
      LatchedCons(l, Delay(1), []);
      DataTokensAppend(s', [b]);
      assert s' + [b] == s;
    }
  }

  /** The times the loop sleeps add up to 1 ms per element. */
  lemma {:induction false} DataWritesElapsed(s: seq<Byte>)
    ensures Elapsed(DataWrites(s)) == |s|
  {
    if s != [] {
      var s', b := s[..|s| - 1], s[|s| - 1];
      DataWritesElapsed(s');
      var pair := [Write([b]), Delay(1)];
      ElapsedAppend(DataWrites(s'), pair);
      assert Elapsed(pair) == 1 by {
        assert [Write([b])][..0] == [];
        assert Elapsed([Write([b])]) == 0;
        assert pair[..1] == [Write([b])];
        assert Elapsed(pair) == Elapsed(pair[..1]) + DelayOf(pair[1]);
      }
    }
  }

  /** send_data latches exactly its elements as data, whatever the lines
      were, leaves DC and CS high, and takes 1 ms per element. */
  lemma DataLatched(l: Lines, s: seq<Byte>)
    ensures Latched(l, DataEvents(s)) == DataTokens(s)
    ensures Final(l, DataEvents(s)) == Lines(High, High)
    ensures Elapsed(DataEvents(s)) == |s|
  {
    var open := [Set(CsPin, Low), Set(DcPin, High)];
    LatchedAppend(l, open + DataWrites(s), [Set(CsPin, High)]);
    LatchedAppend(l, open, DataWrites(s));
    LatchedCons(l, Set(CsPin, Low), [Set(DcPin, High)]);
    LatchedCons(Lines(l.dc, Low), Set(DcPin, High), []);
    DataWritesLatched(s);
    LatchedCons(Lines(High, Low), Set(CsPin, High), []);
    DataWritesElapsed(s);
    ElapsedAppend(open + DataWrites(s), [Set(CsPin, High)]);
    ElapsedAppend(open, DataWrites(s));
    assert Elapsed(open) == 0 by {
      assert open[..1] == [Set(CsPin, Low)];
      assert [Set(CsPin, Low)][..0] == [];
    }
    assert Elapsed([Set(CsPin, High)]) == 0 by {
      assert [Set(CsPin, High)][..0] == [];
    }
  }

  /** The chunks from an offset inside the data lay out the rest of it. */
  lemma {:induction false} ChunksFromFlatten(data: seq<Byte>, start: nat)
    requires start <= |data|
    ensures Flatten(ChunksFrom(data, start)) == data[start..]
    decreases |data| - start
  {
    if start < |data| {
      var next := start + ChunkSize;
      var rest := ChunksFrom(data, next);
      var head := data[start..Min(next, |data|)];
      assert ([head] + rest)[1..] == rest;
      if next <= |data| {
        ChunksFromFlatten(data, next);
        assert data[start..] == head + data[next..];
      } else {
        assert head == data[start..];
      }
    }
  }

  /** Every chunk holds between 1 and 512 bytes, all but the last exactly
      512, and there are len / 512 of them rounded up. */
  lemma {:induction false} ChunksFromSizes(data: seq<Byte>, start: nat)
    ensures var cs := ChunksFrom(data, start);
      && |cs| == (if start >= |data| then 0 else (|data| - start + ChunkSize - 1) / ChunkSize)
      && (forall k | 0 <= k < |cs| :: 1 <= |cs[k]| <= ChunkSize)
      && (forall k | 0 <= k < |cs| - 1 :: |cs[k]| == ChunkSize)
    decreases |data| - start
  {
    if start < |data| {
      ChunksFromSizes(data, start + ChunkSize);
    }
  }

  /** The chunks of send_command_with_data lay the data out exactly: they
      concatenate to it, each holds 1 to 512 bytes (all but the last 512),
      and there are ceil(len / 512) of them. */
  lemma ChunksSpec(data: seq<Byte>)
    ensures Flatten(Chunks(data)) == data
    ensures |Chunks(data)| == (|data| + ChunkSize - 1) / ChunkSize
    ensures forall k | 0 <= k < |Chunks(data)| :: 1 <= |Chunks(data)[k]| <= ChunkSize
    ensures forall k | 0 <= k < |Chunks(data)| - 1 :: |Chunks(data)[k]| == ChunkSize
  {
    ChunksFromFlatten(data, 0);
    ChunksFromSizes(data, 0);
  }

  /** With DC high and CS low, each chunk write latches its bytes as data. */
  lemma {:induction false} WritesLatched(chunks: seq<seq<Byte>>)
    ensures Latched(Lines(High, Low), Writes(chunks)) == DataTokens(Flatten(chunks))
    ensures Final(Lines(High, Low), Writes(chunks)) == Lines(High, Low)
  {
    if chunks != [] {
      var rest := chunks[1..];
      WritesLatched(rest);
      assert Writes(chunks) == [Write(chunks[0])] + Writes(rest);
      LatchedCons(Lines(High, Low), Write(chunks[0]), Writes(rest));
      DataTokensAppend(chunks[0], Flatten(rest));
    }
  }

  /** The opening of send_command_with_data latches the command byte and
      leaves DC and CS low. */
  lemma HeadLatched(l: Lines, c: Byte)
    ensures Latched(l, [Set(CsPin, Low), Set(DcPin, Low), Write([c])]) == [CommandByte(c)]
    ensures Final(l, [Set(CsPin, Low), Set(DcPin, Low), Write([c])]) == Lines(Low, Low)
  {
    var head := [Set(CsPin, Low), Set(DcPin, Low), Write([c])];
    LatchedCons(l, Set(CsPin, Low), head[1..]);
    LatchedCons(Lines(l.dc, Low), Set(DcPin, Low), head[2..]);
    LatchedCons(Lines(Low, Low), Write([c]), []);
  }

  lemma NoDataLatched(l: Lines, c: Byte)
    ensures Latched(l, CommandWithData(c, NoData).events) == [CommandByte(c)]
    ensures Final(l, CommandWithData(c, NoData).events) == Lines(Low, High)
  {
    var head := [Set(CsPin, Low), Set(DcPin, Low), Write([c])];
    HeadLatched(l, c);
    LatchedAppend(l, head, [Set(CsPin, High)]);
    LatchedCons(Lines(Low, Low), Set(CsPin, High), []);
  }

  lemma IntDataLatched(l: Lines, c: Byte, v: int)
    ensures 0 <= v < 256 ==>
      Latched(l, CommandWithData(c, IntData(v)).events) == [CommandByte(c), DataByte(v)]
      && Final(l, CommandWithData(c, IntData(v)).events) == Lines(High, High)
    ensures !(0 <= v < 256) ==>
      Latched(l, CommandWithData(c, IntData(v)).events) == [CommandByte(c)]
      && Final(l, CommandWithData(c, IntData(v)).events) == Lines(High, Low)
  {
    var head := [Set(CsPin, Low), Set(DcPin, Low), Write([c])];
    HeadLatched(l, c);
    if 0 <= v < 256 {
      var tail := [Set(DcPin, High), Write([v]), Set(CsPin, High)];
      LatchedAppend(l, head, tail);
      LatchedCons(Lines(Low, Low), Set(DcPin, High), tail[1..]);
      LatchedCons(Lines(High, Low), Write([v]), tail[2..]);
      LatchedCons(Lines(High, Low), Set(CsPin, High), []);
    } else {
      LatchedAppend(l, head, [Set(DcPin, High)]);
      LatchedCons(Lines(Low, Low), Set(DcPin, High), []);
    }
  }

  lemma BytesLatched(l: Lines, c: Byte, s: seq<Byte>)
    ensures Latched(l, CommandWithData(c, Bytes(s)).events) == [CommandByte(c)] + DataTokens(s)
    ensures Final(l, CommandWithData(c, Bytes(s)).events) == Lines(High, High)
  {
    var head := [Set(CsPin, Low), Set(DcPin, Low), Write([c])];
    var w := Writes(Chunks(s));
    var tail := [Set(DcPin, High)] + (w + [Set(CsPin, High)]);
    assert CommandWithData(c, Bytes(s)).events == head + tail;
    HeadLatched(l, c);
    LatchedAppend(l, head, tail);
    LatchedCons(Lines(Low, Low), Set(DcPin, High), w + [Set(CsPin, High)]);
    LatchedAppend(Lines(High, Low), w, [Set(CsPin, High)]);
    WritesLatched(Chunks(s));
    ChunksSpec(s);
    LatchedCons(Lines(High, Low), Set(CsPin, High), []);
  }

  /** send_command_with_data latches its command byte and then exactly the
      bytes of its payload as data, and ends with CS high; it raises exactly
      for an int that is not a byte, and then has latched only the command
      and left CS low. */
  lemma CommandWithDataLatched(l: Lines, c: Byte, p: Payload)
    ensures CommandWithData(c, p).outcome.Raised? <==> p.IntData? && !(0 <= p.v < 256)
    ensures CommandWithData(c, p).outcome.Raised? ==>
      CommandWithData(c, p).outcome == Raised(ByteOutOfRange)
      && Latched(l, CommandWithData(c, p).events) == [CommandByte(c)]
      && Final(l, CommandWithData(c, p).events) == Lines(High, Low)
    ensures CommandWithData(c, p).outcome == Done ==>
      Latched(l, CommandWithData(c, p).events) == [CommandByte(c)] + DataTokens(PayloadBytes(p))
      && Final(l, CommandWithData(c, p).events).cs == High
  {
    match p
    case NoData => NoDataLatched(l, c);
    case IntData(v) => IntDataLatched(l, c, v);
    case Bytes(s) => BytesLatched(l, c, s);
  }

  /** What wait_until_idle does from its k-th reading on: it only sleeps,
      10 ms at a time; every reading it sleeps after is low and comes no
      later than the timeout; it returns on a high reading and raises on a
      low one past the timeout. */
  lemma {:induction false} WaitFromFacts(busy: seq<Event> -> Level, h: seq<Event>, timeout: int, k: nat)
    ensures WaitFrom(busy, h, timeout, k).events == Repeat(Delay(10), |WaitFrom(busy, h, timeout, k).events|)
    ensures forall j | k <= j < k + |WaitFrom(busy, h, timeout, k).events| ::
      busy(h + Repeat(Delay(10), j)) == Low && 10 * j <= timeout
    ensures WaitFrom(busy, h, timeout, k).outcome == Done ==>
      busy(h + Repeat(Delay(10), k + |WaitFrom(busy, h, timeout, k).events|)) == High
    ensures WaitFrom(busy, h, timeout, k).outcome.Raised? ==>
      WaitFrom(busy, h, timeout, k).outcome == Raised(BusyTimeout)
      && busy(h + Repeat(Delay(10), k + |WaitFrom(busy, h, timeout, k).events|)) == Low
      && 10 * (k + |WaitFrom(busy, h, timeout, k).events|) > timeout
    decreases WaitMeasure(timeout, k)
  {
    if busy(h + Repeat(Delay(10), k)) == Low && 10 * k <= timeout {
      WaitFromFacts(busy, h, timeout, k + 1);
      var n := |WaitFrom(busy, h, timeout, k + 1).events|;
      assert [Delay(10)] + Repeat(Delay(10), n) == Repeat(Delay(10), n + 1);
    }
  }

  /** wait_until_idle(timeout) after history h returns exactly when its last
      reading was high (busy is active low) and otherwise raises the busy
      timeout, once more than timeout ms have passed; it sleeps 10 ms after
      each low reading that came within the timeout, and so makes at most
      timeout / 10 + 1 sleeps. */
  lemma WaitSpec(busy: seq<Event> -> Level, h: seq<Event>, timeout: int)
    ensures Wait(busy, h, timeout).events == Repeat(Delay(10), |Wait(busy, h, timeout).events|)
    ensures Elapsed(Wait(busy, h, timeout).events) == 10 * |Wait(busy, h, timeout).events|
    ensures forall j | 0 <= j < |Wait(busy, h, timeout).events| ::
      busy(h + Repeat(Delay(10), j)) == Low && 10 * j <= timeout
    ensures Wait(busy, h, timeout).outcome == Done <==> busy(h + Wait(busy, h, timeout).events) == High
    ensures Wait(busy, h, timeout).outcome.Raised? ==>
      Wait(busy, h, timeout).outcome == Raised(BusyTimeout) && 10 * |Wait(busy, h, timeout).events| > timeout
    ensures |Wait(busy, h, timeout).events| <= if timeout < 0 then 0 else timeout / 10 + 1
  {
    var w := Wait(busy, h, timeout);
    WaitFromFacts(busy, h, timeout, 0);
    ElapsedRepeat(10, |w.events|);
    if |w.events| > 0 {
      assert busy(h + Repeat(Delay(10), |w.events| - 1)) == Low;
    }
  }

  /** One low reading within the timeout: wait_until_idle sleeps 10 ms and
      reads again. */
  lemma WaitAdvance(busy: seq<Event> -> Level, h: seq<Event>, timeout: int, k: nat)
    requires busy(h + Repeat(Delay(10), k)) == Low && 10 * k <= timeout
    requires Wait(busy, h, timeout).events == Repeat(Delay(10), k) + WaitFrom(busy, h, timeout, k).events
    requires Wait(busy, h, timeout).outcome == WaitFrom(busy, h, timeout, k).outcome
    ensures Wait(busy, h, timeout).events == Repeat(Delay(10), k + 1) + WaitFrom(busy, h, timeout, k + 1).events
    ensures Wait(busy, h, timeout).outcome == WaitFrom(busy, h, timeout, k + 1).outcome
  {
    var rest := WaitFrom(busy, h, timeout, k + 1).events;
    assert WaitFrom(busy, h, timeout, k).events == [Delay(10)] + rest;
    assert Repeat(Delay(10), k) + ([Delay(10)] + rest) == Repeat(Delay(10), k + 1) + rest;
  }

  /** A high reading, or a low one past the timeout, ends the wait. */
  lemma WaitStops(busy: seq<Event> -> Level, h: seq<Event>, timeout: int, k: nat)
    requires busy(h + Repeat(Delay(10), k)) == High || 10 * k > timeout
    requires Wait(busy, h, timeout).events == Repeat(Delay(10), k) + WaitFrom(busy, h, timeout, k).events
    requires Wait(busy, h, timeout).outcome == WaitFrom(busy, h, timeout, k).outcome
    ensures Wait(busy, h, timeout).events == Repeat(Delay(10), k)
    ensures Wait(busy, h, timeout).outcome
      == if busy(h + Repeat(Delay(10), k)) == High then Done else Raised(BusyTimeout)
  {
    assert Repeat(Delay(10), k) + [] == Repeat(Delay(10), k);
  }

  /** Delays latch nothing and leave the lines alone. */
  lemma {:induction false} DelaysLatched(l: Lines, n: nat)
    ensures Latched(l, Repeat(Delay(10), n)) == []
    ensures Final(l, Repeat(Delay(10), n)) == l
  {
    if n > 0 {
      assert Repeat(Delay(10), n) == [Delay(10)] + Repeat(Delay(10), n - 1);
      LatchedCons(l, Delay(10), Repeat(Delay(10), n - 1));
      DelaysLatched(l, n - 1);
    }
  }

  /** A wait latches nothing and leaves the lines alone. */
  lemma WaitLatched(l: Lines, busy: seq<Event> -> Level, h: seq<Event>, timeout: int)
    ensures Latched(l, Wait(busy, h, timeout).events) == []
    ensures Final(l, Wait(busy, h, timeout).events) == l
  {
    WaitSpec(busy, h, timeout);
    DelaysLatched(l, |Wait(busy, h, timeout).events|);
  }

  /** The low byte and the high byte decode, as low + 256 * high, to the low
      16 bits of v: to v itself for 0 <= v < 65536. */
  lemma Le16Decodes(v: int)
    ensures Word(Le16(v)[0], Le16(v)[1]) == v % 65536
    ensures 0 <= v < 65536 ==> Word(Le16(v)[0], Le16(v)[1]) == v
  {
    var q, r := v / 256, v % 256;
    var q2, r2 := q / 256, q % 256;
    assert v == 65536 * q2 + (256 * r2 + r);
    assert 0 <= 256 * r2 + r < 65536;
  }

  /** set_window raises exactly when a column x // 8 is not a byte, before
      any event; otherwise the controller receives 0x44 with the two byte
      columns and 0x45 with the two little-endian rows. */
  lemma SetWindowSpec(l: Lines, xStart: int, yStart: int, xEnd: int, yEnd: int)
    ensures SetWindowTrace(xStart, yStart, xEnd, yEnd).outcome == Done <==> 0 <= xStart < 2048 && 0 <= xEnd < 2048
    ensures SetWindowTrace(xStart, yStart, xEnd, yEnd).outcome.Raised? ==>
      SetWindowTrace(xStart, yStart, xEnd, yEnd) == Trace([], Raised(ByteOutOfRange))
    ensures SetWindowTrace(xStart, yStart, xEnd, yEnd).outcome == Done ==>
      Latched(l, SetWindowTrace(xStart, yStart, xEnd, yEnd).events)
      == [CommandByte(0x44), DataByte(xStart / 8), DataByte(xEnd / 8), CommandByte(0x45)] + DataTokens(Le16(yStart) + Le16(yEnd))
  {
    if 0 <= xStart < 2048 && 0 <= xEnd < 2048 {
      var x := CommandWithData(0x44, Bytes([xStart / 8, xEnd / 8])).events;
      var y := CommandWithData(0x45, Bytes(Le16(yStart) + Le16(yEnd))).events;
      BytesLatched(l, 0x44, [xStart / 8, xEnd / 8]);
      LatchedAppend(l, x, y);
      BytesLatched(Final(l, x), 0x45, Le16(yStart) + Le16(yEnd));
    }
  }

  /** set_cursor raises exactly when the column x // 8 is not a byte, once
      0x4E has been latched and with CS left low; otherwise the controller
      receives 0x4E with the byte column and 0x4F with the little-endian
      row. */
  lemma SetCursorSpec(l: Lines, x: int, y: int)
    ensures SetCursorTrace(x, y).outcome == Done <==> 0 <= x < 2048
    ensures SetCursorTrace(x, y).outcome.Raised? ==>
      SetCursorTrace(x, y).outcome == Raised(ByteOutOfRange)
      && Latched(l, SetCursorTrace(x, y).events) == [CommandByte(0x4E)]
      && Final(l, SetCursorTrace(x, y).events).cs == Low
    ensures SetCursorTrace(x, y).outcome == Done ==>
      Latched(l, SetCursorTrace(x, y).events) == [CommandByte(0x4E), DataByte(x / 8), CommandByte(0x4F)] + DataTokens(Le16(y))
  {
    var c := CommandWithData(0x4E, IntData(x / 8)).events;
    IntDataLatched(l, 0x4E, x / 8);
    if 0 <= x < 2048 {
      LatchedAppend(l, c, CommandWithData(0x4F, Bytes(Le16(y))).events);
      BytesLatched(Final(l, c), 0x4F, Le16(y));
    }
  }

  /** A step followed by a wait latches what the step latches. */
  lemma ThenWaitLatched(l: Lines, t: Trace<UcError>, more: seq<Event>, busy: seq<Event> -> Level, h: seq<Event>)
    requires t.outcome == Done
    ensures Latched(l, ThenWait(t, more, busy, h).events) == Latched(l, t.events) + Latched(Final(l, t.events), more)
    ensures Final(l, ThenWait(t, more, busy, h).events) == Final(Final(l, t.events), more)
    ensures ThenWait(t, more, busy, h).outcome == Wait(busy, h + (t.events + more), DefaultTimeout).outcome
  {
    var pre := t.events + more;
    var w := Wait(busy, h + pre, DefaultTimeout);
    LatchedAppend(l, pre, w.events);
    LatchedAppend(l, t.events, more);
    WaitLatched(Final(l, pre), busy, h + pre, DefaultTimeout);
  }

  /** refresh latches DISPLAY_REFRESH alone and ends as its wait ends. */
  lemma RefreshSpec(l: Lines, busy: seq<Event> -> Level, h: seq<Event>)
    ensures Latched(l, RefreshTrace(busy, h).events) == [CommandByte(0x12)]
    ensures RefreshTrace(busy, h).outcome == Wait(busy, h + CommandWithData(0x12, NoData).events, DefaultTimeout).outcome
  {
    var more := CommandWithData(0x12, NoData).events;
    assert [] + more == more;
    ThenWaitLatched(l, Trace([], Done), more, busy, h);
    NoDataLatched(l, 0x12);
  }

  /** refresh after history h: 0x12, then a wait after it. */
  lemma RefreshUnfold(busy: seq<Event> -> Level, h: seq<Event>)
    ensures RefreshTrace(busy, h).events
      == CommandWithData(0x12, NoData).events + Wait(busy, h + CommandWithData(0x12, NoData).events, DefaultTimeout).events
    ensures RefreshTrace(busy, h).outcome
      == Wait(busy, h + CommandWithData(0x12, NoData).events, DefaultTimeout).outcome
  {
    var f := CommandWithData(0x12, NoData).events;
    assert [] + f == f;
  }

  /** The window display_frame sets: columns 0 to 51, rows 0 to 239. */
  const FrameWindow: seq<Event> :=
    CommandWithData(0x44, Bytes([0x00, 0x33])).events + CommandWithData(0x45, Bytes([0x00, 0x00, 0xEF, 0x00])).events

  /** The cursor display_frame sets: column 0, row 0. */
  const FrameCursor: seq<Event> :=
    CommandWithData(0x4E, IntData(0x00)).events + CommandWithData(0x4F, Bytes([0x00, 0x00])).events

  /** The commands display_frame sends for a buffer of the right length,
      before its final wait. */
  function FrameCommands(buffer: seq<Byte>): seq<Event>
  {
    FrameWindow + FrameCursor + CommandWithData(0x24, Bytes(buffer)).events + CommandWithData(0x12, NoData).events
  }

  /** set_window(0, 0, EPD_WIDTH - 1, EPD_HEIGHT - 1) sends the columns 0
      and 51 and the rows 0 and 239. */
  lemma FrameWindowBytes()
    ensures SetWindowTrace(0, 0, EpdWidth - 1, EpdHeight - 1) == Trace(FrameWindow, Done)
  {
    assert Le16(0) + Le16(EpdHeight - 1) == [0x00, 0x00, 0xEF, 0x00];
  }

  /** set_cursor(0, 0) sends column 0 and row 0. */
  lemma FrameCursorBytes()
    ensures SetCursorTrace(0, 0) == Trace(FrameCursor, Done)
  {
    assert Le16(0) == [0x00, 0x00];
  }

  /** On a buffer of the right length display_frame sends 0x44 [0, 51],
      0x45 [0, 0, 239, 0], 0x4E 0, 0x4F [0, 0], 0x24 with the buffer and
      0x12, in that order, then waits. */
  lemma DisplayFrameSends(buffer: seq<Byte>, busy: seq<Event> -> Level, h: seq<Event>)
    requires |buffer| == FrameBytes
    ensures DisplayFrameTrace(buffer, busy, h).events
      == FrameCommands(buffer) + Wait(busy, h + FrameCommands(buffer), DefaultTimeout).events
    ensures DisplayFrameTrace(buffer, busy, h).outcome == Wait(busy, h + FrameCommands(buffer), DefaultTimeout).outcome
  {
    FrameWindowBytes();
    FrameCursorBytes();
  }

  /** The last step of display_frame: after the window, the cursor and the
      buffer, a refresh completes the trace. */
  lemma DisplayFrameStep(log: seq<Event>, log0: seq<Event>, prev: seq<Event>, buffer: seq<Byte>,
                         busy: seq<Event> -> Level, outcome: Outcome<UcError>)
    requires |buffer| == FrameBytes
    requires prev == log0 + FrameWindow + FrameCursor + CommandWithData(0x24, Bytes(buffer)).events
    requires log == prev + RefreshTrace(busy, prev).events && outcome == RefreshTrace(busy, prev).outcome
    ensures log == log0 + DisplayFrameTrace(buffer, busy, log0).events
    ensures outcome == DisplayFrameTrace(buffer, busy, log0).outcome
  {
    var e := CommandWithData(0x24, Bytes(buffer)).events;
    var f := CommandWithData(0x12, NoData).events;
    var w := Wait(busy, prev + f, DefaultTimeout);
    RefreshUnfold(busy, prev);
    DisplayFrameSends(buffer, busy, log0);
    Regroup(log, log0, FrameWindow, FrameCursor, e, f, w.events);
    assert FrameCommands(buffer) == FrameWindow + FrameCursor + e + f;
  }

  /** display_frame raises the length error exactly for a buffer of the
      wrong length, and then sends nothing; on the right length it can only
      raise the busy timeout. */
  lemma DisplayFrameRejects(buffer: seq<Byte>, busy: seq<Event> -> Level, h: seq<Event>)
    ensures DisplayFrameTrace(buffer, busy, h).outcome == Raised(InvalidBufferLength) <==> |buffer| != FrameBytes
    ensures |buffer| != FrameBytes ==> DisplayFrameTrace(buffer, busy, h).events == []
    ensures |buffer| == FrameBytes ==>
      DisplayFrameTrace(buffer, busy, h).outcome in {Done, Raised(BusyTimeout)}
  {
    if |buffer| == FrameBytes {
      DisplayFrameSends(buffer, busy, h);
      WaitSpec(busy, h + FrameCommands(buffer), DefaultTimeout);
    }
  }

  /** What the controller receives from the window and the cursor of
      display_frame. */
  const FrameWindowTokens: seq<Token> :=
    [CommandByte(0x44)] + DataTokens([0x00, 0x33]) + [CommandByte(0x45)] + DataTokens([0x00, 0x00, 0xEF, 0x00])
  const FrameCursorTokens: seq<Token> :=
    [CommandByte(0x4E)] + DataTokens([0x00]) + [CommandByte(0x4F)] + DataTokens([0x00, 0x00])

  lemma FrameWindowLatched(l: Lines)
    ensures Latched(l, FrameWindow) == FrameWindowTokens
  {
    var a := CommandWithData(0x44, Bytes([0x00, 0x33])).events;
    LatchedAppend(l, a, CommandWithData(0x45, Bytes([0x00, 0x00, 0xEF, 0x00])).events);
    BytesLatched(l, 0x44, [0x00, 0x33]);
    BytesLatched(Final(l, a), 0x45, [0x00, 0x00, 0xEF, 0x00]);
  }

  lemma FrameCursorLatched(l: Lines)
    ensures Latched(l, FrameCursor) == FrameCursorTokens
  {
    var a := CommandWithData(0x4E, IntData(0x00)).events;
    LatchedAppend(l, a, CommandWithData(0x4F, Bytes([0x00, 0x00])).events);
    IntDataLatched(l, 0x4E, 0x00);
    BytesLatched(Final(l, a), 0x4F, [0x00, 0x00]);
  }

  /** The commands of display_frame latch the window, the cursor, 0x24
      with the buffer, and 0x12. */
  lemma FrameCommandsLatched(l: Lines, buffer: seq<Byte>)
    ensures Latched(l, FrameCommands(buffer))
      == FrameWindowTokens + FrameCursorTokens + [CommandByte(0x24)] + DataTokens(buffer) + [CommandByte(0x12)]
  {
    var e := CommandWithData(0x24, Bytes(buffer)).events;
    var f := CommandWithData(0x12, NoData).events;
    LatchedAppend(l, FrameWindow + FrameCursor + e, f);
    LatchedAppend(l, FrameWindow + FrameCursor, e);
    LatchedAppend(l, FrameWindow, FrameCursor);
    FrameWindowLatched(l);
    FrameCursorLatched(Final(l, FrameWindow));
    BytesLatched(Final(l, FrameWindow + FrameCursor), 0x24, buffer);
    NoDataLatched(Final(l, FrameWindow + FrameCursor + e), 0x12);
  }

  /** What the controller receives from display_frame on a buffer of the
      right length, however its wait ends. */
  lemma DisplayFrameLatched(l: Lines, buffer: seq<Byte>, busy: seq<Event> -> Level, h: seq<Event>)
    requires |buffer| == FrameBytes
    ensures Latched(l, DisplayFrameTrace(buffer, busy, h).events)
      == FrameWindowTokens + FrameCursorTokens + [CommandByte(0x24)] + DataTokens(buffer) + [CommandByte(0x12)]
  {
    DisplayFrameSends(buffer, busy, h);
    var pre := FrameCommands(buffer);
    LatchedAppend(l, pre, Wait(busy, h + pre, DefaultTimeout).events);
    FrameCommandsLatched(l, buffer);
    WaitLatched(Final(l, pre), busy, h + pre, DefaultTimeout);
  }

  /** init's first step: the power setting and POWER_ON. */
  lemma PowerOnLatched(l: Lines)
    ensures Latched(l, CommandEvents(0x01) + DataEvents(PowerSetting) + CommandEvents(0x04))
      == [CommandByte(0x01)] + DataTokens(PowerSetting) + [CommandByte(0x04)]
  {
    var a, b := CommandEvents(0x01), DataEvents(PowerSetting);
    LatchedAppend(l, a + b, CommandEvents(0x04));
    LatchedAppend(l, a, b);
    CommandLatched(l, 0x01);
    DataLatched(Final(l, a), PowerSetting);
    CommandLatched(Final(l, a + b), 0x04);
  }

  /** init's last step: the white frame through write_to_buffer and a
      refresh. */
  lemma WhiteFrameLatched(l: Lines)
    ensures Latched(l, WriteToBufferEvents(FullWhite) + CommandEvents(0x12))
      == [CommandByte(0x10)] + DataTokens(FullWhite) + [CommandByte(0x12)]
  {
    var a, b := CommandEvents(0x10), DataEvents(FullWhite);
    LatchedAppend(l, a + b, CommandEvents(0x12));
    LatchedAppend(l, a, b);
    CommandLatched(l, 0x10);
    DataLatched(Final(l, a), FullWhite);
    CommandLatched(Final(l, a + b), 0x12);
  }

  /** A wait after a step that returned or timed out also returns or times
      out. */
  lemma ThenWaitOutcome(t: Trace<UcError>, more: seq<Event>, busy: seq<Event> -> Level, h: seq<Event>)
    requires t.outcome in {Done, Raised(BusyTimeout)}
    ensures ThenWait(t, more, busy, h).outcome in {Done, Raised(BusyTimeout)}
  {
    if t.outcome == Done {
      WaitSpec(busy, h + (t.events + more), DefaultTimeout);
    }
  }

  /** init can only raise the busy timeout. */
  lemma InitOutcome(busy: seq<Event> -> Level, h: seq<Event>)
    ensures InitTrace(busy, h).outcome in {Done, Raised(BusyTimeout)}
  {
    var t0 := Trace([], Done);
    var t1 := ThenWait(t0, CommandEvents(0x01) + DataEvents(PowerSetting) + CommandEvents(0x04), busy, h);
    var t2 := ThenWait(t1, CommandEvents(0x12), busy, h);
    ThenWaitOutcome(t0, CommandEvents(0x01) + DataEvents(PowerSetting) + CommandEvents(0x04), busy, h);
    ThenWaitOutcome(t1, CommandEvents(0x12), busy, h);
    ThenWaitOutcome(t2, WriteToBufferEvents(FullWhite) + CommandEvents(0x12), busy, h);
  }

  /** What a step and the wait after it deliver: the step's tokens, then
      those of the events before the wait. */
  lemma ThenWaitTokens(l: Lines, t: Trace<UcError>, more: seq<Event>, busy: seq<Event> -> Level, h: seq<Event>,
                       a: seq<Token>, b: seq<Token>)
    requires t.outcome == Done
    requires Latched(l, t.events) == a && Latched(Final(l, t.events), more) == b
    ensures Latched(l, ThenWait(t, more, busy, h).events) == a + b
  {
    ThenWaitLatched(l, t, more, busy, h);
  }

  /** The regrouping of init's tokens, for any power setting and frame. */
  lemma InitTokens(power: seq<Token>, frame: seq<Token>)
    ensures [CommandByte(0x01)] + power + [CommandByte(0x04)] + [CommandByte(0x12)]
            + ([CommandByte(0x10)] + frame + [CommandByte(0x12)])
         == [CommandByte(0x01)] + power + [CommandByte(0x04), CommandByte(0x12)]
            + [CommandByte(0x10)] + frame + [CommandByte(0x12)]
  {
  }

  /** When init returns, the controller has received the power setting,
      POWER_ON, DISPLAY_REFRESH, an all-white frame after
      DISPLAY_START_TRANSMISSION_1, and DISPLAY_REFRESH, in that order. */
  lemma InitLatched(l: Lines, busy: seq<Event> -> Level, h: seq<Event>)
    requires InitTrace(busy, h).outcome == Done
    ensures Latched(l, InitTrace(busy, h).events)
      == [CommandByte(0x01)] + DataTokens(PowerSetting) + [CommandByte(0x04), CommandByte(0x12)]
         + [CommandByte(0x10)] + DataTokens(FullWhite) + [CommandByte(0x12)]
  {
    var p1 := CommandEvents(0x01) + DataEvents(PowerSetting) + CommandEvents(0x04);
    var p2 := CommandEvents(0x12);
    var p3 := WriteToBufferEvents(FullWhite) + CommandEvents(0x12);
    var t0 := Trace([], Done);
    var t1 := ThenWait(t0, p1, busy, h);
    var t2 := ThenWait(t1, p2, busy, h);
    assert t1.outcome == Done && t2.outcome == Done;
    var k1 := [CommandByte(0x01)] + DataTokens(PowerSetting) + [CommandByte(0x04)];
    var k3 := [CommandByte(0x10)] + DataTokens(FullWhite) + [CommandByte(0x12)];
    PowerOnLatched(l);
    ThenWaitTokens(l, t0, p1, busy, h, [], k1);
    assert [] + k1 == k1;
    CommandLatched(Final(l, t1.events), 0x12);
    ThenWaitTokens(l, t1, p2, busy, h, k1, [CommandByte(0x12)]);
    WhiteFrameLatched(Final(l, t2.events));
    ThenWaitTokens(l, t2, p3, busy, h, k1 + [CommandByte(0x12)], k3);
    assert InitTrace(busy, h) == ThenWait(t2, p3, busy, h);
    InitTokens(DataTokens(PowerSetting), DataTokens(FullWhite));
  }

  /** sleep after history h: 0x02 and a wait, then 0x07 0xA5 unless the
      wait raised. */
  lemma SleepUnfold(busy: seq<Event> -> Level, h: seq<Event>)
    ensures var off := CommandWithData(0x02, NoData).events;
      var w := Wait(busy, h + off, DefaultTimeout);
      SleepTrace(busy, h) == if w.outcome.Raised? then Trace(off + w.events, w.outcome)
        else Trace(off + w.events + CommandWithData(0x07, IntData(0xA5)).events, Done)
  {
    var off := CommandWithData(0x02, NoData).events;
    assert [] + off == off;
  }

  /** sleep can only raise the busy timeout; when it returns, the controller
      has received POWER_OFF, then DEEP_SLEEP with its check code 0xA5. */
  lemma SleepSpec(l: Lines, busy: seq<Event> -> Level, h: seq<Event>)
    ensures SleepTrace(busy, h).outcome.Raised? ==> SleepTrace(busy, h).outcome == Raised(BusyTimeout)
    ensures SleepTrace(busy, h).outcome == Done ==>
      Latched(l, SleepTrace(busy, h).events) == [CommandByte(0x02), CommandByte(0x07), DataByte(0xA5)]
  {
    var off := CommandWithData(0x02, NoData).events;
    var w := Wait(busy, h + off, DefaultTimeout);
    var deep := CommandWithData(0x07, IntData(0xA5)).events;
    SleepUnfold(busy, h);
    WaitSpec(busy, h + off, DefaultTimeout);
    if w.outcome == Done {
      LatchedAppend(l, off, w.events);
      NoDataLatched(l, 0x02);
      WaitLatched(Final(l, off), busy, h + off, DefaultTimeout);
      assert Latched(l, off + w.events) == [CommandByte(0x02)];
      LatchedAppend(l, off + w.events, deep);
      IntDataLatched(Final(l, off + w.events), 0x07, 0xA5);
    }
  }

  /** The stripes come in blocks of eight bytes, black (0x00) then white
      (0xFF), starting with black at every multiple of 16. */
  lemma StripesBlocks(n: nat, k: nat)
    requires 16 * k + 16 <= n
    ensures Stripes(n)[16 * k .. 16 * k + 8] == Fill(0x00, 8)
    ensures Stripes(n)[16 * k + 8 .. 16 * k + 16] == Fill(0xFF, 8)
  {
    forall i | 16 * k <= i < 16 * k + 8
      ensures Stripes(n)[i] == 0x00
    {
      assert i / 8 == 2 * k;
    }
    forall i | 16 * k + 8 <= i < 16 * k + 16
      ensures Stripes(n)[i] == 0xFF
    {
      assert i / 8 == 2 * k + 1;
    }
  }

  /** FULL_WHITE and FULL_BLACK are frames of 52 * 240 bytes, all 0xFF and
      all 0x00, and display_frame accepts them; so does the stripe pattern
      of test_pattern. */
  lemma FramesAccepted(busy: seq<Event> -> Level, h: seq<Event>)
    ensures FrameBytes == 52 * 240 == 12480
    ensures |FullWhite| == |FullBlack| == |Stripes(FrameBytes)| == FrameBytes
    ensures forall i | 0 <= i < FrameBytes :: FullWhite[i] == 0xFF && FullBlack[i] == 0x00
    ensures DisplayFrameTrace(FullWhite, busy, h).outcome != Raised(InvalidBufferLength)
    ensures DisplayFrameTrace(FullBlack, busy, h).outcome != Raised(InvalidBufferLength)
    ensures DisplayFrameTrace(Stripes(FrameBytes), busy, h).outcome != Raised(InvalidBufferLength)
  {
    DisplayFrameRejects(FullWhite, busy, h);
    DisplayFrameRejects(FullBlack, busy, h);
    DisplayFrameRejects(Stripes(FrameBytes), busy, h);
  }

  /** reset leaves the reset line high after holding it low for 200 ms, with
      10 ms high before and after. */
  lemma ResetPulse(start: Level)
    ensures LevelAfter(ResetPin, start, ResetEvents) == High
    ensures TimeAtLevel(ResetPin, Low, start, ResetEvents) == 200
    ensures TimeAtLevel(ResetPin, High, start, ResetEvents) == 20
  {
    var r := ResetEvents;
    forall m | 0 < m <= 6
      ensures r[..m][..m - 1] == r[..m - 1]
    {
    }
    assert LevelAfter(ResetPin, start, r[..1]) == High && TimeAtLevel(ResetPin, Low, start, r[..1]) == 0;
    assert TimeAtLevel(ResetPin, High, start, r[..1]) == 0;
    assert LevelAfter(ResetPin, start, r[..2]) == High && TimeAtLevel(ResetPin, High, start, r[..2]) == 10;
    assert LevelAfter(ResetPin, start, r[..3]) == Low && TimeAtLevel(ResetPin, Low, start, r[..3]) == 0;
    assert TimeAtLevel(ResetPin, High, start, r[..3]) == 10;
    assert TimeAtLevel(ResetPin, Low, start, r[..4]) == 200 && TimeAtLevel(ResetPin, High, start, r[..4]) == 10;
    assert LevelAfter(ResetPin, start, r[..5]) == High;
    assert TimeAtLevel(ResetPin, Low, start, r[..5]) == 200 && TimeAtLevel(ResetPin, High, start, r[..5]) == 10;
    assert r[..6] == r;
  }
}
