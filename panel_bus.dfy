/** What the panel controller receives from a log of HAL events. The
    controller latches a byte only while chip-select is low, and takes it as
    a command when data/command-select is low and as data when it is high. */
module PanelBus {
  import opened Hal

  /** One byte as the controller latches it. */
  datatype Token = CommandByte(b: Byte) | DataByte(b: Byte)

  /** The levels of the data/command-select and chip-select lines. */
  datatype Lines = Lines(dc: Level, cs: Level)

  function Next(l: Lines, e: Event): Lines
  {
    match e
    case Set(DcPin, v) => l.(dc := v)
    case Set(CsPin, v) => l.(cs := v)
    case _ => l
  }

  /** The tokens one SPI write produces on lines l. */
  function Latch(l: Lines, bytes: seq<Byte>): seq<Token>
  {
    if l.cs == High then []
    else if l.dc == Low then seq(|bytes|, i requires 0 <= i < |bytes| => CommandByte(bytes[i]))
    else DataTokens(bytes)
  }

  function DataTokens(bytes: seq<Byte>): seq<Token>
  {
    seq(|bytes|, i requires 0 <= i < |bytes| => DataByte(bytes[i]))
  }

  /** Everything the controller latches while the log runs from lines l. */
  function Latched(l: Lines, log: seq<Event>): seq<Token>
    decreases |log|
  {
    if log == [] then []
    else (if log[0].Write? then Latch(l, log[0].bytes) else []) + Latched(Next(l, log[0]), log[1..])
  }

  /** The lines after the log has run from lines l. */
  function Final(l: Lines, log: seq<Event>): Lines
    decreases |log|
  {
    if log == [] then l else Final(Next(l, log[0]), log[1..])
  }

  lemma LatchedCons(l: Lines, e: Event, rest: seq<Event>)
    ensures Latched(l, [e] + rest) == (if e.Write? then Latch(l, e.bytes) else []) + Latched(Next(l, e), rest)
    ensures Final(l, [e] + rest) == Final(Next(l, e), rest)
  {
    assert ([e] + rest)[1..] == rest;
  }

  lemma {:induction false} LatchedAppend(l: Lines, a: seq<Event>, b: seq<Event>)
    ensures Latched(l, a + b) == Latched(l, a) + Latched(Final(l, a), b)
    ensures Final(l, a + b) == Final(Final(l, a), b)
    decreases |a|
  {
    if a == [] {
      assert a + b == b;
    } else {
      assert (a + b)[0] == a[0];
      assert (a + b)[1..] == a[1..] + b;
      LatchedAppend(Next(l, a[0]), a[1..], b);
    }
  }

  lemma DataTokensAppend(s: seq<Byte>, t: seq<Byte>)
    ensures DataTokens(s + t) == DataTokens(s) + DataTokens(t)
  {
  }
}
