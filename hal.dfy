/** The hardware abstraction both drivers run on: GPIO output lines, one SPI
    bus, a millisecond sleep and a busy input line. Every effect a driver has
    on the panel is an event appended to a log. The busy line reads a fixed
    function of that log: the panel's answer may depend on everything the
    driver has sent and on how long it has slept (the sum of the sleeps in
    the log, Elapsed). */
module Hal {

  /** Level of a GPIO line (0 or 1 in the drivers). */
  datatype Level = Low | High

  /** One byte on the SPI bus (an element of a bytearray). */
  type Byte = b: int | 0 <= b < 256

  /** The output lines the drivers drive. */
  datatype Pin = ResetPin | DcPin | CsPin

  /** One effect on the hardware. */
  datatype Event =
    | Set(pin: Pin, level: Level)   // pin.value(level)
    | Write(bytes: seq<Byte>)        // one spi.write call
    | Delay(ms: nat)                // one sleep of ms milliseconds

  datatype Option<+T> = None | Some(value: T)

  /** Result of a driver operation: it returns, or it raises. */
  datatype Outcome<+E> = Done | Raised(error: E)

  /** What an operation does to the hardware and how it ends. */
  datatype Trace<+E> = Trace(events: seq<Event>, outcome: Outcome<E>)

  /** Runs a, then b unless a raised: an exception skips the rest. */
  function Then<E>(a: Trace<E>, b: Trace<E>): Trace<E>
  {
    if a.outcome.Raised? then a else Trace(a.events + b.events, b.outcome)
  }

  /** The value low + 256 * high of a little-endian pair of bytes. */
  function Word(low: int, high: int): int
  {
    low + 256 * high
  }

  function DelayOf(e: Event): nat
  {
    if e.Delay? then e.ms else 0
  }

  /** Milliseconds spent sleeping in a log; writes and pin changes take no time. */
  function Elapsed(log: seq<Event>): nat
  {
    if log == [] then 0 else Elapsed(log[..|log| - 1]) + DelayOf(log[|log| - 1])
  }

  lemma {:induction false} ElapsedAppend(a: seq<Event>, b: seq<Event>)
    ensures Elapsed(a + b) == Elapsed(a) + Elapsed(b)
  {
    if b == [] {
      assert a + b == a;
    } else {
      ElapsedAppend(a, b[..|b| - 1]);
      assert (a + b)[..|a + b| - 1] == a + b[..|b| - 1];
    }
  }

  /** n copies of one event. */
  function Repeat(e: Event, n: nat): seq<Event>
  {
    seq(n, _ => e)
  }

  lemma {:induction false} ElapsedRepeat(ms: nat, n: nat)
    ensures Elapsed(Repeat(Delay(ms), n)) == ms * n
  {
    if n > 0 {
      ElapsedRepeat(ms, n - 1);
      assert Repeat(Delay(ms), n)[..n - 1] == Repeat(Delay(ms), n - 1);
    }
  }

  /** The level of an output line after a log that started with it at
      start. */
  function LevelAfter(pin: Pin, start: Level, log: seq<Event>): Level
  {
    if log == [] then start
    else match log[|log| - 1]
      case Set(p, v) => if p == pin then v else LevelAfter(pin, start, log[..|log| - 1])
      case _ => LevelAfter(pin, start, log[..|log| - 1])
  }

  /** Milliseconds slept during a log while an output line was at level v. */
  function TimeAtLevel(pin: Pin, v: Level, start: Level, log: seq<Event>): nat
  {
    if log == [] then 0
    else
      var init := log[..|log| - 1];
      TimeAtLevel(pin, v, start, init) + (if LevelAfter(pin, start, init) == v then DelayOf(log[|log| - 1]) else 0)
  }

  /** n copies of the byte v. */
  function Fill(v: Byte, n: nat): (s: seq<Byte>)
    ensures |s| == n && forall i | 0 <= i < n :: s[i] == v
  {
    seq(n, _ => v)
  }

  /** A log that has grown from history log0 by acc and then by x has grown
      by acc + x: the regrouping each step of a driver method needs. */
  lemma Extend(log: seq<Event>, log0: seq<Event>, acc: seq<Event>, x: seq<Event>)
    requires log == log0 + acc + x
    ensures log == log0 + (acc + x)
  {
  }

  lemma ExtendPair(log: seq<Event>, log0: seq<Event>, acc: seq<Event>, x: seq<Event>, y: seq<Event>)
    requires log == log0 + acc + x + y
    ensures log == log0 + (acc + (x + y))
  {
  }

  lemma ExtendThree(log: seq<Event>, log0: seq<Event>, a: seq<Event>, b: seq<Event>, c: seq<Event>, d: seq<Event>)
    requires log == log0 + a + b + c + d
    ensures log == log0 + (a + b + c + d)
  {
  }

  /** The regrouping a driver method needs when four steps are followed by
      a step whose events are the fourth group's events and more. */
  lemma Regroup(log: seq<Event>, log0: seq<Event>, a: seq<Event>, b: seq<Event>, c: seq<Event>, d: seq<Event>, w: seq<Event>)
    requires log == log0 + a + b + c + (d + w)
    ensures log0 + a + b + c + d == log0 + (a + b + c + d)
    ensures log == log0 + (a + b + c + d + w)
  {
  }

  /** The platform: pins, SPI bus, clock and busy input, seen through the log. */
  class Hal {
    var log: seq<Event>
    /** The level the busy input reads after each history of events. */
    const busyLevel: seq<Event> -> Level

    constructor (busyLevel: seq<Event> -> Level)
      ensures log == [] && this.busyLevel == busyLevel
    {
      log := [];
      this.busyLevel := busyLevel;
    }

    /** ticks_ms(): the milliseconds slept so far. */
    function Now(): nat
      reads this
    {
      Elapsed(log)
    }

    /** busy.value() now. */
    function Busy(): Level
      reads this
    {
      busyLevel(log)
    }

    method SetPin(pin: Pin, level: Level)
      modifies this
      ensures log == old(log) + [Set(pin, level)]
    {
      log := log + [Set(pin, level)];
      assert log[..|log| - 1] == old(log);
    }

    method SpiWrite(bytes: seq<Byte>)
      modifies this
      ensures log == old(log) + [Write(bytes)]
    {
      log := log + [Write(bytes)];
      assert log[..|log| - 1] == old(log);
    }

    method SleepMs(ms: nat)
      modifies this
      ensures log == old(log) + [Delay(ms)]
    {
      log := log + [Delay(ms)];
      assert log[..|log| - 1] == old(log);
    }
  }
}
