/** The wire format of the Pololu Maestro serial protocol as the driver uses it:
    splitting values into 7-bit operand bytes, the command frames the driver
    builds, the reading of a byte stream as a sequence of those commands,
    and the percent-to-pulse mapping. Everything here is pure. */
module Codec {

  datatype Option<T> = None | Some(value: T)

  /** One octet on the serial line (Python's bytearray rejects anything else). */
  type Byte = b: int | 0 <= b < 256

  // Command bytes (driver.py:32-41)
  const DEVICE: Byte := 0x0C
  const SET_TARGET_CMD: Byte := 0x84            // declared by the driver, never sent
  const SET_MULTIPLE_TARGET_CMD: Byte := 0x9F   // declared by the driver, never sent
  const SET_SPEED_CMD: Byte := 0x87
  const SET_ACCELERATION_CMD: Byte := 0x89
  const SET_PWM_CMD: Byte := 0x8A
  const GET_POSITION_CMD: Byte := 0x90
  const GET_ERRORS_CMD: Byte := 0xA1
  const GO_HOME_CMD: Byte := 0xA2
  const INIT_CMD: Byte := 0xAA
  /** Set-target with its top bit cleared, as the long (addressed) form carries it. */
  const LONG_SET_TARGET: Byte := 0x04
  /** Get-moving-state with its top bit cleared; appended to the shared query buffer. */
  const MOVING_STATE_QUERY: Byte := 0x13

  // Motor target limits (driver.py:48-52)
  const HOME_PULSE: int := 6000
  const MAX_FROM_HOME: int := 2000
  const MAX_FORWARD_SPEED: int := HOME_PULSE + MAX_FROM_HOME
  const MAX_REVERSE_SPEED: int := HOME_PULSE - MAX_FROM_HOME
  const SERVO_RANGE: int := MAX_FROM_HOME * 2

  /** Largest value plus one that two 7-bit operand bytes carry. */
  const LIMIT14: int := 16384

  function Repeat(b: Byte, n: nat): seq<Byte>
  {
    seq(n, _ => b)
  }

  /** What Python 3's bytes(n) produces: n zero bytes. */
  function Zeros(n: nat): seq<Byte>
  {
    Repeat(0, n)
  }

  // ---------------------------------------------------------------------
  // 7-bit operand packing
  // ---------------------------------------------------------------------

  /** value & 0x7F on Python's unbounded two's-complement integers. */
  function LowBits(value: int): (r: Byte)
    ensures r < 128
  {
    value % 128
  }

  /** (value >> 7) & 0x7F; Python's >> floors, as Dafny's / does for a positive divisor. */
  function HighBits(value: int): (r: Byte)
    ensures r < 128
  {
    (value / 128) % 128
  }

  /** The value a low/high pair of operand bytes carries for the controller. */
  function Unpack14(low: Byte, high: Byte): int
  {
    low + 128 * high
  }

  lemma DivMod128(q: int, r: int)
    requires 0 <= r < 128
    ensures (128 * q + r) / 128 == q && (128 * q + r) % 128 == r
  {
  }

  /** Every value in the 14-bit range comes back from its two operand bytes. */
  lemma Split14RoundTrip(v: int)
    requires 0 <= v < LIMIT14
    ensures Unpack14(LowBits(v), HighBits(v)) == v
  {
    DivMod128(v / 128, v % 128);
    DivMod128(0, v / 128);
  }

  /** Every pair of 7-bit bytes is the split of exactly the value it carries. */
  lemma Unpack14RoundTrip(low: Byte, high: Byte)
    requires low < 128 && high < 128
    ensures 0 <= Unpack14(low, high) < LIMIT14
    ensures LowBits(Unpack14(low, high)) == low && HighBits(Unpack14(low, high)) == high
  {
    DivMod128(high, low);
    DivMod128(0, high);
  }

  /** Bits above the 14th are silently dropped: any integer, negative ones
      included, is sent as its residue modulo 2^14. */
  lemma SplitKeepsLow14Bits(v: int)
    ensures LowBits(v) == LowBits(v % LIMIT14) && HighBits(v) == HighBits(v % LIMIT14)
  {
    var q, r := v / LIMIT14, v % LIMIT14;
    assert v == 128 * (128 * q + r / 128) + r % 128;
    DivMod128(128 * q + r / 128, r % 128);
    DivMod128(q, r / 128);
    DivMod128(r / 128, r % 128);
    DivMod128(0, r / 128);
  }

  /** The two bytes get_position reads, combined as low + (high << 8). */
  function Position16(low: Byte, high: Byte): (p: int)
    ensures 0 <= p < 65536
  {
    low + 256 * high
  }

  /** Position16 is a bijection between byte pairs and 16-bit values. */
  lemma Position16RoundTrip(p: int, low: Byte, high: Byte)
    requires 0 <= p < 65536
    ensures Position16(p % 256, p / 256) == p
    ensures Position16(low, high) == p <==> low == p % 256 && high == p / 256
  {
  }

  // ---------------------------------------------------------------------
  // Command frames
  // ---------------------------------------------------------------------

  /** The commands the driver puts on the wire as frames. */
  datatype Command =
    | Target(channel: Byte, target: int)
    | Speed(channel: Byte, speed: int)
    | Acceleration(channel: Byte, acceleration: int)
    | Pwm(onTime: int, period: int)
    | PositionQuery(channel: Byte)

  /** The bytearray each command method builds. */
  function Encode(c: Command): (f: seq<Byte>)
    ensures 2 <= |f| && 128 <= f[0]
  {
    match c
    case Target(ch, t) => [INIT_CMD, DEVICE, LONG_SET_TARGET, ch, LowBits(t), HighBits(t)]
    case Speed(ch, s) => [SET_SPEED_CMD, ch, LowBits(s), HighBits(s)]
    case Acceleration(ch, a) => [SET_ACCELERATION_CMD, ch, LowBits(a), HighBits(a)]
    case Pwm(on, period) => [SET_PWM_CMD, LowBits(on), HighBits(on), LowBits(period), HighBits(period)]
    case PositionQuery(ch) => [GET_POSITION_CMD, ch]
  }

  function EncodeAll(cs: seq<Command>): seq<Byte>
  {
    if cs == [] then [] else Encode(cs[0]) + EncodeAll(cs[1..])
  }

  predicate In14(v: int)
  {
    0 <= v < LIMIT14
  }

  /** A data byte: its top bit is clear, so it cannot open a frame. */
  predicate IsData(b: Byte)
  {
    b < 128
  }

  /** A command Parse reads back unchanged: the channel is a data byte and
      every value fits in 14 bits. */
  predicate WellFormed(c: Command)
  {
    match c
    case Target(ch, t) => IsData(ch) && In14(t)
    case Speed(ch, s) => IsData(ch) && In14(s)
    case Acceleration(ch, a) => IsData(ch) && In14(a)
    case Pwm(on, period) => In14(on) && In14(period)
    case PositionQuery(ch) => IsData(ch)
  }

  /** The command with every value reduced to the 14 bits that reach the wire. */
  function Truncated(c: Command): Command
  {
    match c
    case Target(ch, t) => Target(ch, t % LIMIT14)
    case Speed(ch, s) => Speed(ch, s % LIMIT14)
    case Acceleration(ch, a) => Acceleration(ch, a % LIMIT14)
    case Pwm(on, period) => Pwm(on % LIMIT14, period % LIMIT14)
    case PositionQuery(ch) => PositionQuery(ch)
  }

  /** Out-of-range values are not rejected: the frame is that of the truncated value. */
  lemma EncodeTruncates(c: Command)
    ensures Encode(c) == Encode(Truncated(c))
  {
    match c
    case Target(_, t) => SplitKeepsLow14Bits(t);
    case Speed(_, s) => SplitKeepsLow14Bits(s);
    case Acceleration(_, a) => SplitKeepsLow14Bits(a);
    case Pwm(on, period) => SplitKeepsLow14Bits(on); SplitKeepsLow14Bits(period);
    case PositionQuery(_) =>
  }

  /** The frame at the head of a byte stream, when it is one of the five that
      Encode builds: the command and the number of bytes it occupies. */
  function ParseOne(bytes: seq<Byte>): (r: Option<(Command, nat)>)
    ensures r.Some? ==> 0 < r.value.1 <= |bytes|
  {
    if |bytes| >= 6 && bytes[0] == INIT_CMD && bytes[1] == DEVICE && bytes[2] == LONG_SET_TARGET
       && IsData(bytes[3]) && IsData(bytes[4]) && IsData(bytes[5]) then
      Some((Target(bytes[3], Unpack14(bytes[4], bytes[5])), 6))
    else if |bytes| >= 4 && bytes[0] == SET_SPEED_CMD
       && IsData(bytes[1]) && IsData(bytes[2]) && IsData(bytes[3]) then
      Some((Speed(bytes[1], Unpack14(bytes[2], bytes[3])), 4))
    else if |bytes| >= 4 && bytes[0] == SET_ACCELERATION_CMD
       && IsData(bytes[1]) && IsData(bytes[2]) && IsData(bytes[3]) then
      Some((Acceleration(bytes[1], Unpack14(bytes[2], bytes[3])), 4))
    else if |bytes| >= 5 && bytes[0] == SET_PWM_CMD
       && IsData(bytes[1]) && IsData(bytes[2]) && IsData(bytes[3]) && IsData(bytes[4]) then
      Some((Pwm(Unpack14(bytes[1], bytes[2]), Unpack14(bytes[3], bytes[4])), 5))
    else if |bytes| >= 2 && bytes[0] == GET_POSITION_CMD && IsData(bytes[1]) then
      Some((PositionQuery(bytes[1]), 2))
    else
      None
  }

  /** The reading of a whole byte stream as a sequence of the five commands
      Encode builds, frame after frame; any other byte sequence is rejected. */
  function Parse(bytes: seq<Byte>): Option<seq<Command>>
    decreases |bytes|
  {
    if bytes == [] then Some([])
    else match ParseOne(bytes)
      case None => None
      case Some((c, n)) =>
        match Parse(bytes[n..])
        case None => None
        case Some(cs) => Some([c] + cs)
  }

  lemma ParseOneEncode(c: Command, rest: seq<Byte>)
    requires WellFormed(c)
    ensures ParseOne(Encode(c) + rest) == Some((c, |Encode(c)|))
  {
    match c
    case Target(_, t) => Split14RoundTrip(t);
    case Speed(_, s) => Split14RoundTrip(s);
    case Acceleration(_, a) => Split14RoundTrip(a);
    case Pwm(on, period) => Split14RoundTrip(on); Split14RoundTrip(period);
    case PositionQuery(_) =>
  }

  /** Parse reads back exactly the well-formed commands that were
      encoded, in the order they were sent. */
  lemma {:induction false} ParseEncodeAll(cs: seq<Command>)
    requires forall i :: 0 <= i < |cs| ==> WellFormed(cs[i])
    ensures Parse(EncodeAll(cs)) == Some(cs)
  {
    if cs != [] {
      var f := Encode(cs[0]);
      var rest := EncodeAll(cs[1..]);
      ParseOneEncode(cs[0], rest);
      assert (f + rest)[|f|..] == rest;
      ParseEncodeAll(cs[1..]);
      assert [cs[0]] + cs[1..] == cs;
    }
  }

  lemma ParseOneDecodes(bytes: seq<Byte>)
    requires ParseOne(bytes).Some?
    ensures var (c, n) := ParseOne(bytes).value; WellFormed(c) && Encode(c) == bytes[..n]
  {
    var (c, n) := ParseOne(bytes).value;
    match c
    case Target(_, _) => Unpack14RoundTrip(bytes[4], bytes[5]);
    case Speed(_, _) => Unpack14RoundTrip(bytes[2], bytes[3]);
    case Acceleration(_, _) => Unpack14RoundTrip(bytes[2], bytes[3]);
    case Pwm(_, _) => Unpack14RoundTrip(bytes[1], bytes[2]); Unpack14RoundTrip(bytes[3], bytes[4]);
    case PositionQuery(_) =>
  }

  /** One step of Parse: an accepted non-empty stream opens with a frame
      ParseOne reads, and the rest is an accepted stream. */
  lemma ParseStep(bytes: seq<Byte>)
    requires bytes != [] && Parse(bytes).Some?
    ensures ParseOne(bytes).Some?
    ensures var (c, n) := ParseOne(bytes).value;
      Parse(bytes[n..]).Some? && Parse(bytes).value == [c] + Parse(bytes[n..]).value
  {
  }

  /** A well-formed frame in front of the encoding of well-formed commands. */
  lemma EncodeCons(c: Command, tail: seq<Command>, bytes: seq<Byte>, n: nat)
    requires n <= |bytes| && WellFormed(c) && Encode(c) == bytes[..n]
    requires forall i :: 0 <= i < |tail| ==> WellFormed(tail[i])
    requires EncodeAll(tail) == bytes[n..]
    ensures forall i :: 0 <= i < |[c] + tail| ==> WellFormed(([c] + tail)[i])
    ensures EncodeAll([c] + tail) == bytes
  {
    assert ([c] + tail)[1..] == tail;
    assert bytes[..n] + bytes[n..] == bytes;
  }

  /** Conversely, whatever stream Parse accepts is the encoding of the
      well-formed commands it reads from it. */
  lemma {:induction false} EncodeParse(bytes: seq<Byte>)
    requires Parse(bytes).Some?
    ensures var cs := Parse(bytes).value;
      (forall i :: 0 <= i < |cs| ==> WellFormed(cs[i])) && EncodeAll(cs) == bytes
    decreases |bytes|
  {
    if bytes != [] {
      ParseStep(bytes);
      var p := ParseOne(bytes).value;
      ParseOneDecodes(bytes);
      EncodeParse(bytes[p.1..]);
      EncodeCons(p.0, Parse(bytes[p.1..]).value, bytes, p.1);
    }
  }

  /** A run of zero bytes (what bytes(n) writes) holds no command: every byte
      of it is a data byte, so Parse reads no frame from it. */
  lemma ZerosCarryNoCommand(n: nat)
    requires n > 0
    ensures forall i :: 0 <= i < n ==> IsData(Zeros(n)[i])
    ensures Parse(Zeros(n)) == None
  {
  }

  // ---------------------------------------------------------------------
  // Percent to pulse width
  // ---------------------------------------------------------------------

  /** Python's int() on a number: truncation toward zero. */
  function TruncateToInt(x: real): (r: int)
    ensures 0.0 <= x ==> r as real <= x < r as real + 1.0
    ensures x < 0.0 ==> r as real - 1.0 < x <= r as real
  {
    if x >= 0.0 then x.Floor else -((-x).Floor)
  }

  /** percent2command: HOME_PULSE plus int(percent / 100 * MAX_FROM_HOME), so
      the pulse lies percent * 20 units from home, truncated toward zero. */
  function PercentToCommand(percent: real): (r: int)
    ensures 0.0 <= percent ==>
      (r - HOME_PULSE) as real <= percent * 20.0 < (r - HOME_PULSE) as real + 1.0
    ensures percent < 0.0 ==>
      (r - HOME_PULSE) as real - 1.0 < percent * 20.0 <= (r - HOME_PULSE) as real
  {
    HOME_PULSE + TruncateToInt(percent / 100.0 * MAX_FROM_HOME as real)
  }

  /** Full reverse, home and full forward map to the named limits. */
  lemma PercentLandmarks()
    ensures PercentToCommand(0.0) == HOME_PULSE
    ensures PercentToCommand(100.0) == MAX_FORWARD_SPEED == 8000
    ensures PercentToCommand(-100.0) == MAX_REVERSE_SPEED == 4000
  {
  }

  /** A whole percentage moves the pulse by exactly 20 units per percent. */
  lemma PercentWhole(p: int)
    ensures PercentToCommand(p as real) == HOME_PULSE + 20 * p
  {
    assert (p as real) / 100.0 * MAX_FROM_HOME as real == (20 * p) as real;
  }

  /** Inside [-100, 100] the result stays inside [MAX_REVERSE_SPEED, MAX_FORWARD_SPEED]. */
  lemma PercentInRange(p: real)
    requires -100.0 <= p <= 100.0
    ensures MAX_REVERSE_SPEED <= PercentToCommand(p) <= MAX_FORWARD_SPEED
  {
  }

  /** A larger percentage never gives a smaller pulse width. */
  lemma PercentMonotonic(p: real, q: real)
    requires p <= q
    ensures PercentToCommand(p) <= PercentToCommand(q)
  {
    var x, y := p / 100.0 * MAX_FROM_HOME as real, q / 100.0 * MAX_FROM_HOME as real;
    assert x <= y;
  }

  /** Truncation toward zero makes the mapping symmetric about HOME_PULSE. */
  lemma PercentSymmetric(p: real)
    ensures PercentToCommand(-p) - HOME_PULSE == HOME_PULSE - PercentToCommand(p)
  {
    var x := p / 100.0 * MAX_FROM_HOME as real;
    assert -p / 100.0 * MAX_FROM_HOME as real == -x;
  }
}
