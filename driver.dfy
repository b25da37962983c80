/** The Maestro driver object: one serial connection, the bytes written to
    it, the response bytes waiting on it, and the query buffer that all
    instances share. */
module Driver {
  import opened Codec
  import opened Wire

  /** The class attribute pololu_cmd: one bytearray shared by every Maestro,
      which get_moving_state extends in place. */
  class CommandBuffer {
    var bytes: seq<Byte>

    constructor ()
      ensures bytes == MovingStateQuery(0)
    {
      bytes := [INIT_CMD, DEVICE];
    }
  }

  /** Python truthiness of an optional speed or acceleration: None and 0 are false. */
  predicate Truthy(v: Option<int>)
  {
    v.Some? && v.value != 0
  }

  /** The frames set_target sends, in the order it sends them. */
  function TargetCommands(channel: Byte, target: int, speed: Option<int>, acceleration: Option<int>): seq<Command>
  {
    (if Truthy(speed) then [Speed(channel, speed.value)] else [])
    + (if Truthy(acceleration) then [Acceleration(channel, acceleration.value)] else [])
    + [Target(channel, target)]
  }

  /** The set_target calls of set_multiple_targets, one per pair. */
  function PairTargets(pairs: seq<(Byte, int)>): seq<Command>
  {
    if pairs == [] then [] else [Target(pairs[0].0, pairs[0].1)] + PairTargets(pairs[1..])
  }

  /** An optional wait after the writes: with wait the result is that of the
      writes unless the wait raised, and the port is the one the wait leaves. */
  function ThenWait(s: Port, wait: bool, ok: bool): (Outcome<bool>, Port)
  {
    if !wait then (Returned(ok), s)
    else
      var w := Settled(s);
      (if w.0.Raised? then Raised(w.0.fault) else Returned(ok), w.1)
  }

  /** set_target sends its speed frame only for a truthy speed, its
      acceleration frame only for a truthy acceleration, and its target frame
      last; with 7-bit channel and 14-bit values Parse reads exactly
      those commands back, in that order. */
  lemma SetTargetOrder(channel: Byte, target: int, speed: Option<int>, acceleration: Option<int>)
    requires channel < 128 && In14(target)
    requires Truthy(speed) ==> In14(speed.value)
    requires Truthy(acceleration) ==> In14(acceleration.value)
    ensures var cs := TargetCommands(channel, target, speed, acceleration);
      Parse(EncodeAll(cs)) == Some(cs)
      && cs[|cs| - 1] == Target(channel, target)
      && (cs[0].Speed? <==> Truthy(speed))
      && |cs| == 1 + (if Truthy(speed) then 1 else 0) + (if Truthy(acceleration) then 1 else 0)
  {
    ParseEncodeAll(TargetCommands(channel, target, speed, acceleration));
  }

  lemma EncodeAllAppend(xs: seq<Command>, ys: seq<Command>)
    ensures EncodeAll(xs + ys) == EncodeAll(xs) + EncodeAll(ys)
  {
    if xs != [] {
      assert (xs + ys)[0] == xs[0] && (xs + ys)[1..] == xs[1..] + ys;
      EncodeAllAppend(xs[1..], ys);
    } else {
      assert xs + ys == ys;
    }
  }

  lemma PairTargetsAppend(pairs: seq<(Byte, int)>, k: nat)
    requires k < |pairs|
    ensures PairTargets(pairs[..k + 1]) == PairTargets(pairs[..k]) + [Target(pairs[k].0, pairs[k].1)]
  {
    if k > 0 {
      assert pairs[..k + 1][1..] == pairs[1..][..k];
      assert pairs[..k][1..] == pairs[1..][..k - 1];
      PairTargetsAppend(pairs[1..], k - 1);
    }
  }

  /** Sending the next pair's frame extends the frames already sent. */
  lemma SentNextPair(s0: Port, pairs: seq<(Byte, int)>, k: nat)
    requires k < |pairs|
    ensures s0.Sent(EncodeAll(PairTargets(pairs[..k]))).Sent(EncodeAll(TargetCommands(pairs[k].0, pairs[k].1, None, None)))
         == s0.Sent(EncodeAll(PairTargets(pairs[..k + 1])))
  {
    var sent := PairTargets(pairs[..k]);
    var next := [Target(pairs[k].0, pairs[k].1)];
    assert TargetCommands(pairs[k].0, pairs[k].1, None, None) == next;
    PairTargetsAppend(pairs, k);
    EncodeAllAppend(sent, next);
    assert EncodeAll(PairTargets(pairs[..k + 1])) == EncodeAll(sent) + EncodeAll(next);
    SentTwice(s0, EncodeAll(sent), EncodeAll(next));
  }

  /** The three guarded writes of set_target add up to one write of all its frames. */
  lemma TargetFramesCompose(s0: Port, s1: Port, s2: Port, s3: Port,
                            channel: Byte, target: int, speed: Option<int>, acceleration: Option<int>)
    requires s1 == if Truthy(speed) then s0.Sent(Encode(Speed(channel, speed.value))) else s0
    requires s2 == if Truthy(acceleration) then s1.Sent(Encode(Acceleration(channel, acceleration.value))) else s1
    requires s3 == s2.Sent(Encode(Target(channel, target)))
    ensures s3 == s0.Sent(EncodeAll(TargetCommands(channel, target, speed, acceleration)))
  {
    var sp: seq<Command> := if Truthy(speed) then [Speed(channel, speed.value)] else [];
    var ac: seq<Command> := if Truthy(acceleration) then [Acceleration(channel, acceleration.value)] else [];
    var tg := [Target(channel, target)];
    assert TargetCommands(channel, target, speed, acceleration) == sp + (ac + tg);
    EncodeAllAppend(sp, ac + tg);
    EncodeAllAppend(ac, tg);
    assert s1 == s0.Sent(EncodeAll(sp));
    assert s2 == s1.Sent(EncodeAll(ac));
    assert s3 == s2.Sent(EncodeAll(tg));
    SentTwice(s1, EncodeAll(ac), EncodeAll(tg));
    SentTwice(s0, EncodeAll(sp), EncodeAll(ac) + EncodeAll(tg));
  }

  lemma SentTwice(s: Port, a: seq<Byte>, b: seq<Byte>)
    ensures s.Sent(a).Sent(b) == s.Sent(a + b)
  {
  }

  /** What get_errors returns: False when its write failed, else the raw
      low and high bytes of the error bitmask. */
  datatype ErrorReport = NotSent | Flags(low: Byte, high: Byte)

  class Maestro {
    var isOpen: bool
    var output: seq<Byte>
    var input: seq<Byte>
    const pololuCmd: CommandBuffer

    /** The connection and the shared buffer, as a value. */
    function Snapshot(): Port
      reads this, pololuCmd
    {
      Port(isOpen, output, input, pololuCmd.bytes)
    }

    /** An opened port on which the initialisation write bytes(0xAA) has
        been logged; responses are the bytes the controller will answer. */
    constructor (shared: CommandBuffer, responses: seq<Byte>)
      ensures pololuCmd == shared
      ensures Snapshot() == Port(true, Zeros(INIT_CMD), responses, shared.bytes)
    {
      pololuCmd := shared;
      isOpen := true;
      output := Zeros(INIT_CMD);
      input := responses;
    }

    /** Construction: a port that fails to open, or opens unwritable, raises
        NotInitialized (null here); otherwise the initialised driver. */
    static method Connect(shared: CommandBuffer, opens: bool, writable: bool, responses: seq<Byte>)
      returns (m: Maestro?)
      ensures (m != null) == (opens && writable)
      ensures m != null ==>
        fresh(m) && m.pololuCmd == shared && m.Snapshot() == Port(true, Zeros(INIT_CMD), responses, shared.bytes)
    {
      if opens && writable {
        m := new Maestro(shared, responses);
      } else {
        m := null;
      }
    }

    /** Whether the connection is open and writable. */
    function IsOpen(): bool
      reads this
    {
      isOpen
    }

    method Close()
      modifies this
      ensures !IsOpen()
      ensures Snapshot() == old(Snapshot()).(open := false)
    {
      if isOpen {
        isOpen := false;
      }
    }

    /** Writes each message in argument order and reports success; on a
        closed port writes nothing and reports failure. */
    method Write(messages: seq<Message>) returns (ok: bool)
      modifies this
      ensures ok == old(IsOpen())
      ensures Snapshot() == old(Snapshot()).Sent(Flatten(messages))
    {
      if !isOpen {
        return false;
      }
      var i := 0;
      while i < |messages|
        invariant 0 <= i <= |messages|
        invariant isOpen && input == old(input)
        invariant output == old(output) + Flatten(messages[..i])
      {
        FlattenSnoc(messages[..i], messages[i]);
        assert messages[..i + 1] == messages[..i] + [messages[i]];
        match messages[i] {
          case Count(n) => output := output + Zeros(n);
          case Raw(b) => output := output + b;
        }
        i := i + 1;
      }
      assert messages[..|messages|] == messages;
      return true;
    }

    /** One read(1) on the port. */
    method ReadOne() returns (r: Outcome<Option<Byte>>)
      modifies this
      ensures (r, Snapshot()) == Read(old(Snapshot()))
    {
      if !isOpen {
        return Raised(PortNotOpen);
      }
      if input == [] {
        return Returned(None);
      }
      r := Returned(Some(input[0]));
      input := input[1..];
    }

    method SetSpeed(channel: Byte, speed: int) returns (ok: bool)
      modifies this
      ensures ok == old(IsOpen())
      ensures Snapshot() == old(Snapshot()).Sent(Encode(Speed(channel, speed)))
    {
      ok := Write([Raw(Encode(Speed(channel, speed)))]);
    }

    method SetAcceleration(channel: Byte, acceleration: int) returns (ok: bool)
      modifies this
      ensures ok == old(IsOpen())
      ensures Snapshot() == old(Snapshot()).Sent(Encode(Acceleration(channel, acceleration)))
    {
      ok := Write([Raw(Encode(Acceleration(channel, acceleration)))]);
    }

    method SetPwm(onTime: int, period: int) returns (ok: bool)
      modifies this
      ensures ok == old(IsOpen())
      ensures Snapshot() == old(Snapshot()).Sent(Encode(Pwm(onTime, period)))
    {
      ok := Write([Raw(Encode(Pwm(onTime, period)))]);
    }

    /** Sends the speed and acceleration frames when those are truthy, then
        the target frame; waits for the servos when asked; reports the result
        of the target write alone. */
    method SetTarget(channel: Byte, target: int, speed: Option<int>, acceleration: Option<int>, wait: bool)
      returns (r: Outcome<bool>)
      modifies this, pololuCmd
      ensures (r, Snapshot()) == ThenWait(
        old(Snapshot()).Sent(EncodeAll(TargetCommands(channel, target, speed, acceleration))),
        wait, old(IsOpen()))
    {
      ghost var s0 := Snapshot();
      if Truthy(speed) {
        var speedSet := SetSpeed(channel, speed.value);
      }
      ghost var s1 := Snapshot();
      if Truthy(acceleration) {
        var accelerationSet := SetAcceleration(channel, acceleration.value);
      }
      ghost var s2 := Snapshot();
      var ret := Write([Raw(Encode(Target(channel, target)))]);
      TargetFramesCompose(s0, s1, s2, Snapshot(), channel, target, speed, acceleration);
      r := Returned(ret);
      if wait {
        var w := WaitUntilAtTarget();
        if w.Raised? {
          r := Raised(w.fault);
        }
      }
    }

    /** Sends exactly the set-target frame for PercentToCommand(percent). */
    method SetTargetPercent(channel: Byte, percent: real) returns (ok: bool)
      modifies this, pololuCmd
      ensures ok == old(IsOpen())
      ensures Snapshot() == old(Snapshot()).Sent(Encode(Target(channel, PercentToCommand(percent))))
    {
      var target := PercentToCommand(percent);
      var r := SetTarget(channel, target, None, None, false);
      ok := r.value;
    }

    /** Rejects a count outside [2, 4] without writing; otherwise sends one
        set-target frame per pair for the first numTargets pairs, in order,
        optionally waits, and reports success whatever the writes returned. */
    method SetMultipleTargets(numTargets: int, pairs: seq<(Byte, int)>, wait: bool)
      returns (r: Outcome<bool>)
      requires 2 <= |pairs| <= 4
      requires 2 <= numTargets <= 4 ==> numTargets <= |pairs|
      modifies this, pololuCmd
      ensures !(2 <= numTargets <= 4) ==> r == Returned(false) && Snapshot() == old(Snapshot())
      ensures 2 <= numTargets <= 4 ==> (r, Snapshot()) == ThenWait(
        old(Snapshot()).Sent(EncodeAll(PairTargets(pairs[..numTargets]))), wait, true)
    {
      if numTargets < 2 || numTargets > 4 {
        return Returned(false);
      }
      ghost var s0 := Snapshot();
      assert pairs[..0] == [];
      var first := SetTarget(pairs[0].0, pairs[0].1, None, None, false);
      SentNextPair(s0, pairs, 0);
      assert Snapshot() == s0.Sent(EncodeAll(PairTargets(pairs[..1])));
      var second := SetTarget(pairs[1].0, pairs[1].1, None, None, false);
      SentNextPair(s0, pairs, 1);
      assert Snapshot() == s0.Sent(EncodeAll(PairTargets(pairs[..2])));
      if numTargets > 2 {
        var third := SetTarget(pairs[2].0, pairs[2].1, None, None, false);
        SentNextPair(s0, pairs, 2);
        assert Snapshot() == s0.Sent(EncodeAll(PairTargets(pairs[..3])));
      }
      if numTargets > 3 {
        var fourth := SetTarget(pairs[3].0, pairs[3].1, None, None, false);
        SentNextPair(s0, pairs, 3);
        assert Snapshot() == s0.Sent(EncodeAll(PairTargets(pairs[..4])));
      }
      r := Returned(true);
      if wait {
        var w := WaitUntilAtTarget();
        if w.Raised? {
          r := Raised(w.fault);
        }
      }
    }

    /** Writes the get-position frame; on a failed write returns -1 without
        reading. Otherwise reads two bytes and returns low + high * 256; a
        missing byte raises after consuming what was there. */
    method GetPosition(channel: Byte) returns (r: Outcome<int>)
      modifies this
      ensures !old(IsOpen()) ==> r == Returned(-1) && Snapshot() == old(Snapshot())
      ensures old(IsOpen()) ==> IsOpen() && output == old(output) + Encode(PositionQuery(channel))
      ensures old(IsOpen()) ==> input == old(input)[Min(2, |old(input)|)..]
      ensures old(IsOpen()) ==> r == (if |old(input)| >= 2
        then Returned(Position16(old(input)[0], old(input)[1])) else Raised(EmptyRead))
    {
      var status := Write([Raw(Encode(PositionQuery(channel)))]);
      if !status {
        return Returned(-1);
      }
      var low := ReadOne();
      if low != Returned(None) {
        var high := ReadOne();
        if high != Returned(None) {
          return Returned(Position16(low.value.value, high.value.value));
        }
      }
      return Raised(EmptyRead);
    }

    /** Appends the query byte to the shared buffer, writes the whole buffer
        regardless of the outcome, and reads one byte (None when none came). */
    method GetMovingState() returns (r: Outcome<Option<Byte>>)
      modifies this, pololuCmd
      ensures (r, Snapshot()) == Poll(old(Snapshot()))
    {
      pololuCmd.bytes := pololuCmd.bytes + [MOVING_STATE_QUERY];
      var written := Write([Raw(pololuCmd.bytes)]);
      assert Flatten([Raw(pololuCmd.bytes)]) == pololuCmd.bytes;
      r := ReadOne();
    }

    /** Polls the moving state until a poll answers 0 or nothing. */
    method WaitUntilAtTarget() returns (r: Outcome<()>)
      modifies this, pololuCmd
      ensures (r, Snapshot()) == Settled(old(Snapshot()))
    {
      ghost var s0 := Snapshot();
      var state := GetMovingState();
      while Busy(state)
        invariant PollUntilSettled(s0) ==
          if Busy(state) then PollUntilSettled(Snapshot())
          else (if state.Raised? then Raised(state.fault) else Returned(()), Snapshot())
        decreases |input| + (if Busy(state) then 1 else 0)
      {
        state := GetMovingState();
      }
      r := if state.Raised? then Raised(state.fault) else Returned(());
      PollUntilSettledIsSettled(s0);
    }

    /** go_home passes the int 0xA2 to write, so bytes(0xA2) goes out:
        162 zero bytes rather than the go-home opcode. */
    method GoHome() returns (ok: bool)
      modifies this
      ensures ok == old(IsOpen())
      ensures Snapshot() == old(Snapshot()).Sent(Zeros(GO_HOME_CMD))
    {
      ok := Write([Count(GO_HOME_CMD)]);
      assert Flatten([Count(GO_HOME_CMD)]) == Zeros(GO_HOME_CMD);
    }

    /** Writes bytes(0xA1) (161 zero bytes); on a failed write reports that
        without reading, otherwise returns the two bytes read, unmodified. */
    method GetErrors() returns (r: Outcome<ErrorReport>)
      modifies this
      ensures !old(IsOpen()) ==> r == Returned(NotSent) && Snapshot() == old(Snapshot())
      ensures old(IsOpen()) ==> IsOpen() && output == old(output) + Zeros(GET_ERRORS_CMD)
      ensures old(IsOpen()) ==> input == old(input)[Min(2, |old(input)|)..]
      ensures old(IsOpen()) ==> r == (if |old(input)| >= 2
        then Returned(Flags(old(input)[0], old(input)[1])) else Raised(EmptyRead))
    {
      var status := Write([Count(GET_ERRORS_CMD)]);
      assert Flatten([Count(GET_ERRORS_CMD)]) == Zeros(GET_ERRORS_CMD);
      if !status {
        return Returned(NotSent);
      }
      var low := ReadOne();
      if low != Returned(None) {
        var high := ReadOne();
        if high != Returned(None) {
          return Returned(Flags(low.value.value, high.value.value));
        }
      }
      return Raised(EmptyRead);
    }
  }
}
