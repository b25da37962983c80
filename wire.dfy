/** The serial connection as the driver sees it, as a value: whether the port
    is open, the bytes written so far, the response bytes still to be read,
    and the class-shared moving-state query buffer. The functions here give
    the effect of one write, one read and one moving-state poll, and of the
    polling loop that waits for the servos to settle. */
module Wire {
  import opened Codec

  /** Exceptions that escape the driver: pyserial's read on a closed port,
      and ord() of the empty bytes object a timed-out read returns. */
  datatype Fault = PortNotOpen | EmptyRead

  /** A Python call either returns a value or raises. */
  datatype Outcome<T> = Returned(value: T) | Raised(fault: Fault)

  /** One argument of Maestro.write: an int or a bytes-like object. */
  datatype Message = Count(n: nat) | Raw(bytes: seq<Byte>)

  /** What the port receives for one message: bytes(n) for an int n
      (n zero bytes under Python 3), the bytes themselves otherwise. */
  function Payload(m: Message): (r: seq<Byte>)
    ensures m.Count? ==> |r| == m.n && forall i :: 0 <= i < |r| ==> r[i] == 0
    ensures m.Raw? ==> r == m.bytes
  {
    match m
    case Count(n) => Zeros(n)
    case Raw(b) => b
  }

  /** All messages of one write call, in argument order. */
  function Flatten(ms: seq<Message>): seq<Byte>
  {
    if ms == [] then [] else Flatten(ms[..|ms| - 1]) + Payload(ms[|ms| - 1])
  }

  datatype Port = Port(open: bool, output: seq<Byte>, input: seq<Byte>, cmd: seq<Byte>)
  {
    /** The port after a guarded write of these bytes: appended when open,
        untouched when closed. */
    function Sent(bytes: seq<Byte>): Port
    {
      if open then this.(output := output + bytes) else this
    }
  }

  function Min(a: int, b: int): int
  {
    if a <= b then a else b
  }

  /** The buffer after n calls of get_moving_state: the long-form header
      followed by n copies of the query byte. */
  function MovingStateQuery(n: nat): seq<Byte>
  {
    [INIT_CMD, DEVICE] + Repeat(MOVING_STATE_QUERY, n)
  }

  /** One read(1): raises on a closed port, yields nothing when no response
      byte is pending, and otherwise consumes exactly the first pending byte. */
  function Read(s: Port): (r: (Outcome<Option<Byte>>, Port))
    ensures r.1.open == s.open && r.1.output == s.output && r.1.cmd == s.cmd
    ensures r.0.Raised? <==> !s.open
    ensures r.0 == Returned(None) <==> s.open && s.input == []
    ensures r.0.Returned? && r.0.value.Some? ==>
      s.input != [] && r.0.value.value == s.input[0] && r.1.input == s.input[1..]
    ensures !(r.0.Returned? && r.0.value.Some?) ==> r.1.input == s.input
  {
    if !s.open then (Raised(PortNotOpen), s)
    else if s.input == [] then (Returned(None), s)
    else (Returned(Some(s.input[0])), s.(input := s.input[1..]))
  }

  /** One get_moving_state call: append the query byte to the shared buffer,
      write the whole buffer (ignoring whether that worked), read one byte. */
  function Poll(s: Port): (r: (Outcome<Option<Byte>>, Port))
    ensures r.1.open == s.open && r.1.cmd == s.cmd + [MOVING_STATE_QUERY]
    ensures r.1.output == s.output + (if s.open then r.1.cmd else [])
    ensures r.0.Raised? <==> !s.open
    ensures r.0 == Returned(None) <==> s.open && s.input == []
    ensures r.0.Returned? && r.0.value.Some? ==>
      s.input != [] && r.0.value.value == s.input[0] && r.1.input == s.input[1..]
    ensures !(r.0.Returned? && r.0.value.Some?) ==> r.1.input == s.input
  {
    var cmd := s.cmd + [MOVING_STATE_QUERY];
    Read(s.(cmd := cmd).Sent(cmd))
  }

  /** Python truthiness of a poll result: a nonzero byte. None and 0 are false. */
  predicate Busy(o: Outcome<Option<Byte>>)
  {
    o.Returned? && o.value.Some? && o.value.value != 0
  }

  /** wait_until_at_target step by step: poll while the poll is truthy. */
  function PollUntilSettled(s: Port): (Outcome<()>, Port)
    decreases |s.input|
  {
    var p := Poll(s);
    if Busy(p.0) then PollUntilSettled(p.1)
    else if p.0.Raised? then (Raised(p.0.fault), p.1)
    else (Returned(()), p.1)
  }

  /** Position of the first zero byte, or the length when there is none. */
  function FirstZero(q: seq<Byte>): (k: nat)
    ensures k <= |q|
    ensures forall i :: 0 <= i < k ==> q[i] != 0
    ensures k < |q| ==> q[k] == 0
  {
    if q == [] || q[0] == 0 then 0 else 1 + FirstZero(q[1..])
  }

  /** The bytes that k successive polls write, starting from buffer cmd. */
  function QueryLog(cmd: seq<Byte>, k: nat): seq<Byte>
    decreases k
  {
    if k == 0 then []
    else (cmd + [MOVING_STATE_QUERY]) + QueryLog(cmd + [MOVING_STATE_QUERY], k - 1)
  }

  /** The effect of wait_until_at_target in closed form. On a closed port the
      first poll raises. Otherwise it polls FirstZero(input) + 1 times: once
      for every leading nonzero byte, and once more for the zero byte or the
      empty read that stops it. */
  function Settled(s: Port): (Outcome<()>, Port)
  {
    if !s.open then (Raised(PortNotOpen), s.(cmd := s.cmd + [MOVING_STATE_QUERY]))
    else
      var k := FirstZero(s.input) + 1;
      (Returned(()),
       s.(output := s.output + QueryLog(s.cmd, k),
          input := s.input[Min(k, |s.input|)..],
          cmd := s.cmd + Repeat(MOVING_STATE_QUERY, k)))
  }

  lemma RepeatCons(b: Byte, n: nat)
    ensures [b] + Repeat(b, n) == Repeat(b, n + 1)
    ensures Repeat(b, n) + [b] == Repeat(b, n + 1)
  {
  }

  /** A poll that answers 0, nothing, or raises ends the wait, as one step of Settled. */
  lemma SettledAfterLastPoll(s: Port)
    requires !Busy(Poll(s).0)
    ensures PollUntilSettled(s) == Settled(s)
  {
    var cmd1 := s.cmd + [MOVING_STATE_QUERY];
    assert Repeat(MOVING_STATE_QUERY, 1) == [MOVING_STATE_QUERY];
    if s.open {
      assert FirstZero(s.input) == 0;
      assert QueryLog(s.cmd, 1) == cmd1;
      assert Poll(s).1.input == s.input[Min(1, |s.input|)..];
    }
  }

  /** A poll that answers a nonzero byte leaves Settled with one poll fewer to go. */
  lemma SettledAfterBusyPoll(s: Port)
    requires Busy(Poll(s).0)
    ensures Settled(s) == Settled(Poll(s).1)
  {
    var cmd1 := s.cmd + [MOVING_STATE_QUERY];
    var s1 := Poll(s).1;
    assert s.open && s.input != [] && s.input[0] != 0;
    assert s1.input == s.input[1..];
    assert FirstZero(s.input) == 1 + FirstZero(s1.input);
    var k := FirstZero(s.input) + 1;
    assert QueryLog(s.cmd, k) == cmd1 + QueryLog(cmd1, k - 1);
    RepeatCons(MOVING_STATE_QUERY, k - 1);
    assert cmd1 + Repeat(MOVING_STATE_QUERY, k - 1) == s.cmd + Repeat(MOVING_STATE_QUERY, k);
    assert s1.input[Min(k - 1, |s1.input|)..] == s.input[Min(k, |s.input|)..];
    assert s1.output == s.output + cmd1;
    assert s1.cmd == cmd1 && s1.open;
    var k1 := FirstZero(s1.input) + 1;
    assert k1 == k - 1;
    assert s1.output + QueryLog(s1.cmd, k1) == s.output + QueryLog(s.cmd, k);
  }

  /** The polling loop stops exactly at the first poll that answers 0 or
      nothing, having consumed every nonzero byte before it. */
  lemma {:induction false} PollUntilSettledIsSettled(s: Port)
    ensures PollUntilSettled(s) == Settled(s)
    decreases |s.input|
  {
    var p := Poll(s);
    if Busy(p.0) {
      PollUntilSettledIsSettled(p.1);
      SettledAfterBusyPoll(s);
    } else {
      SettledAfterLastPoll(s);
    }
  }

  /** On the n-th poll since the buffer was created the frame written is
      0xAA, 0x0C followed by n copies of 0x13. */
  lemma {:induction false} NthPollFrame(s: Port, n: nat)
    requires s.cmd == MovingStateQuery(n)
    ensures Poll(s).1.cmd == MovingStateQuery(n + 1)
    ensures s.open ==> Poll(s).1.output == s.output + MovingStateQuery(n + 1)
  {
    RepeatCons(MOVING_STATE_QUERY, n);
    assert MovingStateQuery(n) + [MOVING_STATE_QUERY] == MovingStateQuery(n + 1);
  }

  /** A full wait that started from the n-query buffer leaves the buffer
      holding n + FirstZero(input) + 1 query bytes. */
  lemma SettledBuffer(s: Port, n: nat)
    requires s.open && s.cmd == MovingStateQuery(n)
    ensures Settled(s).1.cmd == MovingStateQuery(n + FirstZero(s.input) + 1)
  {
    var k := FirstZero(s.input) + 1;
    assert Repeat(MOVING_STATE_QUERY, n) + Repeat(MOVING_STATE_QUERY, k) == Repeat(MOVING_STATE_QUERY, n + k);
  }

  /** A write of several messages equals one write of their concatenation. */
  lemma FlattenSnoc(ms: seq<Message>, m: Message)
    ensures Flatten(ms + [m]) == Flatten(ms) + Payload(m)
  {
    assert (ms + [m])[..|ms|] == ms;
  }
}
