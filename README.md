# Maestro servo-controller driver, modelled in Dafny

This project models the protocol layer of the `Maestro` class in `driver.py`. That class is a
host-side driver for the Pololu Maestro servo controller, written against section 5.e of Pololu's
Maestro serial-protocol documentation.

The model has three modules:

- `Codec` (`codec.dfy`) is the pure wire format:
  - `low_bits`/`high_bits` 7-bit operand packing, on Python's unbounded integers, negative values included;
  - the command frames that `set_target` (long Pololu form `0xAA 0x0C 0x04`), `set_speed`,
    `set_acceleration`, `set_PWM` and `get_position` build;
  - `Parse`, which reads a byte stream as a sequence of the five commands `Encode` builds, and
    which is the partner the frames are proved against. It reads no other command: it rejects
    the moving-state query, the single-byte go-home and get-errors commands, and the zero runs
    the driver sends in their place;
  - the percent-to-pulse mapping around `HOME_PULSE = 6000` and `MAX_FROM_HOME = 2000`.
- `Wire` (`wire.dfy`) is the serial connection as a value `Port`. It holds:
  - the open flag;
  - the log of bytes written;
  - the queue of response bytes still to be read;
  - the shared moving-state query buffer.

  It also gives the effect of one guarded write, one `read(1)` and one `get_moving_state` poll, and
  two definitions of `wait_until_at_target`: a step-by-step one (`PollUntilSettled`) and a closed
  form (`Settled`). A lemma proves the two equal.
- `Driver` (`driver.dfy`) holds the class `Maestro`. Its fields are the open flag, the output log
  and the input queue. It also refers to a `CommandBuffer` object: the class attribute `pololu_cmd`,
  which all instances share and which `get_moving_state` extends in place. The methods follow the
  source one for one. Each method's postcondition states the result and the new `Snapshot()` in
  terms of the old one.

Exceptions that escape the driver become the `Raised` outcome:

- `PortNotOpen`: `get_moving_state` reads even after its write failed, and pyserial raises when
  asked to read a closed port.
- `EmptyRead`: `ord()` of the empty read that a timeout produces.

Quirks of the code are modelled as written:

- Python 3's `bytes(n)` is `n` zero bytes. The constructor writes `bytes(_INIT_CMD)` straight to
  the port (driver.py:77), which is 170 of them, and `write`'s int branch turns the opcodes of
  `go_home` and `get_errors` into 162 and 161.
  None of them sends its opcode (`ZerosCarryNoCommand`), although Pololu's protocol defines
  go-home (0xA2) and get-errors (0xA1) as single command bytes.
- `get_position` combines its two bytes as `low + (high << 8)`.
- `wait_until_at_target` stops on `None` as well as on 0.
- `set_multiple_targets` returns `True` whatever its writes returned.
- `get_moving_state` ignores its write result. Its shared buffer grows by one `0x13` on every
  call, so the n-th call writes `0xAA 0x0C` followed by n `0x13` bytes.
- `_SET_TARGET_CMD` (0x84) and `_SET_MULTIPLE_TARGET_CMD` (0x9F) are declared and never sent.

`IsOpen` is the guard `is_open` computes (driver.py:89-93). Construction checks writability
(see `Connect`), so `IsOpen` is just the open flag.

## Model

| member | source | states |
|---|---|---|
| Codec.LowBits | driver.py:352-357 | the low operand byte is below 128 for every integer |
| Codec.HighBits | driver.py:359-365 | the high operand byte is below 128 for every integer |
| Codec.Split14RoundTrip | driver.py:352-365 | for 0 <= v < 16384, high_bits(v)*128 + low_bits(v) == v |
| Codec.Unpack14RoundTrip | driver.py:352-365 | every pair of 7-bit bytes is the split of exactly one 14-bit value, the one it carries |
| Codec.SplitKeepsLow14Bits | driver.py:352-365 | for every integer, negatives included, both bytes depend only on v mod 16384 |
| Codec.Position16 | driver.py:268 | low + (high << 8) lies in [0, 65536) |
| Codec.Position16RoundTrip | driver.py:266-268 | the position combination is a bijection between byte pairs and 16-bit values |
| Codec.Encode | driver.py:138-262 | every frame Encode builds (set_target, set_speed, set_acceleration, set_PWM, get_position) is at least two bytes long and opens with a command byte (top bit set) |
| Codec.EncodeTruncates | driver.py:138-242 | an out-of-range value is not rejected: its frame is the frame of its value mod 16384 |
| Codec.ParseOne | driver.py:138-262 | the reading of one of the five Encode frames occupies between 1 and all of the remaining bytes |
| Codec.ParseOneEncode | driver.py:138-262 | a frame with a 7-bit channel and 14-bit values reads back as its own command, whatever follows it |
| Codec.ParseOneDecodes | driver.py:138-262 | every frame Parse accepts is the encoding of a well-formed command |
| Codec.ParseEncodeAll | driver.py:138-262 | a stream of well-formed frames reads back as exactly the commands sent, in order |
| Codec.EncodeParse | driver.py:138-262 | every stream Parse accepts is the encoding of the well-formed commands it reads |
| Codec.ZerosCarryNoCommand | driver.py:112-113 | bytes(n) writes only data bytes, from which Parse reads no command |
| Codec.TruncateToInt | driver.py:372 | int() truncates toward zero: it rounds down for x >= 0 and up for x < 0 |
| Codec.PercentToCommand | driver.py:367-373 | the pulse lies percent * 20 away from HOME_PULSE, truncated toward zero: at most that far for percent >= 0, at least that far (toward home) for percent < 0, and less than one unit off |
| Codec.PercentLandmarks | driver.py:48-51 | percent 0, 100 and -100 give HOME_PULSE, MAX_FORWARD_SPEED = 8000 and MAX_REVERSE_SPEED = 4000 |
| Codec.PercentWhole | driver.py:367-373 | a whole percent p gives 6000 + 20*p |
| Codec.PercentInRange | driver.py:367-373 | percent in [-100, 100] gives a value in [4000, 8000] |
| Codec.PercentMonotonic | driver.py:372-373 | a larger percent never gives a smaller pulse |
| Codec.PercentSymmetric | driver.py:372-373 | truncation toward zero makes the mapping symmetric about HOME_PULSE |
| Wire.Payload | driver.py:112-115 | an int n is sent as bytes(n), n zero bytes; a bytes-like argument is sent unchanged |
| Wire.Read | driver.py:286-290 | read(1) raises exactly on a closed port; it returns nothing exactly when no byte is pending, otherwise it returns and consumes exactly the first pending byte |
| Wire.Poll | driver.py:282-290 | one get_moving_state call appends 0x13 to the shared buffer and writes the whole buffer only when the port is open; it raises exactly when the port is closed; it returns None exactly when the port is open and no byte is pending; a returned byte is the first pending one and is the only one consumed; None or a raise consumes nothing |
| Wire.FirstZero | driver.py:294 | the index of the first zero response byte (or the length when there is none), and every byte before it is nonzero |
| Wire.PollUntilSettledIsSettled | driver.py:292-295 | the poll loop stops at the first poll that answers 0 or nothing, after FirstZero(input) + 1 polls; it consumes the nonzero bytes and the zero, and writes one growing query per poll; on a closed port the first poll raises |
| Wire.SettledAfterLastPoll | driver.py:294 | a poll that answers 0, nothing or raises ends the loop |
| Wire.SettledAfterBusyPoll | driver.py:294-295 | a poll that answers a nonzero byte leads to one more poll |
| Wire.NthPollFrame | driver.py:282-285 | with n 0x13 bytes in the shared buffer, the next poll leaves n + 1 and writes 0xAA 0x0C followed by n + 1 bytes 0x13 |
| Wire.SettledBuffer | driver.py:282-295 | a complete wait adds FirstZero(input) + 1 query bytes to the shared buffer |
| Wire.FlattenSnoc | driver.py:111-115 | each further message adds its payload after what the earlier ones wrote |
| Driver.SetTargetOrder | driver.py:133-142 | set_target sends the speed frame only for a truthy speed and the acceleration frame only for a truthy acceleration, then the target frame last; Parse reads them back in that order |
| Driver.TargetFramesCompose | driver.py:133-139 | the three guarded writes of set_target amount to one write of all its frames |
| Driver.SentNextPair | driver.py:175-181 | each set_target of set_multiple_targets adds its pair's frame after the earlier pairs' frames |
| Driver.CommandBuffer.constructor | driver.py:53 | the shared buffer starts as 0xAA, 0x0C |
| Driver.Maestro.constructor | driver.py:75-78 | an opened driver has written bytes(0xAA), 170 zero bytes, and nothing else |
| Driver.Maestro.Connect | driver.py:62-81 | construction succeeds exactly when the port opens and is writable; otherwise NotInitialized |
| Driver.Maestro.IsOpen | driver.py:89-93 | the open flag; no ensures (writability is settled at construction, see Left out) |
| Driver.Maestro.Close | driver.py:95-99 | afterwards the port is closed and nothing else has changed |
| Driver.Maestro.Write | driver.py:101-120 | a closed port gives False and writes nothing; otherwise the messages are written in argument order (an int n as n zero bytes) and the result is True |
| Driver.Maestro.ReadOne | driver.py:286 | one read(1) behaves as Wire.Read |
| Driver.Maestro.SetSpeed | driver.py:187-201 | writes 0x87, ch, low, high when open; returns the write result |
| Driver.Maestro.SetAcceleration | driver.py:203-220 | writes 0x89, ch, low, high when open; returns the write result |
| Driver.Maestro.SetPwm | driver.py:222-242 | writes 0x8A and the packed on-time and period when open; returns the write result |
| Driver.Maestro.SetTarget | driver.py:122-142 | writes speed?, acceleration? and 0xAA 0x0C 0x04 ch low high in that order; returns the last write's result; with wait, the state and any exception are those of wait_until_at_target |
| Driver.Maestro.SetTargetPercent | driver.py:144-155 | writes exactly the set-target frame for PercentToCommand(percent) and returns the write result |
| Driver.Maestro.SetMultipleTargets | driver.py:157-185 | a count outside [2, 4] gives False and no effect; otherwise it sends exactly numTargets target frames in argument order and returns True whatever the writes returned |
| Driver.Maestro.GetPosition | driver.py:244-271 | a failed write gives -1 and no read; otherwise it consumes two bytes and returns low + high*256, and on a short read it raises after consuming what was there |
| Driver.Maestro.GetMovingState | driver.py:273-290 | it appends 0x13 to the shared buffer in place, writes the buffer, then reads one byte or None; on a closed port the read raises |
| Driver.Maestro.WaitUntilAtTarget | driver.py:292-295 | the loop leaves the port exactly as the closed form Settled says |
| Driver.Maestro.GoHome | driver.py:297-306 | writes bytes(0xA2), 162 zero bytes, when open; returns the write result |
| Driver.Maestro.GetErrors | driver.py:308-349 | writes bytes(0xA1), 161 zero bytes; a failed write gives False and no read; otherwise it returns the two bytes read unmodified, or raises on a short read |

## Left out

- Opening and configuring the serial port is not modelled: port name, baud rate, the 3 s read timeout and 0.5 s write timeout, and the SerialException mapping. `Connect` takes "the port opened" and "the port is writable" as parameters.
- The port's `writable()` flag is folded into the open flag. Construction raises NotInitialized when the port is not writable, and pyserial reports the flag as constant afterwards. So the "open but not writable" branch of the guards in `write` and `is_open` cannot arise in the model.
- A write on an open port always succeeds and is complete. pyserial's write timeout and partial writes are not modelled. `flush()` has no observable effect here.
- The controller's answers are a queue fixed in advance. Their arrival over time and the read timeout are abstracted: an empty queue is a read that timed out.
- Driver.Maestro.WaitUntilAtTarget: because the queue is finite, the modelled wait always terminates, after at most one poll more than there are queued bytes. The loop at driver.py:294 never ends while the controller keeps answering nonzero, and the model does not capture that non-termination.
- `__del__` finalisation is left out, because it depends on garbage-collection timing.
- Logging calls are left out.
- The `sleep(0.01)` between polls is left out.
- The `__main__` demonstration script is left out.
- `percent2command` uses exact real arithmetic. Floating-point rounding of `percent / 100.0 * 2000` is abstracted away; truncation toward zero is kept.
- The TypeError branch of `write` cannot be reached with the typed `Message`.
- `Message.Count` carries a natural number. `bytes(n)` for a negative `n` would raise ValueError, and the driver never passes one.
- Channels are bytes (0 to 255). `bytearray` raises ValueError for any other channel, and that path is not modelled.
- Driver.Maestro.SetMultipleTargets: the requires demands a pair for each of the first `numTargets` targets. Leaving a needed channel or target at its default `None` makes the source raise TypeError, and that path is not modelled.
- The `m` message argument of `wait_until_at_target` is only logged, so it is dropped.
