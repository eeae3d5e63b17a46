/** The PS/2 device-side engine of ps2dev_driver.cpp as a pure step function.

    `Poll` is one call of `ps2dev_task`: it reads the sampled clock and data levels and the
    current time, and gives the next values of every file-scope register together with the
    receive FIFO's contents. The class in ps2dev_driver.dfy is proved to implement it. */
module Ps2Frame {
  import opened Common

  /** A 64-bit microsecond count, as `_get_us()` returns it. */
  type U64 = x: int | 0 <= x < 0x1_0000_0000_0000_0000

  /** `_get_us() - start_time` computed in `uint64_t`: below zero it wraps around by 2^64. */
  function Elapsed(now: U64, since: U64): U64
  {
    if since <= now then now - since else now - since + 0x1_0000_0000_0000_0000
  }

  /** The elapsed time is the difference reduced modulo 2^64, as unsigned 64-bit subtraction gives it. */
  lemma ElapsedIsUint64Difference(now: U64, since: U64)
    ensures Elapsed(now, since) == (now - since) % 0x1_0000_0000_0000_0000
  {
  }

  /** Direction of one open-drain line. `Out` pulls the line low: ps2dev_init latches 0 into both outputs. */
  datatype Dir = In | Out

  /** Receive bit phases: 0..7 data, 8 parity, 9 stop. */
  type RecvSlot = k: int | 0 <= k < 10
  const RecvParity: RecvSlot := 8
  const RecvStop: RecvSlot := 9

  /** Send bit phases: 0 start, 1..8 data, 9 parity, 10 stop. */
  type SendSlot = k: int | 0 <= k < 11
  const SendParitySlot: SendSlot := 9
  const SendStopSlot: SendSlot := 10

  /** The phases of the engine. The parameterised constructors stand for the runs of enum
      members `PS2DEV_Dk_CLK_TO_LOW`, `PS2DEV_Dk_WAIT`, `PS2DEV_SEND_Dk` ...; `Code` gives
      each phase its value in the C enum. */
  datatype State =
    | Idle
    | WaitStartBit
    | WaitClockRelease
    | RecvClkToLow(bit: RecvSlot)
    | RecvWait(bit: RecvSlot)
    | SendAck
    | AckClkToLow
    | AckClkEnd
    | AckDatEnd
    | SendData
    | SendBit(slot: SendSlot)
    | SendClkToLow(slot: SendSlot)
    | SendWait(slot: SendSlot)

  /** The largest enum value, `PS2DEV_SEND_STOP_WAIT`. */
  const LastCode: nat := 60

  /** The value of the phase in the C enum (`PS2DEV_IDLE = 0`, then one more per member). */
  function Code(s: State): (n: nat)
    ensures n <= LastCode
  {
    match s
    case Idle => 0
    case WaitStartBit => 1
    case WaitClockRelease => 2
    case RecvClkToLow(k) => 3 + 2 * k
    case RecvWait(k) => 4 + 2 * k
    case SendAck => 23
    case AckClkToLow => 24
    case AckClkEnd => 25
    case AckDatEnd => 26
    case SendData => 27
    case SendBit(k) => 28 + 3 * k
    case SendClkToLow(k) => 29 + 3 * k
    case SendWait(k) => 30 + 3 * k
  }

  /** The phase an enum value names, if any. */
  function FromCode(n: nat): (r: Option<State>)
    ensures r.Some? <==> n <= LastCode
    ensures r.Some? ==> Code(r.value) == n
  {
    if n == 0 then Some(Idle)
    else if n == 1 then Some(WaitStartBit)
    else if n == 2 then Some(WaitClockRelease)
    else if n < 23 then
      (if (n - 3) % 2 == 0 then Some(RecvClkToLow((n - 3) / 2)) else Some(RecvWait((n - 4) / 2)))
    else if n == 23 then Some(SendAck)
    else if n == 24 then Some(AckClkToLow)
    else if n == 25 then Some(AckClkEnd)
    else if n == 26 then Some(AckDatEnd)
    else if n == 27 then Some(SendData)
    else if n <= LastCode then
      (if (n - 28) % 3 == 0 then Some(SendBit((n - 28) / 3))
       else if (n - 28) % 3 == 1 then Some(SendClkToLow((n - 29) / 3))
       else Some(SendWait((n - 30) / 3)))
    else None
  }

  /** Every phase has its own enum value: `Code` and `FromCode` are inverse. */
  lemma CodeRoundTrip(s: State)
    ensures FromCode(Code(s)) == Some(s)
  {
    match s
    case RecvClkToLow(k) => EvenOdd(k);
    case RecvWait(k) => EvenOdd(k);
    case SendBit(k) => ThirdsOf(k);
    case SendClkToLow(k) => ThirdsOf(k);
    case SendWait(k) => ThirdsOf(k);
    case _ =>
  }

  lemma EvenOdd(k: nat)
    ensures (2 * k) % 2 == 0 && (2 * k) / 2 == k
    ensures (2 * k + 1) % 2 == 1
  {
  }

  lemma ThirdsOf(k: nat)
    ensures (3 * k) % 3 == 0 && (3 * k) / 3 == k
    ensures (3 * k + 1) % 3 == 1 && (3 * k + 2) % 3 == 2
  {
  }

  /** `ps2dev_state++`: the phase whose enum value is one more. */
  function Succ(s: State): State
    requires s != SendWait(SendStopSlot)
  {
    match s
    case Idle => WaitStartBit
    case WaitStartBit => WaitClockRelease
    case WaitClockRelease => RecvClkToLow(0)
    case RecvClkToLow(k) => RecvWait(k)
    case RecvWait(k) => if k < RecvStop then RecvClkToLow(k + 1) else SendAck
    case SendAck => AckClkToLow
    case AckClkToLow => AckClkEnd
    case AckClkEnd => AckDatEnd
    case AckDatEnd => SendData
    case SendData => SendBit(0)
    case SendBit(k) => SendClkToLow(k)
    case SendClkToLow(k) => SendWait(k)
    case SendWait(k) => SendBit(k + 1)
  }

  /** `ps2dev_state++` moves to the next enum member, so the enum order is the protocol's phase order. */
  lemma SuccIncrements(s: State)
    requires s != SendWait(SendStopSlot)
    ensures Code(Succ(s)) == Code(s) + 1
  {
  }

  /** `send_result`: `SEND_DATA` while a send is in flight, then `SEND_ABORT` or `SEND_SUCCESS`. */
  datatype SendResult = Pending | Aborted | Succeeded

  /** Receive FIFO: 8 slots, one always left free. */
  const FifoCapacity: nat := 7

  /** Every file-scope variable of the engine, with the receive FIFO seen as the sequence of bytes it holds. */
  datatype Engine = Engine(
    state: State,
    startTime: U64,
    receiveData: Byte,
    sendData: nat,
    parityCheck: bool,
    sendResult: SendResult,
    clkDir: Dir,
    datDir: Dir,
    fifo: seq<Byte>)

  /** `push_fifo`: appends unless the FIFO already holds `FifoCapacity` bytes, in which case the byte is dropped. */
  function Push(q: seq<Byte>, b: Byte): (r: seq<Byte>)
    ensures |q| < FifoCapacity ==> r == q + [b]
    ensures |q| >= FifoCapacity ==> r == q
  {
    if |q| < FifoCapacity then q + [b] else q
  }

  /** `(send_data & 1) == 0` drives the data line low; otherwise it is released and the pull-up makes it 1. */
  function LineFor(one: bool): Dir {
    if one then In else Out
  }

  /** One call of `ps2dev_task` with the clock and data levels it reads and the time `_get_us()` returns.
      The switch on the phase is written here group by group. */
  function Poll(e: Engine, clk: bool, dat: bool, now: U64): (e': Engine)
  {
    var dt := Elapsed(now, e.startTime);
    if e.state.Idle? || e.state.WaitStartBit? || e.state.WaitClockRelease? then WatchStep(e, clk, dat, now, dt)
    else if e.state.RecvClkToLow? || e.state.RecvWait? then ReceiveStep(e, dat, now, dt)
    else if e.state.SendAck? || e.state.AckClkToLow? || e.state.AckClkEnd? || e.state.AckDatEnd? then AckStep(e, now, dt)
    else if e.state.SendBit? then SendBitStep(e, clk, now, dt)
    else ClockOutStep(e, clk, now, dt)
  }

  /** The phases that wait for a line level: idle, start bit, clock release. */
  function WatchStep(e: Engine, clk: bool, dat: bool, now: U64, dt: nat): Engine
    requires e.state.Idle? || e.state.WaitStartBit? || e.state.WaitClockRelease?
  {
    match e.state
    case Idle =>
      if !clk then e.(clkDir := In, state := WaitStartBit, startTime := now)
      else e.(clkDir := In)
    case WaitStartBit =>
      if !dat then e.(datDir := In, state := WaitClockRelease, receiveData := 0, parityCheck := false)
      else if dt > 15000 then e.(datDir := In, state := Idle)
      else e.(datDir := In)
    case WaitClockRelease =>
      if clk then e.(state := RecvClkToLow(0), receiveData := 0, startTime := now)
      else if dt > 15000 then e.(state := Idle)
      else e
  }

  /** The host-to-device bit phases: data bits shift in from the top, parity counts the ones. */
  function ReceiveStep(e: Engine, dat: bool, now: U64, dt: nat): Engine
    requires e.state.RecvClkToLow? || e.state.RecvWait?
  {
    match e.state
    case RecvClkToLow(_) =>
      if dt > 30 then e.(clkDir := Out, state := Succ(e.state), startTime := now)
      else e
    case RecvWait(k) =>
      if dt <= 30 then e
      else if k < RecvParity then
        e.(clkDir := In,
           receiveData := e.receiveData / 2 + (if dat then 0x80 else 0),
           parityCheck := if dat then !e.parityCheck else e.parityCheck,
           state := Succ(e.state), startTime := now)
      else if k == RecvParity then
        e.(clkDir := In,
           parityCheck := if dat then !e.parityCheck else e.parityCheck,
           state := Succ(e.state), startTime := now)
      else
        e.(clkDir := In, state := Succ(e.state), startTime := now)
  }

  /** The acknowledge phases; the received byte is queued on the way. */
  function AckStep(e: Engine, now: U64, dt: nat): Engine
    requires e.state.SendAck? || e.state.AckClkToLow? || e.state.AckClkEnd? || e.state.AckDatEnd?
  {
    match e.state
    case SendAck =>
      if dt > 5 then e.(datDir := Out, state := Succ(e.state), startTime := now)
      else e
    case AckClkToLow =>
      if dt > 25 then e.(clkDir := Out, state := Succ(e.state), startTime := now)
      else e
    case AckClkEnd =>
      if dt > 30 then e.(clkDir := In, fifo := Push(e.fifo, e.receiveData), state := AckDatEnd)
      else e
    case AckDatEnd =>
      if dt > 5 then e.(datDir := In, state := Idle)
      else e
  }

  /** The device-to-host bit phase: the next data bit, or the parity, goes on the data line. A
      clock held low by the host records the abort, and the phase still advances from `Idle`. */
  function SendBitStep(e: Engine, clk: bool, now: U64, dt: nat): Engine
    requires e.state.SendBit?
  {
    var k := e.state.slot;
    if dt <= 15 then e
    else
      var from := if !clk then Idle else e.state;
      var result := if !clk then Aborted else e.sendResult;
      if k == SendParitySlot then
        e.(sendResult := result, datDir := LineFor(!e.parityCheck),
           state := Succ(from), startTime := now)
      else
        var one := e.sendData % 2 == 1;
        e.(sendResult := result, datDir := LineFor(one),
           parityCheck := if one then !e.parityCheck else e.parityCheck,
           sendData := e.sendData / 2,
           state := Succ(from), startTime := now)
  }

  /** The other device-to-host phases: start the frame, pull the clock low, release it. */
  function ClockOutStep(e: Engine, clk: bool, now: U64, dt: nat): Engine
    requires e.state.SendData? || e.state.SendClkToLow? || e.state.SendWait?
  {
    match e.state
    case SendData =>
      e.(clkDir := In, state := Succ(e.state), parityCheck := false, startTime := now)
    case SendClkToLow(k) =>
      if dt <= 15 then e
      else
        e.(sendResult := if !clk then Aborted else e.sendResult,
           clkDir := Out,
           state := Succ(if !clk then Idle else e.state), startTime := now)
    case SendWait(k) =>
      if dt <= 30 then e
      else if k < SendStopSlot then e.(clkDir := In, state := Succ(e.state), startTime := now)
      else e.(clkDir := In, state := Idle, sendResult := Succeeded)
  }

  /** The least time, in microseconds, that must have passed since `start_time` for a timed
      phase to act; `None` for the phases that act on a line level instead. */
  function Threshold(s: State): Option<nat>
  {
    match s
    case Idle => None
    case WaitStartBit => None
    case WaitClockRelease => None
    case SendData => None
    case RecvClkToLow(_) => Some(30)
    case RecvWait(_) => Some(30)
    case SendAck => Some(5)
    case AckClkToLow => Some(25)
    case AckClkEnd => Some(30)
    case AckDatEnd => Some(5)
    case SendBit(_) => Some(15)
    case SendClkToLow(_) => Some(15)
    case SendWait(_) => Some(30)
  }

  /** `ps2dev_send_data` when it accepts: the byte framed as `1 dddddddd 0` (stop, data, start). */
  function Encode(d: Byte): (v: nat)
    ensures v % 2 == 0 && v / 512 == 1 && (v / 2) % 256 == d
  {
    d * 2 + 0x200
  }

  /** `ps2dev_send_data` without its wait: refused (nothing changes) unless the engine is idle. */
  function BeginSend(e: Engine, d: Byte): (e': Engine)
  {
    if e.state != Idle then e
    else e.(sendData := Encode(d), sendResult := Pending, state := SendData)
  }

  // ---------------------------------------------------------------------------------------------
  // Runs of consecutive calls

  /** What one call of `ps2dev_task` reads: the clock level, the data level and the time. */
  datatype Sample = Sample(clk: bool, dat: bool, now: U64)

  function Step(e: Engine, s: Sample): Engine {
    Poll(e, s.clk, s.dat, s.now)
  }

  /** The engine after a sequence of calls. */
  function Run(e: Engine, ss: seq<Sample>): Engine
    decreases |ss|
  {
    if ss == [] then e else Run(Step(e, ss[0]), ss[1..])
  }

  /** Whether a call at `s` finds the time of the engine's phase passed: always for the phases
      that act on a line level or at once, otherwise strictly more than the phase's threshold
      after `start_time`. */
  predicate Due(e: Engine, s: Sample)
  {
    Threshold(e.state).None? || Elapsed(s.now, e.startTime) > Threshold(e.state).value
  }

  /** The number of calls of a run that change the engine; the others are no-ops. */
  function Acts(e: Engine, ss: seq<Sample>): nat
    decreases |ss|
  {
    if ss == [] then 0
    else (if Step(e, ss[0]) == e then 0 else 1) + Acts(Step(e, ss[0]), ss[1..])
  }

  /** The data level the host reads at each falling clock edge the device makes (the device
      driving the clock low after having released it). A released data line reads 1. */
  function FallingEdgeLevels(e: Engine, ss: seq<Sample>): seq<bool>
    decreases |ss|
  {
    if ss == [] then []
    else
      var e1 := Step(e, ss[0]);
      (if e.clkDir == In && e1.clkDir == Out then [e1.datDir == In] else [])
        + FallingEdgeLevels(e1, ss[1..])
  }

  lemma {:induction false} RunAppend(e: Engine, a: seq<Sample>, b: seq<Sample>)
    ensures Run(e, a + b) == Run(Run(e, a), b)
    ensures FallingEdgeLevels(e, a + b) == FallingEdgeLevels(e, a) + FallingEdgeLevels(Run(e, a), b)
    decreases |a|
  {
    if a == [] {
      assert a + b == b;
    } else {
      assert (a + b)[0] == a[0];
      assert (a + b)[1..] == a[1..] + b;
      RunAppend(Step(e, a[0]), a[1..], b);
    }
  }
}
