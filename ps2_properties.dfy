/** What the PS/2 engine of ps2dev_driver.cpp does over one call and over whole frames. */
module Ps2Properties {
  import opened Common
  import opened Ps2Bits
  import opened Ps2Frame

  // ---------------------------------------------------------------------------------------------
  // Frames

  /** The ten bits `ps2dev_send_data` loads into `send_data`, least significant first:
      start 0, the data bits, stop 1. */
  function Wire(d: Byte): (bs: seq<bool>)
    ensures |bs| == 10
  {
    [false] + DataBits(d) + [true]
  }

  /** The eleven bits of a device-to-host frame in the order they go out. */
  function FrameBits(d: Byte): (bs: seq<bool>)
    ensures |bs| == 11
  {
    var data := DataBits(d);
    [false] + data + [!OddOnes(data)] + [true]
  }

  /** A frame is start bit 0, the data bits least significant first, a parity bit that makes
      the data and parity bits odd in number of ones, and stop bit 1. */
  lemma FrameBitsShape(d: Byte)
    ensures var bs := FrameBits(d);
      !bs[0] && bs[1..9] == DataBits(d) && OddOnes(bs[1..10]) && bs[10]
  {
    var data := DataBits(d);
    var p := !OddOnes(data);
    var bs := FrameBits(d);
    assert bs == [false] + (data + [p]) + [true];
    assert bs[1..10] == data + [p];
    assert (data + [p])[..8] == data;
    OddOnesSnoc(data, p);
  }

  /** `(data << 1) | 0x200` is the shift register holding `Wire(d)`. */
  lemma EncodeIsWire(d: Byte)
    ensures Encode(d) == FromBits(Wire(d))
  {
    var data := DataBits(d);
    assert Wire(d) == [false] + (data + [true]);
    assert Wire(d)[1..] == data + [true];
    FromBitsSnoc(data, true);
    DataBitsRoundTrip(d);
    Pow2Byte();
  }

  // ---------------------------------------------------------------------------------------------
  // Receive FIFO

  /** The receive FIFO after the engine has completed the bytes `bs`, one after the other. */
  function PushAll(q: seq<Byte>, bs: seq<Byte>): seq<Byte>
    decreases |bs|
  {
    if bs == [] then q else PushAll(Push(q, bs[0]), bs[1..])
  }

  /** While there is room, the FIFO keeps every byte, in the order the bytes arrived. */
  lemma {:induction false} FifoKeepsOrder(q: seq<Byte>, bs: seq<Byte>)
    requires |q| + |bs| <= FifoCapacity
    ensures PushAll(q, bs) == q + bs
    decreases |bs|
  {
    if bs != [] {
      FifoKeepsOrder(q + [bs[0]], bs[1..]);
      assert q + [bs[0]] + bs[1..] == q + bs;
    }
  }

  /** Bytes that arrive when the FIFO is full are dropped: the newest is lost, never the oldest. */
  lemma {:induction false} FullFifoDrops(q: seq<Byte>, bs: seq<Byte>)
    requires |q| == FifoCapacity
    ensures PushAll(q, bs) == q
    decreases |bs|
  {
    if bs != [] {
      FullFifoDrops(q, bs[1..]);
    }
  }

  // ---------------------------------------------------------------------------------------------
  // Single calls

  /** A timed phase does nothing until strictly more than its threshold has passed since
      `start_time`, and then always leaves the phase. */
  lemma TimedPhaseGate(e: Engine, clk: bool, dat: bool, now: U64)
    requires Threshold(e.state).Some?
    ensures Elapsed(now, e.startTime) <= Threshold(e.state).value ==> Poll(e, clk, dat, now) == e
    ensures Elapsed(now, e.startTime) > Threshold(e.state).value ==> Poll(e, clk, dat, now).state != e.state
  {
    var e' := Poll(e, clk, dat, now);
    if Elapsed(now, e.startTime) > Threshold(e.state).value && e'.state != Idle && e'.state != WaitStartBit
       && e'.state != AckDatEnd {
      SuccIncrements(e.state);
    }
  }

  /** Waiting for the start bit: with the data line still high the engine waits, and gives
      up (back to idle, nothing pushed) once more than 15000 microseconds have passed since
      the clock was first seen low. */
  lemma WaitStartBitTimeout(e: Engine, clk: bool, now: U64)
    requires e.state == WaitStartBit
    ensures Poll(e, clk, true, now).state == (if Elapsed(now, e.startTime) > 15000 then Idle else WaitStartBit)
    ensures Poll(e, clk, true, now).fifo == e.fifo
    ensures Poll(e, clk, true, now).startTime == e.startTime
  {
  }

  /** Waiting for the host to release the clock: same 15000 microsecond budget. */
  lemma WaitClockReleaseTimeout(e: Engine, dat: bool, now: U64)
    requires e.state == WaitClockRelease
    ensures Poll(e, false, dat, now).state == (if Elapsed(now, e.startTime) > 15000 then Idle else WaitClockRelease)
    ensures Poll(e, false, dat, now).fifo == e.fifo
  {
  }

  /** The start bit does not restart the clock: the wait for the clock release is timed from
      the moment the clock was seen low in idle, whenever the start bit came. */
  lemma ReleaseTimedFromClockLow(e: Engine, t0: U64, t1: U64, t2: U64, d0: bool, c1: bool, d2: bool)
    requires e.state == Idle && t0 <= t2
    ensures var r := Run(e, [Sample(false, d0, t0), Sample(c1, false, t1), Sample(false, d2, t2)]);
      r.fifo == e.fifo && r.state == (if t2 - t0 > 15000 then Idle else WaitClockRelease)
  {
    var ss := [Sample(false, d0, t0), Sample(c1, false, t1), Sample(false, d2, t2)];
    var e1 := Step(e, ss[0]);
    var e2 := Step(e1, ss[1]);
    assert e1.startTime == t0 && e1.state == WaitStartBit;
    assert e2.startTime == t0 && e2.state == WaitClockRelease && e2.fifo == e.fifo;
    RunCons(e, ss);
    RunCons(e1, ss[1..]);
    assert ss[1..][0] == ss[1] && ss[1..][1..] == ss[2..];
    RunCons(e2, ss[2..]);
    assert ss[2..][0] == ss[2] && ss[2..][1..] == [];
  }

  /** Host pulling the clock low while the device sends: `send_result` becomes `SEND_ABORT`,
      and because the phase is set to idle and then still incremented, the engine is left
      waiting for a start bit; at a clock-to-low phase the clock is left driven low. */
  lemma SendAbort(e: Engine, dat: bool, now: U64)
    requires e.state.SendBit? || e.state.SendClkToLow?
    requires Elapsed(now, e.startTime) > 15
    ensures Poll(e, false, dat, now).state == WaitStartBit
    ensures Poll(e, false, dat, now).sendResult == Aborted
    ensures Poll(e, false, dat, now).fifo == e.fifo
    ensures e.state.SendClkToLow? ==> Poll(e, false, dat, now).clkDir == Out
  {
  }

  // ---------------------------------------------------------------------------------------------
  // Step equations: one call in a phase whose time has passed

  lemma ReceiveClockLowStep(e: Engine, s: Sample)
    requires e.state.RecvClkToLow? && Elapsed(s.now, e.startTime) > 30
    ensures Step(e, s) == e.(clkDir := Out, state := RecvWait(e.state.bit), startTime := s.now)
  {
  }

  lemma ReceiveDataStep(e: Engine, s: Sample)
    requires e.state.RecvWait? && e.state.bit < RecvParity && Elapsed(s.now, e.startTime) > 30
    ensures Step(e, s) == e.(clkDir := In,
                             receiveData := e.receiveData / 2 + (if s.dat then 0x80 else 0),
                             parityCheck := e.parityCheck != s.dat,
                             state := RecvClkToLow(e.state.bit + 1), startTime := s.now)
  {
  }

  lemma SendParityStep(e: Engine, s: Sample)
    requires e.state == SendBit(SendParitySlot) && s.clk && Elapsed(s.now, e.startTime) > 15
    ensures Step(e, s) == e.(datDir := LineFor(!e.parityCheck), state := SendClkToLow(SendParitySlot), startTime := s.now)
  {
  }

  /** One call in a start, data or stop slot with the clock high. */
  lemma SendWireBitStep(e: Engine, s: Sample)
    requires e.state.SendBit? && e.state.slot != SendParitySlot
    requires s.clk && Elapsed(s.now, e.startTime) > 15
    ensures Step(e, s) == e.(datDir := LineFor(e.sendData % 2 == 1),
                             parityCheck := e.parityCheck != (e.sendData % 2 == 1),
                             sendData := e.sendData / 2,
                             state := SendClkToLow(e.state.slot), startTime := s.now)
  {
  }

  lemma SendClockLowStep(e: Engine, s: Sample)
    requires e.state.SendClkToLow? && s.clk && Elapsed(s.now, e.startTime) > 15
    ensures Step(e, s) == e.(clkDir := Out, state := SendWait(e.state.slot), startTime := s.now)
  {
  }

  lemma SendWaitStep(e: Engine, s: Sample)
    requires e.state.SendWait? && Elapsed(s.now, e.startTime) > 30
    ensures e.state.slot < SendStopSlot ==>
      Step(e, s) == e.(clkDir := In, state := SendBit(e.state.slot + 1), startTime := s.now)
    ensures e.state.slot == SendStopSlot ==>
      Step(e, s) == e.(clkDir := In, state := Idle, sendResult := Succeeded)
  {
  }

  // ---------------------------------------------------------------------------------------------
  // Runs

  /** The level the host reads if the device makes a falling clock edge going from `before` to `after`. */
  function Edge(before: Engine, after: Engine): seq<bool>
  {
    if before.clkDir == In && after.clkDir == Out then [after.datDir == In] else []
  }

  lemma RunCons(e: Engine, ss: seq<Sample>)
    requires ss != []
    ensures Run(e, ss) == Run(Step(e, ss[0]), ss[1..])
    ensures FallingEdgeLevels(e, ss) == Edge(e, Step(e, ss[0])) + FallingEdgeLevels(Step(e, ss[0]), ss[1..])
  {
  }

  /** A call that changes nothing can be taken out of a run: the engine at the end, the
      falling clock edges and the number of calls that act are the same without it. */
  lemma Stutter(e: Engine, s: Sample, ss: seq<Sample>)
    requires Step(e, s) == e
    ensures Run(e, [s] + ss) == Run(e, ss)
    ensures FallingEdgeLevels(e, [s] + ss) == FallingEdgeLevels(e, ss)
    ensures Acts(e, [s] + ss) == Acts(e, ss)
  {
    assert ([s] + ss)[0] == s && ([s] + ss)[1..] == ss;
  }

  // ---------------------------------------------------------------------------------------------
  // Device to host

  /** How many of the ten wire bits of `send_data` have been shifted out before slot `m`
      (0..11) of a frame: the parity slot shifts none. */
  function WireBefore(m: nat): (j: nat)
    requires m <= 11
    ensures j <= 10
  {
    if m <= SendParitySlot then m else m - 1
  }

  /** `f` is the frame that goes out for the wire bits `w` loaded into `send_data`: every
      slot but the parity carries the next wire bit, and the parity slot the complement of
      the parity of the nine wire bits before it. */
  ghost predicate FrameOf(w: seq<bool>, f: seq<bool>)
  {
    && |w| == 10 && |f| == 11
    && (forall k :: 0 <= k < 11 && k != SendParitySlot ==> f[k] == w[WireBefore(k)])
    && f[SendParitySlot] == !OddOnes(w[..9])
  }

  /** The parity slot drives the odd-parity bit of the frame: the complement of the parity of
      the start and data bits already sent. */
  lemma ParityBitValue(d: Byte)
    ensures !OddOnes(Wire(d)[..9]) == FrameBits(d)[SendParitySlot]
  {
    assert Wire(d)[..9] == [false] + DataBits(d);
    OddOnesLeadingZero(DataBits(d));
  }

  /** The frame for a byte is the frame the send phases make of its wire bits. */
  lemma FrameOfWire(d: Byte)
    ensures FrameOf(Wire(d), FrameBits(d))
  {
    ParityBitValue(d);
  }

  /** Before slot `m`, `send_data` holds the wire bits not yet sent and `parity_check` the
      oddness of those sent. */
  ghost predicate Shifted(e: Engine, w: seq<bool>, m: nat)
    requires |w| == 10 && m <= 11
  {
    var j := WireBefore(m);
    e.sendData == FromBits(w[j..]) && e.parityCheck == OddOnes(w[..j])
  }

  /** Before bit `k` of a frame for the wire bits `w` goes out. */
  ghost predicate Sending(e: Engine, w: seq<bool>, k: SendSlot)
    requires |w| == 10
  {
    e.state == SendBit(k) && e.sendResult == Pending && e.clkDir == In && Shifted(e, w, k)
  }

  /** The first call of a data, start or stop slot whose time has passed drives the low bit
      of `send_data`, shifts it out and counts it into the parity. */
  lemma PutWireBit(e: Engine, w: seq<bool>, k: SendSlot, s: Sample)
    requires |w| == 10 && Sending(e, w, k) && k != SendParitySlot
    requires s.clk && Elapsed(s.now, e.startTime) > 15
    ensures var e1 := Step(e, s);
      var j := WireBefore(k);
      && e1.state == SendClkToLow(k) && e1.startTime == s.now && e1.clkDir == In
      && e1.datDir == LineFor(w[j]) && e1.sendResult == Pending && e1.fifo == e.fifo
      && e1.sendData == FromBits(w[j + 1..]) && e1.parityCheck == OddOnes(w[..j + 1])
  {
    SendWireBitStep(e, s);
    ShiftOut(w, WireBefore(k));
  }

  /** The first call of slot `k` whose time has passed puts frame bit `k` on the data line:
      the next wire bit, or at the parity slot the odd-parity bit, with the shift register
      and parity left as they stand before slot `k + 1`. */
  lemma PutBit(e: Engine, w: seq<bool>, f: seq<bool>, k: SendSlot, s: Sample)
    requires FrameOf(w, f) && Sending(e, w, k) && s.clk && Elapsed(s.now, e.startTime) > 15
    ensures var e1 := Step(e, s);
      && e1.state == SendClkToLow(k) && e1.startTime == s.now && e1.clkDir == In
      && e1.datDir == LineFor(f[k]) && e1.sendResult == Pending && e1.fifo == e.fifo
      && Shifted(e1, w, k + 1)
  {
    if k == SendParitySlot {
      SendParityStep(e, s);
    } else {
      PutWireBit(e, w, k, s);
    }
  }

  /** A frame `f` for the wire bits `w` on its way out with the FIFO at `q`, phase by phase
      as it stands while the host does not pull the clock low; idle with `SEND_SUCCESS` once the
      stop bit is out. */
  ghost predicate Transmitting(e: Engine, w: seq<bool>, f: seq<bool>, q: seq<Byte>)
  {
    && FrameOf(w, f)
    && e.fifo == q
    && match e.state
       case SendData => e.sendData == FromBits(w) && e.sendResult == Pending
       case SendBit(k) => Sending(e, w, k)
       case SendClkToLow(k) =>
         e.sendResult == Pending && e.clkDir == In && e.datDir == LineFor(f[k]) && Shifted(e, w, k + 1)
       case SendWait(k) =>
         e.sendResult == Pending && e.clkDir == Out && e.datDir == LineFor(f[k]) && Shifted(e, w, k + 1)
       case Idle => e.sendResult == Succeeded && e.clkDir == In
       case _ => false
  }

  /** How many frame bits the host has been shown in a phase of a send: one per falling clock edge. */
  function BitsOut(s: State): (n: nat)
    ensures n <= 11
  {
    match s
    case SendBit(k) => k
    case SendClkToLow(k) => k
    case SendWait(k) => k + 1
    case Idle => 11
    case _ => 0
  }

  /** How far a send has got: one more for each call that acts, 34 at the end. */
  function SendPos(s: State): nat
  {
    match s
    case SendData => 0
    case SendBit(k) => 1 + 3 * k
    case SendClkToLow(k) => 2 + 3 * k
    case SendWait(k) => 3 + 3 * k
    case _ => 34
  }

  /** What one call from `e` to `e1` at `s` keeps during a send: the frame invariant; the
      levels at the falling clock edges so far stay the start of the frame; the call acts
      exactly when its phase's time has passed, and then moves one phase on. */
  ghost predicate TransmitKeeps(e: Engine, e1: Engine, w: seq<bool>, f: seq<bool>, q: seq<Byte>, s: Sample)
  {
    && Transmitting(e1, w, f, q)
    && f[..BitsOut(e.state)] + Edge(e, e1) == f[..BitsOut(e1.state)]
    && SendPos(e1.state) == SendPos(e.state) + (if e1 == e then 0 else 1)
    && (e.state != Idle ==> (e1 != e <==> Due(e, s)))
  }

  lemma TransmitStart(e: Engine, w: seq<bool>, f: seq<bool>, q: seq<Byte>, s: Sample)
    requires Transmitting(e, w, f, q) && e.state == SendData
    ensures TransmitKeeps(e, Step(e, s), w, f, q, s)
  {
    assert w[0..] == w && w[..0] == [];
  }

  lemma TransmitBit(e: Engine, w: seq<bool>, f: seq<bool>, q: seq<Byte>, s: Sample)
    requires Transmitting(e, w, f, q) && e.state.SendBit? && s.clk
    ensures TransmitKeeps(e, Step(e, s), w, f, q, s)
  {
    if Due(e, s) {
      PutBit(e, w, f, e.state.slot, s);
    } else {
      TimedPhaseGate(e, s.clk, s.dat, s.now);
    }
  }

  lemma TransmitClockLow(e: Engine, w: seq<bool>, f: seq<bool>, q: seq<Byte>, s: Sample)
    requires Transmitting(e, w, f, q) && e.state.SendClkToLow? && s.clk
    ensures TransmitKeeps(e, Step(e, s), w, f, q, s)
  {
    if Due(e, s) {
      SendClockLowStep(e, s);
      PrefixSnoc(f, e.state.slot);
    } else {
      TimedPhaseGate(e, s.clk, s.dat, s.now);
    }
  }

  lemma TransmitWait(e: Engine, w: seq<bool>, f: seq<bool>, q: seq<Byte>, s: Sample)
    requires Transmitting(e, w, f, q) && e.state.SendWait?
    ensures TransmitKeeps(e, Step(e, s), w, f, q, s)
  {
    if Due(e, s) {
      SendWaitStep(e, s);
    } else {
      TimedPhaseGate(e, s.clk, s.dat, s.now);
    }
  }

  /** One call during a send, at any time, reading the clock high whenever the device has
      released it (while the device drives it low, any level): it acts
      exactly when its phase's time has passed, and then moves one phase on; the levels at
      the falling clock edges so far stay the start of the frame. */
  lemma TransmitStep(e: Engine, w: seq<bool>, f: seq<bool>, q: seq<Byte>, s: Sample)
    requires Transmitting(e, w, f, q) && (e.clkDir == In ==> s.clk)
    ensures var e1 := Step(e, s);
      && Transmitting(e1, w, f, q)
      && f[..BitsOut(e.state)] + Edge(e, e1) == f[..BitsOut(e1.state)]
      && SendPos(e1.state) == SendPos(e.state) + (if e1 == e then 0 else 1)
      && (e.state != Idle ==> (e1 != e <==> Due(e, s)))
  {
    if e.state == SendData {
      TransmitStart(e, w, f, q, s);
    } else if e.state.SendBit? {
      TransmitBit(e, w, f, q, s);
    } else if e.state.SendClkToLow? {
      TransmitClockLow(e, w, f, q, s);
    } else if e.state.SendWait? {
      TransmitWait(e, w, f, q, s);
    } else {
      assert Step(e, s) == e;
    }
  }

  /** The host never pulls the clock low: every call made while the device has released the
      clock reads it high. While the device drives the clock low, any level may be read. */
  ghost predicate HostLeavesClock(e: Engine, ss: seq<Sample>)
    decreases |ss|
  {
    ss == [] || ((e.clkDir == In ==> ss[0].clk) && HostLeavesClock(Step(e, ss[0]), ss[1..]))
  }

  /** Any run of calls during a send in which the host leaves the clock alone. */
  lemma {:induction false} TransmitRun(e: Engine, w: seq<bool>, f: seq<bool>, q: seq<Byte>, ss: seq<Sample>)
    requires Transmitting(e, w, f, q)
    requires HostLeavesClock(e, ss)
    ensures Transmitting(Run(e, ss), w, f, q)
    ensures f[..BitsOut(e.state)] + FallingEdgeLevels(e, ss) == f[..BitsOut(Run(e, ss).state)]
    ensures SendPos(Run(e, ss).state) == SendPos(e.state) + Acts(e, ss)
    decreases |ss|
  {
    if ss == [] {
      assert f[..BitsOut(e.state)] + [] == f[..BitsOut(e.state)];
    } else {
      var e1 := Step(e, ss[0]);
      TransmitStep(e, w, f, q, ss[0]);
      TransmitRun(e1, w, f, q, ss[1..]);
      RunCons(e, ss);
      ConcatAssoc(f[..BitsOut(e.state)], Edge(e, e1), FallingEdgeLevels(e1, ss[1..]));
    }
  }

  /** A device-to-host byte: `ps2dev_send_data(d)` from idle, then any run of calls at any
      times, the host never pulling the clock low (the levels read while the device itself
      drives the clock low are free). The levels at the device's falling clock edges
      are always the start of the frame for `d`; the send is over exactly when 34 calls have
      acted, and then the host has read start 0, the data bits of `d` least significant first,
      an odd-parity bit and stop 1, and `send_result` is `SEND_SUCCESS`. */
  lemma SendByte(e: Engine, d: Byte, ss: seq<Sample>)
    requires e.state == Idle
    requires HostLeavesClock(BeginSend(e, d), ss)
    ensures var e0 := BeginSend(e, d); var r := Run(e0, ss); var shown := FallingEdgeLevels(e0, ss);
      && shown <= FrameBits(d)
      && r.fifo == e.fifo
      && Acts(e0, ss) <= 34
      && (r.state == Idle <==> Acts(e0, ss) == 34)
      && (r.state == Idle ==> shown == FrameBits(d) && r.sendResult == Succeeded)
      && (r.state == Idle ==> FromBits(shown[1..9]) == d && OddOnes(shown[1..10]))
      && (r.state != Idle ==> r.sendResult == Pending)
  {
    var e0 := BeginSend(e, d);
    var w, f := Wire(d), FrameBits(d);
    EncodeIsWire(d);
    FrameOfWire(d);
    assert Transmitting(e0, w, f, e.fifo);
    TransmitRun(e0, w, f, e.fifo, ss);
    var shown := FallingEdgeLevels(e0, ss);
    assert [] + shown == shown;
    assert f[..0] == [] && f[..11] == f;
    FrameReadsBack(d);
  }

  /** The host reading a whole frame gets the byte back from bits 1 to 8, and finds bits 1
      to 9 odd in number of ones. */
  lemma FrameReadsBack(d: Byte)
    ensures FromBits(FrameBits(d)[1..9]) == d && OddOnes(FrameBits(d)[1..10])
  {
    FrameBitsShape(d);
    DataBitsRoundTrip(d);
  }

  // ---------------------------------------------------------------------------------------------
  // Host to device

  /** The receive register after the data bits `bits` have come in: them, least significant
      first, above zero bits. */
  ghost predicate Assembled(e: Engine, bits: seq<bool>)
  {
    |bits| <= 8 && e.receiveData == FromBits(Zeros(8 - |bits|) + bits)
  }

  /** The engine outside a send, with `bits` the data levels read so far in the frame in
      progress: in every bit and acknowledge phase the register holds them. */
  ghost predicate Receiving(e: Engine, bits: seq<bool>)
  {
    match e.state
    case RecvClkToLow(k) => |bits| == (if k < RecvParity then k else 8) && Assembled(e, bits)
    case RecvWait(k) => |bits| == (if k < RecvParity then k else 8) && Assembled(e, bits)
    case SendAck => |bits| == 8 && Assembled(e, bits)
    case AckClkToLow => |bits| == 8 && Assembled(e, bits)
    case AckClkEnd => |bits| == 8 && Assembled(e, bits)
    case SendData => false
    case SendBit(_) => false
    case SendClkToLow(_) => false
    case SendWait(_) => false
    case _ => true
  }

  /** The data bits of the frame in progress after a call at `s`. A frame begins, with no
      bits, when the host releases the clock after its start bit; a data-bit phase reads the
      data level at the call that comes more than 30 microseconds into it. */
  function Hear(e: Engine, s: Sample, bits: seq<bool>): seq<bool>
  {
    if e.state == WaitClockRelease && s.clk then []
    else if e.state.RecvWait? && e.state.bit < RecvParity && Elapsed(s.now, e.startTime) > 30 then bits + [s.dat]
    else bits
  }

  /** Eight data bits, least significant first, as a byte. */
  function ByteOf(bits: seq<bool>): Byte
    requires |bits| == 8
  {
    Pow2Byte();
    FromBits(bits)
  }

  /** The byte a call at `s` completes, if any: the frame's eight data bits, once the
      acknowledge's clock pulse has lasted more than 30 microseconds. */
  function Took(e: Engine, s: Sample, bits: seq<bool>): seq<Byte>
  {
    if e.state == AckClkEnd && Elapsed(s.now, e.startTime) > 30 && |bits| == 8 then [ByteOf(bits)] else []
  }

  /** What the host has clocked in over a run of calls: the bytes of the frames completed, in
      order, and the data bits of the frame still in progress. */
  function Listen(e: Engine, ss: seq<Sample>, bits: seq<bool>): (seq<Byte>, seq<bool>)
    decreases |ss|
  {
    if ss == [] then ([], bits)
    else
      var rest := Listen(Step(e, ss[0]), ss[1..], Hear(e, ss[0], bits));
      (Took(e, ss[0], bits) + rest.0, rest.1)
  }

  lemma {:induction false} PushAllAppend(q: seq<Byte>, a: seq<Byte>, b: seq<Byte>)
    ensures PushAll(q, a + b) == PushAll(PushAll(q, a), b)
    decreases |a|
  {
    if a == [] {
      assert a + b == b;
    } else {
      assert (a + b)[0] == a[0] && (a + b)[1..] == a[1..] + b;
      PushAllAppend(Push(q, a[0]), a[1..], b);
    }
  }

  /** One call outside a send, at any time and with any levels read: the register keeps
      holding the bits heard, and the FIFO takes the byte completed, if any. */
  lemma ListenStep(e: Engine, bits: seq<bool>, s: Sample)
    requires Receiving(e, bits)
    ensures Receiving(Step(e, s), Hear(e, s, bits))
    ensures Step(e, s).fifo == PushAll(e.fifo, Took(e, s, bits))
  {
    if e.state == WaitClockRelease && s.clk {
      ZerosAreZero(8);
      assert Zeros(8) + [] == Zeros(8);
    } else if e.state.RecvWait? && e.state.bit < RecvParity {
      ListenDataBit(e, bits, s);
    } else if e.state == AckClkEnd {
      ListenAckEnd(e, bits, s);
    }
  }

  /** A data-bit phase whose time has passed shifts the level read in at the top. */
  lemma ListenDataBit(e: Engine, bits: seq<bool>, s: Sample)
    requires Receiving(e, bits) && e.state.RecvWait? && e.state.bit < RecvParity
    ensures Receiving(Step(e, s), Hear(e, s, bits)) && Step(e, s).fifo == e.fifo
  {
    if Elapsed(s.now, e.startTime) > 30 {
      ReceiveDataStep(e, s);
      ShiftInTop(bits, s.dat);
    }
  }

  /** The end of the acknowledge's clock pulse pushes the byte the register holds. */
  lemma ListenAckEnd(e: Engine, bits: seq<bool>, s: Sample)
    requires Receiving(e, bits) && e.state == AckClkEnd
    ensures Receiving(Step(e, s), Hear(e, s, bits))
    ensures Step(e, s).fifo == PushAll(e.fifo, Took(e, s, bits))
  {
    if Elapsed(s.now, e.startTime) > 30 {
      assert Zeros(0) + bits == bits;
      assert [ByteOf(bits)][1..] == [];
    }
  }

  /** Any run of calls outside a send. */
  lemma {:induction false} ListenRun(e: Engine, bits: seq<bool>, ss: seq<Sample>)
    requires Receiving(e, bits)
    ensures Receiving(Run(e, ss), Listen(e, ss, bits).1)
    ensures Run(e, ss).fifo == PushAll(e.fifo, Listen(e, ss, bits).0)
    decreases |ss|
  {
    if ss != [] {
      var e1 := Step(e, ss[0]);
      var bits1 := Hear(e, ss[0], bits);
      ListenStep(e, bits, ss[0]);
      ListenRun(e1, bits1, ss[1..]);
      PushAllAppend(e.fifo, Took(e, ss[0], bits), Listen(e1, ss[1..], bits1).0);
    }
  }

  /** Host-to-device bytes from idle, over any run of calls at any times and with any levels
      read: the FIFO takes, in order, the byte of every frame completed (its eight data levels
      least significant first, whatever was read for parity and stop), a full FIFO dropping
      the newest; while there is room none is lost. */
  lemma ReceiveBytes(e: Engine, ss: seq<Sample>)
    requires e.state == Idle
    ensures Run(e, ss).fifo == PushAll(e.fifo, Listen(e, ss, []).0)
    ensures |e.fifo| + |Listen(e, ss, []).0| <= FifoCapacity ==> Run(e, ss).fifo == e.fifo + Listen(e, ss, []).0
  {
    ListenRun(e, [], ss);
    if |e.fifo| + |Listen(e, ss, []).0| <= FifoCapacity {
      FifoKeepsOrder(e.fifo, Listen(e, ss, []).0);
    }
  }

  lemma {:induction false} ZerosAreZero(n: nat)
    ensures FromBits(Zeros(n)) == 0
  {
    if n > 0 {
      ZerosCons(n);
      ZerosAreZero(n - 1);
      FromBitsLeadingZero(Zeros(n - 1));
    }
  }

  // ---------------------------------------------------------------------------------------------
  // Reading back a line the device drives

  /** Levels the hardware can show at a call: a line the device drives low reads 0, except
      where the phase releases that line before reading it (the clock in idle, the data line
      while waiting for the start bit). */
  ghost predicate Readable(e: Engine, s: Sample)
  {
    && (e.clkDir == Out && e.state != Idle ==> !s.clk)
    && (e.datDir == Out && e.state != WaitStartBit ==> !s.dat)
  }

  ghost predicate ReadableRun(e: Engine, ss: seq<Sample>)
    decreases |ss|
  {
    ss == [] || (Readable(e, ss[0]) && ReadableRun(Step(e, ss[0]), ss[1..]))
  }

  /** The device itself holding the clock low while it waits for a start bit or a clock
      release, timed from `t0`, with the FIFO at `q`. */
  ghost predicate HoldsClock(e: Engine, t0: U64, q: seq<Byte>)
  {
    (e.state == WaitStartBit || e.state == WaitClockRelease) && e.clkDir == Out && e.startTime == t0 && e.fifo == q
  }

  /** While it holds the clock low, the engine reads its own low clock: it never sees a
      release, so it never starts receiving, and it leaves only by the 15000 microsecond
      timeout, to idle. */
  lemma HeldClockStep(e: Engine, t0: U64, q: seq<Byte>, s: Sample)
    requires HoldsClock(e, t0, q) && Readable(e, s)
    ensures HoldsClock(Step(e, s), t0, q) || (Step(e, s).state == Idle && Step(e, s).fifo == q && Elapsed(s.now, t0) > 15000)
    ensures Elapsed(s.now, t0) <= 15000 ==> HoldsClock(Step(e, s), t0, q)
  {
  }

  lemma {:induction false} HeldUntilTimeout(e: Engine, t0: U64, q: seq<Byte>, ss: seq<Sample>)
    requires HoldsClock(e, t0, q) && ReadableRun(e, ss)
    requires forall i :: 0 <= i < |ss| ==> Elapsed(ss[i].now, t0) <= 15000
    ensures HoldsClock(Run(e, ss), t0, q) && FallingEdgeLevels(e, ss) == []
    decreases |ss|
  {
    if ss != [] {
      HeldClockStep(e, t0, q, ss[0]);
      assert forall i :: 0 <= i < |ss| - 1 ==> ss[1..][i] == ss[i + 1];
      HeldUntilTimeout(Step(e, ss[0]), t0, q, ss[1..]);
    }
  }

  /** A send aborted at a clock-to-low phase leaves the clock driven low, and with levels the
      hardware can show, for 15000 microseconds after the abort the engine keeps waiting with
      the clock held: it never takes its own low clock for a host frame, never reaches a
      receive phase and never returns to idle. */
  lemma AbortHoldsClock(e: Engine, dat: bool, now: U64, ss: seq<Sample>)
    requires e.state.SendClkToLow? && Elapsed(now, e.startTime) > 15
    requires ReadableRun(Poll(e, false, dat, now), ss)
    requires forall i :: 0 <= i < |ss| ==> Elapsed(ss[i].now, now) <= 15000
    ensures var r := Run(Poll(e, false, dat, now), ss);
      (r.state == WaitStartBit || r.state == WaitClockRelease) && r.clkDir == Out && r.fifo == e.fifo
  {
    HeldUntilTimeout(Poll(e, false, dat, now), now, e.fifo, ss);
  }
}
