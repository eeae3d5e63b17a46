/** The PS/2 device driver of ps2dev_driver.cpp as an object: the file-scope registers become
    fields, the eight-slot receive ring becomes an array with a read and a write index, and
    every entry point is a method proved against the pure engine of ps2_frame.dfy. */
module Ps2DevDriver {
  import opened Common
  import opened Ps2Frame

  /** Slots in `receive_fifo`; an index wraps with `& 7`. */
  const RingSize: nat := 8

  /** The bytes of ring `a` from read index `r` up to write index `w`, wrapping past the last slot. */
  function Ring(a: seq<Byte>, r: int, w: int): seq<Byte>
    requires |a| == RingSize && 0 <= r < RingSize && 0 <= w < RingSize
  {
    if r <= w then a[r..w] else a[r..] + a[..w]
  }

  /** The ring holds `(w - r) & 7` bytes, so at most seven. */
  lemma RingLength(a: seq<Byte>, r: int, w: int)
    requires |a| == RingSize && 0 <= r < RingSize && 0 <= w < RingSize
    ensures |Ring(a, r, w)| == (w - r) % RingSize < RingSize
  {
  }

  /** `receive_fifo[w] = data; w = (w + 1) & 7` on a ring that is not full appends `data`. */
  lemma RingWrite(a: seq<Byte>, r: int, w: int, data: Byte)
    requires |a| == RingSize && 0 <= r < RingSize && 0 <= w < RingSize
    requires (w + 1) % RingSize != r
    ensures Ring(a[w := data], r, (w + 1) % RingSize) == Ring(a, r, w) + [data]
  {
    var a' := a[w := data];
    if r <= w {
      assert a'[r..w] == a[r..w];
      if w < RingSize - 1 {
        assert a'[r..w + 1] == a[r..w] + [data];
      } else {
        assert a'[r..] + a'[..0] == a[r..w] + [data];
      }
    } else {
      assert a'[r..] == a[r..] && a'[..w] == a[..w];
      assert a'[..w + 1] == a[..w] + [data];
    }
  }

  /** `data = receive_fifo[r]; r = (r + 1) & 7` on a ring that is not empty takes its oldest byte. */
  lemma RingRead(a: seq<Byte>, r: int, w: int)
    requires |a| == RingSize && 0 <= r < RingSize && 0 <= w < RingSize
    requires r != w
    ensures Ring(a, r, w) != [] && Ring(a, r, w)[0] == a[r]
    ensures Ring(a, (r + 1) % RingSize, w) == Ring(a, r, w)[1..]
  {
    var next := if r == RingSize - 1 then 0 else r + 1;
    assert next == (r + 1) % RingSize;
    var rest := Ring(a, next, w);
    if r < w {
      RingReadBelow(a, r, w);
    } else if r < RingSize - 1 {
      RingReadAbove(a, r, w);
    } else {
      RingReadLast(a, w);
    }
    assert Ring(a, r, w) == [a[r]] + rest;
    assert ([a[r]] + rest)[1..] == rest;
  }

  lemma RingReadBelow(a: seq<Byte>, r: int, w: int)
    requires |a| == RingSize && 0 <= r < w < RingSize
    ensures Ring(a, r, w) == [a[r]] + Ring(a, r + 1, w)
  {
    assert a[r..w] == [a[r]] + a[r + 1..w];
  }

  lemma RingReadAbove(a: seq<Byte>, r: int, w: int)
    requires |a| == RingSize && 0 <= w < r < RingSize - 1
    ensures Ring(a, r, w) == [a[r]] + Ring(a, r + 1, w)
  {
    assert a[r..] == [a[r]] + a[r + 1..];
  }

  lemma RingReadLast(a: seq<Byte>, w: int)
    requires |a| == RingSize && 0 <= w < RingSize - 1
    ensures Ring(a, RingSize - 1, w) == [a[RingSize - 1]] + Ring(a, 0, w)
  {
    assert a[RingSize - 1..] == [a[RingSize - 1]];
  }

  class Ps2Device {
    var state: State
    var startTime: U64
    var receiveData: Byte
    var sendData: nat
    var parityCheck: bool
    var sendResult: SendResult
    /** Directions of the clock and data pins; `Out` drives the line low. */
    var clkDir: Dir
    var datDir: Dir
    const receiveFifo: array<Byte>
    var fifoReadPtr: int
    var fifoWritePtr: int

    ghost predicate Valid()
      reads this`fifoReadPtr, this`fifoWritePtr
    {
      receiveFifo.Length == RingSize && 0 <= fifoReadPtr < RingSize && 0 <= fifoWritePtr < RingSize
    }

    /** The bytes waiting in the ring, oldest first. */
    function Contents(): (q: seq<Byte>)
      requires Valid()
      reads this`fifoReadPtr, this`fifoWritePtr, receiveFifo
      ensures |q| <= FifoCapacity
      ensures |q| == (fifoWritePtr - fifoReadPtr) % RingSize
    {
      RingLength(receiveFifo[..], fifoReadPtr, fifoWritePtr);
      Ring(receiveFifo[..], fifoReadPtr, fifoWritePtr)
    }

    /** The driver's whole state as a value of the pure engine. */
    function Model(): (e: Engine)
      requires Valid()
      reads this, receiveFifo
      ensures e.fifo == Contents() && e.state == state
    {
      Engine(state, startTime, receiveData, sendData, parityCheck, sendResult, clkDir, datDir, Contents())
    }

    /** `ps2dev_init`: both pins released (input with pull-up, output latch 0), idle, ring
        empty. The other registers keep their zero start values as C statics. */
    constructor ()
      ensures Valid()
      ensures Model() == Engine(Idle, 0, 0, 0, false, Pending, In, In, [])
      ensures fresh(receiveFifo)
    {
      state := Idle;
      startTime := 0;
      receiveData := 0;
      sendData := 0;
      parityCheck := false;
      sendResult := Pending;
      clkDir := In;
      datDir := In;
      receiveFifo := new Byte[RingSize](_ => 0);
      fifoReadPtr := 0;
      fifoWritePtr := 0;
    }

    /** `is_fifo_empty`: the two indices meet. */
    function IsFifoEmpty(): (empty: bool)
      requires Valid()
      reads this`fifoReadPtr, this`fifoWritePtr
      ensures empty <==> Contents() == []
    {
      fifoReadPtr == fifoWritePtr
    }

    /** `is_fifo_full`: one more write would make the indices meet, so seven bytes are the most the ring holds. */
    function IsFifoFull(): (full: bool)
      requires Valid()
      reads this`fifoReadPtr, this`fifoWritePtr
      ensures full <==> |Contents()| == FifoCapacity
    {
      (fifoWritePtr + 1) % RingSize == fifoReadPtr
    }

    /** `push_fifo`: appends the byte unless the ring is full, in which case the byte is lost. */
    method PushFifo(data: Byte)
      requires Valid()
      modifies this, receiveFifo
      ensures Valid()
      ensures Contents() == Push(old(Contents()), data)
      ensures fifoReadPtr == old(fifoReadPtr)
      ensures state == old(state) && startTime == old(startTime) && receiveData == old(receiveData)
      ensures sendData == old(sendData) && parityCheck == old(parityCheck) && sendResult == old(sendResult)
      ensures clkDir == old(clkDir) && datDir == old(datDir)
    {
      if IsFifoFull() {
        return;
      }
      RingWrite(receiveFifo[..], fifoReadPtr, fifoWritePtr, data);
      receiveFifo[fifoWritePtr] := data;
      fifoWritePtr := (fifoWritePtr + 1) % RingSize;
    }

    /** `pop_fifo`: the oldest byte, or 0 when the ring is empty. */
    method PopFifo() returns (data: Byte)
      requires Valid()
      modifies this
      ensures Valid()
      ensures old(Contents()) == [] ==> data == 0 && Contents() == []
      ensures old(Contents()) != [] ==> data == old(Contents())[0] && Contents() == old(Contents())[1..]
      ensures Model() == old(Model()).(fifo := Contents())
    {
      if IsFifoEmpty() {
        return 0;
      }
      RingRead(receiveFifo[..], fifoReadPtr, fifoWritePtr);
      data := receiveFifo[fifoReadPtr];
      fifoReadPtr := (fifoReadPtr + 1) % RingSize;
    }

    /** `ps2dev_task`: one call of the engine with the pin levels it reads and the time. The
        switch of the source is split here by group of phases, one method each. */
    method Task(clk: bool, dat: bool, now: U64)
      requires Valid()
      modifies this, receiveFifo
      ensures Valid()
      ensures Model() == Poll(old(Model()), clk, dat, now)
    {
      if state.Idle? || state.WaitStartBit? || state.WaitClockRelease? {
        WatchLines(clk, dat, now);
      } else if state.RecvClkToLow? || state.RecvWait? {
        ClockInBit(clk, dat, now);
      } else if state.SendAck? || state.AckClkToLow? || state.AckDatEnd? {
        Acknowledge(clk, dat, now);
      } else if state.AckClkEnd? {
        StoreReceived(clk, dat, now);
      } else if state.SendBit? {
        PutBit(clk, dat, now);
      } else {
        ClockOutBit(clk, dat, now);
      }
    }

    /** The phases that wait for a line level: idle, start bit, clock release. */
    method WatchLines(clk: bool, dat: bool, now: U64)
      requires Valid() && (state.Idle? || state.WaitStartBit? || state.WaitClockRelease?)
      modifies this
      ensures Valid()
      ensures Model() == Poll(old(Model()), clk, dat, now)
    {
      var dt := Elapsed(now, startTime);
      match state
      case Idle =>
        clkDir := In;
        if !clk {
          state := WaitStartBit;
          startTime := now;
        }
      case WaitStartBit =>
        datDir := In;
        if !dat {
          state := WaitClockRelease;
          receiveData := 0;
          parityCheck := false;
        } else if dt > 15000 {
          state := Idle;
        }
      case WaitClockRelease =>
        if clk {
          state := RecvClkToLow(0);
          receiveData := 0;
          startTime := now;
        } else if dt > 15000 {
          state := Idle;
        }
    }

    /** The host-to-device bit phases: pull the clock low, release it and sample the data line. */
    method ClockInBit(clk: bool, dat: bool, now: U64)
      requires Valid() && (state.RecvClkToLow? || state.RecvWait?)
      modifies this
      ensures Valid()
      ensures Model() == Poll(old(Model()), clk, dat, now)
    {
      var dt := Elapsed(now, startTime);
      match state
      case RecvClkToLow(_) =>
        if dt > 30 {
          clkDir := Out;
          state := Succ(state);
          startTime := now;
        }
      case RecvWait(k) =>
        if dt > 30 {
          clkDir := In;
          if k < RecvParity {
            receiveData := receiveData / 2;
            if dat {
              receiveData := receiveData + 0x80;
              parityCheck := !parityCheck;
            }
          } else if k == RecvParity {
            if dat {
              parityCheck := !parityCheck;
            }
          }
          state := Succ(state);
          startTime := now;
        }
    }

    /** The acknowledge phases after the stop bit: the device holds the data line low and
        pulses the clock, then releases the data line. */
    method Acknowledge(clk: bool, dat: bool, now: U64)
      requires Valid() && (state.SendAck? || state.AckClkToLow? || state.AckDatEnd?)
      modifies this
      ensures Valid()
      ensures Model() == Poll(old(Model()), clk, dat, now)
    {
      var dt := Elapsed(now, startTime);
      match state
      case SendAck =>
        if dt > 5 {
          datDir := Out;
          state := Succ(state);
          startTime := now;
        }
      case AckClkToLow =>
        if dt > 25 {
          clkDir := Out;
          state := Succ(state);
          startTime := now;
        }
      case AckDatEnd =>
        if dt > 5 {
          datDir := In;
          state := Idle;
        }
    }

    /** The end of the acknowledge clock pulse, where the received byte is queued. */
    method StoreReceived(clk: bool, dat: bool, now: U64)
      requires Valid() && state.AckClkEnd?
      modifies this, receiveFifo
      ensures Valid()
      ensures Model() == Poll(old(Model()), clk, dat, now)
    {
      var dt := Elapsed(now, startTime);
      if dt > 30 {
        clkDir := In;
        if !IsFifoFull() {
          PushFifo(receiveData);
        }
        state := AckDatEnd;
      }
    }

    /** The device-to-host phases around each bit: start the frame, pull the clock low,
        release it; a clock held low by the host aborts the frame. */
    method ClockOutBit(clk: bool, dat: bool, now: U64)
      requires Valid() && (state.SendData? || state.SendClkToLow? || state.SendWait?)
      modifies this
      ensures Valid()
      ensures Model() == Poll(old(Model()), clk, dat, now)
    {
      var dt := Elapsed(now, startTime);
      match state
      case SendData =>
        clkDir := In;
        state := Succ(state);
        parityCheck := false;
        startTime := now;
      case SendClkToLow(_) =>
        if dt > 15 {
          if !clk {
            sendResult := Aborted;
            state := Idle;
          }
          clkDir := Out;
          state := Succ(state);
          startTime := now;
        }
      case SendWait(k) =>
        if dt > 30 {
          clkDir := In;
          if k < SendStopSlot {
            state := Succ(state);
            startTime := now;
          } else {
            state := Idle;
            sendResult := Succeeded;
          }
        }
    }

    /** The device-to-host bit phase: put the next bit (or the parity) on the data line. */
    method PutBit(clk: bool, dat: bool, now: U64)
      requires Valid() && state.SendBit?
      modifies this
      ensures Valid()
      ensures Model() == Poll(old(Model()), clk, dat, now)
    {
      var dt := Elapsed(now, startTime);
      var k := state.slot;
      if dt > 15 {
        if !clk {
          sendResult := Aborted;
          state := Idle;
        }
        if k == SendParitySlot {
          datDir := if parityCheck then Out else In;
        } else {
          if sendData % 2 == 0 {
            datDir := Out;
          } else {
            datDir := In;
            parityCheck := !parityCheck;
          }
          sendData := sendData / 2;
        }
        state := Succ(state);
        startTime := now;
      }
    }

    /** `ps2dev_check_receive_buffer_empty`: true when no received byte is waiting. */
    method CheckReceiveBufferEmpty() returns (empty: bool)
      requires Valid()
      ensures empty <==> Contents() == []
    {
      empty := IsFifoEmpty();
    }

    /** `ps2dev_get_receive_data`: the oldest received byte, taken out of the ring, or nothing
        when the ring is empty. */
    method GetReceiveData() returns (r: Option<Byte>)
      requires Valid()
      modifies this
      ensures Valid()
      ensures old(Contents()) == [] ==> r == None && Contents() == []
      ensures old(Contents()) != [] ==> r == Some(old(Contents())[0]) && Contents() == old(Contents())[1..]
      ensures Model() == old(Model()).(fifo := Contents())
    {
      if IsFifoEmpty() {
        return None;
      }
      var data := PopFifo();
      r := Some(data);
    }

    /** `ps2dev_send_data` up to its wait: refused unless the engine is idle; when accepted
        the frame `1 dddddddd 0` is loaded and the engine starts sending on its next call. */
    method SendData(data: Byte) returns (accepted: bool)
      requires Valid()
      modifies this
      ensures Valid()
      ensures accepted <==> old(state) == Idle
      ensures Model() == BeginSend(old(Model()), data)
    {
      if state != Idle {
        return false;
      }
      sendData := data * 2 + 0x200;
      sendResult := Pending;
      state := State.SendData;
      accepted := true;
    }
  }
}
