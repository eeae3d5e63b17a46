/** The USB-to-PS/2 mouse adapter of u2p.cpp: a two-state interpreter of the host's command
    bytes that answers resets and rate settings and, after a read-data request, sends one
    movement packet built from the USB accumulator. It also keeps an on-screen cursor.

    The bytes the adapter hands to `ps2dev_send_data` are recorded in `sent`, in call order;
    how each is clocked out is the business of the PS/2 engine. */
module U2p {
  import opened Common
  import opened Ps2DevDriver
  import opened UsbHostDriver

  /** `PS2_IDLE`, `PS2_SEND_DATAS`. */
  datatype Phase = Idle | SendDatas

  /** Host commands the adapter reacts to. */
  const CmdReset: Byte := 0xFF
  const CmdSetSampleRate: Byte := 0xF3
  /** The sample-rate argument the adapter acknowledges (decimal 40). */
  const RateArgument: Byte := 40
  const CmdReadData: Byte := 0xEB

  const Ack: Byte := 0xFA
  const SelfTestPassed: Byte := 0xAA
  const DeviceId: Byte := 0x10

  /** Cursor range on the 240x135 screen. */
  const ScreenRight: int := 240
  const ScreenBottom: int := 135

  /** Bit 3 of the first packet byte is always 1 in the PS/2 mouse protocol. */
  const AlwaysOne: Byte := 0x08

  /** The bytes sent in the idle phase in answer to a received byte. */
  function Reply(data: Byte): seq<Byte>
  {
    if data == CmdReset then [Ack, SelfTestPassed, DeviceId]
    else if data == CmdSetSampleRate || data == RateArgument then [Ack]
    else []
  }

  /** The phase after a received byte in the idle phase. */
  function PhaseAfter(data: Byte): Phase
  {
    if data == CmdReadData then SendDatas else Idle
  }

  /** The idle phase acknowledges exactly the reset, the sample-rate command and its argument
      40, a reset answering with the self-test result and the device id as well; the read-data
      request alone changes the phase and gets no answer. */
  lemma {:induction false} IdleReplies(data: Byte)
    ensures Reply(data) != [] <==> data in {CmdReset, CmdSetSampleRate, RateArgument}
    ensures Reply(data) != [] ==> Reply(data)[0] == Ack
    ensures data == CmdReset <==> |Reply(data)| == 3
    ensures |Reply(data)| == 3 ==> Reply(data)[1..] == [SelfTestPassed, DeviceId]
    ensures PhaseAfter(data) == SendDatas <==> data == CmdReadData
    ensures PhaseAfter(data) == SendDatas ==> Reply(data) == []
  {
  }

  /** The first packet byte: the always-one bit, or-ed with the buttons when a mouse is active.
      Bit 3 is always set and the low three bits carry the buttons. */
  function Status(active: bool, button: int): (s: Byte)
    requires 0 <= button < 8
    ensures s / 8 % 2 == 1 && s < 16
    ensures s % 8 == (if active then button else 0)
  {
    if active then
      BitOrCommutes(AlwaysOne, button);
      assert Pow2(3) == 8;
      BitOrBelow(button, 1, 8, 3);
      BitOr(AlwaysOne, button)
    else AlwaysOne
  }

  /** A movement value as it goes on the wire: clamped to `int8_t` and truncated to a byte. */
  function MovementByte(v: int): (b: Byte)
    ensures AsSigned8(b) == Clamp(v, -128, 127)
  {
    SignedByteRoundTrip(Clamp(v, -128, 127));
    LowByte(Clamp(v, -128, 127))
  }

  /** The four bytes of a movement packet: acknowledge, status, x movement, and the y
      movement negated (PS/2 counts y upwards, USB downwards). */
  function Packet(status: Byte, dx: int, dy: int): seq<Byte>
  {
    [Ack, status, MovementByte(dx), MovementByte(-dy)]
  }

  /** A receiver reading the packet's movement bytes as signed gets the movement back exactly
      whenever it lies within the accumulator's saturation limits. */
  lemma PacketCarriesMovement(active: bool, button: int, dx: int, dy: int)
    requires 0 <= button < 8
    requires -DeltaLimit <= dx <= DeltaLimit && -DeltaLimit <= dy <= DeltaLimit
    ensures |Packet(Status(active, button), dx, dy)| == 4
    ensures Packet(Status(active, button), dx, dy)[0] == Ack
    ensures AsSigned8(Packet(Status(active, button), dx, dy)[2]) == dx
    ensures AsSigned8(Packet(Status(active, button), dx, dy)[3]) == -dy
  {
  }

  /** One coordinate of the cursor after a movement, kept on the screen. */
  function MoveCursor(pos: int, d: int, limit: int): (p: int)
    requires 0 <= limit
    ensures 0 <= p <= limit
    ensures 0 <= pos + d <= limit ==> p == pos + d
  {
    Clamp(pos + d, 0, limit)
  }

  class U2pAdapter {
    var phase: Phase
    var mouseX: int
    var mouseY: int
    var mouseButton: int
    /** Every byte handed to `ps2dev_send_data`, oldest first. */
    var sent: seq<Byte>

    ghost predicate Valid()
      reads this
    {
      0 <= mouseX <= ScreenRight && 0 <= mouseY <= ScreenBottom && 0 <= mouseButton < 256
    }

    /** The static start values: idle, cursor in the middle of the screen (`u2p_init` is empty). */
    constructor ()
      ensures Valid()
      ensures phase == Idle && mouseX == ScreenRight / 2 && mouseY == ScreenBottom / 2
      ensures mouseButton == 0 && sent == []
    {
      phase := Idle;
      mouseX := ScreenRight / 2;
      mouseY := ScreenBottom / 2;
      mouseButton := 0;
      sent := [];
    }

    /** `u2p_get_mouse`: the cursor and the last status byte, the cursor always on the screen. */
    method GetMouse() returns (x: int, y: int, button: int)
      requires Valid()
      ensures x == mouseX && y == mouseY && button == mouseButton
      ensures 0 <= x <= ScreenRight && 0 <= y <= ScreenBottom
    {
      x, y, button := mouseX, mouseY, mouseButton;
    }

    /** `ps2_send_datas`: when the PS/2 side may send (`sendSideEmpty`, the value of
        `ps2dev_is_send_fifo_empty`), drain the USB accumulator, move the cursor, and send one
        packet; otherwise do nothing. */
    method SendPacket(usb: UsbHost, sendSideEmpty: bool)
      requires Valid() && usb.Valid()
      modifies this, usb
      ensures Valid() && usb.Valid()
      ensures !sendSideEmpty ==>
        phase == old(phase) && mouseX == old(mouseX) && mouseY == old(mouseY)
        && mouseButton == old(mouseButton) && sent == old(sent)
        && usb.mouseDeltaX == old(usb.mouseDeltaX) && usb.mouseDeltaY == old(usb.mouseDeltaY)
      ensures sendSideEmpty ==>
        var active := old(usb.detectMode) == Mouse;
        var dx := if active then old(usb.mouseDeltaX) else 0;
        var dy := if active then old(usb.mouseDeltaY) else 0;
        var button := if active then old(usb.mouseButton) else 0;
        phase == Idle
        && mouseButton == Status(active, button)
        && sent == old(sent) + Packet(Status(active, button), dx, dy)
        && mouseX == (if active then MoveCursor(old(mouseX), dx, ScreenRight) else old(mouseX))
        && mouseY == (if active then MoveCursor(old(mouseY), dy, ScreenBottom) else old(mouseY))
        && usb.mouseDeltaX == (if active then 0 else old(usb.mouseDeltaX))
        && usb.mouseDeltaY == (if active then 0 else old(usb.mouseDeltaY))
      ensures usb.detectMode == old(usb.detectMode) && usb.mouseButton == old(usb.mouseButton)
      ensures usb.mouseResolution == old(usb.mouseResolution)
    {
      if !sendSideEmpty {
        return;
      }
      ghost var active := usb.detectMode == Mouse;
      var deltaX, deltaY := 0, 0;
      mouseButton := AlwaysOne;
      if usb.IsMouseActive() {
        var button;
        deltaX, deltaY, button := MoveWithMouse(usb);
        mouseButton := BitOr(mouseButton, button);
        assert mouseButton == Status(true, button);
      }
      ghost var packet := [Ack, mouseButton, LowByte(deltaX), LowByte(deltaY)];
      assert packet == Packet(mouseButton, if active then old(usb.mouseDeltaX) else 0,
                              if active then old(usb.mouseDeltaY) else 0);
      sent := sent + [Ack];
      sent := sent + [mouseButton];
      sent := sent + [LowByte(deltaX)];
      sent := sent + [LowByte(deltaY)];
      assert sent == old(sent) + packet;
      phase := Idle;
    }

    /** The mouse branch of `ps2_send_datas`: take the accumulated movement, move the cursor
        and clamp the movement to the signed byte the packet carries, y turned upwards. */
    method MoveWithMouse(usb: UsbHost) returns (deltaX: int, deltaY: int, button: int)
      requires Valid() && usb.Valid() && usb.detectMode == Mouse
      modifies this, usb
      ensures Valid() && usb.Valid()
      ensures mouseX == MoveCursor(old(mouseX), old(usb.mouseDeltaX), ScreenRight)
      ensures mouseY == MoveCursor(old(mouseY), old(usb.mouseDeltaY), ScreenBottom)
      ensures deltaX == Clamp(old(usb.mouseDeltaX), -128, 127)
      ensures deltaY == Clamp(-old(usb.mouseDeltaY), -128, 127)
      ensures button == old(usb.mouseButton) && 0 <= button < 8
      ensures usb.mouseDeltaX == 0 && usb.mouseDeltaY == 0
      ensures usb.detectMode == old(usb.detectMode) && usb.mouseButton == old(usb.mouseButton)
      ensures usb.mouseResolution == old(usb.mouseResolution)
      ensures phase == old(phase) && mouseButton == old(mouseButton) && sent == old(sent)
    {
      deltaX, deltaY, button := usb.GetMousePosition();
      mouseX := mouseX + deltaX;
      mouseY := mouseY + deltaY;
      if mouseX < 0 {
        mouseX := 0;
      } else if mouseX > ScreenRight {
        mouseX := ScreenRight;
      }
      if mouseY < 0 {
        mouseY := 0;
      } else if mouseY > ScreenBottom {
        mouseY := ScreenBottom;
      }
      if deltaX < -128 {
        deltaX := -128;
      } else if deltaX > 127 {
        deltaX := 127;
      }
      deltaY := -deltaY;
      if deltaY < -128 {
        deltaY := -128;
      } else if deltaY > 127 {
        deltaY := 127;
      }
    }

    /** `u2p_task` (`ps2_communication`): in the idle phase take one received byte, if any,
        and answer it; in the send phase try to send a packet. */
    method Task(dev: Ps2Device, usb: UsbHost, sendSideEmpty: bool)
      requires Valid() && dev.Valid() && usb.Valid()
      modifies this, dev, usb
      ensures Valid() && dev.Valid() && usb.Valid()
      ensures old(phase) == Idle ==>
        usb.mouseDeltaX == old(usb.mouseDeltaX) && usb.mouseDeltaY == old(usb.mouseDeltaY)
        && mouseX == old(mouseX) && mouseY == old(mouseY) && mouseButton == old(mouseButton)
      ensures old(phase) == Idle && old(dev.Contents()) == [] ==>
        phase == Idle && sent == old(sent) && dev.Contents() == []
      ensures old(phase) == Idle && old(dev.Contents()) != [] ==>
        var data := old(dev.Contents())[0];
        sent == old(sent) + Reply(data) && phase == PhaseAfter(data)
        && dev.Contents() == old(dev.Contents())[1..]
      ensures old(phase) == SendDatas ==> dev.Model() == old(dev.Model())
      ensures old(phase) == SendDatas && !sendSideEmpty ==>
        phase == SendDatas && mouseX == old(mouseX) && mouseY == old(mouseY)
        && mouseButton == old(mouseButton) && sent == old(sent)
        && usb.mouseDeltaX == old(usb.mouseDeltaX) && usb.mouseDeltaY == old(usb.mouseDeltaY)
      ensures old(phase) == SendDatas && sendSideEmpty ==>
        var active := old(usb.detectMode) == Mouse;
        var dx := if active then old(usb.mouseDeltaX) else 0;
        var dy := if active then old(usb.mouseDeltaY) else 0;
        var button := if active then old(usb.mouseButton) else 0;
        phase == Idle
        && mouseButton == Status(active, button)
        && sent == old(sent) + Packet(Status(active, button), dx, dy)
        && mouseX == (if active then MoveCursor(old(mouseX), dx, ScreenRight) else old(mouseX))
        && mouseY == (if active then MoveCursor(old(mouseY), dy, ScreenBottom) else old(mouseY))
        && usb.mouseDeltaX == (if active then 0 else old(usb.mouseDeltaX))
        && usb.mouseDeltaY == (if active then 0 else old(usb.mouseDeltaY))
      ensures dev.Model() == old(dev.Model()).(fifo := dev.Contents())
      ensures usb.detectMode == old(usb.detectMode) && usb.mouseButton == old(usb.mouseButton)
      ensures usb.mouseResolution == old(usb.mouseResolution)
    {
      match phase
      case Idle =>
        var received := dev.GetReceiveData();
        if received.Some? {
          var data := received.value;
          if data == CmdReset {
            sent := sent + [Ack];
            sent := sent + [SelfTestPassed];
            sent := sent + [DeviceId];
          } else if data == CmdSetSampleRate {
            sent := sent + [Ack];
          } else if data == RateArgument {
            sent := sent + [Ack];
          } else if data == CmdReadData {
            phase := SendDatas;
          }
        }
      case SendDatas =>
        SendPacket(usb, sendSideEmpty);
    }
  }
}
