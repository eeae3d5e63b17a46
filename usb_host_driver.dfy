/** The USB side of usb_host_driver.c: the mouse-delta accumulator that the HID report callback
    feeds and `get_mouse_position` drains, and the device-mode switch driven by mount and
    unmount. The TinyUSB stack is outside the model: the interface protocol it reports and the
    boot-protocol mouse report are parameters. */
module UsbHostDriver {
  import opened Common

  /** `int8_t`, the type of the report's movement fields. */
  type Int8 = v: int | -128 <= v < 128

  /** A boot-protocol mouse report (`hid_mouse_report_t`): button bits and signed movement. */
  datatype MouseReport = MouseReport(buttons: Byte, x: Int8, y: Int8)

  /** `DETECT_MODE_T`. */
  datatype DetectMode = Unknown | Mouse | Gamepad

  /** Interface protocol values of the HID class: none, keyboard, mouse. */
  const ProtocolNone: Byte := 0
  const ProtocolMouse: Byte := 2

  /** The accumulated movement saturates at +/-127. */
  const DeltaLimit: int := 127

  /** The left, right and middle button bits (`MOUSE_BUTTON_LEFT | RIGHT | MIDDLE`). */
  function ButtonBits(buttons: Byte): (b: int)
    ensures 0 <= b < 8
    ensures b == buttons % 8
  {
    assert Pow2(3) == 8;
    BitAndLowBits(buttons, 3);
    BitAnd(buttons, 7)
  }

  /** One report added to an accumulated delta, saturating as `process_mouse_report` does. */
  function Accumulate(acc: int, d: int): (r: int)
    ensures -DeltaLimit <= r <= DeltaLimit
  {
    Clamp(acc + d, -DeltaLimit, DeltaLimit)
  }

  /** Saturation is the only loss: inside the limits the accumulator is the plain sum, and
      beyond them it sticks to the limit on the side the sum left by. */
  lemma AccumulateIsSaturatedSum(acc: int, d: int)
    ensures -DeltaLimit <= acc + d <= DeltaLimit ==> Accumulate(acc, d) == acc + d
    ensures acc + d > DeltaLimit ==> Accumulate(acc, d) == DeltaLimit
    ensures acc + d < -DeltaLimit ==> Accumulate(acc, d) == -DeltaLimit
  {
  }

  /** Several reports between two reads of the position. */
  function AccumulateAll(acc: int, ds: seq<int>): (r: int)
    ensures ds != [] ==> -DeltaLimit <= r <= DeltaLimit
    decreases |ds|
  {
    if ds == [] then acc else AccumulateAll(Accumulate(acc, ds[0]), ds[1..])
  }

  function Sum(ds: seq<int>): int
    decreases |ds|
  {
    if ds == [] then 0 else ds[0] + Sum(ds[1..])
  }

  /** Every running total of `acc` plus a prefix of `ds` lies inside the limits. */
  ghost predicate StaysInRange(acc: int, ds: seq<int>)
    decreases |ds|
  {
    ds == [] || (-DeltaLimit <= acc + ds[0] <= DeltaLimit && StaysInRange(acc + ds[0], ds[1..]))
  }

  /** While the running total never reaches past the limits, no movement is lost between two reads. */
  lemma {:induction false} NoLossInsideLimits(acc: int, ds: seq<int>)
    requires StaysInRange(acc, ds)
    ensures AccumulateAll(acc, ds) == acc + Sum(ds)
    decreases |ds|
  {
    if ds != [] {
      NoLossInsideLimits(acc + ds[0], ds[1..]);
    }
  }

  /** A larger starting delta never gives a smaller accumulated delta, whatever reports follow. */
  lemma {:induction false} AccumulateAllMonotone(a: int, b: int, ds: seq<int>)
    requires a <= b
    ensures AccumulateAll(a, ds) <= AccumulateAll(b, ds)
    decreases |ds|
  {
    if ds != [] {
      AccumulateAllMonotone(Accumulate(a, ds[0]), Accumulate(b, ds[0]), ds[1..]);
    }
  }

  class UsbHost {
    var detectMode: DetectMode
    var mouseDeltaX: int
    var mouseDeltaY: int
    var mouseResolution: int
    var mouseButton: int

    ghost predicate Valid()
      reads this
    {
      -DeltaLimit <= mouseDeltaX <= DeltaLimit && -DeltaLimit <= mouseDeltaY <= DeltaLimit
      && 0 <= mouseButton < 8
    }

    /** The static start values, before any device is mounted (`usb_init` only starts the stack). */
    constructor ()
      ensures Valid()
      ensures detectMode == Unknown && mouseDeltaX == 0 && mouseDeltaY == 0
      ensures mouseResolution == 0 && mouseButton == 0
    {
      detectMode := Unknown;
      mouseDeltaX := 0;
      mouseDeltaY := 0;
      mouseResolution := 0;
      mouseButton := 0;
    }

    /** `is_mouse_active`. */
    function IsMouseActive(): (active: bool)
      reads this
      ensures active <==> detectMode == Mouse
    {
      detectMode == Mouse
    }

    /** `get_mouse_position`: in mouse mode, the movement accumulated since the last call and
        the buttons, and the movement starts again from zero; otherwise zeros and nothing changes. */
    method GetMousePosition() returns (dx: int, dy: int, button: int)
      requires Valid()
      modifies this
      ensures Valid()
      ensures old(detectMode) == Mouse ==>
        dx == old(mouseDeltaX) && dy == old(mouseDeltaY) && button == old(mouseButton)
        && mouseDeltaX == 0 && mouseDeltaY == 0
      ensures old(detectMode) != Mouse ==>
        dx == 0 && dy == 0 && button == 0
        && mouseDeltaX == old(mouseDeltaX) && mouseDeltaY == old(mouseDeltaY)
      ensures detectMode == old(detectMode) && mouseButton == old(mouseButton)
      ensures mouseResolution == old(mouseResolution)
      ensures -DeltaLimit <= dx <= DeltaLimit && -DeltaLimit <= dy <= DeltaLimit && 0 <= button < 8
    {
      if detectMode == Mouse {
        dx, dy, button := mouseDeltaX, mouseDeltaY, mouseButton;
        mouseDeltaX := 0;
        mouseDeltaY := 0;
      } else {
        dx, dy, button := 0, 0, 0;
      }
    }

    /** `process_mouse_report`: the movement is added with saturation, the buttons are replaced. */
    method ProcessMouseReport(report: MouseReport)
      requires Valid()
      modifies this
      ensures Valid()
      ensures mouseDeltaX == Accumulate(old(mouseDeltaX), report.x)
      ensures mouseDeltaY == Accumulate(old(mouseDeltaY), report.y)
      ensures mouseButton == ButtonBits(report.buttons)
      ensures detectMode == old(detectMode) && mouseResolution == old(mouseResolution)
    {
      var deltaX := mouseDeltaX + report.x;
      if deltaX < -127 {
        deltaX := -127;
      } else if deltaX > 127 {
        deltaX := 127;
      }
      var deltaY := mouseDeltaY + report.y;
      if deltaY < -127 {
        deltaY := -127;
      } else if deltaY > 127 {
        deltaY := 127;
      }
      mouseButton := ButtonBits(report.buttons);
      mouseDeltaX := deltaX;
      mouseDeltaY := deltaY;
    }

    /** `tuh_hid_mount_cb`: a mouse interface selects mouse mode and clears the accumulator;
        any other protocol selects gamepad mode and leaves it alone. */
    method MountCallback(protocol: Byte)
      requires Valid()
      modifies this
      ensures Valid()
      ensures protocol == ProtocolMouse ==>
        detectMode == Mouse && mouseDeltaX == 0 && mouseDeltaY == 0 && mouseButton == 0 && mouseResolution == 0
      ensures protocol != ProtocolMouse ==>
        detectMode == Gamepad && mouseDeltaX == old(mouseDeltaX) && mouseDeltaY == old(mouseDeltaY)
        && mouseButton == old(mouseButton) && mouseResolution == old(mouseResolution)
    {
      if protocol == ProtocolNone {
        detectMode := Gamepad;
      } else if protocol == ProtocolMouse {
        detectMode := Mouse;
        mouseDeltaX := 0;
        mouseDeltaY := 0;
        mouseButton := 0;
        mouseResolution := 0;
      } else {
        detectMode := Gamepad;
      }
    }

    /** `tuh_hid_umount_cb`: back to unknown, the accumulator untouched. */
    method UnmountCallback()
      requires Valid()
      modifies this
      ensures Valid()
      ensures detectMode == Unknown
      ensures mouseDeltaX == old(mouseDeltaX) && mouseDeltaY == old(mouseDeltaY)
      ensures mouseButton == old(mouseButton) && mouseResolution == old(mouseResolution)
    {
      detectMode := Unknown;
    }

    /** `tuh_hid_report_received_cb`: only a report from a mouse interface reaches the
        accumulator; the mode itself is not consulted. */
    method ReportReceivedCallback(protocol: Byte, report: MouseReport)
      requires Valid()
      modifies this
      ensures Valid()
      ensures protocol == ProtocolMouse ==>
        mouseDeltaX == Accumulate(old(mouseDeltaX), report.x)
        && mouseDeltaY == Accumulate(old(mouseDeltaY), report.y)
        && mouseButton == ButtonBits(report.buttons)
      ensures protocol != ProtocolMouse ==>
        mouseDeltaX == old(mouseDeltaX) && mouseDeltaY == old(mouseDeltaY) && mouseButton == old(mouseButton)
      ensures detectMode == old(detectMode) && mouseResolution == old(mouseResolution)
    {
      if protocol == ProtocolMouse {
        ProcessMouseReport(report);
      }
    }
  }
}
