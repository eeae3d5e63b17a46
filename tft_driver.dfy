/** The bus framing of the ST7789 panel driver in tft_driver.cpp: a reference count of open
    chip-selects that drives the CS pin only on its 0 <-> 1 edges, so that commands and data sent
    inside an outer select share one CS-low window, and the DC pin that tells a command byte
    from a data byte. The pin writes and SPI bytes are recorded, in order, as a trace. */
module TftDriver {
  import opened Common

  /** One observable side effect: a level written to CS or DC, or a byte written to SPI. */
  datatype Event = CsLevel(high: bool) | DcLevel(high: bool) | Write(b: Byte)

  const Madctl: Byte := 0x36
  const Caset: Byte := 0x2A
  const Raset: Byte := 0x2B
  const Ramwr: Byte := 0x2C
  /** `TFT_MAD_COLOR_ORDER`, which is `TFT_MAD_BGR`. */
  const MadColorOrder: Byte := 0x08

  /** Pixels in one frame of the 240x320 panel. */
  const FramePixels: nat := 240 * 320

  /** The events of one transfer framed by a select and a deselect that find the count at `count`:
      CS goes low before and high after exactly when no outer select is open. */
  function Framed(count: int, inner: seq<Event>): seq<Event>
  {
    (if count == 0 then [CsLevel(false)] else []) + inner + (if count == 0 then [CsLevel(true)] else [])
  }

  /** `_send_command`: DC low for the command byte, high again after it. A 16-bit command
      is written from its address, so the byte on the wire is its low byte. */
  function CommandEvents(count: int, command: int): seq<Event>
  {
    Framed(count, [DcLevel(false), Write(LowByte(command)), DcLevel(true)])
  }

  /** `_send_data`: DC high, then the byte. */
  function DataEvents(count: int, data: Byte): seq<Event>
  {
    Framed(count, [DcLevel(true), Write(data)])
  }

  /** The two bytes `tft_send_framebuffer` sends for each value of `rand()`. */
  function PixelEvents(count: int, noise: seq<nat>): seq<Event>
    decreases |noise|
  {
    if noise == [] then []
    else
      var d := noise[|noise| - 1];
      PixelEvents(count, noise[..|noise| - 1]) + DataEvents(count, LowByte(d / 256)) + DataEvents(count, d % 256)
  }

  ghost predicate NoCsEvent(es: seq<Event>)
  {
    forall i :: 0 <= i < |es| ==> !es[i].CsLevel?
  }

  /** Inside an open select no transfer touches CS. */
  lemma NestedTransfersKeepCs(count: int, command: int, data: Byte)
    requires count >= 1
    ensures NoCsEvent(CommandEvents(count, command)) && NoCsEvent(DataEvents(count, data))
    ensures Write(LowByte(command)) in CommandEvents(count, command) && Write(data) in DataEvents(count, data)
  {
  }

  /** A whole pixel stream sent inside an open select never touches CS. */
  lemma {:induction false} PixelsKeepCs(count: int, noise: seq<nat>)
    requires count >= 1
    ensures NoCsEvent(PixelEvents(count, noise))
    ensures |PixelEvents(count, noise)| == 4 * |noise|
    decreases |noise|
  {
    if noise != [] {
      var d := noise[|noise| - 1];
      PixelsKeepCs(count, noise[..|noise| - 1]);
      NestedTransfersKeepCs(count, 0, LowByte(d / 256));
      NestedTransfersKeepCs(count, 0, d % 256);
    }
  }

  /** Outside any select, a transfer is one CS-low window: CS falls first, rises last, and
      does not move in between. */
  lemma FramedAtTopLevel(inner: seq<Event>)
    requires NoCsEvent(inner)
    ensures var es := Framed(0, inner);
      es[0] == CsLevel(false) && es[|es| - 1] == CsLevel(true) && NoCsEvent(es[1..|es| - 1])
  {
    var es := Framed(0, inner);
    assert es[1..|es| - 1] == inner;
  }

  class TftBus {
    var chipSelectCount: int
    /** Level of `TFT_SPI_CS` (active low). */
    var csHigh: bool
    /** Level of `TFT_RS`, the DC pin: high for data, low for a command. */
    var dcHigh: bool
    var trace: seq<Event>

    /** CS is high exactly when no select is open; this holds even after an unmatched deselect
        has made the count negative. */
    ghost predicate Valid()
      reads this
    {
      csHigh <==> chipSelectCount <= 0
    }

    /** The state `tft_init` leaves the bus in: CS high, data mode, no select open. */
    constructor ()
      ensures Valid()
      ensures chipSelectCount == 0 && csHigh && dcHigh && trace == []
    {
      chipSelectCount := 0;
      csHigh := true;
      dcHigh := true;
      trace := [];
    }

    /** `_chip_select`: CS goes low only when no select was open; the count always goes up. */
    method ChipSelect()
      requires Valid()
      modifies this
      ensures Valid()
      ensures chipSelectCount == old(chipSelectCount) + 1
      ensures trace == old(trace) + (if old(chipSelectCount) == 0 then [CsLevel(false)] else [])
      ensures old(chipSelectCount) == 0 ==> !csHigh
      ensures old(chipSelectCount) != 0 ==> csHigh == old(csHigh)
      ensures dcHigh == old(dcHigh)
    {
      if chipSelectCount == 0 {
        csHigh := false;
        trace := trace + [CsLevel(false)];
      }
      chipSelectCount := chipSelectCount + 1;
    }

    /** `_chip_deselect`: the count always goes down, with no guard against going below zero;
        CS goes high only when the count reaches zero. */
    method ChipDeselect()
      requires Valid()
      modifies this
      ensures Valid()
      ensures chipSelectCount == old(chipSelectCount) - 1
      ensures trace == old(trace) + (if chipSelectCount == 0 then [CsLevel(true)] else [])
      ensures chipSelectCount == 0 ==> csHigh
      ensures chipSelectCount != 0 ==> csHigh == old(csHigh)
      ensures dcHigh == old(dcHigh)
    {
      chipSelectCount := chipSelectCount - 1;
      if chipSelectCount == 0 {
        csHigh := true;
        trace := trace + [CsLevel(true)];
      }
    }

    /** `_send_command` (its trailing 70 us pause is not modelled): one command byte in its own
        select, leaving the count and CS as they were and DC in data mode. */
    method SendCommand(command: int)
      requires Valid() && 0 <= command < 0x1_0000
      modifies this
      ensures Valid()
      ensures trace == old(trace) + CommandEvents(old(chipSelectCount), command)
      ensures chipSelectCount == old(chipSelectCount) && csHigh == old(csHigh) && dcHigh
    {
      ChipSelect();
      dcHigh := false;
      trace := trace + [DcLevel(false)];
      trace := trace + [Write(LowByte(command))];
      dcHigh := true;
      trace := trace + [DcLevel(true)];
      ChipDeselect();
    }

    /** `_send_data` (its trailing pause is not modelled): one data byte in its own select. */
    method SendData(data: Byte)
      requires Valid()
      modifies this
      ensures Valid()
      ensures trace == old(trace) + DataEvents(old(chipSelectCount), data)
      ensures chipSelectCount == old(chipSelectCount) && csHigh == old(csHigh) && dcHigh
    {
      ChipSelect();
      dcHigh := true;
      trace := trace + [DcLevel(true)];
      trace := trace + [Write(data)];
      ChipDeselect();
    }

    /** `tft_send_framebuffer`: the memory access control, then one select around the window
        setup and the whole pixel stream. `noise` stands for the values `rand()` returns. */
    method SendFramebuffer(noise: seq<nat>)
      requires Valid() && |noise| == FramePixels
      modifies this
      ensures Valid()
      ensures trace == old(trace) + FramebufferEvents(old(chipSelectCount), noise)
      ensures chipSelectCount == old(chipSelectCount) && csHigh == old(csHigh) && dcHigh
    {
      ghost var c := chipSelectCount;
      ghost var start := trace;
      SendCommand(Madctl);
      ghost var h := CommandEvents(c, Madctl);
      SendData(MadColorOrder);
      ConcatAssoc(start, h, DataEvents(c, MadColorOrder));
      h := h + DataEvents(c, MadColorOrder);
      SendCommand(Madctl);
      ConcatAssoc(start, h, CommandEvents(c, Madctl));
      h := h + CommandEvents(c, Madctl);
      SendData(0x68);
      ConcatAssoc(start, h, DataEvents(c, 0x68));
      h := h + DataEvents(c, 0x68);
      ghost var x := trace;
      ChipSelect();
      ghost var sel := trace[|x|..];
      assert trace == x + sel;
      SendWindow();
      SendNoise(noise);
      ghost var inner := WindowEvents(c + 1) + PixelEvents(c + 1, noise);
      ConcatAssoc(x + sel, WindowEvents(c + 1), PixelEvents(c + 1, noise));
      ConcatAssoc(x, sel, inner);
      ChipDeselect();
      ghost var desel := trace[|x + (sel + inner)|..];
      assert trace == x + (sel + inner) + desel;
      ConcatAssoc(x, sel + inner, desel);
      assert sel + inner + desel == Framed(c, inner);
      ConcatAssoc(start, h, Framed(c, inner));
    }

    /** The column and row address ranges and the memory-write command that
        `tft_send_framebuffer` sends inside its select. */
    method SendWindow()
      requires Valid()
      modifies this
      ensures Valid()
      ensures trace == old(trace) + WindowEvents(old(chipSelectCount))
      ensures chipSelectCount == old(chipSelectCount) && csHigh == old(csHigh) && dcHigh
    {
      ghost var c := chipSelectCount;
      ghost var start := trace;
      SendCommand(Caset);
      ghost var w := CommandEvents(c, Caset);
      SendData(0x00);
      ConcatAssoc(start, w, DataEvents(c, 0x00));
      w := w + DataEvents(c, 0x00);
      SendData(0x28);
      ConcatAssoc(start, w, DataEvents(c, 0x28));
      w := w + DataEvents(c, 0x28);
      SendData(0x01);
      ConcatAssoc(start, w, DataEvents(c, 0x01));
      w := w + DataEvents(c, 0x01);
      SendData(0x17);
      ConcatAssoc(start, w, DataEvents(c, 0x17));
      w := w + DataEvents(c, 0x17);
      SendCommand(Raset);
      ConcatAssoc(start, w, CommandEvents(c, Raset));
      w := w + CommandEvents(c, Raset);
      SendData(0x00);
      ConcatAssoc(start, w, DataEvents(c, 0x00));
      w := w + DataEvents(c, 0x00);
      SendData(0x35);
      ConcatAssoc(start, w, DataEvents(c, 0x35));
      w := w + DataEvents(c, 0x35);
      SendData(0x00);
      ConcatAssoc(start, w, DataEvents(c, 0x00));
      w := w + DataEvents(c, 0x00);
      SendData(0xBB);
      ConcatAssoc(start, w, DataEvents(c, 0xBB));
      w := w + DataEvents(c, 0xBB);
      SendCommand(Ramwr);
      ConcatAssoc(start, w, CommandEvents(c, Ramwr));
      w := w + CommandEvents(c, Ramwr);
      assert w == WindowEvents(c);
    }

    /** The pixel loop of `tft_send_framebuffer`: each value of `rand()` sent as two data bytes,
        high then low. */
    method SendNoise(noise: seq<nat>)
      requires Valid()
      modifies this
      ensures Valid()
      ensures trace == old(trace) + PixelEvents(old(chipSelectCount), noise)
      ensures chipSelectCount == old(chipSelectCount) && csHigh == old(csHigh)
      ensures dcHigh == (old(dcHigh) || |noise| > 0)
    {
      ghost var c := chipSelectCount;
      ghost var start := trace;
      var i := 0;
      while i < |noise|
        invariant 0 <= i <= |noise|
        invariant Valid() && chipSelectCount == c && csHigh == old(csHigh)
        invariant trace == start + PixelEvents(c, noise[..i])
        invariant dcHigh == (old(dcHigh) || i > 0)
      {
        var d := noise[i];
        SendData(LowByte(d / 256));
        SendData(d % 256);
        assert noise[..i + 1][..i] == noise[..i];
        ConcatAssoc3(start, PixelEvents(c, noise[..i]), DataEvents(c, LowByte(d / 256)), DataEvents(c, d % 256));
        i := i + 1;
      }
      assert noise[..i] == noise;
    }
  }

  /** Everything `tft_send_framebuffer` puts on the bus when it finds the count at `count`. */
  function FramebufferEvents(count: int, noise: seq<nat>): seq<Event>
  {
    MadctlEvents(count) + Framed(count, WindowEvents(count + 1) + PixelEvents(count + 1, noise))
  }

  /** The two memory-access-control transfers that open `tft_send_framebuffer`, each in its own select. */
  function MadctlEvents(count: int): seq<Event>
  {
    CommandEvents(count, Madctl) + DataEvents(count, MadColorOrder)
      + CommandEvents(count, Madctl) + DataEvents(count, 0x68)
  }

  /** The window setup `tft_send_framebuffer` sends inside its select: column and row
      address ranges, then the memory-write command. */
  function WindowEvents(count: int): seq<Event>
  {
    CommandEvents(count, Caset)
      + DataEvents(count, 0x00) + DataEvents(count, 0x28) + DataEvents(count, 0x01) + DataEvents(count, 0x17)
      + CommandEvents(count, Raset)
      + DataEvents(count, 0x00) + DataEvents(count, 0x35) + DataEvents(count, 0x00) + DataEvents(count, 0xBB)
      + CommandEvents(count, Ramwr)
  }

  /** When no select is open, the whole framebuffer stream after the two MADCTL transfers is a
      single CS-low window: CS falls right after them, rises at the very end, and does not move
      in between, where the window setup and every pixel byte go out. */
  lemma FramebufferIsOneWindow(noise: seq<nat>)
    ensures var es := FramebufferEvents(0, noise); var m := |MadctlEvents(0)|;
      && m + 2 <= |es|
      && es[m] == CsLevel(false) && es[|es| - 1] == CsLevel(true)
      && es[m + 1..|es| - 1] == WindowEvents(1) + PixelEvents(1, noise)
      && NoCsEvent(es[m + 1..|es| - 1])
  {
    WindowKeepsCs();
    PixelsKeepCs(1, noise);
    WindowAfter(MadctlEvents(0), WindowEvents(1) + PixelEvents(1, noise));
  }

  /** The window setup inside the open select never touches CS. */
  lemma WindowKeepsCs()
    ensures NoCsEvent(WindowEvents(1))
  {
    NestedTransfersKeepCs(1, Caset, 0);
    NestedTransfersKeepCs(1, Raset, 0);
    NestedTransfersKeepCs(1, Ramwr, 0);
  }

  /** A top-level transfer after `pre` sits at a known place: CS falls right after `pre`. */
  lemma WindowAfter(pre: seq<Event>, inner: seq<Event>)
    requires NoCsEvent(inner)
    ensures var es := pre + Framed(0, inner);
      && |pre| + 2 <= |es|
      && es[|pre|] == CsLevel(false) && es[|es| - 1] == CsLevel(true)
      && es[|pre| + 1..|es| - 1] == inner
      && NoCsEvent(es[|pre| + 1..|es| - 1])
  {
    var es := pre + Framed(0, inner);
    assert es[|pre| + 1..|es| - 1] == inner;
  }
}
