# SX|2 indicator firmware core, in Dafny

This project models the sequential logic of the SX|2 indicator firmware. The firmware reads a USB mouse and re-emits its movement to a host computer over a bit-banged PS/2 link. It also draws a status screen on an ST7789 TFT panel. Five pieces are modelled:

- **PS/2 device-side engine** (`ps2dev_driver.cpp`). There are two layers.
  - The pure layer is `Ps2Frame` and `Ps2Properties`. `Ps2Frame.Poll` is one call of `ps2dev_task`, over a record holding every file-scope register and the receive FIFO as a sequence.
  - The imperative layer is `Ps2DevDriver.Ps2Device`. This class keeps the registers as fields and the 8-slot ring as an `array` with mask-7 read and write indices. Every entry point is proved against the pure layer.
  - The phases are a datatype. `Code` gives each phase its C enum value, and `Succ` is `ps2dev_state++`.
  - The sampled clock and data levels and the time `now` are inputs.
  - The two pin directions are state. `Out` means driven low, because `ps2dev_init` latches 0 into both outputs.
- **Mouse protocol adapter** (`u2p.cpp`), the class `U2p.U2pAdapter`.
  - It interprets host command bytes and builds the four-byte movement answer.
  - It keeps the on-screen cursor.
  - Every byte it hands to `ps2dev_send_data` is appended to `sent`.
- **USB mouse accumulator** (`usb_host_driver.c`), the class `UsbHostDriver.UsbHost`. It holds the saturating delta accumulator, its read-and-reset consumer, and the detect-mode switch driven by the mount, unmount and report callbacks.
- **Image converter** (`images/image_converter.py`), the module `ImageConverter`.
  - RGB565 packing and the byte swap.
  - The row-major conversion loop, which produces the whole output file as a string.
  - The output-name derivation of `main`.
- **TFT bus framing** (`tft_driver.cpp`), the class `TftDriver.TftBus`. It covers the `chip_select_count` reference counter and the CS/DC/SPI side effects of `_send_command` and `_send_data`, recorded as an event trace.

`Common` holds the shared pieces: `Option`, the `Byte` type, C's `int` to `uint8_t` and `int8_t` conversions, clamping, and bitwise `|` and `&` on naturals with their lemmas. `Ps2Bits` holds least-significant-first bit sequences and odd parity.

Notes on following the code:
- `ps2dev_check_receive_buffer_empty` returns true when the FIFO is empty (ps2dev_driver.cpp:412-415). Its header comment (ps2dev_driver.h:56-57) says the opposite. `Ps2Device.CheckReceiveBufferEmpty` follows the code.
- The parity bit of a host-to-device byte is accumulated but never checked. `Ps2Properties.ReceiveBytes` shows that the byte is pushed whatever parity and stop levels were read.
- On a send abort, the code sets the state to `PS2DEV_IDLE` and then still runs `ps2dev_state++`. The engine therefore ends in `PS2DEV_WAIT_START_BIT`, and at a clock-to-low phase it leaves the clock driven low (`Ps2Properties.SendAbort`).
- The timeout of `PS2DEV_WAIT_CLOCK_RELEASE` is measured from the moment the clock was seen low in idle. `start_time` is not reset when the start bit arrives (`Ps2Properties.ReleaseTimedFromClockLow`).
- There is no transmit FIFO. `ps2dev_send_data` holds one byte in flight in `send_data`, and the model does the same.
- The adapter answers a reset with device id `0x10`, the value in the code.

## Model

| member | source | states |
|---|---|---|
| Ps2Frame.CodeRoundTrip | firmware/sx2_indicator/ps2dev_driver.cpp:34-98 | every engine phase has its own enum value, and decoding the value gives the phase back |
| Ps2Frame.SuccIncrements | firmware/sx2_indicator/ps2dev_driver.cpp:34-98 | `ps2dev_state++` moves to the phase whose enum value is one more, so enum order is protocol order |
| Ps2Frame.ElapsedIsUint64Difference | firmware/sx2_indicator/ps2dev_driver.cpp:221 | the elapsed time is `now - start_time` reduced modulo 2^64, as `uint64_t` subtraction gives it |
| Ps2Frame.Encode | firmware/sx2_indicator/ps2dev_driver.cpp:435-436 | the loaded `send_data` has a 0 start bit at the bottom, the data byte above it and a 1 stop bit at bit 9 |
| Ps2Properties.EncodeIsWire | firmware/sx2_indicator/ps2dev_driver.cpp:435-436 | `(data << 1) \| 0x200` is the shift register holding start 0, the data bits LSB first, then stop 1 |
| Ps2Properties.FrameBitsShape | firmware/sx2_indicator/ps2dev_driver.cpp:312-358 | a device-to-host frame is start 0, the data bits LSB first, a parity bit making data plus parity odd, then stop 1 |
| Ps2Properties.FifoKeepsOrder | firmware/sx2_indicator/ps2dev_driver.cpp:130-136 | while there is room, the receive FIFO holds the completed bytes in arrival order |
| Ps2Properties.FullFifoDrops | firmware/sx2_indicator/ps2dev_driver.cpp:130-136 | bytes pushed into a full FIFO are dropped and the held bytes stay unchanged |
| Ps2Properties.TimedPhaseGate | firmware/sx2_indicator/ps2dev_driver.cpp:211-405 | a timed phase changes nothing until strictly more than its threshold (30, 25, 15 or 5 us) has passed since `start_time`, and then always leaves the phase |
| Ps2Properties.WaitStartBitTimeout | firmware/sx2_indicator/ps2dev_driver.cpp:186-198 | with data high the engine waits for the start bit, and after more than 15000 us goes back to idle without pushing |
| Ps2Properties.WaitClockReleaseTimeout | firmware/sx2_indicator/ps2dev_driver.cpp:199-210 | with the clock low the engine waits for its release, and after more than 15000 us goes back to idle without pushing |
| Ps2Properties.ReleaseTimedFromClockLow | firmware/sx2_indicator/ps2dev_driver.cpp:178-209 | the clock-release timeout counts from the clock-low detection in idle, not from the start bit |
| Ps2Properties.SendAbort | firmware/sx2_indicator/ps2dev_driver.cpp:312-380 | a clock read low at a bit-setup or clock-to-low phase gives `SEND_ABORT` and leaves the engine in `PS2DEV_WAIT_START_BIT`, the clock driven low after a clock-to-low phase |
| Ps2Properties.ReceiveClockLowStep | firmware/sx2_indicator/ps2dev_driver.cpp:211-227 | once the dwell has passed, a receive clock-to-low phase drives the clock low and restarts the timer |
| Ps2Properties.ReceiveDataStep | firmware/sx2_indicator/ps2dev_driver.cpp:228-247 | a data-bit wait releases the clock, shifts the sampled level in at bit 7 and flips parity on a 1 |
| Ps2Properties.SendParityStep | firmware/sx2_indicator/ps2dev_driver.cpp:341-358 | once 15 us have passed with the clock high, the parity phase drives data low when the accumulated parity is odd and releases it when even |
| Ps2Properties.SendWireBitStep | firmware/sx2_indicator/ps2dev_driver.cpp:312-340 | once 15 us have passed with the clock high, a start, data or stop phase puts bit 0 of `send_data` on the data line, counts a 1 into parity and shifts the register |
| Ps2Properties.SendClockLowStep | firmware/sx2_indicator/ps2dev_driver.cpp:359-380 | once 15 us have passed with the clock high, a send clock-to-low phase drives the clock low |
| Ps2Properties.SendWaitStep | firmware/sx2_indicator/ps2dev_driver.cpp:381-405 | once 30 us have passed, a send wait releases the clock and moves to the next bit, and after the stop bit ends in idle with `SEND_SUCCESS` |
| Ps2Properties.Stutter | firmware/sx2_indicator/ps2dev_driver.cpp:175-408 | a call that changes nothing, such as one inside a dwell or while waiting for a line, can be dropped from a run without changing the end state or the clock edges |
| Ps2Properties.ListenStep | firmware/sx2_indicator/ps2dev_driver.cpp:186-303 | any single call outside a send, at any time and with any levels read, keeps the received bits in `receive_data` LSB first, and changes the FIFO only by pushing the completed byte |
| Ps2Properties.ListenRun | firmware/sx2_indicator/ps2dev_driver.cpp:175-303 | any run of calls outside a send keeps that, and the FIFO takes the completed bytes in order |
| Ps2Properties.ReceiveBytes | firmware/sx2_indicator/ps2dev_driver.cpp:175-303 | from idle, with any polling rate, no-op calls, timeouts and levels, the FIFO takes each completed frame's byte: the eight data levels read as each data-bit phase passed 30 us, LSB first, whatever parity and stop read; a full FIFO drops it, and with room nothing is lost |
| Ps2Properties.ParityBitValue | firmware/sx2_indicator/ps2dev_driver.cpp:341-358 | the parity phase drives the frame's odd-parity bit, the complement of the parity of the bits already sent |
| Ps2Properties.PutWireBit | firmware/sx2_indicator/ps2dev_driver.cpp:312-340 | once 15 us have passed, a start, data or stop phase drives the next wire bit and keeps the shift register and parity in step with the bits sent |
| Ps2Properties.PutBit | firmware/sx2_indicator/ps2dev_driver.cpp:312-358 | once 15 us have passed, the first call of slot k puts frame bit k on the data line and leaves the registers as slot k + 1 needs them |
| Ps2Properties.FrameOfWire | firmware/sx2_indicator/ps2dev_driver.cpp:312-358 | the start, data and stop slots emit the loaded bits in order, and the parity slot the complement of their parity so far |
| Ps2Properties.TransmitStep | firmware/sx2_indicator/ps2dev_driver.cpp:305-405 | reading the clock high whenever the device has released it, and any level while the device drives it low, a call during a send acts exactly when its phase's own threshold (15 or 30 us) has passed, then moves one phase on, and a falling clock edge shows the host the next frame bit |
| Ps2Properties.TransmitRun | firmware/sx2_indicator/ps2dev_driver.cpp:305-405 | any run of calls during a send in which the host never pulls the clock low (`HostLeavesClock`; levels read while the device drives it are free) keeps the send invariant; the levels at the falling edges are the frame so far, one phase per call that acts |
| Ps2Properties.SendByte | firmware/sx2_indicator/ps2dev_driver.cpp:305-405 | after an accepted send, at any polling rate, with any no-op calls and whatever is read while the device itself holds the clock low, as long as the host never pulls the clock low, the falling-edge levels are always a prefix of start 0, data LSB first, odd parity, stop 1; the send ends exactly after 34 acting calls, idle with `SEND_SUCCESS`, the FIFO untouched |
| Ps2Properties.FrameReadsBack | firmware/sx2_indicator/ps2dev_driver.cpp:312-358 | bits 1 to 8 of a whole frame read back as the byte, and bits 1 to 9 hold an odd number of ones |
| Ps2Properties.HeldClockStep | firmware/sx2_indicator/ps2dev_driver.cpp:186-210 | while the device holds the clock low after an abort, it reads its own low clock; a call either keeps it waiting or, past 15000 us, times out to idle |
| Ps2Properties.HeldUntilTimeout | firmware/sx2_indicator/ps2dev_driver.cpp:186-210 | for 15000 us after the abort, with levels the lines can show, the device keeps the clock held and makes no clock edge |
| Ps2Properties.AbortHoldsClock | firmware/sx2_indicator/ps2dev_driver.cpp:359-380 | after an abort at a clock-to-low phase, the engine neither takes its own low clock for a host frame nor returns to idle before the 15000 us timeout |
| Ps2Bits.DataBitsRoundTrip | firmware/sx2_indicator/ps2dev_driver.cpp:228-246 | a byte sent as its eight bits LSB first is the byte the receiver assembles |
| Ps2Bits.ShiftInTop | firmware/sx2_indicator/ps2dev_driver.cpp:239-243 | `receive_data >>= 1; if (bit) receive_data \|= 0x80` keeps the bits received so far, LSB first, at the top of the register |
| Ps2Bits.ShiftOut | firmware/sx2_indicator/ps2dev_driver.cpp:327-336 | `send_data & 1` is the next wire bit, `send_data >>= 1` leaves the bits after it, and parity takes it in |
| Ps2DevDriver.RingLength | firmware/sx2_indicator/ps2dev_driver.cpp:115-127 | a ring with both indices in [0, 7] holds `(write - read) & 7` bytes, so at most seven |
| Ps2DevDriver.RingWrite | firmware/sx2_indicator/ps2dev_driver.cpp:134-135 | storing at the write index and advancing it with `& 7` appends the byte to a ring that is not full |
| Ps2DevDriver.RingRead | firmware/sx2_indicator/ps2dev_driver.cpp:145-146 | on a ring that is not empty, the byte at the read index is the oldest, and advancing the index with `& 7` removes exactly that byte |
| Ps2DevDriver.Ps2Device.constructor | firmware/sx2_indicator/ps2dev_driver.cpp:156-172 | `ps2dev_init` releases both lines, sets the engine idle and empties the ring |
| Ps2DevDriver.Ps2Device.Contents | firmware/sx2_indicator/ps2dev_driver.cpp:115-117 | the ring holds `(write - read) mod 8` bytes, at most seven |
| Ps2DevDriver.Ps2Device.IsFifoEmpty | firmware/sx2_indicator/ps2dev_driver.cpp:120-122 | `read == write` exactly when the ring holds no byte |
| Ps2DevDriver.Ps2Device.IsFifoFull | firmware/sx2_indicator/ps2dev_driver.cpp:125-127 | `(write + 1) & 7 == read` exactly when the ring holds seven bytes |
| Ps2DevDriver.Ps2Device.PushFifo | firmware/sx2_indicator/ps2dev_driver.cpp:130-136 | the byte is appended unless the ring is full, when nothing changes; the read index and the registers stay as they were |
| Ps2DevDriver.Ps2Device.PopFifo | firmware/sx2_indicator/ps2dev_driver.cpp:139-148 | the oldest byte is taken out; on an empty ring the result is 0 and nothing changes |
| Ps2DevDriver.Ps2Device.Task | firmware/sx2_indicator/ps2dev_driver.cpp:175-409 | one `ps2dev_task` call leaves the driver in the state `Poll` gives for the old state and the levels and time read |
| Ps2DevDriver.Ps2Device.WatchLines | firmware/sx2_indicator/ps2dev_driver.cpp:178-210 | the idle, start-bit and clock-release phases, as `Poll` |
| Ps2DevDriver.Ps2Device.ClockInBit | firmware/sx2_indicator/ps2dev_driver.cpp:211-266 | the host-to-device bit phases, as `Poll` |
| Ps2DevDriver.Ps2Device.Acknowledge | firmware/sx2_indicator/ps2dev_driver.cpp:267-303 | the acknowledge phases other than the push, as `Poll` |
| Ps2DevDriver.Ps2Device.StoreReceived | firmware/sx2_indicator/ps2dev_driver.cpp:283-295 | `PS2DEV_ACK_CLK_END` pushes the received byte unless the ring is full, as `Poll` |
| Ps2DevDriver.Ps2Device.PutBit | firmware/sx2_indicator/ps2dev_driver.cpp:312-358 | the send bit-setup phases, with abort, as `Poll` |
| Ps2DevDriver.Ps2Device.ClockOutBit | firmware/sx2_indicator/ps2dev_driver.cpp:305-405 | `PS2DEV_SEND_DATA` and the send clock phases, with abort, as `Poll` |
| Ps2DevDriver.Ps2Device.CheckReceiveBufferEmpty | firmware/sx2_indicator/ps2dev_driver.cpp:412-415 | true exactly when no received byte is waiting |
| Ps2DevDriver.Ps2Device.GetReceiveData | firmware/sx2_indicator/ps2dev_driver.cpp:418-427 | nothing on an empty ring; otherwise the oldest byte, taken out of the ring |
| Ps2DevDriver.Ps2Device.SendData | firmware/sx2_indicator/ps2dev_driver.cpp:430-438 | refused, with nothing changed, unless the engine is idle; otherwise loads the frame with `SEND_DATA` pending and enters `PS2DEV_SEND_DATA` |
| UsbHostDriver.ButtonBits | firmware/sx2_indicator/usb_host_driver.c:109 | masking with left, right and middle keeps the report's low three button bits |
| UsbHostDriver.Accumulate | firmware/sx2_indicator/usb_host_driver.c:93-107 | the accumulated delta always lies in [-127, 127] |
| UsbHostDriver.AccumulateIsSaturatedSum | firmware/sx2_indicator/usb_host_driver.c:93-107 | the accumulator is the plain sum inside the limits and sticks to the limit it passed otherwise |
| UsbHostDriver.NoLossInsideLimits | firmware/sx2_indicator/usb_host_driver.c:93-111 | while the running total stays inside the limits, several reports accumulate to their exact sum |
| UsbHostDriver.AccumulateAllMonotone | firmware/sx2_indicator/usb_host_driver.c:93-111 | a larger starting delta never gives a smaller accumulated delta after the same reports |
| UsbHostDriver.UsbHost.constructor | firmware/sx2_indicator/usb_host_driver.c:39-44 | the static start: unknown mode, zero deltas, zero button and resolution |
| UsbHostDriver.UsbHost.IsMouseActive | firmware/sx2_indicator/usb_host_driver.c:64-66 | true exactly in mouse mode |
| UsbHostDriver.UsbHost.GetMousePosition | firmware/sx2_indicator/usb_host_driver.c:69-85 | in mouse mode returns the deltas and button and zeroes the deltas but keeps the button; otherwise returns zeros and changes nothing |
| UsbHostDriver.UsbHost.ProcessMouseReport | firmware/sx2_indicator/usb_host_driver.c:88-113 | each delta becomes old plus report, saturated to [-127, 127]; the button is replaced by the masked report buttons |
| UsbHostDriver.UsbHost.MountCallback | firmware/sx2_indicator/usb_host_driver.c:120-158 | the mouse protocol selects mouse mode and zeroes deltas, button and resolution; any other protocol selects gamepad mode and touches nothing else |
| UsbHostDriver.UsbHost.UnmountCallback | firmware/sx2_indicator/usb_host_driver.c:165-175 | unmount always selects unknown mode and leaves the accumulator alone |
| UsbHostDriver.UsbHost.ReportReceivedCallback | firmware/sx2_indicator/usb_host_driver.c:178-196 | only a report from a mouse-protocol interface reaches the accumulator, whatever the mode |
| U2p.IdleReplies | firmware/sx2_indicator/u2p.cpp:91-108 | in idle, 0xFF answers FA AA 10, 0xF3 and 40 answer FA, 0xEB moves to the send phase with no answer, and any other byte is ignored |
| U2p.Status | firmware/sx2_indicator/u2p.cpp:47-77 | the status byte has bit 3 set and carries the buttons in its low three bits, or none when no mouse is active |
| U2p.MovementByte | firmware/sx2_indicator/u2p.cpp:64-82 | the byte sent, read as `int8_t`, is the movement clamped to [-128, 127] |
| U2p.PacketCarriesMovement | firmware/sx2_indicator/u2p.cpp:64-82 | for deltas within the accumulator limits, the packet is FA, status, dx and -dy, with each movement exact when read as signed |
| U2p.MoveCursor | firmware/sx2_indicator/u2p.cpp:50-63 | the cursor coordinate stays in [0, limit] and follows the movement exactly when it stays on screen |
| U2p.U2pAdapter.constructor | firmware/sx2_indicator/u2p.cpp:34-35 | starts idle with the cursor at (120, 67) and no button |
| U2p.U2pAdapter.GetMouse | firmware/sx2_indicator/u2p.cpp:127-132 | returns the cursor and status, with the cursor on the 240x135 screen |
| U2p.U2pAdapter.SendPacket | firmware/sx2_indicator/u2p.cpp:38-84 | when the send side is busy nothing changes; otherwise it sends FA, status, clamped dx and clamped -dy, moves the cursor with the un-negated deltas, drains the accumulator and returns to idle |
| U2p.U2pAdapter.MoveWithMouse | firmware/sx2_indicator/u2p.cpp:48-78 | takes the accumulated deltas, clamps the cursor to the screen and the deltas to [-128, 127] with y negated first |
| U2p.U2pAdapter.Task | firmware/sx2_indicator/u2p.cpp:87-115 | in idle, pops one received byte if any and sends its reply, leaving the cursor, status and USB state alone; in the send phase, when the send side is free, sends one packet, moves the cursor by the drained deltas, records the status byte and zeroes the USB deltas, and otherwise changes nothing |
| ImageConverter.ChannelBounds | images/image_converter.py:34-36 | the quantised channels are r>>3 < 32, g>>2 < 64 and b>>3 < 32, so the masks change nothing |
| ImageConverter.Pack | images/image_converter.py:37 | `b \| g<<5 \| r<<11` equals the sum of the shifted fields and is below 65536 |
| ImageConverter.PackFields | images/image_converter.py:34-37 | each quantised channel can be read back from the packed word |
| ImageConverter.Swap | images/image_converter.py:38 | the emitted word is the packed word with its two bytes exchanged |
| ImageConverter.SwapTwice | images/image_converter.py:38 | swapping twice gives the word back |
| ImageConverter.Hex4RoundTrip | images/image_converter.py:39 | the four hex digits written for a word read back as the word |
| ImageConverter.DecRoundTrip | images/image_converter.py:24-25 | the decimal width and height written in the header read back as the dimensions |
| ImageConverter.Words | images/image_converter.py:28-30 | the image yields exactly width x height words |
| ImageConverter.WordsInRowOrder | images/image_converter.py:28-46 | word i comes from the pixel at column i mod width and row i div width, inside the image |
| ImageConverter.NextPixel | images/image_converter.py:42-45 | stepping x and wrapping to the next row at the width walks the pixels in row-major order |
| ImageConverter.FormattedLines | images/image_converter.py:31-41 | n words carry a tab for each group of eight begun and a line break after every eighth word |
| ImageConverter.Convert | images/image_converter.py:13-48 | the output text is the header with the name and dimensions, the formatted words in row order, then the closing brace |
| ImageConverter.OutputNameFor | images/image_converter.py:53-58 | without an argument nothing is converted; otherwise the name is derived from the first argument |
| ImageConverter.StripDirectoryOf | images/image_converter.py:57 | everything through the last `/` is removed |
| ImageConverter.StripExtensionOf | images/image_converter.py:58 | the last `.` and what follows it are removed |
| ImageConverter.OutputNameOfPath | images/image_converter.py:57-58 | `dir/base.ext` gives `base`, and earlier dots in `base` stay |
| ImageConverter.OutputNameWithoutDot | images/image_converter.py:57-58 | a name with no dot is kept whole, with or without a directory in front |
| TftDriver.NestedTransfersKeepCs | firmware/sx2_indicator/tft_driver.cpp:175-198 | inside an open select, `_send_command` and `_send_data` write their byte and never touch CS |
| TftDriver.PixelsKeepCs | firmware/sx2_indicator/tft_driver.cpp:406-410 | the whole pixel stream inside an open select never touches CS and is four events per `rand()` value |
| TftDriver.FramedAtTopLevel | firmware/sx2_indicator/tft_driver.cpp:156-171 | outside any select, a transfer is one CS-low window: CS falls first, rises last and does not move in between |
| TftDriver.FramebufferIsOneWindow | firmware/sx2_indicator/tft_driver.cpp:391-411 | with no select open, the framebuffer stream after the two MADCTL transfers is one CS-low window: CS falls right after them, rises at the very end, and between the two only the window setup and the pixel bytes go out |
| TftDriver.TftBus.constructor | firmware/sx2_indicator/tft_driver.cpp:253-254 | after `tft_init` CS is high, DC is in data mode and no select is open |
| TftDriver.TftBus.ChipSelect | firmware/sx2_indicator/tft_driver.cpp:156-162 | CS is driven low only when the count was 0, and the count always goes up |
| TftDriver.TftBus.ChipDeselect | firmware/sx2_indicator/tft_driver.cpp:165-171 | the count always goes down, even below 0, and CS is driven high only when it reaches 0 |
| TftDriver.TftBus.SendCommand | firmware/sx2_indicator/tft_driver.cpp:175-185 | DC goes low before the command byte and high after it, inside its own select; count and CS end as they were |
| TftDriver.TftBus.SendData | firmware/sx2_indicator/tft_driver.cpp:189-198 | the byte is written with DC high inside its own select; count and CS end as they were |
| TftDriver.TftBus.SendFramebuffer | firmware/sx2_indicator/tft_driver.cpp:378-412 | two MADCTL transfers, then one select around the window setup and the pixel stream; count and CS as before, DC left in data mode |
| TftDriver.TftBus.SendWindow | firmware/sx2_indicator/tft_driver.cpp:392-404 | the column and row ranges and the memory-write command, in order; DC left in data mode |
| TftDriver.TftBus.SendNoise | firmware/sx2_indicator/tft_driver.cpp:406-410 | each `rand()` value goes out as two data bytes, high then low |

## Left out

- The GPIO, SPI, DMA, semaphore and sleep calls are left out. Line levels and the time are inputs. Pin directions, CS and DC levels, and SPI bytes are state or trace entries. Each semaphore-guarded push or pop is a single atomic method, and the two-core concurrency is not modelled.
- Ps2DevDriver.Ps2Device.SendData: the spin-wait on `send_result` (ps2dev_driver.cpp:439-441) and the boolean it returns are not modelled. That loop ends only because the other core runs `ps2dev_task`. The method sets up the send; `Ps2Properties.SendByte` and `Ps2Properties.SendAbort` give the result that `sendResult` then holds.
- `ps2dev_is_send_fifo_empty`, `ps2dev_get_state` and `u2p_get_information` are declared in the headers but defined nowhere. The first is the boolean input `sendSideEmpty` of the adapter; the other two are not modelled.
- U2p.U2pAdapter.SendPacket: `sent` records every byte handed to `ps2dev_send_data`, whether or not the engine accepted it. The engine's own refusal is modelled in `Ps2Device.SendData`.
- `int16_t` wrap-around on negation and other C integer-width overflow are not modelled. The accumulator keeps deltas within [-127, 127], so no wrap can happen on these paths. Integers are unbounded, with the ranges kept as invariants.
- `ps2dev_task` reads `_get_us()` once at the top of a call and again when an acting phase restarts its timer (for example ps2dev_driver.cpp:221 and :225, :322 and :338). The model takes one time per call and restarts the timer from it, so the few microseconds spent inside one call are not modelled.
- `Ps2Frame.Poll` accepts any clock and data levels, including a high level on a line the device itself drives low. The predicate `Ps2Properties.Readable` rules that out, and only the abort lemmas (`HeldClockStep`, `HeldUntilTimeout`, `AbortHoldsClock`) assume it. `ReceiveBytes` holds for any levels, and `SendByte` for any levels in which the host never pulls the clock low.
- Ps2Properties.SendByte assumes the host never pulls the clock low during the send: every call made while the device has released the clock reads it high (`HostLeavesClock`). A host that pulls it low aborts the send, and that path is stated by `Ps2Properties.SendAbort` and `Ps2Properties.AbortHoldsClock`.
- The 64-bit microsecond clock is modelled with its wrap-around (`Ps2Frame.Elapsed`); its source, `to_us_since_boot`, is an input.
- The TinyUSB and board calls are foreign code: `tuh_hid_interface_protocol` is an input, and `tuh_hid_receive_report`, `tuh_hid_parse_report_descriptor` and `board_led_write` are left out.
- `tft_init`'s panel register sequence is left out. Only its final bus state (CS high, data mode) is the constructor of `TftBus`. `_is_dma_busy` and `_wait_dma_ready` are left out too, as is the 70 us pause after each transfer.
- TftDriver.TftBus.SendCommand: `spi_write_blocking(&command, 1)` sends the first byte in memory of a 16-bit value. The model takes that byte as the low byte, as on the little-endian target.
- `main.cpp` is not part of this model. It is an infinite render loop with a multicore launch, and it calls `tft_copy`, which is not in the source files.
- The PIL image loading, the file writing and the `print` output of image_converter.py are not modelled. The image is a width, a height and a pixel function. The file is the string `Convert` returns.
- ImageConverter.StripExtension follows Python's `re` semantics for a single-line argument. `.` stops at a line break and `$` also matches before a final line break; multi-line arguments are not studied further.
