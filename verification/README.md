# WS2812 transfer engine in Dafny

A model of the pixel-to-bitstream engine of the `wsled` driver for WS2812 LED strips. The driver is `Src/wsled.c` plus the constants of `Src/wsled.h`. It has four parts:

- **Pixel store** (`pixels.dfy`, module `PixelStore`) stands for `led_buffer[N][3]`. It has three operations:
  - `wsled_set_led` stores gamma-corrected channel values;
  - `wsled_clear_led` zeroes one pixel;
  - `wsled_clear_all` zeroes every pixel.
- **Gamma table** (`gamma.dfy`, module `Gamma`) is the 256-entry `gamma_correction` table.
- **Bit encoder** (`encoder.dfy`, module `BitEncoder`) is `wsled_fill_led_DMA_buffer`:
  - Each pixel slot becomes 24 compare-value symbols: green, then red, then blue, most significant bit first.
  - A 1 bit is written as `LED_HIGH_BIT` (60). A 0 bit is written as `LED_LOW_BIT` (30).
  - Once the cursor reaches N, each slot becomes 24 zero bytes. These are the trailing reset slots.
  - `FillLedDmaBuffer` is the loop itself: one inner loop per channel, as in the C code. `Fill` is the reference meaning of a fill.
  - A decoder (`DecodeChannel`, `DecodeSlot`) is the partner of the encoder.
- **Transfer scheduler** (`scheduler.dfy`, module `Scheduler`) covers `wsled_display`, the flag logic of the shared `DMA_Channel_IRQHandler`, and the argument checks of `wsled_init`.
  - The driver's static variables and the channel's enable bit form an immutable `Engine` record. Each C function becomes a function from state to state.
  - An interrupt is modelled by the two status flags it observes (`Flags`).
  - `Interrupts(d, n)` drives `n` interrupts that alternate between half-transfer and transfer-complete.
  - `Streamed(d, n)` is the byte stream the hardware reads meanwhile. Read number `r` is half `r % 2` of the buffer as it stands after `r` interrupts, and happens only while the channel is enabled.

`config.dfy` (module `WsLedConfig`) holds the constants:

- N = 60 and B = 4;
- `90/3*2` = 60 and `90/3` = 30;
- `USE_GAMMA_CORRECTION` is in effect.

It also holds the sizes the C code derives from them: a 96-byte buffer, 48-byte halves, 2 slots per refill, and the stop index 64. The derived sizes are written as numbers, and `ConstantValues` proves each one equal to its derivation.

Three facts about the code shape the model:

- **Trailing reset slots.** They are 24 literal `0` bytes (`Src/wsled.c:265`), not `LED_LOW_BIT`. A reset slot therefore does not decode as a pixel (`SlotRoundTrip`).
- **Slots per refill.** The buffer is `B*24` = 96 bytes (`Src/wsled.c:11`). Each fill encodes `96/48` = 2 slots (`Src/wsled.c:260`), so each half holds B/2 = 2 slots.
- **Partial initialisation.** A rejected timer channel comes after the clock, DMA channel and timer have been stored, and those writes are not rolled back (`Src/wsled.c:74-83`). `Init` states exactly that.

Where the code and its doc comments disagree, the model follows the code:

- **Clock check.** The check is strict: `8000000 < core_clock_frequency` (`Src/wsled.c:74`). The doc comment at `Src/wsled.c:64` says `8000'000 <= core_clock_frequency`.

A transfer encodes all N + B = 64 slots, but the channel is stopped by the interrupt that ends the hardware's 31st half-buffer read (`Src/wsled.c:326`). So 62 slots are streamed: the 60 pixels and two reset slots. Reset slots 62 and 63 are encoded but never read.

`example.dfy` (module `ExampleSweep`) models the index sequences of the sweep loops in the example program. It backs the one entry under "Findings".

## Model

| member | source | states |
|---|---|---|
| WsLedConfig.ConstantValues | Src/wsled.h:12-22 | The compare values are 60 and 30: distinct from each other and from the reset symbol 0. The buffer is B*24 = 96 bytes, a half is 48, a refill covers 96/48 = 2 slots (B/2, and 2*24 bytes is exactly one half), and the stop index is N+B = 64. |
| WsLedConfig.StopIndexIsReachable | Src/wsled.c:326 | B and N+B are both multiples of the slots per refill, so a cursor stepping from B meets the stop bound exactly. The trailing region N..N+B is exactly B slots. |
| Gamma.Correct | Src/wsled.c:32-48 | A table lookup never brightens a channel, maps 0 to 0 and maps 255 to 255. |
| Gamma.TableShape | Src/wsled.c:32-48 | The table has 256 entries, no entry exceeds its index, and neighbouring entries never decrease. |
| Gamma.CorrectMonotonic | Src/wsled.c:32-48 | Gamma correction is monotonic: a brighter input is never stored darker. |
| PixelStore.SetLed | Src/wsled.c:107-122 | Slots red, green and blue of pixel `index` become the gamma-corrected inputs. Every other pixel is unchanged and the strip keeps its size. |
| PixelStore.ClearLed | Src/wsled.c:132-137 | All three channels of pixel `index` become 0. No other pixel changes. |
| PixelStore.ClearFirst | Src/wsled.c:149-153 | After `count` iterations of the clearing loop, pixels below `count` are black and the rest are as before. |
| PixelStore.ClearAll | Src/wsled.c:147-154 | Every channel of every one of the N pixels is 0. |
| PixelStore.ClearAllForgets | Src/wsled.c:147-154 | Clearing all pixels gives the same store whatever it held before. |
| PixelStore.ClearLedUndoesSetLed | Src/wsled.c:107-137 | Clearing a pixel after setting it gives the store that clearing alone would give. |
| BitEncoder.ShiftTestIsBit | Src/wsled.c:272 | The test `(v << j) & 0x80` of loop step `j` holds exactly when bit `7 - j` of `v` is set. |
| BitEncoder.EncodeChannelBits | Src/wsled.c:270-281 | Symbol `j` of a channel is the high value exactly when bit `7 - j` is set, and the low value exactly when it is clear. |
| BitEncoder.SlotLayout | Src/wsled.c:270-281 | In the slot of a real pixel, byte `8k + j` (k = 0 green, 1 red, 2 blue) is the high value if bit `7 - j` of that channel is set, else the low value. |
| BitEncoder.SaturatedChannels | Src/wsled.c:270-281 | A channel of 0xFF encodes as eight high symbols, and a channel of 0x00 as eight low symbols. |
| BitEncoder.ChannelRoundTrip | Src/wsled.c:271-272 | Decoding a channel's eight symbols gives the channel value back. |
| BitEncoder.ChannelCodec | Src/wsled.c:270-281 | Eight symbols decode to `v` if and only if they are the encoding of `v`. |
| BitEncoder.PixelCodec | Src/wsled.c:270-281 | A 24-byte slot decodes to pixel `p` if and only if it is the green-red-blue encoding of `p`. |
| BitEncoder.SlotRoundTrip | Src/wsled.c:263-281 | The slot of a real pixel decodes to that pixel. A slot at or beyond N is 24 zero bytes, does not decode, and is the same whatever the pixel store holds, so pixel indices at or above N are never read. |
| BitEncoder.SetLedIsSent | Src/wsled.c:107-122 | A pixel written by set_led is put on the wire as its gamma-corrected colour. |
| BitEncoder.ClearedStripSymbols | Src/wsled.c:88-90 | After all pixels are cleared, each of the 24*N pixel symbols of the frame is the low value, and every later symbol is 0. |
| BitEncoder.Fill | Src/wsled.c:258-284 | Filling `slots` slots at `offset` leaves every byte outside `[offset, offset + 24*slots)` unchanged. The bytes inside become the frame symbols from slot `cursor` on. |
| BitEncoder.WriteChannel | Src/wsled.c:271-272 | One eight-step channel loop writes the channel's eight symbols from `at` and nothing else. |
| BitEncoder.WriteResetSlot | Src/wsled.c:265 | The reset loop writes 24 zero bytes from `at` and nothing else. |
| BitEncoder.ChannelWritesMakePixel | Src/wsled.c:270-281 | The green, red and blue loops, each 8 bytes further on, together write the pixel's 24-symbol slot. |
| BitEncoder.FillLedDmaBuffer | Src/wsled.c:258-284 | The fill loop encodes exactly `length / 48` slots, which gives the buffer `Fill` describes, and advances the cursor by exactly `length / 48`. |
| Scheduler.PowerOn | Src/wsled.c:9-30 | The zero-initialised statics are a valid, stopped driver state. |
| Scheduler.RefillIsFill | Src/wsled.c:260 | The encoder's fill with the buffer's own length (2 slots) computes exactly the buffer `Refill` defines: that half gets the next 48 frame symbols from the cursor, and the other half is left alone. |
| Scheduler.Display | Src/wsled.c:163-172 | After display the channel is enabled and the cursor is B. The whole buffer holds the first 96 frame symbols of the current pixel store. Pixels and configuration are unchanged. |
| Scheduler.DisplayArms | Src/wsled.c:163-172 | Display starts a transfer: the channel is on, the cursor is B, and both halves queue the start of the frame. |
| Scheduler.Irq | Src/wsled.c:323-345 | If the cursor is at least N+B, the handler only disables the channel. Otherwise the half-transfer flag refills the first half, or else the complete flag refills the second half. Half-transfer wins when both are set, and with neither set nothing changes. Validity is preserved. |
| Scheduler.Init | Src/wsled.c:69-93 | Status 0 if and only if the clock is strictly above 8 MHz and the timer channel is in 1..4, and -1 otherwise. A bad clock changes nothing. A bad channel keeps the stored clock, DMA channel and timer. Success clears every pixel, stores the configuration and arms a display whose buffer is all low symbols. |
| Scheduler.RefillsValue | Src/wsled.c:326 | From cursor B, 30 refills of 2 slots reach the stop index N+B. |
| Scheduler.TransferRunning | Src/wsled.c:333-344 | For the first 30 alternating interrupts after display, the channel stays enabled. The cursor is B + 2n, and the half read next and the other half hold frame symbols 48n onwards, in order. |
| Scheduler.TransferStops | Src/wsled.c:325-331 | The first interrupt after the cursor reaches 64 disables the channel. Every later one keeps it disabled, with cursor 64 and the buffer unchanged, so exactly N+B slots are encoded. |
| Scheduler.StreamedIsFramePrefix | Src/wsled.c:323-345 | Whatever the number of interrupts, the hardware has read a prefix of the frame in order, 48 symbols per enabled read, and no more than 31 halves in all. |
| Scheduler.PixelsStreamedBeforeStop | Src/wsled.c:323-345 | Once the transfer has stopped, the cursor is N+B, so all 64 slots were encoded. Exactly 24*62 symbols have been streamed: all 24*N pixel symbols of the store at display time, then two reset slots of zeros. |
| Scheduler.RearmIsFresh | Src/wsled.c:163-172 | A display called again after any number of interrupts gives the same state as a first display of the pixels stored at the time of the second call. |
| ExampleSweep.ReverseSweepAsWritten | Src/wsled.c:9 | The example program's reverse loop (Examples/Example 1/main.c, lines 52-55), as written, first passes index N, one row past `led_buffer`, which `SetLed` excludes, and never sets pixel 0. |
| ExampleSweep.ReverseSweepCorrected | Src/wsled.c:9 | The same loop counting down from N-1 while the index is at least 0 visits exactly the N rows of `led_buffer`. |

## Left out

- `timer_init` and `dma_init` (`Src/wsled.c:180-247`) are left out. They are register set-up: clock enables, compare-mode masks, the auto-reload value computed from `LED_PWM_FREQUENCY`, the interrupt controller, and the channel configuration.
- The address arithmetic for `dma_channel_index_offset` and `dma_channel_interrupt_offset` (`Src/wsled.c:78-79`) is left out. So are the mapping of the ISR/IFCR flag bits and the flag-clearing writes. An interrupt is the abstract `Flags` value, and peripherals are abstract numbers.
- The seven IRQ vector stubs (`Src/wsled.c:287-320`) only forward to the shared handler, so they are left out.
- The `CNDTR` transfer-count writes are left out. The hardware's circular reading is the read model behind `Streamed`: one half per interrupt while the channel is enabled.
- Timing and concurrency are left out: the refill deadline, hardware reading a half while it is refilled, and `wsled_set_led` running during an interrupt. These cannot be stated in a sequential model.
- RearmIsFresh: an interrupt taken inside `wsled_display` (`Src/wsled.c:165-171`) is not modelled; `Display` is one atomic step. A pending half-transfer interrupt serviced after the cursor is reset at line 166 would refill half 0 from cursor 0. The two fills would then start at slot 2, and frame slots 0-1 would be lost. The lemma holds only when no interrupt interleaves with a display.
- SetLed and ClearLed require `index < N`. An out-of-range index is undefined behaviour in C; the source does not check it.
- FillLedDmaBuffer: the 32-bit wrap-around of `length`, `offset` and the cursor is not modelled, because they are unbounded integers here. The driver passes 96 and 0 or 48, and `Valid` keeps the cursor at 64 or below.
- Init: the arguments are checked, the configuration is stored, and `wsled_clear_all` and `wsled_display` are applied. The register effects of the two initialisers it calls are not modelled.

## Findings

| source | as written | input that shows it | evidently intended | confidence | as-written member | corrected member |
|---|---|---|---|---|---|---|
| Examples/Example 1/main.c:52-55 | `for (i = LED_COUNT; i > 0; i--) wsled_set_led(i, …)` | the first iteration, i = 60: `wsled_set_led(60, 80, 80, 80)` writes `led_buffer[60]`, one row past the array of `Src/wsled.c:9`, and i = 0 is never reached | `for (i = LED_COUNT - 1; i >= 0; i--)`, setting pixels 59 down to 0 | high, by reading the loop bounds; not executed | ExampleSweep.ReverseSweepAsWritten | ExampleSweep.ReverseSweepCorrected |
