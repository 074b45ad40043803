/**
 The transfer scheduler and interrupt bridge of wsled.c: `wsled_display`, the
 shared `DMA_Channel_IRQHandler`, and the argument checks of `wsled_init`, as
 operations on the driver's state. The hardware is reduced to the channel's
 enable bit and the two interrupt flags a handler invocation observes.
 */
module Scheduler {
  import opened WsLedConfig
  import opened PixelStore
  import opened BitEncoder

  /** The half-transfer and transfer-complete flags of the channel, as the
      handler reads them from the interrupt status register. */
  datatype Flags = Flags(halfTransfer: bool, transferComplete: bool)

  /** The static variables of the driver plus the channel's enable bit.
      Peripherals are identified by abstract numbers. */
  datatype Engine = Engine(
    leds: seq<Pixel>,     // led_buffer
    dma: seq<byte>,       // dma_buffer
    cursor: nat,          // current_led_index
    enabled: bool,        // EN bit of the channel's configuration register
    coreClock: nat,       // core_clock_freq
    timerChannel: byte,   // t_channel
    dmaChannel: nat,      // dma_channel
    timer: nat            // timer
  )

  predicate WellSized(e: Engine) {
    IsStrip(e.leds) && |e.dma| == DmaBufferLength
  }

  /** The states the driver can be in: the cursor moves in steps of
      `SlotsPerFill` from zero and never passes the stop index. In particular
      the 32-bit cursor never wraps. */
  predicate Valid(e: Engine) {
    WellSized(e) && e.cursor <= StopIndex && e.cursor % SlotsPerFill == 0
  }

  /** The state before `wsled_init`: zero-initialised buffers and the default
      peripherals (channel 7, timer 2, timer channel 2). */
  function PowerOn(): (e: Engine)
    ensures Valid(e) && !e.enabled
  {
    Engine(seq(LedCount, _ => Black), seq(DmaBufferLength, _ => 0), 0, false, 0, 2, 7, 2)
  }

  /** `e'` is `e` with the half at `offset` refilled from the cursor: that half
      now holds the frame symbols starting at slot `e.cursor`, the other half
      is untouched, the cursor has moved on by `SlotsPerFill`, and nothing
      else has changed. */
  predicate RefilledHalf(e: Engine, e': Engine, offset: nat)
    requires WellSized(e) && WellSized(e')
    requires offset + HalfOffset <= DmaBufferLength
  {
    && e' == e.(dma := e'.dma, cursor := e.cursor + SlotsPerFill)
    && (forall k :: 0 <= k < DmaBufferLength && !(offset <= k < offset + HalfOffset) ==>
          e'.dma[k] == e.dma[k])
    && (forall k :: offset <= k < offset + HalfOffset ==>
          e'.dma[k] == FrameSymbol(e.leds, 24 * e.cursor + (k - offset)))
  }

  /** Symbol `k` of the buffer once the half at `offset` has been refilled
      from cursor value `cursor`. */
  function RefilledSymbol(dma: seq<byte>, leds: seq<Pixel>, cursor: nat, offset: nat, k: nat): byte
    requires IsStrip(leds) && k < |dma|
  {
    if offset <= k < offset + HalfOffset then FrameSymbol(leds, 24 * cursor + (k - offset)) else dma[k]
  }

  /** The definition of a refill, `wsled_fill_led_DMA_buffer(sizeof(dma_buffer),
      offset)` as the handler and `wsled_display` call it, stated by what it
      leaves in the buffer: the half at `offset` receives the next 48 frame
      symbols and the cursor moves on by `SlotsPerFill`. That the encoder's
      loop computes exactly this buffer is `RefillIsFill`. */
  function Refill(e: Engine, offset: nat): (e': Engine)
    requires WellSized(e)
    requires offset + HalfOffset <= DmaBufferLength
    ensures WellSized(e')
    ensures RefilledHalf(e, e', offset)
  {
    e.(dma := seq(DmaBufferLength, k requires 0 <= k < DmaBufferLength =>
                  RefilledSymbol(e.dma, e.leds, e.cursor, offset, k)),
       cursor := e.cursor + SlotsPerFill)
  }

  /** The encoder's fill of `SlotsPerFill` slots at `offset` (which
      `FillLedDmaBuffer` computes for a buffer of `DmaBufferLength` bytes)
      leaves the buffer `Refill` describes. */
  lemma RefillIsFill(e: Engine, offset: nat)
    requires WellSized(e)
    requires offset + HalfOffset <= DmaBufferLength
    ensures DmaBufferLength / 48 == SlotsPerFill
    ensures Fill(e.dma, e.leds, e.cursor, SlotsPerFill, offset) == Refill(e, offset).dma
  {
    var r := Fill(e.dma, e.leds, e.cursor, SlotsPerFill, offset);
    FillIsHalf(e.dma, e.leds, e.cursor, offset, r);
    assert forall k :: 0 <= k < DmaBufferLength ==> r[k] == Refill(e, offset).dma[k];
  }

  /** The contract of `Fill` restated for one refill of `SlotsPerFill` slots. */
  lemma FillIsHalf(dma: seq<byte>, leds: seq<Pixel>, cursor: nat, offset: nat, r: seq<byte>)
    requires IsStrip(leds) && |dma| == DmaBufferLength
    requires offset + HalfOffset <= DmaBufferLength
    requires r == Fill(dma, leds, cursor, SlotsPerFill, offset)
    ensures |r| == DmaBufferLength
    ensures forall k :: 0 <= k < DmaBufferLength && !(offset <= k < offset + HalfOffset) ==> r[k] == dma[k]
    ensures forall k :: offset <= k < offset + HalfOffset ==>
              r[k] == FrameSymbol(leds, 24 * cursor + (k - offset))
  {
    assert 24 * SlotsPerFill == HalfOffset;
  }

  /** `wsled_display`: stop the channel, rewind the cursor, prefill the first
      and then the second half, start the channel. Both halves then hold the
      first `BufferedLeds` slots of the current pixel store, whatever the
      previous transfer had reached. */
  function Display(e: Engine): (e': Engine)
    requires WellSized(e)
    ensures Valid(e')
    ensures e' == e.(dma := e'.dma, cursor := BufferedLeds, enabled := true)
    ensures forall k :: 0 <= k < DmaBufferLength ==> e'.dma[k] == FrameSymbol(e.leds, k)
  {
    var stopped := e.(enabled := false, cursor := 0);
    var first := Refill(stopped, 0);
    var second := Refill(first, HalfOffset);
    second.(enabled := true)
  }

  /** `DMA_Channel_IRQHandler`: once the cursor has reached N + B the channel
      is stopped and nothing is refilled; otherwise the half-transfer flag
      refills the first half, or else the transfer-complete flag refills the
      second half. */
  function Irq(e: Engine, flags: Flags): (e': Engine)
    requires WellSized(e)
    ensures WellSized(e')
    ensures e.cursor >= StopIndex ==> e' == e.(enabled := false)
    ensures e.cursor < StopIndex && flags.halfTransfer ==> RefilledHalf(e, e', 0)
    ensures e.cursor < StopIndex && !flags.halfTransfer && flags.transferComplete ==>
              RefilledHalf(e, e', HalfOffset)
    ensures e.cursor < StopIndex && !flags.halfTransfer && !flags.transferComplete ==> e' == e
    ensures Valid(e) ==> Valid(e')
  {
    if e.cursor >= StopIndex then
      e.(enabled := false)
    else if flags.halfTransfer then
      Refill(e, 0)
    else if flags.transferComplete then
      Refill(e, HalfOffset)
    else
      e
  }

  /** `wsled_init` without the register set-up: the clock must be strictly
      above 8 MHz and the timer channel in 1..4. A rejected clock changes
      nothing; a rejected timer channel comes after the clock and the
      peripherals have been stored, and those writes stay. On success every
      pixel is cleared and a display is armed. */
  function Init(e: Engine, dmaChannel: nat, timer: nat, timerChannel: byte, coreClock: uint32): (r: (int, Engine))
    requires WellSized(e)
    ensures r.0 == 0 <==> MinCoreClockExclusive < coreClock && 1 <= timerChannel <= 4
    ensures r.0 != 0 ==> r.0 == -1
    ensures coreClock <= MinCoreClockExclusive ==> r.1 == e
    ensures MinCoreClockExclusive < coreClock && !(1 <= timerChannel <= 4) ==>
              r.1 == e.(coreClock := coreClock, dmaChannel := dmaChannel, timer := timer)
    ensures r.0 == 0 ==>
              && Valid(r.1) && r.1.enabled && r.1.cursor == BufferedLeds
              && r.1.coreClock == coreClock && r.1.timerChannel == timerChannel
              && r.1.dmaChannel == dmaChannel && r.1.timer == timer
              && (forall i :: 0 <= i < LedCount ==> r.1.leds[i] == Black)
              && (forall k :: 0 <= k < DmaBufferLength ==> r.1.dma[k] == LowBit)
  {
    if !(MinCoreClockExclusive < coreClock) then
      (-1, e)
    else
      var stored := e.(coreClock := coreClock, dmaChannel := dmaChannel, timer := timer);
      if !(0 < timerChannel && timerChannel < 5) then
        (-1, stored)
      else
        var cleared := stored.(timerChannel := timerChannel, leds := ClearAll(stored.leds));
        var armed := Display(cleared);
        assert forall k :: 0 <= k < DmaBufferLength ==> armed.dma[k] == LowBit by {
          forall k | 0 <= k < DmaBufferLength {
            ClearedStripSymbols(stored.leds, k);
          }
        }
        (0, armed)
  }

  // ---------------------------------------------------------------------------
  // A whole transfer
  // ---------------------------------------------------------------------------

  /** The flags of the `n`-th interrupt after arming when the hardware
      alternates half-transfer and transfer-complete, starting with the former. */
  function Alternating(n: nat): Flags {
    if n % 2 == 0 then Flags(true, false) else Flags(false, true)
  }

  /** The state `n` alternating interrupts after `d`. */
  function Interrupts(d: Engine, n: nat): (r: Engine)
    requires WellSized(d)
    ensures WellSized(r)
    ensures r == d.(dma := r.dma, cursor := r.cursor, enabled := r.enabled)
  {
    if n == 0 then d else Irq(Interrupts(d, n - 1), Alternating(n - 1))
  }

  /** Number of refills after the two prefills until the cursor reaches N + B,
      `(StopIndex - BufferedLeds) / SlotsPerFill` (see `RefillsValue`). */
  const Refills: nat := 30

  lemma RefillsValue()
    ensures Refills == (StopIndex - BufferedLeds) / SlotsPerFill
    ensures BufferedLeds + SlotsPerFill * Refills == StopIndex
  {
  }

  /** Symbol `i` of half `h` of the transfer buffer. */
  function HalfSymbol(dma: seq<byte>, h: nat, i: nat): byte
    requires |dma| == DmaBufferLength && h < 2 && i < HalfOffset
  {
    dma[48 * h + i]
  }

  /** Half `h` of the buffer holds the 48 frame symbols from `start` on. */
  predicate HalfHolds(dma: seq<byte>, leds: seq<Pixel>, h: nat, start: nat)
    requires |dma| == DmaBufferLength && h < 2 && IsStrip(leds)
  {
    forall i :: 0 <= i < HalfOffset ==> HalfSymbol(dma, h, i) == FrameSymbol(leds, start + i)
  }

  /** After `n` interrupts the half the hardware reads next (half `n % 2`)
      holds frame symbols `48 n ..`, and the other half the 48 after those. */
  predicate HalvesQueued(d: Engine, leds: seq<Pixel>, n: nat)
    requires WellSized(d) && IsStrip(leds)
  {
    && HalfHolds(d.dma, leds, n % 2, 48 * n)
    && HalfHolds(d.dma, leds, (n + 1) % 2, 48 * (n + 1))
  }

  /** A transfer has just been started: channel on, cursor past the prefilled
      slots, both halves holding the start of the frame. */
  predicate Armed(d: Engine) {
    && WellSized(d)
    && d.enabled
    && d.cursor == BufferedLeds
    && HalvesQueued(d, d.leds, 0)
  }

  /** `Display` starts a transfer. */
  lemma DisplayArms(e: Engine)
    requires WellSized(e)
    ensures Armed(Display(e))
    ensures Display(e).leds == e.leds
  {
    var d := Display(e);
    assert HalfHolds(d.dma, e.leds, 1, 48) by {
      forall i | 0 <= i < HalfOffset
        ensures HalfSymbol(d.dma, 1, i) == FrameSymbol(e.leds, 48 + i)
      {
      }
    }
  }

  /** Before the stop index, the `n`-th alternating interrupt refills half `n % 2`. */
  lemma AlternatingRefills(before: Engine, n: nat, offset: nat)
    requires WellSized(before)
    requires before.cursor < StopIndex
    requires offset == 48 * (n % 2)
    ensures RefilledHalf(before, Irq(before, Alternating(n)), offset)
  {
    if n % 2 == 0 {
      assert Alternating(n) == Flags(true, false);
      assert offset == 0;
    } else {
      assert Alternating(n) == Flags(false, true);
      assert offset == HalfOffset;
    }
  }

  /** A refill of the half just read, with the cursor where the run has
      brought it, queues the frame symbols two halves further on. */
  lemma QueueStep(before: Engine, after: Engine, leds: seq<Pixel>, n: nat)
    requires WellSized(before) && WellSized(after) && IsStrip(leds)
    requires before.leds == leds && 0 < n
    requires before.cursor == BufferedLeds + 2 * (n - 1)
    requires HalvesQueued(before, leds, n - 1)
    requires RefilledHalf(before, after, 48 * ((n - 1) % 2))
    ensures after.enabled == before.enabled
    ensures after.cursor == BufferedLeds + 2 * n
    ensures HalvesQueued(after, leds, n)
  {
    var h := (n - 1) % 2;
    assert (n + 1) % 2 == h && n % 2 == 1 - h;
    assert HalfHolds(after.dma, leds, n % 2, 48 * n) by {
      forall i | 0 <= i < HalfOffset
        ensures HalfSymbol(after.dma, n % 2, i) == FrameSymbol(leds, 48 * n + i)
      {
        assert HalfSymbol(after.dma, n % 2, i) == HalfSymbol(before.dma, n % 2, i);
      }
    }
    assert HalfHolds(after.dma, leds, h, 48 * (n + 1)) by {
      forall i | 0 <= i < HalfOffset
        ensures HalfSymbol(after.dma, h, i) == FrameSymbol(leds, 48 * (n + 1) + i)
      {
        assert 24 * before.cursor + i == 48 * (n + 1) + i;
        assert after.dma[48 * h + i] == FrameSymbol(leds, 24 * before.cursor + i);
      }
    }
  }

  /** The running part of a transfer: for the first `Refills` interrupts the
      channel stays enabled, the cursor advances by `SlotsPerFill` each time,
      and the two halves hold the next frame symbols in order. */
  lemma {:induction false} TransferRunning(d: Engine, n: nat)
    requires Armed(d)
    requires n <= Refills
    ensures Interrupts(d, n).enabled
    ensures Interrupts(d, n).cursor == BufferedLeds + 2 * n
    ensures HalvesQueued(Interrupts(d, n), d.leds, n)
  {
    if n > 0 {
      TransferRunning(d, n - 1);
      var before := Interrupts(d, n - 1);
      var after := Interrupts(d, n);
      assert after == Irq(before, Alternating(n - 1));
      AlternatingRefills(before, n - 1, 48 * ((n - 1) % 2));
      QueueStep(before, after, d.leds, n);
    }
  }

  /** The end of a transfer: the interrupt after the cursor has reached N + B
      stops the channel, and every later one leaves buffer and cursor alone. */
  lemma {:induction false} TransferStops(d: Engine, n: nat)
    requires Armed(d)
    requires n > Refills
    ensures !Interrupts(d, n).enabled
    ensures Interrupts(d, n).cursor == StopIndex
    ensures Interrupts(d, n).dma == Interrupts(d, Refills).dma
  {
    if n == Refills + 1 {
      TransferRunning(d, Refills);
    } else {
      TransferStops(d, n - 1);
    }
  }

  /** Half `h` of the transfer buffer, as the hardware reads it. */
  function HalfSlice(dma: seq<byte>, h: nat): (s: seq<byte>)
    requires |dma| == DmaBufferLength && h < 2
    ensures |s| == HalfOffset
    ensures forall i :: 0 <= i < HalfOffset ==> s[i] == HalfSymbol(dma, h, i)
  {
    dma[48 * h .. 48 * h + HalfOffset]
  }

  /** The symbols the hardware has streamed from `d` up to the `n`-th
      interrupt: read number `r` covers half `r % 2` as it stands after `r`
      interrupts, and happens only while the channel is enabled. */
  function Streamed(d: Engine, n: nat): (s: seq<byte>)
    requires WellSized(d)
  {
    if n == 0 then []
    else
      var before := Interrupts(d, n - 1);
      if before.enabled then Streamed(d, n - 1) + HalfSlice(before.dma, (n - 1) % 2)
      else Streamed(d, n - 1)
  }

  /** Appending a half that holds the next 48 frame symbols to a frame prefix
      gives a longer frame prefix. */
  lemma AppendHalf(prefix: seq<byte>, dma: seq<byte>, leds: seq<Pixel>, h: nat, start: nat)
    requires |dma| == DmaBufferLength && h < 2 && IsStrip(leds)
    requires forall k :: 0 <= k < |prefix| ==> prefix[k] == FrameSymbol(leds, k)
    requires |prefix| == start
    requires HalfHolds(dma, leds, h, start)
    ensures forall k :: 0 <= k < |prefix| + HalfOffset ==>
              (prefix + HalfSlice(dma, h))[k] == FrameSymbol(leds, k)
  {
    var s := prefix + HalfSlice(dma, h);
    forall k | |prefix| <= k < |s|
      ensures s[k] == FrameSymbol(leds, k)
    {
      assert s[k] == HalfSymbol(dma, h, k - |prefix|);
    }
  }

  /** Whatever the number of interrupts, the hardware has streamed a prefix of
      the frame, and in the end exactly `Refills + 1` halves of it. */
  lemma {:induction false} StreamedIsFramePrefix(d: Engine, n: nat)
    requires Armed(d)
    ensures |Streamed(d, n)| == 48 * (if n <= Refills + 1 then n else Refills + 1)
    ensures forall k :: 0 <= k < |Streamed(d, n)| ==> Streamed(d, n)[k] == FrameSymbol(d.leds, k)
  {
    if n > 0 {
      StreamedIsFramePrefix(d, n - 1);
      var before := Interrupts(d, n - 1);
      var prefix := Streamed(d, n - 1);
      if n - 1 <= Refills {
        TransferRunning(d, n - 1);
        assert Streamed(d, n) == prefix + HalfSlice(before.dma, (n - 1) % 2);
        AppendHalf(prefix, before.dma, d.leds, (n - 1) % 2, 48 * (n - 1));
      } else {
        TransferStops(d, n - 1);
        assert Streamed(d, n) == prefix;
      }
    }
  }

  /** A transfer started by `Display` encodes all N + B slots, but the channel
      stops at the interrupt that ends read 31: exactly 62 slots are streamed,
      every pixel symbol of the store at display time followed by two reset
      slots of zeros. Reset slots 62 and 63 are encoded but never read. */
    lemma PixelsStreamedBeforeStop(e: Engine, n: nat)
    requires WellSized(e)
    requires n > Refills
    ensures !Interrupts(Display(e), n).enabled
    ensures Interrupts(Display(e), n).cursor == StopIndex
    ensures |Streamed(Display(e), n)| == 24 * (LedCount + 2)
    ensures forall k :: 0 <= k < 24 * LedCount ==>
              Streamed(Display(e), n)[k] == FrameSymbol(e.leds, k)
    ensures forall k :: 24 * LedCount <= k < |Streamed(Display(e), n)| ==>
              Streamed(Display(e), n)[k] == ResetSymbol
  {
    var d := Display(e);
    DisplayArms(e);
    StreamedIsFramePrefix(d, n);
    TransferStops(d, n);
    forall k | 24 * LedCount <= k < |Streamed(d, n)|
      ensures Streamed(d, n)[k] == ResetSymbol
    {
      SlotRoundTrip(e.leds, e.leds, k / SymbolsPerSlot);
      FrameSymbolOfSlot(e.leds, k / SymbolsPerSlot, k % SymbolsPerSlot, k);
    }
  }

  /** Re-arming: calling `Display` again after any number of interrupts, with
      whatever pixels are stored by then, gives the state a first `Display` on
      those pixels would give. */
  lemma RearmIsFresh(e: Engine, n: nat, leds: seq<Pixel>)
    requires WellSized(e) && IsStrip(leds)
    ensures Display(Interrupts(Display(e), n).(leds := leds)) == Display(e.(leds := leds))
  {
    var again := Display(Interrupts(Display(e), n).(leds := leds));
    var first := Display(e.(leds := leds));
    assert again.dma == first.dma;
  }
}
