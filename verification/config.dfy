/**
 Compile-time configuration of the WS2812 driver: the constants of wsled.h, the
 buffer sizes wsled.c derives from them, the machine integer types and the bit
 arithmetic shared by every module.
 */
module WsLedConfig {

  /** An `uint8_t`: one colour channel, one gamma entry or one transfer-buffer symbol. */
  type byte = x: int | 0 <= x < 256

  /** An `uint32_t`, used for the core clock frequency. */
  type uint32 = x: int | 0 <= x < 0x1_0000_0000

  /** Number of LEDs on the strip (N). */
  const LedCount: nat := 60

  /** Number of pixel slots the circular transfer buffer holds (B). */
  const BufferedLeds: nat := 4

  /** Symbols emitted per pixel slot: 8 per channel, 3 channels. */
  const SymbolsPerSlot: nat := 24

  /** Compare value for a 1 bit; the macro body `90/3*2` under integer division. */
  const HighBit: byte := 90 / 3 * 2

  /** Compare value for a 0 bit; the macro body `90/3`. */
  const LowBit: byte := 90 / 3

  /** Value written for every symbol of a trailing reset slot. */
  const ResetSymbol: byte := 0

  /** The header defines `USE_GAMMA_CORRECTION`, so the gamma branch is in effect. */
  const UseGammaCorrection: bool := true

  // The derived sizes below are written as numbers so that the verifier sees
  // literals; `ConstantValues` proves each equal to its derivation.

  /** `sizeof(dma_buffer)`, i.e. `WS_DMA_BUFFERED_LEDS * 24`. */
  const DmaBufferLength: nat := 96

  /** Byte offset of the second half, `sizeof(dma_buffer) / 2`. */
  const HalfOffset: nat := 48

  /** Pixel slots encoded by one refill: the buffer length divided by 48. */
  const SlotsPerFill: nat := 2

  /** The cursor value at which the interrupt handler stops the transfer (N + B). */
  const StopIndex: nat := 64

  /** The core clock must be strictly above this frequency. */
  const MinCoreClockExclusive: nat := 8_000_000

  function Pow2(n: nat): (r: nat)
    ensures r >= 1
  {
    if n == 0 then 1 else 2 * Pow2(n - 1)
  }

  /** Bit `i` of `v`, counting from the least significant bit. */
  predicate Bit(v: byte, i: nat) {
    (v / Pow2(i)) % 2 == 1
  }

  /** The derived sizes are what the driver computes from N and B, and the
      two compare values are distinct from each other and from a reset symbol. */
  lemma ConstantValues()
    ensures HighBit == 60 && LowBit == 30
    ensures HighBit != LowBit && HighBit != ResetSymbol && LowBit != ResetSymbol
    ensures DmaBufferLength == BufferedLeds * SymbolsPerSlot
    ensures HalfOffset == DmaBufferLength / 2
    ensures SlotsPerFill == DmaBufferLength / 48 && SlotsPerFill == BufferedLeds / 2
    ensures SymbolsPerSlot * SlotsPerFill == HalfOffset
    ensures StopIndex == LedCount + BufferedLeds
  {
  }

  /** N + B is a multiple of the slots per refill, and so is B, so stepping the
      cursor from B by `SlotsPerFill` lands exactly on the stop index. */
  lemma StopIndexIsReachable()
    ensures BufferedLeds % SlotsPerFill == 0
    ensures StopIndex % SlotsPerFill == 0
    ensures StopIndex - LedCount == BufferedLeds
  {
  }
}
