/**
 The bit encoder of wsled.c: each pixel slot becomes 24 compare-value symbols,
 green then red then blue, most significant bit first; slots past the last LED
 become 24 zero bytes. `wsled_fill_led_DMA_buffer` writes such slots into one
 half of the transfer buffer. The module also holds the matching decoder.
 */
module BitEncoder {
  import opened WsLedConfig
  import opened PixelStore

  datatype Option<T> = None | Some(value: T)

  /** The compare value written for one protocol bit. */
  function Symbol(one: bool): byte {
    if one then HighBit else LowBit
  }

  /** `value << j` on the `int` the byte is promoted to (no truncation: the
      result is at most 255 * 128). */
  function ShiftLeft(value: byte, j: nat): nat {
    if j == 0 then value else 2 * ShiftLeft(value, j - 1)
  }

  /** The test `(value << j) & 0x80` of the encoder loops: bit 7 of the
      shifted value. */
  predicate ShiftTest(value: byte, j: nat) {
    ShiftLeft(value, j) / 128 % 2 == 1
  }

  /** The eight symbols one `for (j = 0; j < 8; j++)` loop writes for a channel. */
  function EncodeChannel(value: byte): (s: seq<byte>)
    ensures |s| == 8
  {
    seq(8, j requires 0 <= j < 8 => Symbol(ShiftTest(value, j)))
  }

  /** The 24 symbols of a pixel in on-wire order: green, red, blue. */
  function EncodePixel(p: Pixel): (s: seq<byte>)
    ensures |s| == SymbolsPerSlot
  {
    EncodeChannel(p.green) + EncodeChannel(p.red) + EncodeChannel(p.blue)
  }

  /** A trailing reset slot: 24 literal zero bytes. */
  function ResetSlot(): (s: seq<byte>)
    ensures |s| == SymbolsPerSlot
  {
    seq(SymbolsPerSlot, _ => ResetSymbol)
  }

  /** The symbols emitted for cursor value `c`: a real pixel below `LedCount`,
      a reset slot at or above it (where the pixel store is not read). */
  function SlotSymbols(leds: seq<Pixel>, c: nat): (s: seq<byte>)
    requires IsStrip(leds)
    ensures |s| == SymbolsPerSlot
  {
    if c < LedCount then EncodePixel(leds[c]) else ResetSlot()
  }

  /** Symbol `pos` of the stream that starts at cursor value `c`: the symbols
      of slot `c`, then those of every later slot. */
  function StreamSymbol(leds: seq<Pixel>, c: nat, pos: nat): byte
    requires IsStrip(leds)
    decreases pos
  {
    if pos < SymbolsPerSlot then SlotSymbols(leds, c)[pos]
    else StreamSymbol(leds, c + 1, pos - SymbolsPerSlot)
  }

  /** Symbol number `pos` of the whole frame, which starts at cursor value 0. */
  function FrameSymbol(leds: seq<Pixel>, pos: nat): byte
    requires IsStrip(leds)
  {
    StreamSymbol(leds, 0, pos)
  }

  /** The channel a pixel contributes as the `k`-th byte on the wire. */
  function WireChannel(p: Pixel, k: nat): byte
    requires k < 3
  {
    if k == 0 then p.green else if k == 1 then p.red else p.blue
  }

  // ---------------------------------------------------------------------------
  // Decoding
  // ---------------------------------------------------------------------------

  /** A byte that stands for a protocol bit. The reset symbol is not one. */
  predicate IsSymbol(b: byte) {
    b == HighBit || b == LowBit
  }

  predicate AllSymbols(s: seq<byte>) {
    forall i :: 0 <= i < |s| ==> IsSymbol(s[i])
  }

  /** The number a symbol sequence spells, first symbol most significant. */
  function BitsValue(s: seq<byte>): (v: nat)
    ensures v < Pow2(|s|)
  {
    if |s| == 0 then 0
    else 2 * BitsValue(s[..|s| - 1]) + (if s[|s| - 1] == HighBit then 1 else 0)
  }

  /** Reads one channel back from eight symbols. */
  function DecodeChannel(s: seq<byte>): (r: Option<byte>)
    ensures r.Some? <==> |s| == 8 && AllSymbols(s)
  {
    if |s| == 8 && AllSymbols(s) then
      assert Pow2(8) == 256;
      Some(BitsValue(s))
    else
      None
  }

  /** Reads one pixel back from a 24-symbol slot. */
  function DecodeSlot(s: seq<byte>): (r: Option<Pixel>)
    ensures r.Some? ==> |s| == SymbolsPerSlot && AllSymbols(s)
  {
    if |s| != SymbolsPerSlot then None
    else
      match (DecodeChannel(s[..8]), DecodeChannel(s[8..16]), DecodeChannel(s[16..]))
      case (Some(g), Some(r), Some(b)) =>
        assert s == s[..8] + s[8..16] + s[16..];
        Some(Pixel(r, g, b))
      case _ => None
  }

  // ---------------------------------------------------------------------------
  // Properties of the encoding
  // ---------------------------------------------------------------------------

  lemma Pow2Values()
    ensures Pow2(0) == 1 && Pow2(1) == 2 && Pow2(2) == 4 && Pow2(3) == 8
    ensures Pow2(4) == 16 && Pow2(5) == 32 && Pow2(6) == 64 && Pow2(7) == 128
    ensures Pow2(8) == 256
  {
  }

  lemma {:induction false} ShiftLeftIsProduct(value: byte, j: nat)
    ensures ShiftLeft(value, j) == value * Pow2(j)
  {
    if j > 0 {
      ShiftLeftIsProduct(value, j - 1);
    }
  }

  lemma {:induction false} Pow2Add(i: nat, j: nat)
    ensures Pow2(i + j) == Pow2(i) * Pow2(j)
  {
    if i > 0 {
      Pow2Add(i - 1, j);
    }
  }

  /** Multiples of `d` with different factors are at least `d` apart. */
  lemma MultiplesApart(q: int, q': int, d: int)
    requires q > q' && d > 0
    ensures q * d - q' * d >= d
  {
    var k := q - q';
    assert q * d == q' * d + k * d;
    assert k * d == (k - 1) * d + d;
  }

  /** Division is determined by any quotient-remainder split. */
  lemma DivUnique(a: int, d: int, q: int, r: int)
    requires d > 0 && 0 <= r < d && a == q * d + r
    ensures a / d == q
  {
    var q' := a / d;
    if q > q' {
      MultiplesApart(q, q', d);
      assert false;
    } else if q < q' {
      MultiplesApart(q', q, d);
      assert false;
    }
  }

  /** Scaling by `a` before dividing by `a * b` is dividing by `b`. */
  lemma ScaledDiv(value: nat, a: nat, b: nat)
    requires a > 0 && b > 0
    ensures (value * a) / (a * b) == value / b
  {
    var q := value / b;
    var r := value % b;
    assert value * a == q * (a * b) + r * a;
    assert r * a < a * b;
    DivUnique(value * a, a * b, q, r * a);
  }

  /** Dividing twice is dividing by the product. */
  lemma DivDiv(value: nat, a: nat, b: nat)
    requires a > 0 && b > 0
    ensures (value / a) / b == value / (a * b)
  {
    var q := (value / a) / b;
    var r1 := (value / a) % b;
    var r0 := value % a;
    assert value == q * (a * b) + (r1 * a + r0);
    assert r1 * a + r0 < a * b by {
      assert r1 * a <= (b - 1) * a;
    }
    DivUnique(value, a * b, q, r1 * a + r0);
  }

  /** The shift-and-mask test at loop step `j` reads bit `7 - j` of the value:
      `(value << j) / 2^7` is `value / 2^(7 - j)`. */
  lemma ShiftTestIsBit(value: byte, j: nat)
    requires j < 8
    ensures ShiftTest(value, j) <==> Bit(value, 7 - j)
  {
    Pow2Values();
    ShiftLeftIsProduct(value, j);
    Pow2Add(j, 7 - j);
    ScaledDiv(value, Pow2(j), Pow2(7 - j));
  }

  /** Bit `7 - j` is what separates `value / 2^(7-j)` from twice `value / 2^(8-j)`. */
  lemma HalvingStep(value: byte, j: nat)
    requires j < 8
    ensures value / Pow2(7 - j) == 2 * (value / Pow2(8 - j)) + (if Bit(value, 7 - j) then 1 else 0)
  {
    Pow2Add(7 - j, 1);
    DivDiv(value, Pow2(7 - j), 2);
  }

  /** Symbol `j` of a channel is `HighBit` exactly when bit `7 - j` is set,
      and `LowBit` otherwise. */
  lemma EncodeChannelBits(value: byte)
    ensures forall j :: 0 <= j < 8 ==>
              (EncodeChannel(value)[j] == HighBit <==> Bit(value, 7 - j)) &&
              (EncodeChannel(value)[j] == LowBit <==> !Bit(value, 7 - j))
  {
    forall j | 0 <= j < 8
      ensures (EncodeChannel(value)[j] == HighBit <==> Bit(value, 7 - j)) &&
              (EncodeChannel(value)[j] == LowBit <==> !Bit(value, 7 - j))
    {
      ShiftTestIsBit(value, j);
    }
  }

  /** Byte `8k + j` of a real pixel's slot (k = 0 green, 1 red, 2 blue) is
      `HighBit` exactly when bit `7 - j` of that channel is set, else `LowBit`. */
  lemma SlotLayout(leds: seq<Pixel>, c: nat, k: nat, j: nat)
    requires IsStrip(leds)
    requires c < LedCount && k < 3 && j < 8
    ensures SlotSymbols(leds, c)[8 * k + j] == Symbol(Bit(WireChannel(leds[c], k), 7 - j))
  {
    ShiftTestIsBit(WireChannel(leds[c], k), j);
  }

  /** A full-intensity channel is eight `HighBit` symbols; a dark one eight `LowBit` symbols. */
  lemma SaturatedChannels()
    ensures EncodeChannel(255) == seq(8, _ => HighBit)
    ensures EncodeChannel(0) == seq(8, _ => LowBit)
  {
    Pow2Values();
    forall j | 0 <= j < 8
      ensures ShiftTest(255, j) && !ShiftTest(0, j)
    {
      ShiftLeftIsProduct(255, j);
      ShiftLeftIsProduct(0, j);
      if j == 0 {
      } else if j == 1 {
      } else if j == 2 {
      } else if j == 3 {
      } else if j == 4 {
      } else if j == 5 {
      } else if j == 6 {
      } else {
      }
    }
  }

  /** The first `k` symbols of a channel spell the channel's top `k` bits. */
  lemma {:induction false} PrefixValue(value: byte, k: nat)
    requires k <= 8
    ensures BitsValue(EncodeChannel(value)[..k]) == value / Pow2(8 - k)
  {
    Pow2Values();
    var s := EncodeChannel(value);
    if k > 0 {
      PrefixValue(value, k - 1);
      assert s[..k][..k - 1] == s[..k - 1];
      ShiftTestIsBit(value, k - 1);
      HalvingStep(value, k - 1);
    }
  }

  /** Decoding a channel's symbols gives the channel back. */
  lemma ChannelRoundTrip(value: byte)
    ensures DecodeChannel(EncodeChannel(value)) == Some(value)
  {
    var s := EncodeChannel(value);
    EncodeChannelBits(value);
    PrefixValue(value, 8);
    assert s[..8] == s;
  }

  /** Two symbol sequences of one length that spell the same number are equal. */
  lemma {:induction false} BitsInjective(s: seq<byte>, t: seq<byte>)
    requires |s| == |t| && AllSymbols(s) && AllSymbols(t)
    requires BitsValue(s) == BitsValue(t)
    ensures s == t
  {
    if |s| > 0 {
      var n := |s| - 1;
      BitsInjective(s[..n], t[..n]);
      assert s == s[..n] + [s[n]];
      assert t == t[..n] + [t[n]];
    }
  }

  /** Channel encoding and decoding are inverse: `s` decodes to `value` exactly
      when `s` is the encoding of `value`. */
  lemma ChannelCodec(value: byte, s: seq<byte>)
    ensures DecodeChannel(s) == Some(value) <==> s == EncodeChannel(value)
  {
    ChannelRoundTrip(value);
    if DecodeChannel(s) == Some(value) {
      BitsInjective(s, EncodeChannel(value));
    }
  }

  /** Pixel encoding and decoding are inverse: a 24-symbol slot decodes to `p`
      exactly when it is the green-red-blue encoding of `p`. */
  lemma PixelCodec(p: Pixel, s: seq<byte>)
    ensures DecodeSlot(s) == Some(p) <==> s == EncodePixel(p)
  {
    var e := EncodePixel(p);
    assert e[..8] == EncodeChannel(p.green);
    assert e[8..16] == EncodeChannel(p.red);
    assert e[16..] == EncodeChannel(p.blue);
    ChannelCodec(p.green, e[..8]);
    ChannelCodec(p.red, e[8..16]);
    ChannelCodec(p.blue, e[16..]);
    if DecodeSlot(s) == Some(p) {
      ChannelCodec(p.green, s[..8]);
      ChannelCodec(p.red, s[8..16]);
      ChannelCodec(p.blue, s[16..]);
      assert s == s[..8] + s[8..16] + s[16..];
    }
  }

  /** Decoding the slot of a real pixel gives that pixel back in (red, green,
      blue) form; a trailing reset slot does not decode, reads no pixel, and is
      the same whatever the pixel store holds. */
  lemma SlotRoundTrip(leds: seq<Pixel>, other: seq<Pixel>, c: nat)
    requires IsStrip(leds) && IsStrip(other)
    ensures c < LedCount ==> DecodeSlot(SlotSymbols(leds, c)) == Some(leds[c])
    ensures c >= LedCount ==> DecodeSlot(SlotSymbols(leds, c)) == None
    ensures c >= LedCount ==> SlotSymbols(leds, c) == SlotSymbols(other, c)
    ensures c >= LedCount ==> forall i :: 0 <= i < SymbolsPerSlot ==> SlotSymbols(leds, c)[i] == 0
  {
    if c < LedCount {
      PixelCodec(leds[c], SlotSymbols(leds, c));
    } else {
      assert !IsSymbol(SlotSymbols(leds, c)[0]);
    }
  }

  /** A pixel written with `SetLed` is sent as the gamma-corrected colour. */
  lemma SetLedIsSent(leds: seq<Pixel>, index: nat, red: byte, green: byte, blue: byte)
    requires IsStrip(leds)
    requires index < LedCount
    ensures DecodeSlot(SlotSymbols(SetLed(leds, index, red, green, blue), index)) ==
            Some(Pixel(Gamma.Correct(red), Gamma.Correct(green), Gamma.Correct(blue)))
  {
    var after := SetLed(leds, index, red, green, blue);
    SlotRoundTrip(after, after, index);
  }

  /** A cleared strip sends `LowBit` for every real-pixel symbol and zero for
      every reset symbol. */
  lemma ClearedStripSymbols(leds: seq<Pixel>, pos: nat)
    requires IsStrip(leds)
    ensures pos < SymbolsPerSlot * LedCount ==> FrameSymbol(ClearAll(leds), pos) == LowBit
    ensures pos >= SymbolsPerSlot * LedCount ==> FrameSymbol(ClearAll(leds), pos) == ResetSymbol
  {
    var cleared := ClearAll(leds);
    var c := pos / SymbolsPerSlot;
    FrameSymbolOfSlot(cleared, c, pos % SymbolsPerSlot, pos);
    if c < LedCount {
      assert cleared[c] == Pixel(0, 0, 0);
      SaturatedChannels();
      assert EncodePixel(cleared[c]) == seq(SymbolsPerSlot, _ => LowBit);
    }
  }

  // ---------------------------------------------------------------------------
  // Filling one half of the transfer buffer
  // ---------------------------------------------------------------------------

  /** `buffer` with `block` written from byte `at` on. */
  function Overwrite(buffer: seq<byte>, at: nat, block: seq<byte>): (r: seq<byte>)
    requires at + |block| <= |buffer|
    ensures |r| == |buffer|
    ensures forall k :: 0 <= k < |r| ==>
              r[k] == if at <= k < at + |block| then block[k - at] else buffer[k]
  {
    buffer[..at] + block + buffer[at + |block|..]
  }

  /** Frame symbol `24 c + i` is symbol `i` of slot `c`. */
  lemma FrameSymbolOfSlot(leds: seq<Pixel>, c: nat, i: nat, pos: nat)
    requires IsStrip(leds)
    requires i < SymbolsPerSlot && pos == SymbolsPerSlot * c + i
    ensures FrameSymbol(leds, pos) == SlotSymbols(leds, c)[i]
  {
    StreamSkipsSlots(leds, 0, c, i);
  }

  /** Skipping `m` whole slots of the stream from `d` lands on slot `d + m`. */
  lemma {:induction false} StreamSkipsSlots(leds: seq<Pixel>, d: nat, m: nat, i: nat)
    requires IsStrip(leds)
    requires i < SymbolsPerSlot
    ensures StreamSymbol(leds, d, 24 * m + i) == SlotSymbols(leds, d + m)[i]
    decreases m
  {
    if m > 0 {
      var pos := 24 * m + i;
      assert pos - SymbolsPerSlot == 24 * (m - 1) + i;
      StreamStep(leds, d, pos);
      StreamSkipsSlots(leds, d + 1, m - 1, i);
    }
  }

  /** Past the first slot, the stream from `c` continues as the stream from `c + 1`. */
  lemma StreamStep(leds: seq<Pixel>, c: nat, pos: nat)
    requires IsStrip(leds)
    requires pos >= SymbolsPerSlot
    ensures StreamSymbol(leds, c, pos) == StreamSymbol(leds, c + 1, pos - SymbolsPerSlot)
  {
  }

  /** `slots` consecutive slots from cursor `cursor`, written from byte `offset`:
      the reference meaning of a refill. */
  function Fill(dma: seq<byte>, leds: seq<Pixel>, cursor: nat, slots: nat, offset: nat): (r: seq<byte>)
    requires IsStrip(leds)
    requires offset + SymbolsPerSlot * slots <= |dma|
    ensures |r| == |dma|
    ensures forall k :: 0 <= k < |dma| && !(offset <= k < offset + SymbolsPerSlot * slots) ==>
              r[k] == dma[k]
    ensures forall k :: offset <= k < offset + SymbolsPerSlot * slots ==>
              r[k] == FrameSymbol(leds, SymbolsPerSlot * cursor + (k - offset))
    decreases slots
  {
    if slots == 0 then dma
    else
      var written := Overwrite(dma, offset, SlotSymbols(leds, cursor));
      var r := Fill(written, leds, cursor + 1, slots - 1, offset + SymbolsPerSlot);
      FillFirstSlot(dma, leds, cursor, slots, offset, r);
      r
  }

  /** One step of `Fill`: what the remaining slots leave behind, once the first
      slot is written, is what the whole fill promises. */
  lemma FillFirstSlot(dma: seq<byte>, leds: seq<Pixel>, cursor: nat, slots: nat, offset: nat, r: seq<byte>)
    requires IsStrip(leds)
    requires 0 < slots && offset + SymbolsPerSlot * slots <= |dma|
    requires var written := Overwrite(dma, offset, SlotSymbols(leds, cursor));
             && |r| == |dma|
             && (forall k :: 0 <= k < |dma| && !(offset + SymbolsPerSlot <= k < offset + SymbolsPerSlot * slots) ==>
                   r[k] == written[k])
             && (forall k :: offset + SymbolsPerSlot <= k < offset + SymbolsPerSlot * slots ==>
                   r[k] == FrameSymbol(leds, SymbolsPerSlot * (cursor + 1) + (k - (offset + SymbolsPerSlot))))
    ensures forall k :: 0 <= k < |dma| && !(offset <= k < offset + SymbolsPerSlot * slots) ==>
              r[k] == dma[k]
    ensures forall k :: offset <= k < offset + SymbolsPerSlot * slots ==>
              r[k] == FrameSymbol(leds, SymbolsPerSlot * cursor + (k - offset))
  {
    var written := Overwrite(dma, offset, SlotSymbols(leds, cursor));
    forall k | offset <= k < offset + SymbolsPerSlot * slots
      ensures r[k] == FrameSymbol(leds, SymbolsPerSlot * cursor + (k - offset))
    {
      if k < offset + SymbolsPerSlot {
        FrameSymbolOfSlot(leds, cursor, k - offset, SymbolsPerSlot * cursor + (k - offset));
      } else {
        assert SymbolsPerSlot * (cursor + 1) + (k - (offset + SymbolsPerSlot))
            == SymbolsPerSlot * cursor + (k - offset);
      }
    }
  }

  /** One `for (j = 0; j < 8; j++)` loop: eight channel symbols from byte `at`. */
  method WriteChannel(buffer: seq<byte>, at: nat, value: byte) returns (r: seq<byte>)
    requires at + 8 <= |buffer|
    ensures r == Overwrite(buffer, at, EncodeChannel(value))
  {
    r := buffer;
    var j := 0;
    while j < 8
      invariant 0 <= j <= 8
      invariant |r| == |buffer|
      invariant forall k :: 0 <= k < |r| ==>
                  r[k] == if at <= k < at + j then EncodeChannel(value)[k - at] else buffer[k]
    {
      r := r[at + j := if ShiftTest(value, j) then HighBit else LowBit];
      j := j + 1;
    }
  }

  /** The reset branch: 24 zero bytes from byte `at`. */
  method WriteResetSlot(buffer: seq<byte>, at: nat) returns (r: seq<byte>)
    requires at + SymbolsPerSlot <= |buffer|
    ensures r == Overwrite(buffer, at, ResetSlot())
  {
    r := buffer;
    var j := 0;
    while j < SymbolsPerSlot
      invariant 0 <= j <= SymbolsPerSlot
      invariant |r| == |buffer|
      invariant forall k :: 0 <= k < |r| ==>
                  r[k] == if at <= k < at + j then ResetSymbol else buffer[k]
    {
      r := r[at + j := 0];
      j := j + 1;
    }
  }

  /** The green, red and blue loops together write the pixel's 24 symbols. */
  lemma ChannelWritesMakePixel(buffer: seq<byte>, at: nat, p: Pixel)
    requires at + SymbolsPerSlot <= |buffer|
    ensures Overwrite(Overwrite(Overwrite(buffer, at, EncodeChannel(p.green)),
                                at + 8, EncodeChannel(p.red)),
                      at + 16, EncodeChannel(p.blue))
            == Overwrite(buffer, at, EncodePixel(p))
  {
  }

  /** Loop state of the fill after `i` slots: bytes before `offset` and from
      `offset + 24 i` on are untouched, the bytes in between hold the frame
      symbols of slots `cursor .. cursor + i`. */
  predicate FilledUpTo(buffer: seq<byte>, dma: seq<byte>, leds: seq<Pixel>, cursor: nat, offset: nat, i: nat)
    requires IsStrip(leds)
  {
    && |buffer| == |dma|
    && offset + SymbolsPerSlot * i <= |dma|
    && (forall k :: 0 <= k < |dma| && !(offset <= k < offset + SymbolsPerSlot * i) ==> buffer[k] == dma[k])
    && (forall k :: offset <= k < offset + SymbolsPerSlot * i ==>
          buffer[k] == FrameSymbol(leds, SymbolsPerSlot * cursor + (k - offset)))
  }

  /** Writing slot `i` of a fill produces the frame symbols of slot `cursor + i`. */
  lemma NewSlotSymbols(buffer: seq<byte>, leds: seq<Pixel>, cursor: nat, offset: nat, i: nat)
    requires IsStrip(leds)
    requires offset + SymbolsPerSlot * (i + 1) <= |buffer|
    ensures var at := offset + SymbolsPerSlot * i;
            var after := Overwrite(buffer, at, SlotSymbols(leds, cursor + i));
            forall k :: at <= k < at + SymbolsPerSlot ==>
              after[k] == FrameSymbol(leds, SymbolsPerSlot * cursor + (k - offset))
  {
    var at := offset + SymbolsPerSlot * i;
    var after := Overwrite(buffer, at, SlotSymbols(leds, cursor + i));
    forall k | at <= k < at + SymbolsPerSlot
      ensures after[k] == FrameSymbol(leds, SymbolsPerSlot * cursor + (k - offset))
    {
      FrameSymbolOfSlot(leds, cursor + i, k - at, SymbolsPerSlot * cursor + (k - offset));
    }
  }

  lemma FilledUpToStep(buffer: seq<byte>, dma: seq<byte>, leds: seq<Pixel>, cursor: nat, offset: nat, i: nat)
    requires IsStrip(leds)
    requires offset + SymbolsPerSlot * (i + 1) <= |dma|
    requires FilledUpTo(buffer, dma, leds, cursor, offset, i)
    ensures FilledUpTo(Overwrite(buffer, offset + SymbolsPerSlot * i, SlotSymbols(leds, cursor + i)),
                       dma, leds, cursor, offset, i + 1)
  {
    var at := offset + SymbolsPerSlot * i;
    var after := Overwrite(buffer, at, SlotSymbols(leds, cursor + i));
    NewSlotSymbols(buffer, leds, cursor, offset, i);
    assert offset + SymbolsPerSlot * (i + 1) == at + SymbolsPerSlot;
    assert forall k :: 0 <= k < |dma| && !(at <= k < at + SymbolsPerSlot) ==> after[k] == buffer[k];
  }

  lemma FilledUpToIsFill(buffer: seq<byte>, dma: seq<byte>, leds: seq<Pixel>, cursor: nat, offset: nat, slots: nat)
    requires IsStrip(leds)
    requires offset + SymbolsPerSlot * slots <= |dma|
    requires FilledUpTo(buffer, dma, leds, cursor, offset, slots)
    ensures buffer == Fill(dma, leds, cursor, slots, offset)
  {
    var expected := Fill(dma, leds, cursor, slots, offset);
    assert forall k :: 0 <= k < |dma| ==> buffer[k] == expected[k];
  }

  /** `wsled_fill_led_DMA_buffer(length, offset)` on an explicit buffer and
      cursor: `length / 48` slots, each either a pixel (green, red, blue loops)
      or, once the cursor has reached `LedCount`, a reset slot. */
  method FillLedDmaBuffer(dma: seq<byte>, leds: seq<Pixel>, cursor: nat, length: nat, offset: nat)
    returns (buffer: seq<byte>, next: nat)
    requires IsStrip(leds)
    requires offset + SymbolsPerSlot * (length / 48) <= |dma|
    ensures next == cursor + length / 48
    ensures buffer == Fill(dma, leds, cursor, length / 48, offset)
  {
    var slots := length / 48;
    buffer := dma;
    next := cursor;
    var at := offset;
    var i := 0;
    while i < slots
      invariant 0 <= i <= slots
      invariant at == offset + SymbolsPerSlot * i
      invariant next == cursor + i
      invariant FilledUpTo(buffer, dma, leds, cursor, offset, i)
    {
      ghost var before := buffer;
      if next >= LedCount {
        buffer := WriteResetSlot(buffer, at);
      } else {
        buffer := WriteChannel(buffer, at, leds[next].green);
        buffer := WriteChannel(buffer, at + 8, leds[next].red);
        buffer := WriteChannel(buffer, at + 16, leds[next].blue);
        ChannelWritesMakePixel(before, at, leds[next]);
      }
      FilledUpToStep(before, dma, leds, cursor, offset, i);
      at := at + SymbolsPerSlot;
      next := next + 1;
      i := i + 1;
    }
    FilledUpToIsFill(buffer, dma, leds, cursor, offset, slots);
  }
}
