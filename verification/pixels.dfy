/**
 The pixel store, `led_buffer[N][3]` of wsled.c, and the three operations that
 write it. A strip is a sequence of `LedCount` pixels.
 */
module PixelStore {
  import opened WsLedConfig
  import Gamma

  /** One row of `led_buffer`: slot 0 is red, slot 1 green, slot 2 blue. */
  datatype Pixel = Pixel(red: byte, green: byte, blue: byte)

  const Black: Pixel := Pixel(0, 0, 0)

  /** A pixel store of the configured size. */
  predicate IsStrip(leds: seq<Pixel>) {
    |leds| == LedCount
  }

  /** The value `wsled_set_led` finally leaves in a slot for channel input `v`:
      the gamma branch when `USE_GAMMA_CORRECTION` is defined, `v` otherwise. */
  function Stored(v: byte): (r: byte)
    ensures UseGammaCorrection ==> r == Gamma.Correct(v)
  {
    if UseGammaCorrection then Gamma.Correct(v) else v
  }

  /** `wsled_set_led(index, red, green, blue)`. */
  function SetLed(leds: seq<Pixel>, index: nat, red: byte, green: byte, blue: byte): (r: seq<Pixel>)
    requires IsStrip(leds)
    requires index < LedCount
    ensures IsStrip(r)
    ensures r[index].red == Gamma.Correct(red)
    ensures r[index].green == Gamma.Correct(green)
    ensures r[index].blue == Gamma.Correct(blue)
    ensures forall j :: 0 <= j < |r| && j != index ==> r[j] == leds[j]
  {
    leds[index := Pixel(Stored(red), Stored(green), Stored(blue))]
  }

  /** `wsled_clear_led(index)`. */
  function ClearLed(leds: seq<Pixel>, index: nat): (r: seq<Pixel>)
    requires IsStrip(leds)
    requires index < LedCount
    ensures IsStrip(r)
    ensures r[index].red == 0 && r[index].green == 0 && r[index].blue == 0
    ensures forall j :: 0 <= j < |r| && j != index ==> r[j] == leds[j]
  {
    leds[index := Black]
  }

  /** The first `count` iterations of the loop of `wsled_clear_all`: pixels
      below `count` are black, the others are as they were. */
  function ClearFirst(leds: seq<Pixel>, count: nat): (r: seq<Pixel>)
    requires IsStrip(leds)
    requires count <= LedCount
    ensures IsStrip(r)
    ensures forall j :: 0 <= j < count ==> r[j] == Black
    ensures forall j :: count <= j < |r| ==> r[j] == leds[j]
    decreases count
  {
    if count == 0 then leds else ClearLed(ClearFirst(leds, count - 1), count - 1)
  }

  /** `wsled_clear_all`: the loop runs over every one of the N rows. */
  function ClearAll(leds: seq<Pixel>): (r: seq<Pixel>)
    requires IsStrip(leds)
    ensures IsStrip(r)
    ensures forall j :: 0 <= j < |r| ==>
              r[j].red == 0 && r[j].green == 0 && r[j].blue == 0
  {
    ClearFirst(leds, LedCount)
  }

  /** Clearing every pixel forgets the previous contents entirely. */
  lemma ClearAllForgets(a: seq<Pixel>, b: seq<Pixel>)
    requires IsStrip(a) && IsStrip(b)
    ensures ClearAll(a) == ClearAll(b)
  {
    assert forall j :: 0 <= j < LedCount ==> ClearAll(a)[j] == Black == ClearAll(b)[j];
  }

  /** A pixel written by `SetLed` is fully replaced by a later `ClearLed` of the same index. */
  lemma ClearLedUndoesSetLed(leds: seq<Pixel>, index: nat, red: byte, green: byte, blue: byte)
    requires IsStrip(leds)
    requires index < LedCount
    ensures ClearLed(SetLed(leds, index, red, green, blue), index) == ClearLed(leds, index)
  {
  }
}
