/**
 The 256-entry gamma correction table of wsled.c: perceptual brightness
 correction, applied to each channel when it is stored.
 */
module Gamma {
  import opened WsLedConfig

  /** The lookup table, one output byte per input byte, in the order of the
      source table. The source has one flat array; the pairwise nesting of
      its sixteen rows here only keeps each entry a few concatenations deep
      for the verifier. */
  const Table: seq<byte> :=
    (
      (
        (
          (
            [  0,   0,   0,   0,   0,   0,   0,   0,   0,   0,   0,   0,   0,   0,   0,   0] +
            [  0,   0,   0,   0,   0,   0,   0,   0,   0,   0,   0,   0,   1,   1,   1,   1]
          ) +
          (
            [  1,   1,   1,   1,   1,   1,   1,   1,   1,   2,   2,   2,   2,   2,   2,   2] +
            [  2,   3,   3,   3,   3,   3,   3,   3,   4,   4,   4,   4,   4,   5,   5,   5]
          )
        ) +
        (
          (
            [  5,   6,   6,   6,   6,   7,   7,   7,   7,   8,   8,   8,   9,   9,   9,  10] +
            [ 10,  10,  11,  11,  11,  12,  12,  13,  13,  13,  14,  14,  15,  15,  16,  16]
          ) +
          (
            [ 17,  17,  18,  18,  19,  19,  20,  20,  21,  21,  22,  22,  23,  24,  24,  25] +
            [ 25,  26,  27,  27,  28,  29,  29,  30,  31,  32,  32,  33,  34,  35,  35,  36]
          )
        )
      ) +
      (
        (
          (
            [ 37,  38,  39,  39,  40,  41,  42,  43,  44,  45,  46,  47,  48,  49,  50,  50] +
            [ 51,  52,  54,  55,  56,  57,  58,  59,  60,  61,  62,  63,  64,  66,  67,  68]
          ) +
          (
            [ 69,  70,  72,  73,  74,  75,  77,  78,  79,  81,  82,  83,  85,  86,  87,  89] +
            [ 90,  92,  93,  95,  96,  98,  99, 101, 102, 104, 105, 107, 109, 110, 112, 114]
          )
        ) +
        (
          (
            [115, 117, 119, 120, 122, 124, 126, 127, 129, 131, 133, 135, 137, 138, 140, 142] +
            [144, 146, 148, 150, 152, 154, 156, 158, 160, 162, 164, 167, 169, 171, 173, 175]
          ) +
          (
            [177, 180, 182, 184, 186, 189, 191, 193, 196, 198, 200, 203, 205, 208, 210, 213] +
            [215, 218, 220, 223, 225, 228, 231, 233, 236, 239, 241, 244, 247, 249, 252, 255]
          )
        )
      )
    )

  /** `gamma_correction[v]`: never brightens a channel, keeps black and full intensity. */
  function Correct(v: byte): (r: byte)
    ensures r <= v
    ensures v == 0 ==> r == 0
    ensures v == 255 ==> r == 255
  {
    EntryShape(v);
    EntryShape(0);
    EntryShape(255);
    Table[v]
  }

  /** Entry `i` is at most its index and at most its successor. */
  predicate WellShapedAt(i: nat)
    requires i < |Table|
  {
    Table[i] <= i && (i + 1 < |Table| ==> Table[i] <= Table[i + 1])
  }

  // The sixteen `TableBlock` lemmas, the four `QuarterShape` lemmas and
  // `EntryShape` have no counterpart in the source: they split the check of
  // the 256 literal entries into pieces small enough for the verifier.

  lemma TableBlock0()
    ensures forall i :: 0 <= i < 16 ==> WellShapedAt(i)
  {
  }

  lemma TableBlock1()
    ensures forall i :: 16 <= i < 32 ==> WellShapedAt(i)
  {
  }

  lemma TableBlock2()
    ensures forall i :: 32 <= i < 48 ==> WellShapedAt(i)
  {
  }

  lemma TableBlock3()
    ensures forall i :: 48 <= i < 64 ==> WellShapedAt(i)
  {
  }

  lemma TableBlock4()
    ensures forall i :: 64 <= i < 80 ==> WellShapedAt(i)
  {
  }

  lemma TableBlock5()
    ensures forall i :: 80 <= i < 96 ==> WellShapedAt(i)
  {
  }

  lemma TableBlock6()
    ensures forall i :: 96 <= i < 112 ==> WellShapedAt(i)
  {
  }

  lemma TableBlock7()
    ensures forall i :: 112 <= i < 128 ==> WellShapedAt(i)
  {
  }

  lemma TableBlock8()
    ensures forall i :: 128 <= i < 144 ==> WellShapedAt(i)
  {
  }

  lemma TableBlock9()
    ensures forall i :: 144 <= i < 160 ==> WellShapedAt(i)
  {
  }

  lemma TableBlock10()
    ensures forall i :: 160 <= i < 176 ==> WellShapedAt(i)
  {
  }

  lemma TableBlock11()
    ensures forall i :: 176 <= i < 192 ==> WellShapedAt(i)
  {
  }

  lemma TableBlock12()
    ensures forall i :: 192 <= i < 208 ==> WellShapedAt(i)
  {
  }

  lemma TableBlock13()
    ensures forall i :: 208 <= i < 224 ==> WellShapedAt(i)
  {
  }

  lemma TableBlock14()
    ensures forall i :: 224 <= i < 240 ==> WellShapedAt(i)
  {
  }

  lemma TableBlock15()
    ensures forall i :: 240 <= i < 256 ==> WellShapedAt(i)
  {
  }

  lemma QuarterShape0(i: nat)
    requires 0 <= i < 64
    ensures WellShapedAt(i)
  {
    TableBlock0();
    TableBlock1();
    TableBlock2();
    TableBlock3();
  }

  lemma QuarterShape1(i: nat)
    requires 64 <= i < 128
    ensures WellShapedAt(i)
  {
    TableBlock4();
    TableBlock5();
    TableBlock6();
    TableBlock7();
  }

  lemma QuarterShape2(i: nat)
    requires 128 <= i < 192
    ensures WellShapedAt(i)
  {
    TableBlock8();
    TableBlock9();
    TableBlock10();
    TableBlock11();
  }

  lemma QuarterShape3(i: nat)
    requires 192 <= i < 256
    ensures WellShapedAt(i)
  {
    TableBlock12();
    TableBlock13();
    TableBlock14();
    TableBlock15();
  }

  /** Entry `i` is at most `i` and at most entry `i + 1`. */
  lemma EntryShape(i: nat)
    requires i < 256
    ensures |Table| == 256
    ensures Table[i] <= i
    ensures i < 255 ==> Table[i] <= Table[i + 1]
  {
    if i < 64 {
      QuarterShape0(i);
    } else if i < 128 {
      QuarterShape1(i);
    } else if i < 192 {
      QuarterShape2(i);
    } else {
      QuarterShape3(i);
    }
  }

  /** The table has 256 entries, none above its index, and neighbours never decrease. */
  lemma TableShape()
    ensures |Table| == 256
    ensures forall i :: 0 <= i < 256 ==> Table[i] <= i
    ensures forall i :: 0 <= i < 255 ==> Table[i] <= Table[i + 1]
  {
    forall i | 0 <= i < 256
      ensures Table[i] <= i && (i < 255 ==> Table[i] <= Table[i + 1])
    {
      EntryShape(i);
    }
  }

  /** Entries never decrease from a lower index to a higher one. */
  lemma {:induction false} TableMonotonic(a: nat, b: nat)
    requires a <= b < 256
    ensures |Table| == 256
    ensures Table[a] <= Table[b]
    decreases b - a
  {
    EntryShape(b);
    if a < b {
      EntryShape(b - 1);
      TableMonotonic(a, b - 1);
    }
  }

  /** The correction is monotonic: a brighter input is never stored darker. */
  lemma CorrectMonotonic(a: byte, b: byte)
    requires a <= b
    ensures Correct(a) <= Correct(b)
  {
    TableMonotonic(a, b);
  }
}
