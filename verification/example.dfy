/**
 The pixel indices the example program's sweep loops pass to `wsled_set_led`.
 The forward loop counts up from 0; the reverse loop, as written, counts down
 from `LED_COUNT` while the index stays positive.
 */
module ExampleSweep {
  import opened WsLedConfig

  /** `LED_COUNT` of the example program, the same 60 as the driver's N. */
  const ExampleLedCount: nat := 60

  /** The indices of `for (i = start; i > 0; i--)`, in the order visited. */
  function CountDownAbove(start: int): (s: seq<int>)
    decreases start
  {
    if start > 0 then [start] + CountDownAbove(start - 1) else []
  }

  /** The indices of `for (i = start; i >= 0; i--)`, in the order visited. */
  function CountDownFrom(start: int): (s: seq<int>)
    decreases start + 1
  {
    if start >= 0 then [start] + CountDownFrom(start - 1) else []
  }

  /** The `i > 0` loop visits exactly the indices 1 .. start, each once. */
  lemma {:induction false} CountDownAboveVisits(start: int, i: int)
    ensures |CountDownAbove(start)| == if start > 0 then start else 0
    ensures i in CountDownAbove(start) <==> 0 < i <= start
    decreases start
  {
    if start > 0 {
      CountDownAboveVisits(start - 1, i);
    }
  }

  /** The `i >= 0` loop visits exactly the indices 0 .. start, each once. */
  lemma {:induction false} CountDownFromVisits(start: int, i: int)
    ensures |CountDownFrom(start)| == if start >= 0 then start + 1 else 0
    ensures i in CountDownFrom(start) <==> 0 <= i <= start
    decreases start + 1
  {
    if start >= 0 {
      CountDownFromVisits(start - 1, i);
    }
  }

  /** The reverse loop as written, from `LED_COUNT` while `i > 0`: its first
      index is N, one row past the pixel store, so the call breaks `SetLed`'s
      precondition; and pixel 0 is never set. */
  lemma ReverseSweepAsWritten()
    ensures |CountDownAbove(ExampleLedCount)| == LedCount
    ensures CountDownAbove(ExampleLedCount)[0] == LedCount
    ensures !(CountDownAbove(ExampleLedCount)[0] < LedCount)
    ensures 0 !in CountDownAbove(ExampleLedCount)
  {
    CountDownAboveVisits(ExampleLedCount, 0);
  }

  /** The reverse loop as intended, from `LED_COUNT - 1` while `i >= 0`: it
      sets every pixel of the strip and no index outside it, like the forward
      loop in the opposite order. */
  lemma ReverseSweepCorrected(i: int)
    ensures |CountDownFrom(ExampleLedCount - 1)| == LedCount
    ensures i in CountDownFrom(ExampleLedCount - 1) <==> 0 <= i < LedCount
  {
    CountDownFromVisits(ExampleLedCount - 1, i);
  }
}
