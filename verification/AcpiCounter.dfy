/** The 24-bit ACPI timer extended to 64 bits at every read, and its conversion to the unit of the host's counter. */
module AcpiCounter {

  const TWO_24 := 0x100_0000
  const TWO_63 := 0x8000_0000_0000_0000
  const TWO_64 := 0x1_0000_0000_0000_0000
  /** 3.579545 MHz. */
  const TICK_ACPI := 0x369E99

  /** The running value after reading t: a smaller reading than the last one means the counter wrapped. */
  function Extended(run: nat, t: nat): nat
    requires t < TWO_24
  {
    if run % TWO_24 > t then (run / TWO_24 + 1) * TWO_24 + t else run / TWO_24 * TWO_24 + t
  }

  /** Exactly for reads less than one wrap apart, the running value advances by the true number of ticks. */
  lemma AdvancesByElapsed(run: nat, x: nat, x': nat)
    requires x <= x' && run % TWO_24 == x % TWO_24
    ensures Extended(run, x' % TWO_24) % TWO_24 == x' % TWO_24
    ensures Extended(run, x' % TWO_24) == run + (x' - x) % TWO_24
    ensures Extended(run, x' % TWO_24) - run == x' - x <==> x' - x < TWO_24
  {
    var q, q', r, r' := x / TWO_24, x' / TWO_24, x % TWO_24, x' % TWO_24;
    assert x == TWO_24 * q + r && x' == TWO_24 * q' + r';
    assert run == TWO_24 * (run / TWO_24) + r;
  }

  /** The values of a run of reads of the true tick counts xs. */
  function Reads(run: nat, xs: seq<nat>): nat {
    if xs == [] then run else Extended(Reads(run, xs[..|xs| - 1]), xs[|xs| - 1] % TWO_24)
  }

  /** The true tick count before read k. */
  function Before(first: nat, xs: seq<nat>, k: nat): nat
    requires k <= |xs|
  {
    if k == 0 then first else xs[k - 1]
  }

  ghost predicate LessThanAWrapApart(first: nat, xs: seq<nat>) {
    forall k | 0 <= k < |xs| :: Before(first, xs, k) <= xs[k] < Before(first, xs, k) + TWO_24
  }

  /** Across any number of reads and wraps no tick is lost and none counted twice. */
  lemma {:induction false} NoTickLost(run: nat, first: nat, xs: seq<nat>)
    requires run % TWO_24 == first % TWO_24 && LessThanAWrapApart(first, xs)
    ensures Reads(run, xs) == run + (Before(first, xs, |xs|) - first)
    ensures Reads(run, xs) % TWO_24 == Before(first, xs, |xs|) % TWO_24
  {
    hide Extended;
    if xs != [] {
      var n := |xs| - 1;
      assert forall k | 0 <= k <= n :: Before(first, xs[..n], k) == Before(first, xs, k);
      NoTickLost(run, first, xs[..n]);
      AdvancesByElapsed(Reads(run, xs[..n]), Before(first, xs, n), xs[n]);
    }
  }

  // The conversion, in signed 64-bit arithmetic that truncates.

  function Wrap64(x: int): int {
    (x + TWO_63) % TWO_64 - TWO_63
  }

  function TruncDiv(x: int, d: nat): int
    requires d > 0
  {
    if x >= 0 then x / d else -(-x / d)
  }

  function Counter(run: nat, freq: nat, offset: int): int {
    TruncDiv(Wrap64(run * freq), TICK_ACPI) - offset
  }

  lemma SmallProductUnchanged(x: int)
    requires 0 <= x < TWO_63
    ensures Wrap64(x) == x
  {
  }

  lemma LargeProductNegative(x: int)
    requires TWO_63 <= x < TWO_64
    ensures Wrap64(x) == x - TWO_64
  {
    assert x + TWO_63 == TWO_64 * 1 + (x - TWO_63);
  }

  lemma QuotientMonotone(a: nat, b: nat)
    requires a <= b
    ensures a / TICK_ACPI <= b / TICK_ACPI
  {
  }

  lemma ProductMonotone(a: nat, b: nat, n: nat)
    requires a <= b
    ensures 0 <= a * n <= b * n
  {
  }

  /** While the product fits, 3579545 ticks are a second of the host's counter. */
  lemma SecondsCount(run: nat, n: nat, freq: nat, offset: int)
    requires (run + n * 3_579_545) * freq < TWO_63
    ensures Counter(run + n * 3_579_545, freq, offset) == Counter(run, freq, offset) + n * freq
    ensures Counter(0, freq, offset) == -offset
  {
    hide Wrap64;
    ProductMonotone(run, run + n * 3_579_545, freq);
    ProductMonotone(0, run, freq);
    SmallProductUnchanged(run * freq);
    SmallProductUnchanged((run + n * 3_579_545) * freq);
    SmallProductUnchanged(0);
    WholeSeconds(run, n, freq);
  }

  lemma WholeSeconds(run: nat, n: nat, freq: nat)
    ensures (run + n * 3_579_545) * freq / TICK_ACPI == run * freq / TICK_ACPI + n * freq
  {
    var q, r := run * freq / TICK_ACPI, run * freq % TICK_ACPI;
    assert (run + n * 3_579_545) * freq == run * freq + 3_579_545 * (n * freq);
    assert run * freq == TICK_ACPI * q + r;
  }

  /** While the product fits, the converted value never decreases. */
  lemma NeverGoesBack(run: nat, run': nat, freq: nat, offset: int)
    requires run <= run' && run' * freq < TWO_63
    ensures Counter(run, freq, offset) <= Counter(run', freq, offset)
  {
    hide Wrap64;
    ProductMonotone(run, run', freq);
    SmallProductUnchanged(run * freq);
    SmallProductUnchanged(run' * freq);
    QuotientMonotone(run * freq, run' * freq);
  }

  /** The first values past the end of the product's range do go back: from there to a counter step before the whole
      range is used up again, the converted value is below every value before. */
  lemma GoesBackOnOverflow(run: nat, run': nat, freq: nat, offset: int)
    requires run * freq < TWO_63 <= run' * freq <= TWO_64 - TICK_ACPI
    ensures Counter(run', freq, offset) < Counter(run, freq, offset)
  {
    hide Wrap64;
    ProductMonotone(0, run, freq);
    SmallProductUnchanged(run * freq);
    LargeProductNegative(run' * freq);
    QuotientMonotone(TICK_ACPI, TWO_64 - run' * freq);
  }

  /** Until the range is nearly used up a second time, the converted value does not decrease exactly while the product fits. */
  lemma GoesBackExactly(run: nat, run': nat, freq: nat, offset: int)
    requires run <= run' && run * freq < TWO_63 && run' * freq <= TWO_64 - TICK_ACPI
    ensures Counter(run, freq, offset) <= Counter(run', freq, offset) <==> run' * freq < TWO_63
  {
    hide Counter;
    if run' * freq < TWO_63 {
      NeverGoesBack(run, run', freq, offset);
    } else {
      GoesBackOnOverflow(run, run', freq, offset);
    }
  }

  class TckRef {
    var run: nat
    const freq: nat
    const offset: int

    constructor (freq: nat, offset: int, run: nat)
      ensures this.freq == freq && this.offset == offset && this.run == run
    {
      this.freq, this.offset, this.run := freq, offset, run;
    }

    /** elapsedTickProc, with a count to write to; t is what the timer port reads. */
    method ElapsedTick(t: nat) returns (count: int)
      requires t < TWO_24
      modifies this`run
      ensures run == Extended(old(run), t) && count == Counter(run, freq, offset)
      ensures run % TWO_24 == t && run >= old(run)
      ensures old(run) * freq < TWO_63 && run * freq <= TWO_64 - TICK_ACPI ==>
                (count >= Counter(old(run), freq, offset) <==> run * freq < TWO_63)
    {
      ghost var before := run;
      if run % TWO_24 > t {
        run := (run / TWO_24 + 1) * TWO_24 + t;
      } else {
        run := run - run % TWO_24 + t;
      }
      ExtendedFacts(before, t);
      count := TruncDiv(Wrap64(run * freq), TICK_ACPI) - offset;
      if before * freq < TWO_63 && run * freq <= TWO_64 - TICK_ACPI {
        GoesBackExactly(before, run, freq, offset);
      }
    }
  }

  lemma ExtendedFacts(run: nat, t: nat)
    requires t < TWO_24
    ensures Extended(run, t) % TWO_24 == t && Extended(run, t) >= run
    ensures run % TWO_24 <= t ==> Extended(run, t) == run - run % TWO_24 + t
  {
    assert run == TWO_24 * (run / TWO_24) + run % TWO_24;
  }
}
