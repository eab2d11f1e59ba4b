/** The millisecond clock. A reading is written as the true number of milliseconds since start-up;
    the 32-bit counter holds that number modulo 2^32. */
module Time {
  const CLOCK_MODULUS: int := 0x1_0000_0000

  datatype ClockWidth = Bits32 | Unbounded

  /** `now - since` in unsigned arithmetic of the given width. */
  function Elapsed(now: nat, since: nat, width: ClockWidth): int
  {
    if width == Bits32 then (now - since) % CLOCK_MODULUS else now - since
  }

  /** Subtracting two wrapped counters in 32 bits gives the wrapped true difference, so storing
      the true number of milliseconds and wrapping only the difference loses nothing. */
  lemma ElapsedOfWrappedReadings(now: nat, since: nat)
    ensures (now % CLOCK_MODULUS - since % CLOCK_MODULUS) % CLOCK_MODULUS == Elapsed(now, since, Bits32)
  {
  }

  lemma ElapsedBelowModulus(now: nat, since: nat)
    requires since <= now < since + CLOCK_MODULUS
    ensures Elapsed(now, since, Bits32) == Elapsed(now, since, Unbounded)
  {
  }

  predicate Ascending(readings: seq<nat>)
  {
    forall i, j | 0 <= i < j < |readings| :: readings[i] <= readings[j]
  }

  lemma AscendingSnoc(first: nat, readings: seq<nat>, next: nat)
    requires Ascending([first] + readings) && ([first] + readings)[|readings|] <= next
    ensures Ascending([first] + (readings + [next]))
    ensures ([first] + (readings + [next]))[|readings| + 1] == next
  {
    var before, after := [first] + readings, [first] + (readings + [next]);
    forall i, j | 0 <= i < j < |after| ensures after[i] <= after[j] {
      assert after[i] == before[i] <= before[|readings|];
      if j < |before| { assert after[j] == before[j]; }
    }
  }
}
