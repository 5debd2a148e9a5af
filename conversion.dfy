/**
 * The integer part of a measurement: turning the accumulated Timer0 count into a distance
 * in millimetres (main.c:174, `uint32_t` arithmetic), the 400 cm range check (main.c:231)
 * and the split into whole centimetres and tenths that is displayed (main.c:243-244).
 */
module Conversion {
  import opened Width

  /** Half the speed of sound, 340.26 m/s, in units of 0.01 m/s. */
  const SOUND_SCALE: nat := 17013
  /** The 8 MHz tick rate divided by 10, so that the quotient is in millimetres. */
  const TICK_SCALE: nat := 800000
  /** The sensor's rated range in millimetres; larger distances are shown as out of range. */
  const MAX_RANGE: nat := 4000
  /** The largest count whose product with SOUND_SCALE still fits in 32 bits. */
  const LAST_EXACT_COUNT: nat := 252452
  /** The largest count whose exact distance is in range. */
  const LAST_IN_RANGE_COUNT: nat := 188138

  /**
   * The conversion as the firmware evaluates it: the product is a `uint32_t`, so it wraps
   * modulo 2^32 before the truncating division.
   */
  function Distance(count: u32): (d: u32)
    ensures d <= (TWO_32 - 1) / TICK_SCALE
  {
    Wrap32(SOUND_SCALE * count) / TICK_SCALE
  }

  /** The conversion without the 32-bit wrap: floor(17013 * count / 800000). */
  function ExactDistance(count: u32): (d: nat)
    ensures d * TICK_SCALE <= SOUND_SCALE * count < (d + 1) * TICK_SCALE
  {
    SOUND_SCALE * count / TICK_SCALE
  }

  lemma DivMonotone(x: nat, y: nat, k: nat)
    requires x <= y && 0 < k
    ensures x / k <= y / k
  {
    var qx, qy := x / k, y / k;
    assert qx * k <= x;
    assert y < (qy + 1) * k;
    if qx > qy {
      MulMonotone(qy + 1, qx, k);
      assert false;
    }
  }

  lemma MulMonotone(a: nat, b: nat, k: nat)
    requires a <= b
    ensures a * k <= b * k
  {
  }

  /** Below the wrap-around point the firmware's conversion is the exact one. */
  lemma DistanceExactBelowWrap(count: u32)
    requires count <= LAST_EXACT_COUNT
    ensures Distance(count) == ExactDistance(count)
  {
    assert SOUND_SCALE * count <= SOUND_SCALE * LAST_EXACT_COUNT < TWO_32;
  }

  /** The product wraps from the first count past LAST_EXACT_COUNT. */
  lemma WrapStartsAfterLastExact(count: u32)
    ensures SOUND_SCALE * count < TWO_32 <==> count <= LAST_EXACT_COUNT
  {
    if count > LAST_EXACT_COUNT {
      assert SOUND_SCALE * count >= SOUND_SCALE * (LAST_EXACT_COUNT + 1);
    } else {
      assert SOUND_SCALE * count <= SOUND_SCALE * LAST_EXACT_COUNT;
    }
  }

  /** The exact conversion never decreases as the count grows. */
  lemma ExactDistanceMonotone(a: u32, b: u32)
    requires a <= b
    ensures ExactDistance(a) <= ExactDistance(b)
  {
    assert SOUND_SCALE * a <= SOUND_SCALE * b;
    DivMonotone(SOUND_SCALE * a, SOUND_SCALE * b, TICK_SCALE);
  }

  /** So does the firmware's, as long as neither product wraps. */
  lemma DistanceMonotoneBelowWrap(a: u32, b: u32)
    requires a <= b <= LAST_EXACT_COUNT
    ensures Distance(a) <= Distance(b)
  {
    DistanceExactBelowWrap(a);
    DistanceExactBelowWrap(b);
    ExactDistanceMonotone(a, b);
  }

  /** Once the product wraps, a longer echo can give a shorter distance. */
  lemma DistanceDropsAtWrap()
    ensures Distance(LAST_EXACT_COUNT) == 5368
    ensures Distance(LAST_EXACT_COUNT + 1) == 0
  {
  }

  /** A distance is shown as out of range exactly when it exceeds 4000 mm. */
  predicate InRange(distance: nat)
  {
    distance <= MAX_RANGE
  }

  /** The exact distance is in range exactly for counts up to LAST_IN_RANGE_COUNT. */
  lemma ExactInRangeIff(count: u32)
    ensures InRange(ExactDistance(count)) <==> count <= LAST_IN_RANGE_COUNT
  {
    if count <= LAST_IN_RANGE_COUNT {
      ExactDistanceMonotone(count, LAST_IN_RANGE_COUNT);
      assert ExactDistance(LAST_IN_RANGE_COUNT) == 4000;
    } else {
      ExactDistanceMonotone(LAST_IN_RANGE_COUNT + 1, count);
      assert ExactDistance(LAST_IN_RANGE_COUNT + 1) == 4001;
    }
  }

  /**
   * The firmware's range verdict: every count up to LAST_IN_RANGE_COUNT is in range and
   * every count from there up to the wrap point is out of range.
   */
  lemma DistanceInRangeBelowWrap(count: u32)
    requires count <= LAST_EXACT_COUNT
    ensures InRange(Distance(count)) <==> count <= LAST_IN_RANGE_COUNT
  {
    DistanceExactBelowWrap(count);
    ExactInRangeIff(count);
  }

  /** What the second display line carries. */
  datatype Display =
    | OutOfRange                      // "Out of  " / " Range!!"
    | Reading(whole: nat, tenths: nat)  // "%3u.%u cm"

  /**
   * The range check and, for an in-range distance, the split into whole centimetres and
   * tenths of a centimetre (that is, millimetres).
   */
  function Render(distance: u32): (r: Display)
    ensures r.OutOfRange? <==> !InRange(distance)
    ensures r.Reading? ==> r.whole * 10 + r.tenths == distance && r.tenths < 10
    ensures r.Reading? ==> r.whole <= MAX_RANGE / 10
  {
    if distance > MAX_RANGE then OutOfRange
    else Reading(distance / 10, distance % 10)
  }

  /** Distinct in-range distances are displayed differently. */
  lemma {:induction false} RenderInjective(a: u32, b: u32)
    requires InRange(a) && InRange(b) && Render(a) == Render(b)
    ensures a == b
  {
    var ra := Render(a);
    assert a == ra.whole * 10 + ra.tenths;
  }
}
