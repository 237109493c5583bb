/**
 * The Fib75 target level, its 2% tolerance band, and the classification of a
 * price against that band. Prices are exact decimals, modelled as `real`.
 */
module FibBand {

  /** Where a price sits relative to the band; `Unknown` is the value an entry starts with. */
  datatype PricePosition = Below | Inside | Above | Unknown

  /** The triple returned by the band computation. */
  datatype Band = Band(fib: real, bandMin: real, bandMax: real)

  /** The constraint the add command enforces before it computes a band. */
  predicate ValidRange(low: real, high: real)
  {
    0.0 <= low < high
  }

  /**
   * The level sits a quarter of the way from `low` to `high` (25% above the low),
   * and the band reaches 2% of the level on each side of it. Under the add
   * constraint the level lies strictly inside the range and strictly inside its
   * band, and the band is above zero.
   */
  function ComputeFibBand(low: real, high: real): (b: Band)
    ensures 4.0 * (b.fib - low) == high - low
    ensures 4.0 * (high - b.fib) == 3.0 * (high - low)
    ensures 50.0 * (b.fib - b.bandMin) == b.fib && 50.0 * (b.bandMax - b.fib) == b.fib
    ensures ValidRange(low, high) ==> low < b.fib < high && 0.0 < b.bandMin < b.fib < b.bandMax
  {
    var fib := low + 0.25 * (high - low);
    Band(fib, fib * 0.98, fib * 1.02)
  }

  /**
   * Classifies a price: below the band, above it, or inside it (bounds included).
   * The three answers are exhaustive and `Unknown` is never produced.
   */
  function Position(price: real, bandMin: real, bandMax: real): (p: PricePosition)
    ensures p == Below <==> price < bandMin
    ensures p == Above <==> bandMin <= price && bandMax < price
    ensures p == Inside <==> bandMin <= price <= bandMax
    ensures p != Unknown
  {
    if price < bandMin then Below
    else if price > bandMax then Above
    else Inside
  }

  /** With the band computed from a valid range, the level itself always classifies as inside. */
  lemma LevelIsInside(low: real, high: real)
    requires ValidRange(low, high)
    ensures var b := ComputeFibBand(low, high);
      Position(b.fib, b.bandMin, b.bandMax) == Inside
  {
  }
}
