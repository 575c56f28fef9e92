/**
 * The server's clock utility. Timestamps are integer milliseconds since the
 * epoch (what `new Date(iso).getTime()` yields); the clock itself (`nowISO`)
 * is not modelled: callers pass the current time in.
 */
module Helper {
  import opened Wrappers

  /** `Math.round(ms / 1000)`: half-up rounding, i.e. the floor of ms / 1000 + 1/2. */
  function RoundToSeconds(ms: int): int {
    (ms + 500) / 1000
  }

  /**
   * `secondsBetween(isoStart, isoEnd)`: no result when either timestamp is
   * missing, otherwise the rounded number of seconds from start to end,
   * never negative.
   */
  function SecondsBetween(start: Option<int>, end: Option<int>): (r: Option<int>)
    ensures r.None? <==> start.None? || end.None?
    ensures r.Some? ==> r.value >= 0
    ensures r.Some? && end.value <= start.value ==> r.value == 0
  {
    if start.None? || end.None? then None
    else Some(Max(0, RoundToSeconds(end.value - start.value)))
  }

  /**
   * Rounding to the nearest second, halves upwards: for a non-negative
   * elapsed time the result is the one whole number of seconds within half
   * a second of it.
   */
  lemma SecondsBetweenIsNearest(start: int, end: int)
    requires start <= end
    ensures var n := SecondsBetween(Some(start), Some(end)).value;
      n * 1000 - 500 <= end - start < n * 1000 + 500
  {
    var d := end - start;
    var n := (d + 500) / 1000;
    assert n * 1000 <= d + 500 < n * 1000 + 1000;
  }

  /** For times a whole number of seconds apart the result is exactly that number of seconds. */
  lemma SecondsBetweenWholeSeconds(start: int, end: int)
    requires (end - start) % 1000 == 0 && start <= end
    ensures SecondsBetween(Some(start), Some(end)) == Some((end - start) / 1000)
  {
    var k := (end - start) / 1000;
    assert end - start == k * 1000;
    assert (end - start + 500) / 1000 == k;
  }

  /** A later end never gives a shorter duration. */
  lemma SecondsBetweenMonotonic(start: int, end1: int, end2: int)
    requires end1 <= end2
    ensures SecondsBetween(Some(start), Some(end1)).value <= SecondsBetween(Some(start), Some(end2)).value
  {
  }

  /** start + 65 s gives 65. */
  lemma SecondsBetweenSixtyFive(t0: int)
    ensures SecondsBetween(Some(t0), Some(t0 + 65000)) == Some(65)
  {
  }
}
