/** When a list's digest is due, and the compare-and-swap on its watermark. */
module DigestSchedule {
  import opened Wrappers
  import opened Model

  /** Go's zero time, which every real time stamp exceeds. */
  const ZERO_TIME: Time := 0

  function DigestPeriod(frequency: DigestFrequency): Time {
    if frequency == Weekly then 7 * DAY else DAY
  }

  predicate DigestDue(watermark: Option<Time>, frequency: DigestFrequency, now: Time) {
    DigestPeriod(frequency) != 0 &&
    (watermark.None? || now - watermark.value >= DigestPeriod(frequency))
  }

  function SinceWatermark(watermark: Option<Time>): Time {
    if watermark.None? then ZERO_TIME else watermark.value
  }

  /** The WHERE clause of AdvanceDigestWatermark: IS NULL for a missing snapshot, else
      `<=`, which a NULL never satisfies. */
  predicate Matches(stored: Option<Time>, from: Option<Time>) {
    if from.None? then stored.None? else stored.Some? && stored.value <= from.value
  }
}
