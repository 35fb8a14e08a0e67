/** server.ts: the chunk and calendar-day stamp the Express server stores with
    every scraped entry. */
module Server {
  import opened Numeric
  import Slots

  const MillisPerDay: int := 86_400_000
  const MillisPerSlot: int := 600_000

  function MillisOfDay(hours: int, minutes: int, seconds: int, millis: int): int {
    ((hours * 60 + minutes) * 60 + seconds) * 1000 + millis
  }

  predicate ValidClock(hours: int, minutes: int, seconds: int, millis: int) {
    0 <= hours < 24 && 0 <= minutes < 60 && 0 <= seconds < 60 && 0 <= millis < 1000
  }

  /** `encodeTo10MinuteChunk`: total minutes plus the fractional minute from seconds and
      milliseconds, divided by ten and passed through `Math.round`. The result is the
      NEAREST ten-minute mark, not the slot the time falls into. */
  function EncodeTo10MinuteChunk(hours: int, minutes: int, seconds: int, millis: int): (r: int)
    requires ValidClock(hours, minutes, seconds, millis)
    ensures 0 <= r <= Slots.SlotsPerDay
    ensures r * MillisPerSlot - MillisPerSlot / 2 <= MillisOfDay(hours, minutes, seconds, millis)
    ensures MillisOfDay(hours, minutes, seconds, millis) < r * MillisPerSlot + MillisPerSlot / 2
  {
    ChunkFractionIsExact(hours, minutes, seconds, millis);
    Round(ChunkFraction(hours, minutes, seconds, millis))
  }

  /** The value `encodeTo10MinuteChunk` rounds: total minutes plus seconds and
      milliseconds as a fraction of a minute, over ten. */
  function ChunkFraction(hours: int, minutes: int, seconds: int, millis: int): real {
    var totalMinutes := hours * 60 + minutes;
    var additionalTime := seconds as real + millis as real / 1000.0;
    (totalMinutes as real + additionalTime / 60.0) / 10.0
  }

  /** In exact arithmetic that value is the time of day counted in ten-minute slots. */
  lemma ChunkFractionIsExact(hours: int, minutes: int, seconds: int, millis: int)
    ensures ChunkFraction(hours, minutes, seconds, millis)
         == MillisOfDay(hours, minutes, seconds, millis) as real / MillisPerSlot as real
  {}

  /** The encoder leaves the 0..143 slot range exactly from 23:55:00.000 on. */
  lemma EncodeReaches144(hours: int, minutes: int, seconds: int, millis: int)
    requires ValidClock(hours, minutes, seconds, millis)
    ensures EncodeTo10MinuteChunk(hours, minutes, seconds, millis) == Slots.SlotsPerDay
            <==> MillisOfDay(hours, minutes, seconds, millis) >= MillisOfDay(23, 55, 0, 0)
  {}

  /** Later times of day never get an earlier chunk. */
  lemma EncodeMonotone(h1: int, m1: int, s1: int, ms1: int, h2: int, m2: int, s2: int, ms2: int)
    requires ValidClock(h1, m1, s1, ms1) && ValidClock(h2, m2, s2, ms2)
    requires MillisOfDay(h1, m1, s1, ms1) <= MillisOfDay(h2, m2, s2, ms2)
    ensures EncodeTo10MinuteChunk(h1, m1, s1, ms1) <= EncodeTo10MinuteChunk(h2, m2, s2, ms2)
  {}

  /** Rounding, not flooring: 00:04:59 is chunk 0 but 00:05:00 is chunk 1, whereas the
      slot containing 00:05 is 0. */
  lemma EncodeRoundsAtHalfSlot()
    ensures EncodeTo10MinuteChunk(0, 4, 59, 0) == 0
    ensures EncodeTo10MinuteChunk(0, 5, 0, 0) == 1
    ensures Slots.ComputeChunk(0, 5) == 0
  {}

  /** What `scrapeData` stores for one entry: the calendar day from the UTC getters and
      the chunk from the local-time getters. */
  datatype Stamp = Stamp(utcDay: int, chunk: int)

  /** `utcMillis` is the entry's instant, `offsetMillis` the server's local offset from UTC
      at that instant; both days are counted from 1970-01-01. */
  function StampEntry(utcMillis: int, offsetMillis: int): (s: Stamp)
    ensures s.utcDay * MillisPerDay <= utcMillis < (s.utcDay + 1) * MillisPerDay
    ensures 0 <= s.chunk <= Slots.SlotsPerDay
  {
    var local := (utcMillis + offsetMillis) % MillisPerDay;
    var hours := local / 3_600_000;
    var minutes := (local / 60_000) % 60;
    var seconds := (local / 1000) % 60;
    var millis := local % 1000;
    Stamp(utcMillis / MillisPerDay, EncodeTo10MinuteChunk(hours, minutes, seconds, millis))
  }

  /** Day of the instant in the server's local time. */
  function LocalDay(utcMillis: int, offsetMillis: int): int {
    (utcMillis + offsetMillis) / MillisPerDay
  }

  /** Near midnight the stored day and the stored chunk refer to different days: at
      23:30 UTC on a CEST server (UTC+2) the row is filed under the UTC day with the chunk
      of 01:30 local time, which belongs to the next local day. */
  lemma StampMixesClocks()
    ensures var t, off := 23 * 3_600_000 + 30 * 60_000, 2 * 3_600_000;
            StampEntry(t, off) == Stamp(0, 9) && LocalDay(t, off) == 1
  {
    var t, off := 23 * 3_600_000 + 30 * 60_000, 2 * 3_600_000;
    assert (t + off) % MillisPerDay == 5_400_000;
    assert EncodeTo10MinuteChunk(1, 30, 0, 0) == 9;
  }
}
