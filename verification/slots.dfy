/** The ten-minute slot model shared by the scraper, the migration scripts and
    every view: a day has 144 slots, slot `c` starts at minute `10 * c`. */
module Slots {
  import opened Numeric
  import opened Text

  const SlotsPerDay: int := 144

  /** The "HH:MM" label of a slot as lib/occupancy.ts and src/actions/data.action.ts
      build it: `Math.floor(c / 6)` and `(c % 6) * 10`, each padded to two characters.
      Defined for every integer, since the source applies it to whatever chunk a row holds. */
  function FormatTime(chunk: int): string {
    TimeLabel(chunk / 6, JsRem(chunk, 6) * 10)
  }

  /** The slot a wall-clock time falls into: `Math.floor((h * 60 + m) / 10)`. */
  function ComputeChunk(hour: int, minute: int): (c: int)
    ensures 0 <= hour <= 23 && 0 <= minute <= 59 ==> 0 <= c < SlotsPerDay
    ensures c * 10 <= hour * 60 + minute < c * 10 + 10
  {
    (hour * 60 + minute) / 10
  }

  /** Inside a day the label is the zero-padded hour and minute of the slot start. */
  lemma FormatTimeInDay(c: int)
    requires 0 <= c < SlotsPerDay
    ensures FormatTime(c) == TimeLabel(c / 6, (c % 6) * 10)
    ensures |FormatTime(c)| == 5 && FormatTime(c)[2] == ':'
  {
    Pad2SmallShape(c / 6);
    Pad2SmallShape((c % 6) * 10);
  }

  /** Two chunks with the same label are the same chunk, for all integers. */
  lemma FormatTimeInjective(c1: int, c2: int)
    requires FormatTime(c1) == FormatTime(c2)
    ensures c1 == c2
  {
    TimeLabelInjective(c1 / 6, JsRem(c1, 6) * 10, c2 / 6, JsRem(c2, 6) * 10);
    QuotientAndRemainderDetermine(c1, c2);
  }

  /** The floored quotient by 6 and the truncated remainder together pin a number down. */
  lemma QuotientAndRemainderDetermine(c1: int, c2: int)
    requires c1 / 6 == c2 / 6 && JsRem(c1, 6) == JsRem(c2, 6)
    ensures c1 == c2
  {
    var r := JsRem(c1, 6);
    var k1 := if c1 >= 0 then c1 / 6 else -((-c1) / 6);
    var k2 := if c2 >= 0 then c2 / 6 else -((-c2) / 6);
    assert c1 == 6 * k1 + r;
    assert c2 == 6 * k2 + r;
    assert c1 - c2 == c1 % 6 - c2 % 6;
    assert 6 * (k1 - k2) == c1 - c2;
  }

  /** Labels are a lossy quantisation: decoding the label of the slot of h:m gives
      back the hour and the minute rounded down to a multiple of ten. */
  lemma ComputeChunkQuantizes(hour: int, minute: int)
    requires 0 <= hour <= 23 && 0 <= minute <= 59
    ensures FormatTime(ComputeChunk(hour, minute)) == TimeLabel(hour, minute - minute % 10)
  {
    var c := ComputeChunk(hour, minute);
    assert c / 6 == hour;
    assert (c % 6) * 10 == minute - minute % 10;
    FormatTimeInDay(c);
  }

  /** Decoding a slot to hour and minute and encoding again gives the slot back. */
  lemma SlotRoundTrip(c: int)
    requires 0 <= c < SlotsPerDay
    ensures ComputeChunk(c / 6, (c % 6) * 10) == c
  {}
}
