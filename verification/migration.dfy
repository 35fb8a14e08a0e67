/** script/mitgrate_v2/migrate.js without the file I/O: the old entries grouped by
    (normalised library name, Berlin day) and each group written out as 144 dense
    ten-minute records. The Berlin wall-clock time of each entry's timestamp is part of
    the input. */
module Migration {
  import opened Wrappers
  import opened Collections
  import Slots
  import Scraper

  /** `DateTime.fromMillis(date, { zone: 'Europe/Berlin' })`, as far as it is read. */
  datatype LocalTime = LocalTime(year: int, month: int, day: int, hour: int, minute: int)

  /** An entry of the old table. */
  datatype RawEntry = RawEntry(percentage: int, name: string, at: LocalTime)

  /** `toISODate()`, kept as its three numbers (which `split('-').map(Number)` recovers). */
  datatype DayKey = DayKey(year: int, month: int, day: int)

  /** `${name}|${dayKey}`. */
  datatype GroupKey = GroupKey(name: string, day: DayKey)

  /** A record of the new table (without `iat` and `ttl`). */
  datatype MigratedRecord = MigratedRecord(occupancy: int, name: string, year: int, month: int, day: int, chunk: int)

  function DayOf(t: LocalTime): DayKey {
    DayKey(t.year, t.month, t.day)
  }

  /** `timestampToChunk`: `Math.floor((hour * 60 + minute) / 10)`. */
  function ChunkOf(t: LocalTime): int {
    Slots.ComputeChunk(t.hour, t.minute)
  }

  /** The group of an entry: its normalised name (the same keyword table as the
      scraper's) and its day. */
  function KeyOf(e: RawEntry): GroupKey {
    GroupKey(Scraper.NormalizeName(e.name), DayOf(e.at))
  }

  function Keys(raw: seq<RawEntry>): (ks: seq<GroupKey>)
    ensures |ks| == |raw| && forall i :: 0 <= i < |raw| ==> ks[i] == KeyOf(raw[i])
  {
    seq(|raw|, i requires 0 <= i < |raw| => KeyOf(raw[i]))
  }

  /** `groups.values()`: one group per key, in order of first appearance. */
  function Groups(raw: seq<RawEntry>): seq<GroupKey> {
    Dedup(Keys(raw))
  }

  /** The `entries.set(chunk, …)` calls made for group `g`, in input order. */
  function GroupWrites(raw: seq<RawEntry>, g: GroupKey): seq<(int, int)> {
    if |raw| == 0 then []
    else
      var e := raw[|raw| - 1];
      GroupWrites(raw[..|raw| - 1], g) + (if KeyOf(e) == g then [(ChunkOf(e.at), e.percentage)] else [])
  }

  /** The `entries` map of group `g`. */
  function Readings(raw: seq<RawEntry>, g: GroupKey): map<int, int> {
    SetAll(GroupWrites(raw, g))
  }

  /** The record of group `g` for slot `c`: the reading, or 0 for an empty slot. */
  function RecordFor(raw: seq<RawEntry>, g: GroupKey, c: int): (r: MigratedRecord)
    ensures r.name == g.name && r.chunk == c
    ensures r.year == g.day.year && r.month == g.day.month && r.day == g.day.day
  {
    var m := Readings(raw, g);
    MigratedRecord(if c in m then m[c] else 0, g.name, g.day.year, g.day.month, g.day.day, c)
  }

  /** The output array: the groups one after another, slots 0..143 within each. */
  function Migrate(raw: seq<RawEntry>): (out: seq<MigratedRecord>)
    ensures |out| == Slots.SlotsPerDay * |Groups(raw)|
  {
    var gs := Groups(raw);
    seq(Slots.SlotsPerDay * |gs|, i requires 0 <= i < Slots.SlotsPerDay * |gs| =>
      RecordFor(raw, gs[i / Slots.SlotsPerDay], i % Slots.SlotsPerDay))
  }

  /** Reference: the percentage of the last entry of group `g` in slot `c`. */
  function LastReading(raw: seq<RawEntry>, g: GroupKey, c: int): Option<int> {
    if |raw| == 0 then None
    else
      var e := raw[|raw| - 1];
      if KeyOf(e) == g && ChunkOf(e.at) == c then Some(e.percentage)
      else LastReading(raw[..|raw| - 1], g, c)
  }

  lemma {:induction false} LastForGroupWrites(raw: seq<RawEntry>, g: GroupKey, c: int)
    ensures LastFor(GroupWrites(raw, g), c) == LastReading(raw, g, c)
  {
    if |raw| > 0 {
      var init := raw[..|raw| - 1];
      var e := raw[|raw| - 1];
      LastForGroupWrites(init, g, c);
      var w := GroupWrites(init, g);
      if KeyOf(e) == g {
        var x := (ChunkOf(e.at), e.percentage);
        assert GroupWrites(raw, g) == w + [x];
        assert (w + [x])[..|w|] == w;
      } else {
        assert GroupWrites(raw, g) == w + [] == w;
      }
    }
  }

  /** For repeated readings of a group and slot the last one wins; a slot without any
      reading gets 0. */
  lemma {:induction false} ReadingIsLast(raw: seq<RawEntry>, g: GroupKey, c: int)
    ensures RecordFor(raw, g, c).occupancy == LastReading(raw, g, c).GetOr(0)
  {
    SetAllIsLastWins(GroupWrites(raw, g), c);
    LastForGroupWrites(raw, g, c);
  }

  /** Index `i` lies in group `i / 144`, and slot `c` of that group is still in range. */
  lemma SlotArithmetic(i: int, n: int, c: int)
    requires 0 <= i < Slots.SlotsPerDay * n && 0 <= c < Slots.SlotsPerDay
    ensures var g := i / Slots.SlotsPerDay;
            0 <= g < n && 0 <= Slots.SlotsPerDay * g + c < Slots.SlotsPerDay * n
            && (Slots.SlotsPerDay * g + c) / Slots.SlotsPerDay == g
            && (Slots.SlotsPerDay * g + c) % Slots.SlotsPerDay == c
  {
    var g := i / Slots.SlotsPerDay;
    assert Slots.SlotsPerDay * g <= i;
    assert Slots.SlotsPerDay * g + c < Slots.SlotsPerDay * (g + 1);
  }

  /** The record of slot `c` in the same group as record `i`: same library and day. */
  lemma {:induction false} SameGroupSlot(raw: seq<RawEntry>, i: int, c: int)
    requires 0 <= i < |Migrate(raw)| && 0 <= c < Slots.SlotsPerDay
    ensures var j := Slots.SlotsPerDay * (i / Slots.SlotsPerDay) + c;
            var out := Migrate(raw);
            0 <= j < |out| && out[j].chunk == c && out[j].name == out[i].name
            && out[j].year == out[i].year && out[j].month == out[i].month && out[j].day == out[i].day
  {
    var gs := Groups(raw);
    SlotArithmetic(i, |gs|, c);
    var g := i / Slots.SlotsPerDay;
    var j := Slots.SlotsPerDay * g + c;
    assert Migrate(raw)[i] == RecordFor(raw, gs[g], i % Slots.SlotsPerDay);
    assert Migrate(raw)[j] == RecordFor(raw, gs[g], c);
  }

  /** Record `144 * g + c` is slot `c` of group `g`. */
  lemma {:induction false} MigratedRecordAt(raw: seq<RawEntry>, g: int, c: int)
    requires 0 <= g < |Groups(raw)| && 0 <= c < Slots.SlotsPerDay
    ensures var gs := Groups(raw);
            var r := Migrate(raw)[Slots.SlotsPerDay * g + c];
            r.chunk == c && r.name == gs[g].name
            && r.year == gs[g].day.year && r.month == gs[g].day.month && r.day == gs[g].day.day
            && r.occupancy == LastReading(raw, gs[g], c).GetOr(0)
  {
    var gs := Groups(raw);
    var i := Slots.SlotsPerDay * g + c;
    assert i / Slots.SlotsPerDay == g && i % Slots.SlotsPerDay == c;
    assert Migrate(raw)[i] == RecordFor(raw, gs[g], c);
    ReadingIsLast(raw, gs[g], c);
  }

  /** The groups are exactly the keys of the entries, each once, in order of first
      appearance; raw names normalising to the same library on the same day share one. */
  lemma GroupsAreKeys(raw: seq<RawEntry>)
    ensures var gs := Groups(raw);
            (forall k :: k in gs <==> exists i :: 0 <= i < |raw| && KeyOf(raw[i]) == k)
            && (forall i, j :: 0 <= i < j < |gs| ==> gs[i] != gs[j])
            && (forall i, j :: 0 <= i < j < |gs| ==> IndexOf(Keys(raw), gs[i]) < IndexOf(Keys(raw), gs[j]))
  {
    var ks := Keys(raw);
    DedupFirstAppearanceOrder(ks);
    forall k ensures k in Groups(raw) <==> exists i :: 0 <= i < |raw| && KeyOf(raw[i]) == k {
      if k in Groups(raw) {
        assert k in ks;
        var i :| 0 <= i < |ks| && ks[i] == k;
        assert KeyOf(raw[i]) == k;
      }
      if exists i :: 0 <= i < |raw| && KeyOf(raw[i]) == k {
        var i :| 0 <= i < |raw| && KeyOf(raw[i]) == k;
        assert ks[i] == k;
      }
    }
  }

  /** Every group is complete: it has a record for each of the 144 slots. */
  lemma {:induction false} GroupIsDense(raw: seq<RawEntry>, g: int, c: int) returns (i: int)
    requires 0 <= g < |Groups(raw)| && 0 <= c < Slots.SlotsPerDay
    ensures 0 <= i < |Migrate(raw)|
    ensures var r := Migrate(raw)[i]; var k := Groups(raw)[g];
            r.name == k.name && r.year == k.day.year && r.month == k.day.month && r.day == k.day.day && r.chunk == c
  {
    i := Slots.SlotsPerDay * g + c;
    MigratedRecordAt(raw, g, c);
  }
}
