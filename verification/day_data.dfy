/** src/actions/data.action.ts after its queries: the chart series of one day keyed by
    "HH:MM" time and library index, and the average over the same weekday of the
    three previous weeks. Both queries return the day's rows ordered by chunk
    (`DayRows`), and the functions below take those rows as they come. */
module DayData {
  import opened Wrappers
  import opened Numeric
  import opened Text
  import opened Collections
  import Slots
  import opened Sorting

  /** `CHUNK_START`, `CHUNK_END`: the displayed slots are 48 (08:00) up to, excluding, 139. */
  const ChunkStart: int := 48
  const ChunkEnd: int := 139

  /** A `BibData` row as far as these functions read it. */
  datatype BibReading = BibReading(name: string, chunk: int, percentage: real)

  /** `Scaling`: its `name` is the library's index as a string (`index` here), its
      `label` the library name (`library` here). */
  datatype Scale = Scale(index: string, library: string)

  /** A `DataPoint`: its `label` (`time` here) and the number stored under each index key. */
  datatype DataItem = DataItem(time: string, values: map<string, int>)

  datatype FetchDayData = FetchDayData(scaling: seq<Scale>, data: seq<DataItem>)

  /** `Math.floor(i / 6)` and `(i % 6) * 10`, padded: the same label as the occupancy series. */
  function Label(chunk: int): string {
    Slots.FormatTime(chunk)
  }

  /** The 144 labels the day map is created with, in order. */
  function DayLabels(): (labels: seq<string>)
    ensures |labels| == Slots.SlotsPerDay
  {
    seq(Slots.SlotsPerDay, i => Label(i))
  }

  /** A label is among the day's labels exactly for a chunk of the day, so a row with
      chunk 144 (or any other chunk outside 0..143) finds no entry and is dropped. */
  lemma DayLabelsAreTheDaysChunks(c: int)
    ensures Label(c) in DayLabels() <==> 0 <= c < Slots.SlotsPerDay
  {
    if 0 <= c < Slots.SlotsPerDay {
      assert DayLabels()[c] == Label(c);
    }
    if Label(c) in DayLabels() {
      var i :| 0 <= i < Slots.SlotsPerDay && DayLabels()[i] == Label(c);
      Slots.FormatTimeInjective(i, c);
    }
  }

  // ---- scaling --------------------------------------------------------------

  function Names(rows: seq<BibReading>): (names: seq<string>)
    ensures |names| == |rows| && forall i :: 0 <= i < |rows| ==> names[i] == rows[i].name
  {
    seq(|rows|, i requires 0 <= i < |rows| => rows[i].name)
  }

  /** `uniqueNames.map((name, index) => ({ name: String(index), label: name }))`. */
  function ScalingOf(rows: seq<BibReading>): (sc: seq<Scale>)
    ensures |sc| == |Dedup(Names(rows))|
  {
    var u := Dedup(Names(rows));
    seq(|u|, i requires 0 <= i < |u| => Scale(NatToString(i), u[i]))
  }

  /** Each library of the rows has exactly one scale; the scales' names are
      0, 1, 2, … and their labels are distinct. */
  lemma ScalingCoversNames(rows: seq<BibReading>)
    ensures var sc := ScalingOf(rows);
            (forall n :: (exists k :: 0 <= k < |sc| && sc[k].library == n) <==> n in Names(rows))
            && (forall k :: 0 <= k < |sc| ==> sc[k].index == NatToString(k))
            && (forall i, j :: 0 <= i < j < |sc| ==> sc[i].library != sc[j].library && sc[i].index != sc[j].index)
  {
    ScalingLibraries(rows);
    ScalingIndices(rows);
  }

  lemma ScalingLibraries(rows: seq<BibReading>)
    ensures var sc := ScalingOf(rows);
            forall n :: (exists k :: 0 <= k < |sc| && sc[k].library == n) <==> n in Names(rows)
  {
    var sc := ScalingOf(rows);
    var u := Dedup(Names(rows));
    forall n ensures (exists k :: 0 <= k < |sc| && sc[k].library == n) <==> n in Names(rows) {
      if n in Names(rows) {
        var j :| 0 <= j < |rows| && Names(rows)[j] == n;
        var k :| 0 <= k < |u| && u[k] == n;
        assert sc[k].library == n;
      }
    }
  }

  lemma ScalingIndices(rows: seq<BibReading>)
    ensures var sc := ScalingOf(rows);
            (forall k :: 0 <= k < |sc| ==> sc[k].index == NatToString(k))
            && (forall i, j :: 0 <= i < j < |sc| ==> sc[i].library != sc[j].library && sc[i].index != sc[j].index)
  {
    var sc := ScalingOf(rows);
    forall i, j | 0 <= i < j < |sc| ensures sc[i].index != sc[j].index {
      ParseNatToString(i);
      ParseNatToString(j);
    }
  }

  /** `nameToIndexMap`: library name to index, the last scale of a name winning. */
  function IndexMap(scaling: seq<Scale>): map<string, string> {
    SetAll(seq(|scaling|, i requires 0 <= i < |scaling| => (scaling[i].library, scaling[i].index)))
  }

  /** With distinct labels, every scale's library maps to that scale's index, and only they are keys. */
  lemma IndexMapOfDistinct(scaling: seq<Scale>, k: int)
    requires forall i, j :: 0 <= i < j < |scaling| ==> scaling[i].library != scaling[j].library
    requires 0 <= k < |scaling|
    ensures scaling[k].library in IndexMap(scaling) && IndexMap(scaling)[scaling[k].library] == scaling[k].index
  {
    var e := seq(|scaling|, i requires 0 <= i < |scaling| => (scaling[i].library, scaling[i].index));
    var key := scaling[k].library;
    assert e[k].0 == key;
    SetAllIsLastWins(e, key);
    LastForIsLast(e, key);
    var i :| 0 <= i < |e| && e[i] == (key, LastFor(e, key).value) && forall j :: i < j < |e| ==> e[j].0 != key;
    assert i == k;
  }

  // ---- the day map ----------------------------------------------------------

  /** The (index, rounded percentage) writes that `data.forEach` makes into the entry `label`. */
  function Writes(rows: seq<BibReading>, index: map<string, string>, time: string): seq<(string, int)> {
    if |rows| == 0 then []
    else
      var r := rows[|rows| - 1];
      Writes(rows[..|rows| - 1], index, time)
      + (if Label(r.chunk) == time && r.name in index then [(index[r.name], Round(r.percentage))] else [])
  }

  /** The entry of one label after all rows were applied. */
  function Entry(rows: seq<BibReading>, index: map<string, string>, time: string): DataItem {
    DataItem(time, SetAll(Writes(rows, index, time)))
  }

  /** `Array.from(dataMap.values())`: the 144 entries in label order. */
  function Grouped(rows: seq<BibReading>, index: map<string, string>): (items: seq<DataItem>)
    ensures |items| == Slots.SlotsPerDay
  {
    seq(Slots.SlotsPerDay, i => Entry(rows, index, Label(i)))
  }

  /** Reference: the rounded percentage of the last row of slot `chunk` whose
      library has index `key`. */
  function LastWrite(rows: seq<BibReading>, index: map<string, string>, chunk: int, key: string): Option<int> {
    if |rows| == 0 then None
    else
      var r := rows[|rows| - 1];
      if r.chunk == chunk && r.name in index && index[r.name] == key then Some(Round(r.percentage))
      else LastWrite(rows[..|rows| - 1], index, chunk, key)
  }

  lemma {:induction false} LastForWrites(rows: seq<BibReading>, index: map<string, string>, chunk: int, key: string)
    ensures LastFor(Writes(rows, index, Label(chunk)), key) == LastWrite(rows, index, chunk, key)
  {
    if |rows| > 0 {
      var init := rows[..|rows| - 1];
      var r := rows[|rows| - 1];
      LastForWrites(init, index, chunk, key);
      var w := Writes(init, index, Label(chunk));
      if Label(r.chunk) == Label(chunk) && r.name in index {
        Slots.FormatTimeInjective(r.chunk, chunk);
        var x := (index[r.name], Round(r.percentage));
        assert Writes(rows, index, Label(chunk)) == w + [x];
        assert (w + [x])[..|w|] == w;
      } else {
        assert Writes(rows, index, Label(chunk)) == w + [] == w;
      }
    }
  }

  /** The value under index `key` in the entry of slot `i` is the rounded percentage
      of the last row of that slot and library; without such a row the key is absent. */
  lemma EntryIsLastWrite(rows: seq<BibReading>, index: map<string, string>, i: int, key: string)
    requires 0 <= i < Slots.SlotsPerDay
    ensures var item := Grouped(rows, index)[i];
            item.time == Label(i)
            && (key in item.values <==> LastWrite(rows, index, i, key).Some?)
            && (key in item.values ==> item.values[key] == LastWrite(rows, index, i, key).value)
  {
    assert Grouped(rows, index)[i] == Entry(rows, index, Label(i));
    SetAllIsLastWins(Writes(rows, index, Label(i)), key);
    LastForWrites(rows, index, i, key);
  }

  /** `fetchDataForDay` on the day's rows in query order (`DayRows`): the scaling of the
      day's libraries, in order of first appearance, and the entries of slots 48..138. */
  function FetchDataForDay(rows: seq<BibReading>): (d: FetchDayData)
    ensures d.scaling == ScalingOf(rows)
    ensures |d.data| == ChunkEnd - ChunkStart == 91
    ensures forall k :: 0 <= k < |d.data| ==> d.data[k] == Grouped(rows, IndexMap(ScalingOf(rows)))[ChunkStart + k]
  {
    var sc := ScalingOf(rows);
    FetchDayData(sc, Grouped(rows, IndexMap(sc))[ChunkStart..ChunkEnd])
  }

  /** Every library of the day's rows has a scale whose index is its position among
      the day's libraries, and the name-to-index map sends the library there. */
  lemma RowHasIndex(rows: seq<BibReading>, r: int) returns (j: int)
    requires 0 <= r < |rows|
    ensures var sc := ScalingOf(rows);
            0 <= j < |sc| && sc[j].library == rows[r].name && sc[j].index == NatToString(j)
            && rows[r].name in IndexMap(sc) && IndexMap(sc)[rows[r].name] == NatToString(j)
  {
    var sc := ScalingOf(rows);
    ScalingCoversNames(rows);
    assert rows[r].name in Names(rows);
    j :| 0 <= j < |sc| && sc[j].library == rows[r].name;
    IndexMapOfDistinct(sc, j);
  }

  /** The day's series runs from 08:00 to 23:00, and slot `k` holds under each index
      the rounded percentage of the last row of its slot for that index. */
  lemma DaySeries(rows: seq<BibReading>, k: int, key: string)
    requires 0 <= k < ChunkEnd - ChunkStart
    ensures var item := FetchDataForDay(rows).data[k];
            var w := LastWrite(rows, IndexMap(ScalingOf(rows)), ChunkStart + k, key);
            item.time == Label(ChunkStart + k)
            && (key in item.values <==> w.Some?)
            && (key in item.values ==> item.values[key] == w.value)
  {
    EntryIsLastWrite(rows, IndexMap(ScalingOf(rows)), ChunkStart + k, key);
  }

  /** `fetchDataForSingleDayWithScaling`: all 144 entries, indices taken from `scaling`. */
  function FetchWithScaling(rows: seq<BibReading>, scaling: seq<Scale>): (d: FetchDayData)
    ensures d.scaling == scaling && |d.data| == Slots.SlotsPerDay
  {
    FetchDayData(scaling, Grouped(rows, IndexMap(scaling)))
  }

  // ---- the three-week average ------------------------------------------------

  /** `previousDates`: the same weekday one, two and three weeks earlier. */
  function PreviousDates(date: int): (ds: seq<int>)
    ensures |ds| == 3
    ensures forall i :: 0 <= i < 3 ==> ds[i] < date && (date - ds[i]) % 7 == 0
    ensures forall i, j :: 0 <= i < j < 3 ==> ds[j] < ds[i]
  {
    [date - 7, date - 14, date - 21]
  }

  /** Those are all the same-weekday dates of the three weeks before. */
  lemma PreviousDatesAreTheLastThreeWeeks(date: int, d: int)
    ensures d in PreviousDates(date) <==> d < date && (date - d) % 7 == 0 && date - d <= 21
  {
    if d < date && (date - d) % 7 == 0 && date - d <= 21 {
      var q := (date - d) / 7;
      assert date - d == 7 * q;
      assert q == 1 || q == 2 || q == 3;
      assert d == PreviousDates(date)[q - 1];
    }
  }

  /** `dataSet.data.find((d) => d.label === label)`. */
  function FindByLabel(data: seq<DataItem>, time: string): (r: Option<DataItem>)
    ensures r.None? <==> forall i :: 0 <= i < |data| ==> data[i].time != time
    ensures r.Some? ==> exists i :: 0 <= i < |data| && data[i] == r.value && data[i].time == time
                                    && forall j :: 0 <= j < i ==> data[j].time != time
  {
    if |data| == 0 then None
    else if data[0].time == time then Some(data[0])
    else
      var r := FindByLabel(data[1..], time);
      assert forall i :: 1 <= i < |data| ==> data[i] == data[1..][i - 1];
      r
  }

  /** The values that the data sets hold for `label` and index `key`, in data-set order. */
  function Contributions(dataSets: seq<FetchDayData>, time: string, key: string): seq<int> {
    if |dataSets| == 0 then []
    else
      var found := FindByLabel(dataSets[|dataSets| - 1].data, time);
      Contributions(dataSets[..|dataSets| - 1], time, key)
      + (if found.Some? && key in found.value.values then [found.value.values[key]] else [])
  }

  /** `Math.round(sum / count)`. */
  function AverageOf(c: seq<int>): int
    requires |c| > 0
  {
    Round(Sum(c) as real / |c| as real)
  }

  /** A rounded average of integers lies between their smallest and largest value. */
  lemma AverageBetween(c: seq<int>, lo: int, hi: int)
    requires |c| > 0 && forall i :: 0 <= i < |c| ==> lo <= c[i] <= hi
    ensures lo <= AverageOf(c) <= hi
  {
    SumAtMost(c, hi);
    SumAtLeast(c, lo);
    DivAtMost(Sum(c), |c|, hi);
    DivAtLeast(Sum(c), |c|, lo);
    RoundBelow(Sum(c) as real / |c| as real, hi);
    RoundAbove(Sum(c) as real / |c| as real, lo);
  }

  /** The index keys of the scaling. */
  function ScaleNames(scaling: seq<Scale>): set<string> {
    set i | 0 <= i < |scaling| :: scaling[i].index
  }

  function AverageItem(dataSets: seq<FetchDayData>, scaling: seq<Scale>, time: string): DataItem {
    DataItem(time, map key | key in ScaleNames(scaling) && |Contributions(dataSets, time, key)| > 0 ::
                      AverageOf(Contributions(dataSets, time, key)))
  }

  /** `computeAverageDataWithScaling`: slots 48..138; under each index of the scaling
      the rounded mean of the data sets that hold a value, the key absent when none does. */
  function ComputeAverage(dataSets: seq<FetchDayData>, scaling: seq<Scale>): (d: FetchDayData)
    ensures d.scaling == scaling && |d.data| == ChunkEnd - ChunkStart
  {
    FetchDayData(scaling, seq(ChunkEnd - ChunkStart, k => AverageItem(dataSets, scaling, Label(ChunkStart + k))))
  }

  lemma AverageItemAt(dataSets: seq<FetchDayData>, scaling: seq<Scale>, k: int)
    requires 0 <= k < ChunkEnd - ChunkStart
    ensures ComputeAverage(dataSets, scaling).data[k] == AverageItem(dataSets, scaling, Label(ChunkStart + k))
  {}

  /** Slot `k` of the average carries the label of chunk 48 + k; an index has a value
      exactly when it belongs to the scaling and some data set holds a value for it,
      and that value lies between the smallest and the largest value it averages. */
  lemma AverageSlot(dataSets: seq<FetchDayData>, scaling: seq<Scale>, k: int, key: string, lo: int, hi: int)
    requires 0 <= k < ChunkEnd - ChunkStart
    requires var c := Contributions(dataSets, Label(ChunkStart + k), key);
             forall i :: 0 <= i < |c| ==> lo <= c[i] <= hi
    ensures var item := ComputeAverage(dataSets, scaling).data[k];
            var c := Contributions(dataSets, Label(ChunkStart + k), key);
            item.time == Label(ChunkStart + k)
            && (key in item.values <==> key in ScaleNames(scaling) && |c| > 0)
            && (key in item.values ==> lo <= item.values[key] <= hi)
  {
    AverageItemAt(dataSets, scaling, k);
    var c := Contributions(dataSets, Label(ChunkStart + k), key);
    AverageItemValue(dataSets, scaling, Label(ChunkStart + k), key);
    if |c| > 0 {
      AverageBetween(c, lo, hi);
    }
  }

  lemma AverageItemValue(dataSets: seq<FetchDayData>, scaling: seq<Scale>, time: string, key: string)
    ensures var item := AverageItem(dataSets, scaling, time);
            var c := Contributions(dataSets, time, key);
            item.time == time
            && (key in item.values <==> key in ScaleNames(scaling) && |c| > 0)
            && (key in item.values ==> item.values[key] == AverageOf(c))
  {}

  /** Readings of a whole store, each tagged with its day number. */
  datatype DatedReading = DatedReading(day: int, reading: BibReading)

  /** The chunk of a reading: the column both queries order by. */
  function Chunk(r: BibReading): int {
    r.chunk
  }

  /** The rows of one day, in store order. */
  function StoreRows(store: seq<DatedReading>, day: int): (rows: seq<BibReading>)
    ensures |rows| <= |store|
    ensures forall r :: r in rows <==> DatedReading(day, r) in store
  {
    if |store| == 0 then []
    else
      var init := store[..|store| - 1];
      assert store == init + [store[|store| - 1]];
      StoreRows(init, day)
      + (if store[|store| - 1].day == day then [store[|store| - 1].reading] else [])
  }

  /** The rows of one day as `findMany` returns them with `orderBy: { chunk: 'asc' }`:
      the day's rows by ascending chunk, rows of the same chunk in store order. */
  function DayRows(store: seq<DatedReading>, day: int): (rows: seq<BibReading>)
    ensures multiset(rows) == multiset(StoreRows(store, day))
    ensures SortedByKey(rows, Chunk)
    ensures forall c :: WithKey(rows, Chunk, c) == WithKey(StoreRows(store, day), Chunk, c)
  {
    var s := StoreRows(store, day);
    SortByKeyStableAll(s, Chunk);
    SortByKey(s, Chunk)
  }

  /** Which reading a slot shows depends only on the rows of that slot, in their order. */
  lemma {:induction false} LastWriteOfSlotRows(rows: seq<BibReading>, index: map<string, string>, chunk: int, key: string)
    ensures LastWrite(rows, index, chunk, key) == LastWrite(WithKey(rows, Chunk, chunk), index, chunk, key)
  {
    if |rows| > 0 {
      var init := rows[..|rows| - 1];
      var r := rows[|rows| - 1];
      assert rows == init + [r];
      WithKeyAppend(init, [r], Chunk, chunk);
      LastWriteOfSlotRows(init, index, chunk, key);
      assert [r][1..] == [];
      var w := WithKey(init, Chunk, chunk);
      if r.chunk == chunk {
        assert WithKey(rows, Chunk, chunk) == w + [r];
        assert (w + [r])[..|w|] == w;
      } else {
        assert WithKey(rows, Chunk, chunk) == w + [] == w;
      }
    }
  }

  /** Ordering the day's rows by chunk decides the order of the scaling, but not
      which reading each slot shows. */
  lemma SortKeepsLastWrite(store: seq<DatedReading>, day: int, index: map<string, string>, chunk: int, key: string)
    ensures LastWrite(DayRows(store, day), index, chunk, key) == LastWrite(StoreRows(store, day), index, chunk, key)
  {
    LastWriteOfSlotRows(DayRows(store, day), index, chunk, key);
    LastWriteOfSlotRows(StoreRows(store, day), index, chunk, key);
  }

  /** The first scale of a day is the library of its earliest reading: the smallest
      chunk, and among rows of that chunk the first in the store. */
  lemma FirstScaleIsEarliestReading(store: seq<DatedReading>, day: int) returns (m: int)
    requires |StoreRows(store, day)| > 0
    ensures IsFirstMin(StoreRows(store, day), m, Chunk)
    ensures var sc := ScalingOf(DayRows(store, day));
            |sc| > 0 && sc[0].library == StoreRows(store, day)[m].name
  {
    var s := StoreRows(store, day);
    m := SortHeadIsFirstMin(s, Chunk);
    var rows := DayRows(store, day);
    assert rows[0] == s[m];
    DedupHead(Names(rows));
  }

  /** The average once the rows of the target day and of the three earlier days are read. */
  function AverageOfDays(today: seq<BibReading>, past: seq<seq<BibReading>>): (d: FetchDayData)
    requires |past| == 3
    ensures d.scaling == ScalingOf(today) && |d.data| == 91
  {
    var sc := FetchDataForDay(today).scaling;
    ComputeAverage(seq(3, i requires 0 <= i < 3 => FetchWithScaling(past[i], sc)), sc)
  }

  /** `getAverageData`: the scaling of the target day, averaged over the three previous weeks. */
  function GetAverageData(store: seq<DatedReading>, date: int): (d: FetchDayData)
    ensures d.scaling == ScalingOf(DayRows(store, date)) && |d.data| == 91
  {
    var ds := PreviousDates(date);
    AverageOfDays(DayRows(store, date), [DayRows(store, ds[0]), DayRows(store, ds[1]), DayRows(store, ds[2])])
  }

  /** Only the target day and the three days 7, 14 and 21 days before it matter. */
  lemma AverageUsesThreeWeeks(s1: seq<DatedReading>, s2: seq<DatedReading>, date: int)
    requires DayRows(s1, date) == DayRows(s2, date)
    requires forall w :: 1 <= w <= 3 ==> DayRows(s1, date - 7 * w) == DayRows(s2, date - 7 * w)
    ensures GetAverageData(s1, date) == GetAverageData(s2, date)
  {
    assert DayRows(s1, date - 7 * 1) == DayRows(s2, date - 7 * 1);
    assert DayRows(s1, date - 7 * 2) == DayRows(s2, date - 7 * 2);
    assert DayRows(s1, date - 7 * 3) == DayRows(s2, date - 7 * 3);
  }
}
