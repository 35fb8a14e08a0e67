/** utils/db.ts `getDataForGraph` after its query: 144 points, one every ten minutes,
    each the mean percentage of the entries within five minutes of it. Times are
    milliseconds; `dayStart` is the local midnight the argument is reset to and
    `todayEnd` the last millisecond of the current day. */
module GraphWindow {
  import opened Numeric
  import opened Text
  import opened Collections
  import Slots

  const MinuteMs: int := 60000

  datatype DataEntry = DataEntry(name: string, date: int, percentage: real)

  datatype GraphPoint = GraphPoint(time: string, percentage: real)

  /** The query's condition: the entry's library is `name` and its time lies from
      `dayStart` to `todayEnd`, both inclusive. */
  predicate Matches(e: DataEntry, name: string, dayStart: int, todayEnd: int) {
    e.name == name && dayStart <= e.date <= todayEnd
  }

  /** The query: the matching entries, each as often as it is stored, in store order. */
  function Queried(entries: seq<DataEntry>, name: string, dayStart: int, todayEnd: int): (r: seq<DataEntry>)
    ensures IsSubsequence(r, entries)
    ensures forall e :: multiset(r)[e] == if Matches(e, name, dayStart, todayEnd) then multiset(entries)[e] else 0
    ensures forall e :: e in r <==> e in entries && Matches(e, name, dayStart, todayEnd)
    ensures todayEnd < dayStart ==> r == []
  {
    Filter(entries, (e: DataEntry) => Matches(e, name, dayStart, todayEnd))
  }

  /** The middle of slot `i`: `dayStart` plus `10 * i` minutes. */
  function Centre(dayStart: int, i: int): int {
    dayStart + i * 10 * MinuteMs
  }

  /** `date` lies within `[centre - 5 min, centre + 5 min]`. */
  predicate Near(date: int, centre: int) {
    centre - 5 * MinuteMs <= date <= centre + 5 * MinuteMs
  }

  /** The entries within five minutes of `centre`: each as often as it occurs, in
      query order. */
  function InWindow(es: seq<DataEntry>, centre: int): (r: seq<DataEntry>)
    ensures IsSubsequence(r, es)
    ensures forall e :: multiset(r)[e] == if Near(e.date, centre) then multiset(es)[e] else 0
    ensures forall e :: e in r <==> e in es && Near(e.date, centre)
  {
    Filter(es, (e: DataEntry) => Near(e.date, centre))
  }

  function Percentages(es: seq<DataEntry>): (ps: seq<real>)
    ensures |ps| == |es| && forall i :: 0 <= i < |es| ==> ps[i] == es[i].percentage
  {
    if |es| == 0 then [] else Percentages(es[..|es| - 1]) + [es[|es| - 1].percentage]
  }

  /** `reduce(sum) / length`, or 0 for an empty window. */
  function MeanOrZero(ps: seq<real>): real {
    if |ps| == 0 then 0.0 else SumReal(ps) / |ps| as real
  }

  /** `format(centerTime, 'HH:mm')` for the slot `hour:min`. */
  function PointAt(es: seq<DataEntry>, dayStart: int, i: int): GraphPoint {
    GraphPoint(TimeLabel(i / 6, (i % 6) * 10), MeanOrZero(Percentages(InWindow(es, Centre(dayStart, i)))))
  }

  /** `getDataForGraph` after the query. */
  function GetDataForGraph(entries: seq<DataEntry>, name: string, dayStart: int, todayEnd: int): (pts: seq<GraphPoint>)
    ensures |pts| == Slots.SlotsPerDay
  {
    var es := Queried(entries, name, dayStart, todayEnd);
    seq(Slots.SlotsPerDay, i => PointAt(es, dayStart, i))
  }

  lemma PointIndex(entries: seq<DataEntry>, name: string, dayStart: int, todayEnd: int, i: int)
    requires 0 <= i < Slots.SlotsPerDay
    ensures GetDataForGraph(entries, name, dayStart, todayEnd)[i]
         == PointAt(Queried(entries, name, dayStart, todayEnd), dayStart, i)
  {}

  /** The points are labelled 00:00, 00:10, …, 23:50 in order, the same labels as the slots. */
  lemma GraphLabels(entries: seq<DataEntry>, name: string, dayStart: int, todayEnd: int, i: int)
    requires 0 <= i < Slots.SlotsPerDay
    ensures GetDataForGraph(entries, name, dayStart, todayEnd)[i].time == Slots.FormatTime(i)
  {
    PointIndex(entries, name, dayStart, todayEnd, i);
    Slots.FormatTimeInDay(i);
  }

  /** An entry of the right name, inside the query's range and within five minutes of a
      slot's centre counts towards that slot's value. */
  lemma EntryCounts(entries: seq<DataEntry>, name: string, dayStart: int, todayEnd: int, i: int, e: DataEntry)
    requires 0 <= i < Slots.SlotsPerDay
    ensures e in InWindow(Queried(entries, name, dayStart, todayEnd), Centre(dayStart, i))
            <==> e in entries && e.name == name && dayStart <= e.date <= todayEnd
                 && Centre(dayStart, i) - 5 * MinuteMs <= e.date <= Centre(dayStart, i) + 5 * MinuteMs
  {}

  /** An entry exactly five minutes after a slot's centre lies in that slot's window
      and in the next one, so it is counted twice. */
  lemma BoundaryEntryCountsTwice(entries: seq<DataEntry>, name: string, dayStart: int, todayEnd: int, i: int, e: DataEntry)
    requires 0 <= i < Slots.SlotsPerDay - 1
    requires e in entries && e.name == name && dayStart <= e.date <= todayEnd
    requires e.date == Centre(dayStart, i) + 5 * MinuteMs
    ensures var es := Queried(entries, name, dayStart, todayEnd);
            e in InWindow(es, Centre(dayStart, i)) && e in InWindow(es, Centre(dayStart, i + 1))
  {
    assert Centre(dayStart, i + 1) == Centre(dayStart, i) + 10 * MinuteMs;
  }

  /** Readings within 0..100 give points within 0..100; a window without entries gives 0. */
  lemma MeanOrZeroBounds(ps: seq<real>)
    requires forall i :: 0 <= i < |ps| ==> 0.0 <= ps[i] <= 100.0
    ensures 0.0 <= MeanOrZero(ps) <= 100.0
    ensures |ps| == 0 ==> MeanOrZero(ps) == 0.0
  {
    if |ps| > 0 {
      SumRealBetween(ps, 0.0, 100.0);
    }
  }

  lemma {:induction false} SumRealBetween(ps: seq<real>, lo: real, hi: real)
    requires forall i :: 0 <= i < |ps| ==> lo <= ps[i] <= hi
    ensures |ps| as real * lo <= SumReal(ps) <= |ps| as real * hi
  {
    if |ps| > 0 {
      var init := ps[..|ps| - 1];
      assert forall i :: 0 <= i < |init| ==> init[i] == ps[i];
      SumRealBetween(init, lo, hi);
    }
  }

  /** Every point of a series of percentages lies within 0..100. */
  lemma GraphValuesInRange(entries: seq<DataEntry>, name: string, dayStart: int, todayEnd: int, i: int)
    requires forall k :: 0 <= k < |entries| ==> 0.0 <= entries[k].percentage <= 100.0
    requires 0 <= i < Slots.SlotsPerDay
    ensures 0.0 <= GetDataForGraph(entries, name, dayStart, todayEnd)[i].percentage <= 100.0
  {
    PointIndex(entries, name, dayStart, todayEnd, i);
    var ps := Percentages(InWindow(Queried(entries, name, dayStart, todayEnd), Centre(dayStart, i)));
    forall k | 0 <= k < |ps| ensures 0.0 <= ps[k] <= 100.0 {
      var w := InWindow(Queried(entries, name, dayStart, todayEnd), Centre(dayStart, i));
      assert w[k] in w;
    }
    MeanOrZeroBounds(ps);
  }

  /** The query stops at the end of the current day, not of the requested one: for a
      day that starts after today ends, every point is 0. */
  lemma FutureDayIsEmpty(entries: seq<DataEntry>, name: string, dayStart: int, todayEnd: int, i: int)
    requires todayEnd < dayStart && 0 <= i < Slots.SlotsPerDay
    ensures GetDataForGraph(entries, name, dayStart, todayEnd)[i].percentage == 0.0
  {
    PointIndex(entries, name, dayStart, todayEnd, i);
  }
}
