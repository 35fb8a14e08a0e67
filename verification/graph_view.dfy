/** src/hooks/useGraphData.tsx: `filterData` (restrict the chart data to the selected
    libraries, then thin or cut it to the chosen time scale) and `mergeData` (lay the
    three-week average over the day's data). */
module GraphView {
  import opened Wrappers
  import opened Numeric
  import opened Text
  import opened Collections
  import opened DayData

  datatype GraphScaling = TenMinutes | Hourly | LastSixHours | LastThreeHours

  /** `Number(name)` for the names a scaling holds, which are decimal index strings:
      "" is 0 and a digit string its value. Every other string is taken as NaN
      (`None`), which no selected index equals; JavaScript reads some of them as
      numbers (signs, blanks, fractions, hexadecimal), but no scaling holds such a name. */
  function NumberOf(s: string): Option<int> {
    if |s| == 0 then Some(0)
    else if AllDigits(s) then Some(ParseDigits(s))
    else None
  }

  /** The index strings a selection looks up. */
  function SelectedKeys(selected: seq<int>): set<string> {
    set j | j in selected :: IntToString(j)
  }

  /** `selectedGraph.includes(Number(scale.name))`. */
  predicate IsSelected(sc: Scale, selected: seq<int>) {
    NumberOf(sc.index).Some? && NumberOf(sc.index).value in selected
  }

  /** `data.scaling.filter(...)`: each selected scale as often as it occurs, in
      scaling order. */
  function SelectScaling(scaling: seq<Scale>, selected: seq<int>): (r: seq<Scale>)
    ensures IsSubsequence(r, scaling)
    ensures forall sc :: multiset(r)[sc] == if IsSelected(sc, selected) then multiset(scaling)[sc] else 0
    ensures forall sc :: sc in r <==> sc in scaling && IsSelected(sc, selected)
    ensures |r| <= |scaling|
  {
    Filter(scaling, (sc: Scale) => IsSelected(sc, selected))
  }

  /** The new item: its label and the selected keys it already had. */
  function Restrict(item: DataItem, selected: seq<int>): (r: DataItem)
    ensures r.time == item.time
    ensures forall k :: k in r.values <==> k in item.values && k in SelectedKeys(selected)
    ensures forall k :: k in r.values ==> r.values[k] == item.values[k]
  {
    DataItem(item.time, map k | k in item.values && k in SelectedKeys(selected) :: item.values[k])
  }

  /** The selection step of `filterData`, skipped when nothing is selected. */
  function Select(data: FetchDayData, selected: seq<int>): (r: FetchDayData)
    ensures |r.data| == |data.data|
  {
    if |selected| > 0 then
      FetchDayData(SelectScaling(data.scaling, selected),
                   seq(|data.data|, i requires 0 <= i < |data.data| => Restrict(data.data[i], selected)))
    else data
  }

  /** `Object.keys(item).length > 1`: the item has a value besides its label. */
  predicate HasData(item: DataItem) {
    |item.values| > 0
  }

  /** `item.label.endsWith('00')`. */
  predicate OnTheHour(item: DataItem) {
    EndsWith(item.time, "00")
  }

  /** `items.filter(...)` for the full hours: each such item as often as it occurs,
      in order. */
  function HourlyItems(items: seq<DataItem>): (r: seq<DataItem>)
    ensures IsSubsequence(r, items)
    ensures forall x :: multiset(r)[x] == if OnTheHour(x) then multiset(items)[x] else 0
    ensures forall x :: x in r <==> x in items && OnTheHour(x)
  {
    Filter(items, OnTheHour)
  }

  /** `.map(hasData).lastIndexOf(true)`: -1 when no item has data. */
  function LastDataIndex(items: seq<DataItem>): (r: int)
    ensures -1 <= r < |items|
    ensures r >= 0 ==> HasData(items[r])
    ensures forall j :: r < j < |items| ==> !HasData(items[j])
  {
    if |items| == 0 then -1
    else if HasData(items[|items| - 1]) then |items| - 1
    else LastDataIndex(items[..|items| - 1])
  }

  /** `slice(Math.max(0, last - back), last + 1)`. */
  function Window(items: seq<DataItem>, back: nat): seq<DataItem> {
    var last := LastDataIndex(items);
    items[Max(0, last - back)..last + 1]
  }

  /** `filterData`. */
  function FilterData(data: FetchDayData, selected: seq<int>, mode: GraphScaling): (r: FetchDayData)
    ensures r.scaling == Select(data, selected).scaling
  {
    var f := Select(data, selected);
    match mode
    case TenMinutes => f
    case Hourly => FetchDayData(f.scaling, HourlyItems(f.data))
    case LastSixHours => FetchDayData(f.scaling, Window(f.data, 35))
    case LastThreeHours => FetchDayData(f.scaling, Window(f.data, 17))
  }

  // ---- properties of filterData -----------------------------------------------

  /** No selection and ten-minute scaling: the data comes back unchanged. */
  lemma UnfilteredIsIdentity(data: FetchDayData)
    ensures FilterData(data, [], TenMinutes) == data
  {}

  /** With a selection, the scaling keeps exactly the selected libraries and every item
      keeps its label and exactly the selected values it had. */
  lemma SelectionKeepsSelected(data: FetchDayData, selected: seq<int>, i: int)
    requires |selected| > 0 && 0 <= i < |data.data|
    ensures var r := FilterData(data, selected, TenMinutes);
            (forall sc :: sc in r.scaling <==> sc in data.scaling && IsSelected(sc, selected))
            && |r.data| == |data.data|
            && r.data[i].time == data.data[i].time
            && (forall k :: k in r.data[i].values <==> k in data.data[i].values && k in SelectedKeys(selected))
            && (forall k :: k in r.data[i].values ==> r.data[i].values[k] == data.data[i].values[k])
  {
    assert FilterData(data, selected, TenMinutes).data[i] == Restrict(data.data[i], selected);
  }

  /** A library named by its index string is selected exactly when its index is. */
  lemma IndexNameSelected(n: nat, library: string, selected: seq<int>)
    ensures IsSelected(Scale(NatToString(n), library), selected) <==> n in selected
  {
    ParseNatToString(n);
  }

  /** Hourly keeps exactly the items labelled "…00", each as often as it occurs, in
      their order. */
  lemma HourlyKeepsFullHours(data: FetchDayData, selected: seq<int>)
    ensures var f := Select(data, selected).data;
            var r := FilterData(data, selected, Hourly).data;
            IsSubsequence(r, f)
            && (forall x :: multiset(r)[x] == if OnTheHour(x) then multiset(f)[x] else 0)
            && (forall x :: x in r <==> x in f && OnTheHour(x))
  {
  }

  /** The last-hours views: the contiguous run `items[s..]` of `min(back + 1, last + 1)`
      items that ends at the last item with data (`last` is its position, -1 when no
      item has data, and then the run is empty). */
  lemma WindowShape(items: seq<DataItem>, back: nat) returns (s: nat)
    ensures var r := Window(items, back);
            var last := LastDataIndex(items);
            |r| == Min(back + 1, last + 1) && s + |r| == last + 1
            && s + |r| <= |items| && r == items[s..s + |r|]
            && (|r| == 0 <==> forall j :: 0 <= j < |items| ==> !HasData(items[j]))
            && (|r| > 0 ==> HasData(r[|r| - 1]))
            && (forall j :: s + |r| <= j < |items| ==> !HasData(items[j]))
  {
    var last := LastDataIndex(items);
    s := Max(0, last - back);
    var r := Window(items, back);
    assert r == items[s..last + 1];
    if last >= 0 {
      assert r[|r| - 1] == items[last];
    }
  }

  /** Six hours are 36 slots: the view holds the last item with data and up to 35
      items before it. */
  lemma LastSixHoursBound(data: FetchDayData, selected: seq<int>)
    ensures var f := Select(data, selected).data;
            var r := FilterData(data, selected, LastSixHours).data;
            |r| <= 36 && |r| == Min(36, LastDataIndex(f) + 1)
  {
    WindowLength(Select(data, selected).data, 35);
  }

  /** Three hours are 18 slots: the view holds the last item with data and up to 17
      items before it. */
  lemma LastThreeHoursBound(data: FetchDayData, selected: seq<int>)
    ensures var f := Select(data, selected).data;
            var r := FilterData(data, selected, LastThreeHours).data;
            |r| <= 18 && |r| == Min(18, LastDataIndex(f) + 1)
  {
    WindowLength(Select(data, selected).data, 17);
  }

  lemma WindowLength(items: seq<DataItem>, back: nat)
    ensures |Window(items, back)| == Min(back + 1, LastDataIndex(items) + 1)
  {}

  // ---- mergeData -------------------------------------------------------------

  function Prefixed(k: string): string {
    "avg_" + k
  }

  lemma PrefixedInjective(a: string, b: string)
    ensures Prefixed(a) == Prefixed(b) ==> a == b
  {
    if Prefixed(a) == Prefixed(b) {
      assert a == Prefixed(a)[4..];
    }
  }

  /** The average's scale: `avg_<name>` labelled `<label> (Avg)`. */
  function AvgScale(sc: Scale): Scale {
    Scale(Prefixed(sc.index), sc.library + " (Avg)")
  }

  /** The average item: its label and every value under `avg_<key>`. */
  function AvgItem(item: DataItem): (r: DataItem)
    ensures r.time == item.time
    ensures forall k :: Prefixed(k) in r.values <==> k in item.values
    ensures forall k :: k in item.values ==> r.values[Prefixed(k)] == item.values[k]
    ensures forall k :: k in r.values ==> HasAvgPrefix(k)
  {
    forall a, b ensures Prefixed(a) == Prefixed(b) ==> a == b {
      PrefixedInjective(a, b);
    }
    DataItem(item.time, map k | k in item.values :: Prefixed(k) := item.values[k])
  }

  /** `{ ...item, ...avgItem }`: the average's keys and label win; a missing average item
      (`undefined`) leaves the item as it is. */
  function Spread(item: DataItem, avg: seq<DataItem>, i: int): DataItem {
    if 0 <= i < |avg| then
      var a := AvgItem(avg[i]);
      DataItem(a.time, item.values + a.values)
    else item
  }

  /** `mergeData`. */
  function MergeData(orig: FetchDayData, avg: FetchDayData, showAverage: bool): (r: FetchDayData)
    ensures |r.data| == |orig.data|
  {
    if showAverage then
      FetchDayData(orig.scaling + seq(|avg.scaling|, i requires 0 <= i < |avg.scaling| => AvgScale(avg.scaling[i])),
                   seq(|orig.data|, i requires 0 <= i < |orig.data| => Spread(orig.data[i], avg.data, i)))
    else orig
  }

  /** Without the average the data is returned as it is. */
  lemma MergeWithoutAverage(orig: FetchDayData, avg: FetchDayData)
    ensures MergeData(orig, avg, false) == orig
  {}

  /** With the average: the original scales, then one renamed scale per average scale. */
  lemma MergedScaling(orig: FetchDayData, avg: FetchDayData, i: int)
    requires 0 <= i < |avg.scaling|
    ensures var s := MergeData(orig, avg, true).scaling;
            |s| == |orig.scaling| + |avg.scaling|
            && s[..|orig.scaling|] == orig.scaling
            && s[|orig.scaling| + i].index == "avg_" + avg.scaling[i].index
            && s[|orig.scaling| + i].library == avg.scaling[i].library + " (Avg)"
  {}

  function HasAvgPrefix(k: string): bool {
    |k| >= 4 && k[..4] == "avg_"
  }

  /** Spreading the average over an item keeps the item's own (unprefixed) values. */
  lemma SpreadKeepsOwn(item: DataItem, avg: seq<DataItem>, i: int, k: string)
    requires !HasAvgPrefix(k)
    ensures var m := Spread(item, avg, i);
            (k in m.values <==> k in item.values) && (k in m.values ==> m.values[k] == item.values[k])
  {
    if 0 <= i < |avg| {
      var a := AvgItem(avg[i]);
      assert k !in a.values;
    }
  }

  /** Spreading adds the average item's values under `avg_` keys and its label. */
  lemma SpreadAddsAverage(item: DataItem, avg: seq<DataItem>, i: int, k: string)
    requires 0 <= i < |avg|
    ensures var m := Spread(item, avg, i);
            m.time == avg[i].time
            && (k in avg[i].values ==> Prefixed(k) in m.values && m.values[Prefixed(k)] == avg[i].values[k])
  {}

  lemma MergedIsSpread(orig: FetchDayData, avg: FetchDayData, i: int)
    requires 0 <= i < |orig.data|
    ensures MergeData(orig, avg, true).data[i] == Spread(orig.data[i], avg.data, i)
  {}

  /** With the average, item `i` keeps its own values, gains the values of average
      item `i` under `avg_` keys and takes that item's label; items beyond the
      average's length are unchanged. */
  lemma MergedItem(orig: FetchDayData, avg: FetchDayData, i: int, k: string)
    requires 0 <= i < |orig.data|
    requires !HasAvgPrefix(k)
    ensures var m := MergeData(orig, avg, true).data[i];
            (k in m.values <==> k in orig.data[i].values)
            && (k in m.values ==> m.values[k] == orig.data[i].values[k])
            && (i < |avg.data| ==> (m.time == avg.data[i].time
                                    && (k in avg.data[i].values ==> m.values[Prefixed(k)] == avg.data[i].values[k])))
            && (i >= |avg.data| ==> m == orig.data[i])
  {
    MergedIsSpread(orig, avg, i);
    SpreadKeepsOwn(orig.data[i], avg.data, i, k);
    if i < |avg.data| {
      SpreadAddsAverage(orig.data[i], avg.data, i, k);
    }
  }

  /** The hook: both data sets filtered alike, then merged. */
  function GraphData(data: FetchDayData, avgData: FetchDayData, selected: seq<int>, mode: GraphScaling,
                     showAverage: bool): (r: FetchDayData)
    ensures |r.data| == |FilterData(data, selected, mode).data|
  {
    MergeData(FilterData(data, selected, mode), FilterData(avgData, selected, mode), showAverage)
  }
}
