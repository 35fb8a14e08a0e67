/** The helpers of src/components/HomePage.tsx: the suggested time to go (`whenToGo`)
    and the latest reading of a library (`getLatestOccupancy`), over the chart data
    of src/actions/data.action.ts. */
module Home {
  import opened Wrappers
  import opened Numeric
  import opened Text
  import opened DayData

  /** `whenToGo` returns the first item whose average exceeds this. */
  const Threshold: int := 65

  /** The libraries the page looks at: the selection, or all of them when none is selected. */
  function Indices(selected: seq<int>, entityCount: nat): (r: seq<int>)
    ensures |selected| > 0 ==> r == selected
    ensures |selected| == 0 ==> |r| == entityCount && forall i :: 0 <= i < entityCount ==> r[i] == i
  {
    if |selected| > 0 then selected else seq(entityCount, i => i)
  }

  /** The values of `item` under `String(index)` for the selected indices, in selection order. */
  function SelectedValues(item: DataItem, selected: seq<int>): seq<int> {
    if |selected| == 0 then []
    else
      var key := IntToString(selected[|selected| - 1]);
      SelectedValues(item, selected[..|selected| - 1]) + (if key in item.values then [item.values[key]] else [])
  }

  /** `count > 0 && total / count > 65`. */
  predicate Qualifies(item: DataItem, selected: seq<int>) {
    var vs := SelectedValues(item, selected);
    |vs| > 0 && Sum(vs) as real / |vs| as real > Threshold as real
  }

  /** In integers: the values sum to more than 65 times their number. */
  lemma QualifiesIff(item: DataItem, selected: seq<int>)
    ensures var vs := SelectedValues(item, selected);
            Qualifies(item, selected) <==> |vs| > 0 && Sum(vs) > Threshold * |vs|
  {
    var vs := SelectedValues(item, selected);
    if |vs| > 0 {
      var n := |vs| as real;
      var a := Sum(vs) as real / n;
      assert a * n == Sum(vs) as real;
      if Sum(vs) > Threshold * |vs| {
        assert a * n > Threshold as real * n;
      } else {
        assert a * n <= Threshold as real * n;
      }
    }
  }

  /** The comparison is strict: values averaging exactly 65 do not qualify. */
  lemma SixtyFiveIsNotEnough(item: DataItem, selected: seq<int>)
    requires forall i :: 0 <= i < |SelectedValues(item, selected)| ==> SelectedValues(item, selected)[i] <= Threshold
    ensures !Qualifies(item, selected)
  {
    QualifiesIff(item, selected);
    SumAtMost(SelectedValues(item, selected), Threshold);
  }

  /** The running `total` and `count` of `whenToGo` over one item. */
  method Totals(item: DataItem, selected: seq<int>) returns (total: int, count: int)
    ensures total == Sum(SelectedValues(item, selected))
    ensures count == |SelectedValues(item, selected)|
  {
    total, count := 0, 0;
    var k := 0;
    while k < |selected|
      invariant 0 <= k <= |selected|
      invariant total == Sum(SelectedValues(item, selected[..k]))
      invariant count == |SelectedValues(item, selected[..k])|
    {
      var key := IntToString(selected[k]);
      assert selected[..k + 1][..k] == selected[..k];
      assert SelectedValues(item, selected[..k + 1])
          == SelectedValues(item, selected[..k]) + (if key in item.values then [item.values[key]] else []);
      if key in item.values {
        SumAppend(SelectedValues(item, selected[..k]), item.values[key]);
        total := total + item.values[key];
        count := count + 1;
      } else {
        assert SelectedValues(item, selected[..k]) + [] == SelectedValues(item, selected[..k]);
      }
      k := k + 1;
    }
    assert selected[..k] == selected;
  }

  /** `whenToGo`: the label of the first item whose selected values average above 65. */
  method WhenToGo(avg: FetchDayData, selected: seq<int>) returns (r: Option<string>)
    ensures r.None? <==> forall i :: 0 <= i < |avg.data| ==> !Qualifies(avg.data[i], selected)
    ensures r.Some? ==> exists i :: 0 <= i < |avg.data| && Qualifies(avg.data[i], selected)
                                    && r.value == avg.data[i].time
                                    && forall j :: 0 <= j < i ==> !Qualifies(avg.data[j], selected)
  {
    var i := 0;
    while i < |avg.data|
      invariant 0 <= i <= |avg.data|
      invariant forall j :: 0 <= j < i ==> !Qualifies(avg.data[j], selected)
    {
      var total, count := Totals(avg.data[i], selected);
      QualifiesIff(avg.data[i], selected);
      if count > 0 && total > Threshold * count {
        return Some(avg.data[i].time);
      }
      i := i + 1;
    }
    return None;
  }

  /** The value under `String(index)` in the last item that has one, or 0. */
  function LatestOccupancy(index: int, items: seq<DataItem>): (v: int)
    ensures (forall i :: 0 <= i < |items| ==> IntToString(index) !in items[i].values) ==> v == 0
    ensures (exists i :: 0 <= i < |items| && IntToString(index) in items[i].values) ==>
              exists i :: 0 <= i < |items| && IntToString(index) in items[i].values
                          && v == items[i].values[IntToString(index)]
                          && forall j :: i < j < |items| ==> IntToString(index) !in items[j].values
  {
    if |items| == 0 then 0
    else
      var key := IntToString(index);
      var last := items[|items| - 1];
      if key in last.values then last.values[key]
      else
        var init := items[..|items| - 1];
        assert forall i :: 0 <= i < |init| ==> init[i] == items[i];
        LatestOccupancy(index, init)
  }

  /** `getLatestOccupancy(index, data)`. */
  function GetLatestOccupancy(index: int, data: FetchDayData): int {
    LatestOccupancy(index, data.data)
  }
}
