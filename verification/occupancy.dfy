/** lib/occupancy.ts (`getDailyOccupancy` after its two queries): one day's stored
    readings and stored predictions merged into a series per library. */
module Occupancy {
  import opened Wrappers
  import opened Numeric
  import opened Text
  import opened Collections
  import opened Sorting
  import Slots

  /** A row of either query: name, chunk and value are nullable columns. */
  datatype SlotRow = SlotRow(name: Option<string>, chunk: Option<int>, value: Option<int>)

  /** `occupancy` is always a number here; `prediction` is present or absent. */
  datatype DayPoint = DayPoint(time: string, occupancy: int, prediction: Option<int>)

  datatype DailyOccupancy = DailyOccupancy(date: string, occupancy: map<string, seq<DayPoint>>)

  /** `r.name ?? ''`. */
  function NameKey(r: SlotRow): string {
    r.name.GetOr("")
  }

  function NameKeys(rows: seq<SlotRow>): (names: seq<string>)
    ensures |names| == |rows| && forall i :: 0 <= i < |rows| ==> names[i] == NameKey(rows[i])
  {
    if |rows| == 0 then [] else NameKeys(rows[..|rows| - 1]) + [NameKey(rows[|rows| - 1])]
  }

  /** `Array.from(libSet).sort()` over the names of both row sets. */
  function Libraries(dataRows: seq<SlotRow>, predRows: seq<SlotRow>): seq<string> {
    SortStrings(Dedup(NameKeys(dataRows) + NameKeys(predRows)))
  }

  /** Some row of `rows` has name key `x`. */
  ghost predicate NamedIn(rows: seq<SlotRow>, x: string) {
    exists i :: 0 <= i < |rows| && NameKey(rows[i]) == x
  }

  lemma NameKeysMembership(rows: seq<SlotRow>, x: string)
    ensures x in NameKeys(rows) <==> NamedIn(rows, x)
  {
    var names := NameKeys(rows);
    if x in names {
      var k :| 0 <= k < |names| && names[k] == x;
      assert NameKey(rows[k]) == x;
    }
  }

  lemma DedupMembership(s: seq<string>, x: string)
    ensures x in Dedup(s) <==> x in s
  {
    if x in s {
      var k :| 0 <= k < |s| && s[k] == x;
    }
  }

  /** The library keys are the names of either row set, a null name giving "",
      each once and in ascending order. */
  lemma LibrariesAreSortedNames(dataRows: seq<SlotRow>, predRows: seq<SlotRow>)
    ensures forall x :: x in Libraries(dataRows, predRows) <==> NamedIn(dataRows, x) || NamedIn(predRows, x)
    ensures var libs := Libraries(dataRows, predRows);
            forall i, j :: 0 <= i < j < |libs| ==> StrLess(libs[i], libs[j])
  {
    var all := NameKeys(dataRows) + NameKeys(predRows);
    SortDistinctStrings(Dedup(all));
    forall x ensures x in Libraries(dataRows, predRows) <==> NamedIn(dataRows, x) || NamedIn(predRows, x) {
      DedupMembership(all, x);
      NameKeysMembership(dataRows, x);
      NameKeysMembership(predRows, x);
    }
  }

  // ---- the lookup maps ------------------------------------------------------

  /** A row that enters a map: no null name, chunk or value. */
  predicate Complete(r: SlotRow) {
    r.name.Some? && r.chunk.Some? && r.value.Some?
  }

  function Entries(rows: seq<SlotRow>): seq<((string, int), int)> {
    if |rows| == 0 then []
    else
      var r := rows[|rows| - 1];
      Entries(rows[..|rows| - 1]) + (if Complete(r) then [((r.name.value, r.chunk.value), r.value.value)] else [])
  }

  /** `occMap` / `predMap`: `map.get(name).set(chunk, value)` in row order. */
  function SlotMap(rows: seq<SlotRow>): map<(string, int), int> {
    SetAll(Entries(rows))
  }

  /** `map.get(lib)?.get(chunk)`. */
  function Lookup(m: map<(string, int), int>, lib: string, chunk: int): Option<int> {
    if (lib, chunk) in m then Some(m[(lib, chunk)]) else None
  }

  /** Reference: the value of the last complete row for (`lib`, `chunk`). */
  function LastValue(rows: seq<SlotRow>, lib: string, chunk: int): Option<int> {
    if |rows| == 0 then None
    else
      var r := rows[|rows| - 1];
      if Complete(r) && r.name.value == lib && r.chunk.value == chunk then Some(r.value.value)
      else LastValue(rows[..|rows| - 1], lib, chunk)
  }

  /** Duplicate rows: the last complete one wins; incomplete rows are ignored. */
  lemma {:induction false} SlotMapIsLastRow(rows: seq<SlotRow>, lib: string, chunk: int)
    ensures Lookup(SlotMap(rows), lib, chunk) == LastValue(rows, lib, chunk)
  {
    SetAllIsLastWins(Entries(rows), (lib, chunk));
    LastForEntries(rows, lib, chunk);
  }

  lemma {:induction false} LastForEntries(rows: seq<SlotRow>, lib: string, chunk: int)
    ensures LastFor(Entries(rows), (lib, chunk)) == LastValue(rows, lib, chunk)
  {
    if |rows| > 0 {
      var init := rows[..|rows| - 1];
      var r := rows[|rows| - 1];
      LastForEntries(init, lib, chunk);
      var e := Entries(init);
      if Complete(r) {
        var x := ((r.name.value, r.chunk.value), r.value.value);
        assert Entries(rows) == e + [x];
        assert (e + [x])[..|e|] == e;
      } else {
        assert Entries(rows) == e + [] == e;
      }
    }
  }

  // ---- assembly -------------------------------------------------------------

  /** Slot `chunk` of `lib`: the reading or 0, and the prediction only if one exists. */
  function PointFor(occ: map<(string, int), int>, pred: map<(string, int), int>, lib: string, chunk: int): (p: DayPoint)
    ensures p.time == Slots.FormatTime(chunk)
  {
    DayPoint(Slots.FormatTime(chunk), Lookup(occ, lib, chunk).GetOr(0), Lookup(pred, lib, chunk))
  }

  /** The points of one library for chunks `start..end`; none when end < start. */
  function LibrarySeries(occ: map<(string, int), int>, pred: map<(string, int), int>, lib: string,
                         start: int, end: int): (pts: seq<DayPoint>)
    ensures |pts| == Max(0, end - start + 1)
    ensures forall i :: 0 <= i < |pts| ==> pts[i] == PointFor(occ, pred, lib, start + i)
  {
    seq(Max(0, end - start + 1), i => PointFor(occ, pred, lib, start + i))
  }

  /** `getDailyOccupancy` once both row sets are known. */
  function GetDailyOccupancy(date: string, dataRows: seq<SlotRow>, predRows: seq<SlotRow>,
                             start: int, end: int): (d: DailyOccupancy)
    ensures d.date == date
    ensures forall lib :: lib in d.occupancy <==> lib in Libraries(dataRows, predRows)
    ensures forall lib :: lib in d.occupancy ==> |d.occupancy[lib]| == Max(0, end - start + 1)
  {
    var occ, pred := SlotMap(dataRows), SlotMap(predRows);
    DailyOccupancy(date, map lib | lib in Libraries(dataRows, predRows) :: LibrarySeries(occ, pred, lib, start, end))
  }

  /** Each library's series is `LibrarySeries` over the two lookup maps. */
  lemma {:induction false} SeriesOfLibrary(date: string, dataRows: seq<SlotRow>, predRows: seq<SlotRow>, start: int, end: int, lib: string)
    requires lib in Libraries(dataRows, predRows)
    ensures GetDailyOccupancy(date, dataRows, predRows, start, end).occupancy[lib]
         == LibrarySeries(SlotMap(dataRows), SlotMap(predRows), lib, start, end)
  {}

  /** Slot `i` of a series: labelled with chunk `start + i`, occupancy the last reading
      or 0, prediction present exactly when a prediction row exists. */
  lemma {:induction false} SeriesPoint(dataRows: seq<SlotRow>, predRows: seq<SlotRow>, lib: string, start: int, end: int, i: int)
    requires 0 <= i <= end - start
    ensures LibrarySeries(SlotMap(dataRows), SlotMap(predRows), lib, start, end)[i].time == Slots.FormatTime(start + i)
    ensures LibrarySeries(SlotMap(dataRows), SlotMap(predRows), lib, start, end)[i].occupancy
         == LastValue(dataRows, lib, start + i).GetOr(0)
    ensures LibrarySeries(SlotMap(dataRows), SlotMap(predRows), lib, start, end)[i].prediction
         == LastValue(predRows, lib, start + i)
  {
    SlotMapIsLastRow(dataRows, lib, start + i);
    SlotMapIsLastRow(predRows, lib, start + i);
  }


  /** A slot without any reading shows 0, not null. */
  lemma {:induction false} MissingReadingIsZero(dataRows: seq<SlotRow>, predRows: seq<SlotRow>, lib: string, start: int, end: int, i: int)
    requires 0 <= i <= end - start
    requires forall k :: 0 <= k < |dataRows| && Complete(dataRows[k]) ==>
               dataRows[k].name.value != lib || dataRows[k].chunk.value != start + i
    ensures LibrarySeries(SlotMap(dataRows), SlotMap(predRows), lib, start, end)[i].occupancy == 0
  {
    SeriesPoint(dataRows, predRows, lib, start, end, i);
    NoRowNoValue(dataRows, lib, start + i);
  }

  lemma {:induction false} NoRowNoValue(rows: seq<SlotRow>, lib: string, chunk: int)
    requires forall k :: 0 <= k < |rows| && Complete(rows[k]) ==> rows[k].name.value != lib || rows[k].chunk.value != chunk
    ensures LastValue(rows, lib, chunk) == None
  {
    if |rows| > 0 {
      var init := rows[..|rows| - 1];
      assert forall k :: 0 <= k < |init| ==> init[k] == rows[k];
      NoRowNoValue(init, lib, chunk);
    }
  }
}
