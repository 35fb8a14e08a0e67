/** The forecaster of lib/prediction.ts (`getPrediction`): for one date and one
    range of 10-minute slots it builds, per library, a regression over the same
    weekday of the previous eight weeks, anchored to today's live reading.

    Dates are day numbers (day 0 = 2000-01-01, so `year >= 2000` is `day >= 0`),
    the database is a sequence of rows that the single query filters, and the
    clock arrives as parameters. */
module Prediction {
  import opened Wrappers
  import opened Numeric
  import opened Text
  import opened Collections
  import opened PredictionStats
  import Slots

  const WeeksLookback: nat := 8
  const MinDayAvg: int := 10
  const MinValidOcc: int := 1
  const AllLibs: seq<string> := ["A3", "A5", "Jura", "Schloss", "BWL"]

  /** A stored reading. `lib` is "" for a missing or empty name (both fail `!lib`);
      `chunk` and `occ` are nullable columns. */
  datatype Row = Row(lib: string, day: int, chunk: Option<int>, occ: Option<int>)

  /** One slot of the answer. `None` is `null` for the occupancy and an absent
      field for the prediction. */
  datatype Point = Point(time: string, occupancy: Option<int>, prediction: Option<int>)

  datatype Forecast = Forecast(date: int, occupancy: map<string, seq<Point>>)

  // ---- chunkToTime ----------------------------------------------------------

  /** `(c / 6).toFixed(0)`: the magnitude rounded half up, the sign written first,
      so that -0.5 < c / 6 < 0 prints as "-0". */
  function HourField(c: int): string {
    if c < 0 then "-" + NatToString((-c + 3) / 6) else NatToString((c + 3) / 6)
  }

  /** `chunkToTime`: unlike the slot labels elsewhere, the hour is c / 6 ROUNDED. */
  function ChunkToTime(c: int): string {
    PadStart2(HourField(c)) + ":" + Pad2Int(JsRem(c, 6) * 10)
  }

  /** The hour of a label is the nearest whole hour to c / 6 (halves round up),
      not the hour the slot lies in. */
  lemma ChunkToTimeRoundsHour(c: int) returns (h: int)
    requires c >= 0
    ensures 6 * h - 3 <= c < 6 * h + 3
    ensures ChunkToTime(c) == TimeLabel(h, (c % 6) * 10)
  {
    h := (c + 3) / 6;
    assert IntToString(h) == NatToString(h);
  }

  /** The label agrees with the slot's own "HH:MM" exactly in the first half of
      each hour. */
  lemma ChunkToTimeMatchesSlotLabel(c: int)
    requires c >= 0
    ensures ChunkToTime(c) == Slots.FormatTime(c) <==> c % 6 < 3
  {
    var h := ChunkToTimeRoundsHour(c);
    assert Slots.FormatTime(c) == TimeLabel(c / 6, (c % 6) * 10);
    if ChunkToTime(c) == Slots.FormatTime(c) {
      TimeLabelInjective(h, (c % 6) * 10, c / 6, (c % 6) * 10);
    }
  }

  /** Half past one is labelled "01:30", but 23:30 is labelled "24:30" and the
      slot before midnight of the previous day "-0:-10". */
  lemma ChunkToTimeHalfPastOne()
    ensures ChunkToTime(3) == "01:30"
  {
    assert HourField(3) == "1" by {
      assert DigitChar(1) == '1';
    }
    assert Pad2Int(JsRem(3, 6) * 10) == "30" by {
      assert JsRem(3, 6) == 3;
      assert NatToString(30) == "30" by {
        assert DigitChar(3) == '3' && DigitChar(0) == '0';
        assert NatToString(3) == "3";
      }
    }
  }

  lemma ChunkToTimeHalfPastEleven()
    ensures ChunkToTime(141) == "24:30"
  {
    assert HourField(141) == "24" by {
      assert DigitChar(2) == '2' && DigitChar(4) == '4';
      assert NatToString(2) == "2";
    }
    assert Pad2Int(JsRem(141, 6) * 10) == "30" by {
      assert JsRem(141, 6) == 3;
      assert NatToString(30) == "30" by {
        assert DigitChar(3) == '3' && DigitChar(0) == '0';
        assert NatToString(3) == "3";
      }
    }
  }

  lemma ChunkToTimeNegative()
    ensures ChunkToTime(-1) == "-0:-10"
  {
    assert DigitChar(1) == '1' && DigitChar(0) == '0';
    assert NatToString(0) == "0";
    assert HourField(-1) == "-0";
    assert JsRem(-1, 6) == -1;
    assert NatToString(10) == NatToString(1) + [DigitChar(0)] == "10";
    assert IntToString(-10) == "-10";
    assert Pad2Int(-10) == "-10";
  }

  // ---- historyDays ----------------------------------------------------------

  /** The same weekday 1..n weeks before `target`, most recent first. */
  function WeeksBack(target: int, n: nat): (ds: seq<int>)
    ensures |ds| == n
    ensures forall i :: 0 <= i < n ==> ds[i] == target - 7 * (i + 1)
  {
    if n == 0 then [] else WeeksBack(target, n - 1) + [target - 7 * n]
  }

  /** `filter((d) => d.year >= 2000)`. */
  function From2000(ds: seq<int>): (r: seq<int>) {
    if |ds| == 0 then []
    else From2000(ds[..|ds| - 1]) + (if ds[|ds| - 1] >= 0 then [ds[|ds| - 1]] else [])
  }

  lemma {:induction false} From2000WeeksBack(target: int, n: nat)
    ensures From2000(WeeksBack(target, n)) == WeeksBack(target, if target < 7 then 0 else Min(n, target / 7))
  {
    if n > 0 {
      From2000WeeksBack(target, n - 1);
      assert WeeksBack(target, n)[..n - 1] == WeeksBack(target, n - 1);
    }
  }

  /** `historyDays`: the same weekday of the previous eight weeks, most recent
      first, dropping those before 2000; empty exactly when the target is in the
      first week of 2000 or earlier. */
  function HistoryDays(target: int): (days: seq<int>)
    ensures |days| == if target < 7 then 0 else Min(WeeksLookback, target / 7)
    ensures forall i :: 0 <= i < |days| ==> days[i] == target - 7 * (i + 1) && days[i] >= 0
    ensures days == [] <==> target < 7
  {
    From2000WeeksBack(target, WeeksLookback);
    From2000(WeeksBack(target, WeeksLookback))
  }

  /** Monday-based week number; day -5 (1999-12-27) was a Monday. */
  function WeekIndex(day: int): int {
    (day + 5) / 7
  }

  /** `Math.round(target.startOf('week').diff(d.startOf('week'), 'weeks').weeks)`. */
  function OffsetWeeks(target: int, day: int): int {
    WeekIndex(target) - WeekIndex(day)
  }

  /** The history day k weeks back has week offset k; the target itself has 0. */
  lemma OffsetOfWeeksBack(target: int, k: int)
    ensures OffsetWeeks(target, target - 7 * k) == k
  {
    assert (target - 7 * k + 5) / 7 == (target + 5) / 7 - k;
  }

  // ---- the query ------------------------------------------------------------

  /** The days the single query asks for: the history, plus today when the target
      is today. */
  function QueryDays(target: int, isToday: bool): seq<int> {
    HistoryDays(target) + (if isToday then [target] else [])
  }

  /** The query's condition `day IN (...)`. */
  predicate Asked(r: Row, days: seq<int>) {
    r.day in days
  }

  /** The rows of `store` whose day is one of `days`: each such row as often as it
      is stored, in store order. */
  function Query(store: seq<Row>, days: seq<int>): (rows: seq<Row>)
    ensures IsSubsequence(rows, store)
    ensures forall x :: multiset(rows)[x] == if Asked(x, days) then multiset(store)[x] else 0
    ensures forall i :: 0 <= i < |rows| ==> rows[i] in store && rows[i].day in days
    ensures forall i :: 0 <= i < |store| && store[i].day in days ==> store[i] in rows
  {
    Filter(store, (r: Row) => Asked(r, days))
  }

  // ---- day quality ----------------------------------------------------------

  /** A row the first pass looks at: it has a library and a chunk. */
  predicate Keyed(r: Row) {
    r.lib != "" && r.chunk.Some?
  }

  /** `(occ ?? 0) >= MIN_VALID_OCC`. */
  predicate Valid(r: Row) {
    r.occ.GetOr(0) >= MinValidOcc
  }

  datatype DayTotal = DayTotal(sum: int, n: nat)

  /** `daySum`: per library and day, the sum and count of the valid readings. An
      entry exists once any keyed row of that library and day was seen. */
  function DaySums(rows: seq<Row>): map<(string, int), DayTotal> {
    if |rows| == 0 then map[]
    else
      var m := DaySums(rows[..|rows| - 1]);
      var r := rows[|rows| - 1];
      if !Keyed(r) then m
      else
        var key := (r.lib, r.day);
        var t := if key in m then m[key] else DayTotal(0, 0);
        m[key := if Valid(r) then DayTotal(t.sum + r.occ.value, t.n + 1) else t]
  }

  /** `allowedDays`: a day counts for a library when it has valid readings and
      their average is at least MIN_DAY_AVG. */
  predicate AllowedDay(sums: map<(string, int), DayTotal>, lib: string, day: int) {
    (lib, day) in sums && sums[(lib, day)].n > 0
    && sums[(lib, day)].sum as real / sums[(lib, day)].n as real >= MinDayAvg as real
  }

  /** Reference: the valid readings of one library on one day, in row order. */
  function DayReadings(rows: seq<Row>, lib: string, day: int): (ys: seq<int>)
    ensures forall i :: 0 <= i < |ys| ==> ys[i] >= MinValidOcc
  {
    if |rows| == 0 then []
    else
      var r := rows[|rows| - 1];
      DayReadings(rows[..|rows| - 1], lib, day)
        + (if Keyed(r) && Valid(r) && r.lib == lib && r.day == day then [r.occ.value] else [])
  }

  /** The running totals are the sum and count of the reference readings. */
  lemma {:induction false} DaySumsCountReadings(rows: seq<Row>, lib: string, day: int)
    ensures (lib, day) in DaySums(rows) ==>
              DaySums(rows)[(lib, day)] == DayTotal(Sum(DayReadings(rows, lib, day)), |DayReadings(rows, lib, day)|)
    ensures (lib, day) !in DaySums(rows) ==> DayReadings(rows, lib, day) == []
  {
    if |rows| > 0 {
      var init := rows[..|rows| - 1];
      var r := rows[|rows| - 1];
      DaySumsCountReadings(init, lib, day);
      assert rows == init + [r];
      if Keyed(r) && r.lib == lib && r.day == day {
        DaySumsOwnRow(init, r);
      } else {
        DaySumsOtherRow(init, r, lib, day);
      }
    }
  }

  lemma DaySumsOwnRow(init: seq<Row>, r: Row)
    requires Keyed(r)
    requires (r.lib, r.day) in DaySums(init) ==>
               DaySums(init)[(r.lib, r.day)] == DayTotal(Sum(DayReadings(init, r.lib, r.day)), |DayReadings(init, r.lib, r.day)|)
    requires (r.lib, r.day) !in DaySums(init) ==> DayReadings(init, r.lib, r.day) == []
    ensures var rows := init + [r];
            (r.lib, r.day) in DaySums(rows)
            && DaySums(rows)[(r.lib, r.day)] == DayTotal(Sum(DayReadings(rows, r.lib, r.day)), |DayReadings(rows, r.lib, r.day)|)
  {
    var rows := init + [r];
    assert rows[..|rows| - 1] == init;
    var prev := DayReadings(init, r.lib, r.day);
    if Valid(r) {
      assert DayReadings(rows, r.lib, r.day) == prev + [r.occ.value];
      SumAppend(prev, r.occ.value);
    } else {
      assert DayReadings(rows, r.lib, r.day) == prev + [] == prev;
    }
  }

  lemma DaySumsOtherRow(init: seq<Row>, r: Row, lib: string, day: int)
    requires !(Keyed(r) && r.lib == lib && r.day == day)
    requires (lib, day) in DaySums(init) ==>
               DaySums(init)[(lib, day)] == DayTotal(Sum(DayReadings(init, lib, day)), |DayReadings(init, lib, day)|)
    requires (lib, day) !in DaySums(init) ==> DayReadings(init, lib, day) == []
    ensures var rows := init + [r];
            ((lib, day) in DaySums(rows) ==>
               DaySums(rows)[(lib, day)] == DayTotal(Sum(DayReadings(rows, lib, day)), |DayReadings(rows, lib, day)|))
            && ((lib, day) !in DaySums(rows) ==> DayReadings(rows, lib, day) == [])
  {
    var rows := init + [r];
    assert rows[..|rows| - 1] == init;
    assert DayReadings(rows, lib, day) == DayReadings(init, lib, day) + [] == DayReadings(init, lib, day);
    assert (lib, day) in DaySums(rows) <==> (lib, day) in DaySums(init);
  }

  /** A day is allowed exactly when it has valid readings averaging at least
      MIN_DAY_AVG. */
  lemma AllowedDayIff(rows: seq<Row>, lib: string, day: int)
    ensures var ys := DayReadings(rows, lib, day);
            AllowedDay(DaySums(rows), lib, day) <==> |ys| > 0 && Sum(ys) >= MinDayAvg * |ys|
  {
    DaySumsCountReadings(rows, lib, day);
    var ys := DayReadings(rows, lib, day);
    if |ys| > 0 {
      AverageAtLeast(Sum(ys), |ys|, MinDayAvg);
    }
  }

  lemma AverageAtLeast(sum: int, n: int, m: int)
    requires n > 0
    ensures sum as real / n as real >= m as real <==> sum >= m * n
  {
    assert sum as real / n as real * n as real == sum as real;
    assert (m * n) as real == m as real * n as real;
  }

  /** Rows of other libraries or days, and readings below MIN_VALID_OCC, do not
      change whether a day is allowed. */
  lemma OtherRowsDoNotAffectDay(rows: seq<Row>, r: Row, lib: string, day: int)
    requires !(Keyed(r) && Valid(r) && r.lib == lib && r.day == day)
    ensures AllowedDay(DaySums(rows + [r]), lib, day) <==> AllowedDay(DaySums(rows), lib, day)
  {
    assert (rows + [r])[..|rows|] == rows;
    assert DayReadings(rows + [r], lib, day) == DayReadings(rows, lib, day);
    AllowedDayIff(rows + [r], lib, day);
    AllowedDayIff(rows, lib, day);
  }

  /** A day whose readings average 9 is rejected; one averaging 10 is kept. */
  lemma DayAverageThreshold(lib: string, day: int, c: int)
    requires lib != ""
    ensures !AllowedDay(DaySums([Row(lib, day, Some(c), Some(9))]), lib, day)
    ensures AllowedDay(DaySums([Row(lib, day, Some(c), Some(10))]), lib, day)
  {
    var r9, r10 := Row(lib, day, Some(c), Some(9)), Row(lib, day, Some(c), Some(10));
    AllowedDayIff([r9], lib, day);
    AllowedDayIff([r10], lib, day);
    assert [r9][..0] == [] && [r10][..0] == [];
    assert DayReadings([r9], lib, day) == [9];
    assert DayReadings([r10], lib, day) == [10];
  }

  // ---- positivePerChunk / missingChunks ---------------------------------------

  /** `positivePerChunk`: per (day, chunk), how many valid keyed readings exist. */
  function PositivePerChunk(rows: seq<Row>): (m: map<(int, int), nat>)
    ensures forall k :: k in m ==> m[k] >= 1
  {
    if |rows| == 0 then map[]
    else
      var m := PositivePerChunk(rows[..|rows| - 1]);
      var r := rows[|rows| - 1];
      if Keyed(r) && Valid(r) then
        var key := (r.day, r.chunk.value);
        m[key := (if key in m then m[key] else 0) + 1]
      else m
  }

  /** `missingChunks`: the keys whose count is zero. */
  function MissingChunks(counts: map<(int, int), nat>): set<(int, int)> {
    set k | k in counts && counts[k] == 0
  }

  /** A chunk key enters the count only when incremented, so the missing set is
      always empty and never excludes a reading. */
  lemma NoChunkIsMissing(rows: seq<Row>)
    ensures MissingChunks(PositivePerChunk(rows)) == {}
  {
  }

  // ---- liveOcc --------------------------------------------------------------

  /** A reading `liveOcc` records on the target day. */
  predicate IsLiveReading(r: Row, target: int) {
    Keyed(r) && Valid(r) && r.day == target
  }

  function LiveEntries(rows: seq<Row>, target: int): seq<((string, int), int)> {
    if |rows| == 0 then []
    else
      var r := rows[|rows| - 1];
      LiveEntries(rows[..|rows| - 1], target)
        + (if IsLiveReading(r, target) then [((r.lib, r.chunk.value), r.occ.value)] else [])
  }

  /** `liveOcc[lib][chunk] = occ` for every live reading in row order. */
  function LiveOcc(rows: seq<Row>, target: int): map<(string, int), int> {
    SetAll(LiveEntries(rows, target))
  }

  /** `liveOcc[lib][c]`, undefined as `None`. */
  function LiveAt(live: map<(string, int), int>, lib: string, c: int): Option<int> {
    if (lib, c) in live then Some(live[(lib, c)]) else None
  }

  /** Reference: the most recent live reading of `lib` at chunk `c`. */
  function LastLiveReading(rows: seq<Row>, target: int, lib: string, c: int): (r: Option<int>)
    ensures r.Some? ==> r.value >= MinValidOcc
  {
    if |rows| == 0 then None
    else
      var row := rows[|rows| - 1];
      if IsLiveReading(row, target) && row.lib == lib && row.chunk.value == c then Some(row.occ.value)
      else LastLiveReading(rows[..|rows| - 1], target, lib, c)
  }

  /** The live map holds, for each library and chunk, the last valid reading of
      the target day. */
  lemma {:induction false} LiveOccIsLastReading(rows: seq<Row>, target: int, lib: string, c: int)
    ensures LiveAt(LiveOcc(rows, target), lib, c) == LastLiveReading(rows, target, lib, c)
  {
    SetAllIsLastWins(LiveEntries(rows, target), (lib, c));
    LastForLiveEntries(rows, target, lib, c);
  }

  lemma {:induction false} LastForLiveEntries(rows: seq<Row>, target: int, lib: string, c: int)
    ensures LastFor(LiveEntries(rows, target), (lib, c)) == LastLiveReading(rows, target, lib, c)
  {
    if |rows| > 0 {
      var init := rows[..|rows| - 1];
      var r := rows[|rows| - 1];
      LastForLiveEntries(init, target, lib, c);
      var e := LiveEntries(init, target);
      if IsLiveReading(r, target) {
        var x := ((r.lib, r.chunk.value), r.occ.value);
        assert LiveEntries(rows, target) == e + [x];
        assert (e + [x])[..|e|] == e;
        assert LastFor(e + [x], (lib, c)) == if x.0 == (lib, c) then Some(x.1) else LastFor(e, (lib, c));
      } else {
        assert LiveEntries(rows, target) == e + [];
        assert e + [] == e;
      }
    }
  }

  // ---- series ---------------------------------------------------------------

  /** A row that trains the model of (`lib`, chunk `c`). */
  predicate Trains(r: Row, sums: map<(string, int), DayTotal>, missing: set<(int, int)>, lib: string, c: int) {
    Keyed(r) && Valid(r) && r.lib == lib && r.chunk.value == c
    && AllowedDay(sums, lib, r.day) && (r.day, c) !in missing
  }

  /** The rows that train (`lib`, `c`): each as often as it occurs, in row order. */
  function TrainingRows(rows: seq<Row>, sums: map<(string, int), DayTotal>, missing: set<(int, int)>,
                        lib: string, c: int): (t: seq<Row>)
    ensures IsSubsequence(t, rows)
    ensures forall x :: multiset(t)[x] == if Trains(x, sums, missing, lib, c) then multiset(rows)[x] else 0
    ensures forall i :: 0 <= i < |t| ==> Trains(t[i], sums, missing, lib, c)
  {
    Filter(rows, (r: Row) => Trains(r, sums, missing, lib, c))
  }

  /** `series.get(lib).get(c)`: one (week offset, reading) pair per training row, in
      row order, so a row repeated in the history weighs twice in the fit. */
  function Series(rows: seq<Row>, sums: map<(string, int), DayTotal>, missing: set<(int, int)>,
                  target: int, lib: string, c: int): (pts: seq<TrainingPoint>)
    ensures forall i :: 0 <= i < |pts| ==> pts[i].1 >= MinValidOcc
    ensures var t := TrainingRows(rows, sums, missing, lib, c);
            |pts| == |t| && forall i :: 0 <= i < |t| ==> pts[i] == (OffsetWeeks(target, t[i].day), t[i].occ.value)
  {
    if |rows| == 0 then []
    else
      var r := rows[|rows| - 1];
      Series(rows[..|rows| - 1], sums, missing, target, lib, c)
        + (if Trains(r, sums, missing, lib, c) then [(OffsetWeeks(target, r.day), r.occ.value)] else [])
  }

  /** Every pair of the series comes from a training row. */
  lemma SeriesPairHasRow(rows: seq<Row>, sums: map<(string, int), DayTotal>, missing: set<(int, int)>,
                         target: int, lib: string, c: int, k: int) returns (i: int)
    requires 0 <= k < |Series(rows, sums, missing, target, lib, c)|
    ensures 0 <= i < |rows| && Trains(rows[i], sums, missing, lib, c)
    ensures Series(rows, sums, missing, target, lib, c)[k] == (OffsetWeeks(target, rows[i].day), rows[i].occ.value)
  {
    var t := TrainingRows(rows, sums, missing, lib, c);
    assert multiset(t)[t[k]] > 0;
    assert t[k] in rows;
    i :| 0 <= i < |rows| && rows[i] == t[k];
  }

  /** Every training row puts its pair into the series. */
  lemma SeriesRowHasPair(rows: seq<Row>, sums: map<(string, int), DayTotal>, missing: set<(int, int)>,
                         target: int, lib: string, c: int, i: int) returns (k: int)
    requires 0 <= i < |rows| && Trains(rows[i], sums, missing, lib, c)
    ensures 0 <= k < |Series(rows, sums, missing, target, lib, c)|
    ensures Series(rows, sums, missing, target, lib, c)[k] == (OffsetWeeks(target, rows[i].day), rows[i].occ.value)
  {
    var t := TrainingRows(rows, sums, missing, lib, c);
    assert multiset(rows)[rows[i]] > 0;
    assert rows[i] in t;
    k :| 0 <= k < |t| && t[k] == rows[i];
  }

  /** A pair is in the series exactly when some training row produced it. */
  lemma SeriesMembership(rows: seq<Row>, sums: map<(string, int), DayTotal>, missing: set<(int, int)>,
                         target: int, lib: string, c: int, p: TrainingPoint)
    ensures p in Series(rows, sums, missing, target, lib, c) <==>
              exists i :: 0 <= i < |rows| && Trains(rows[i], sums, missing, lib, c)
                          && p == (OffsetWeeks(target, rows[i].day), rows[i].occ.value)
  {
    var pts := Series(rows, sums, missing, target, lib, c);
    if p in pts {
      var k :| 0 <= k < |pts| && pts[k] == p;
      var i := SeriesPairHasRow(rows, sums, missing, target, lib, c, k);
    }
    if exists i :: 0 <= i < |rows| && Trains(rows[i], sums, missing, lib, c)
                   && p == (OffsetWeeks(target, rows[i].day), rows[i].occ.value) {
      var i :| 0 <= i < |rows| && Trains(rows[i], sums, missing, lib, c)
               && p == (OffsetWeeks(target, rows[i].day), rows[i].occ.value);
      var k := SeriesRowHasPair(rows, sums, missing, target, lib, c, i);
    }
  }

  /** The series the forecaster uses for (`lib`, `c`). */
  function SlotSeries(rows: seq<Row>, target: int, lib: string, c: int): seq<TrainingPoint> {
    Series(rows, DaySums(rows), MissingChunks(PositivePerChunk(rows)), target, lib, c)
  }

  /** Today's own readings train the model as well, at week offset 0, whenever
      today is an allowed day. */
  lemma TodayTrainsAtOffsetZero(rows: seq<Row>, target: int, i: int)
    requires 0 <= i < |rows| && IsLiveReading(rows[i], target)
    requires AllowedDay(DaySums(rows), rows[i].lib, target)
    ensures (0, rows[i].occ.value) in SlotSeries(rows, target, rows[i].lib, rows[i].chunk.value)
  {
    NoChunkIsMissing(rows);
    OffsetOfWeeksBack(target, 0);
    SeriesMembership(rows, DaySums(rows), MissingChunks(PositivePerChunk(rows)), target,
                     rows[i].lib, rows[i].chunk.value, (0, rows[i].occ.value));
  }

  /** The baseline of slot `c`: 0 without data (`predBase` keeps its fill). */
  function SlotBaseline(rows: seq<Row>, target: int, lib: string, c: int): (b: int)
    ensures b <= 100
    ensures SlotSeries(rows, target, lib, c) == [] ==> b == 0
  {
    Baseline(FilterOutliers(SlotSeries(rows, target, lib, c)))
  }

  /** If every admissible reading of a slot was `v`, its baseline is `v`. */
  lemma FlatSlotHistory(rows: seq<Row>, target: int, lib: string, c: int, v: int)
    requires SlotSeries(rows, target, lib, c) != []
    requires v <= 100
    requires forall i :: 0 <= i < |SlotSeries(rows, target, lib, c)| ==> SlotSeries(rows, target, lib, c)[i].1 == v
    ensures SlotBaseline(rows, target, lib, c) == v
  {
    var pts := SlotSeries(rows, target, lib, c);
    assert v >= MinValidOcc by { assert pts[0].1 == v; }
    if |pts| >= 3 {
      FlatScatterIsZero(Ys(pts), v);
      ZeroVarianceKeepsAll(pts);
    }
    FlatHistoryPredictsLevel(FilterOutliers(pts), v);
  }

  lemma FlatScatterIsZero(ys: seq<int>, v: int)
    requires |ys| > 0
    requires forall i :: 0 <= i < |ys| ==> ys[i] == v
    ensures Scatter(ys, |ys|, Sum(ys)) == 0
  {
    FlatTotal(ys, v);
    FlatScatterAt(ys, |ys|, v);
  }

  lemma {:induction false} FlatTotal(ys: seq<int>, v: int)
    requires forall i :: 0 <= i < |ys| ==> ys[i] == v
    ensures Sum(ys) == |ys| * v
  {
    if |ys| > 0 {
      var init := ys[..|ys| - 1];
      assert forall i :: 0 <= i < |init| ==> init[i] == ys[i];
      FlatTotal(init, v);
      Distribute(v, |init|, 1);
    }
  }

  lemma {:induction false} FlatScatterAt(ys: seq<int>, n: int, v: int)
    requires forall i :: 0 <= i < |ys| ==> ys[i] == v
    ensures Scatter(ys, n, n * v) == 0
  {
    if |ys| > 0 {
      var init := ys[..|ys| - 1];
      assert forall i :: 0 <= i < |init| ==> init[i] == ys[i];
      FlatScatterAt(init, n, v);
      assert Dev(ys[|ys| - 1], n, n * v) == 0;
    }
  }

  // ---- assembly -------------------------------------------------------------

  /** `delta`: the live reading at the current slot minus that slot's baseline,
      or 0 when today has no reading there or the slot is outside the range. */
  function LiveDelta(rows: seq<Row>, target: int, isToday: bool, cur: int, start: int, end: int, lib: string): int {
    var live := if isToday && start <= cur <= end then LiveAt(LiveOcc(rows, target), lib, cur) else None;
    if live.Some? then live.value - SlotBaseline(rows, target, lib, cur) else 0
  }

  /** Step 7.3 for slot `c`, given its live reading, its baseline and the delta:
      a slot with a reading, or today's past and current slots, get no prediction. */
  function SlotPoint(c: int, occNow: Option<int>, base: int, delta: int, isToday: bool, cur: int): (p: Point)
    ensures p.time == ChunkToTime(c) && p.occupancy == occNow
    ensures p.prediction.Some? <==> occNow.None? && !(isToday && c <= cur)
    ensures p.prediction.Some? ==> 0 <= p.prediction.value <= 100
  {
    var pred := if occNow.None? && !(isToday && c <= cur) then Some(Clamp(base + delta, 0, 100)) else None;
    Point(ChunkToTime(c), occNow, pred)
  }

  /** `occNow` for slot `c`. */
  function OccNow(rows: seq<Row>, target: int, isToday: bool, lib: string, c: int): Option<int> {
    if isToday then LiveAt(LiveOcc(rows, target), lib, c) else None
  }

  /** Slot `c` of library `lib` with the library's `delta`. */
  function PointOf(rows: seq<Row>, target: int, isToday: bool, cur: int, delta: int, lib: string, c: int): (p: Point)
    ensures p.time == ChunkToTime(c)
  {
    SlotPoint(c, OccNow(rows, target, isToday, lib, c), SlotBaseline(rows, target, lib, c), delta, isToday, cur)
  }

  /** The points of one library, slots `start..end`. */
  function LibraryPoints(rows: seq<Row>, target: int, isToday: bool, cur: int, start: int, end: int, lib: string): (pts: seq<Point>)
    requires start <= end + 1
    ensures |pts| == end - start + 1
  {
    var delta := LiveDelta(rows, target, isToday, cur, start, end, lib);
    seq(end - start + 1, i => PointOf(rows, target, isToday, cur, delta, lib, start + i))
  }

  /** Slot `i` of every library is labelled with chunk `start + i`. */
  lemma LibraryPointTimes(rows: seq<Row>, target: int, isToday: bool, cur: int, start: int, end: int)
    requires start <= end + 1
    ensures forall lib, i :: 0 <= i <= end - start ==>
              LibraryPoints(rows, target, isToday, cur, start, end, lib)[i].time == ChunkToTime(start + i)
  {
    forall lib, i | 0 <= i <= end - start
      ensures LibraryPoints(rows, target, isToday, cur, start, end, lib)[i].time == ChunkToTime(start + i)
    {
      LibraryPointIsPointOf(rows, target, isToday, cur, start, end, lib, i);
    }
  }

  lemma LibraryPointIsPointOf(rows: seq<Row>, target: int, isToday: bool, cur: int, start: int, end: int, lib: string, i: int)
    requires start <= end + 1 && 0 <= i <= end - start
    ensures LibraryPoints(rows, target, isToday, cur, start, end, lib)[i]
         == PointOf(rows, target, isToday, cur, LiveDelta(rows, target, isToday, cur, start, end, lib), lib, start + i)
  {
  }

  /** `blank`: every library, every slot, no reading and no prediction; a negative
      length gives an empty list. */
  function Blank(target: int, start: int, end: int): Forecast {
    Forecast(target, map lib | lib in AllLibs :: seq(Max(0, end - start + 1), i => Point(ChunkToTime(start + i), None, None)))
  }

  /** A live reading of a library outside ALL_LIBS would index an undefined
      `liveOcc[lib]` and throw. */
  predicate LiveLibrariesKnown(rows: seq<Row>, target: int) {
    forall i :: 0 <= i < |rows| && IsLiveReading(rows[i], target) ==> rows[i].lib in AllLibs
  }

  /** The rows a forecast for `target` sees. */
  function ForecastRows(store: seq<Row>, target: int, isToday: bool): seq<Row> {
    Query(store, QueryDays(target, isToday))
  }

  /** `getPrediction` for day `target`, slots `start..end`, at local time
      `hour:minute`; `isToday` says whether the target is the current day. */
  function GetPrediction(store: seq<Row>, target: int, isToday: bool, hour: int, minute: int,
                         start: int, end: int): (f: Forecast)
    requires HistoryDays(target) != [] ==> start <= end + 1
    requires isToday && HistoryDays(target) != [] ==> LiveLibrariesKnown(ForecastRows(store, target, isToday), target)
    ensures f.date == target
    ensures forall lib :: lib in f.occupancy <==> lib in AllLibs
    ensures forall lib :: lib in f.occupancy ==> |f.occupancy[lib]| == Max(0, end - start + 1)
    ensures forall lib, i :: lib in f.occupancy && 0 <= i < |f.occupancy[lib]| ==>
              f.occupancy[lib][i].time == ChunkToTime(start + i)
  {
    if HistoryDays(target) == [] then Blank(target, start, end)
    else
      var rows := ForecastRows(store, target, isToday);
      var cur := Slots.ComputeChunk(hour, minute);
      LibraryPointTimes(rows, target, isToday, cur, start, end);
      Forecast(target, map lib | lib in AllLibs :: LibraryPoints(rows, target, isToday, cur, start, end, lib))
  }

  /** With history, each library's series is `LibraryPoints` over the forecast's rows. */
  lemma SeriesOfForecast(store: seq<Row>, target: int, isToday: bool, hour: int, minute: int,
                         start: int, end: int, lib: string)
    requires target >= 7 && start <= end + 1
    requires isToday ==> LiveLibrariesKnown(ForecastRows(store, target, isToday), target)
    requires lib in AllLibs
    ensures GetPrediction(store, target, isToday, hour, minute, start, end).occupancy[lib]
         == LibraryPoints(ForecastRows(store, target, isToday), target, isToday, Slots.ComputeChunk(hour, minute), start, end, lib)
  {}

  /** Slot `i` of a library's series is the point the per-slot rule builds. */
  lemma PointOfSeries(rows: seq<Row>, target: int, isToday: bool, cur: int, start: int, end: int, lib: string, i: int)
    requires start <= end + 1 && 0 <= i <= end - start
    ensures LibraryPoints(rows, target, isToday, cur, start, end, lib)[i]
         == PointOf(rows, target, isToday, cur, LiveDelta(rows, target, isToday, cur, start, end, lib), lib, start + i)
  {}

  /** With history, slot `i` of a library is the point the per-slot rule builds. */
  lemma ForecastPoint(store: seq<Row>, target: int, isToday: bool, hour: int, minute: int,
                      start: int, end: int, lib: string, i: int)
    requires target >= 7 && start <= end + 1
    requires isToday ==> LiveLibrariesKnown(ForecastRows(store, target, isToday), target)
    requires lib in AllLibs && 0 <= i <= end - start
    ensures var rows, cur := ForecastRows(store, target, isToday), Slots.ComputeChunk(hour, minute);
            GetPrediction(store, target, isToday, hour, minute, start, end).occupancy[lib][i]
            == PointOf(rows, target, isToday, cur, LiveDelta(rows, target, isToday, cur, start, end, lib), lib, start + i)
  {
    SeriesOfForecast(store, target, isToday, hour, minute, start, end, lib);
    PointOfSeries(ForecastRows(store, target, isToday), target, isToday, Slots.ComputeChunk(hour, minute), start, end, lib, i);
  }

  /** Before the eighth day of 2000 there is no history: the answer is blank. */
  lemma NoHistoryMeansBlank(store: seq<Row>, target: int, isToday: bool, hour: int, minute: int, start: int, end: int)
    requires target < 7
    ensures var f := GetPrediction(store, target, isToday, hour, minute, start, end);
            forall lib, i :: lib in f.occupancy && 0 <= i < |f.occupancy[lib]| ==>
              f.occupancy[lib][i].occupancy.None? && f.occupancy[lib][i].prediction.None?
  {
  }

  /** A day other than today: no readings are reported and every slot gets the
      clamped baseline, which is 0 for a slot without usable history. */
  lemma OtherDayForecast(store: seq<Row>, target: int, hour: int, minute: int, start: int, end: int, lib: string, i: int)
    requires target >= 7 && start <= end + 1
    requires lib in AllLibs && 0 <= i <= end - start
    ensures var f := GetPrediction(store, target, false, hour, minute, start, end);
            var rows := ForecastRows(store, target, false);
            var p := f.occupancy[lib][i];
            p.occupancy.None?
            && p.prediction == Some(Clamp(SlotBaseline(rows, target, lib, start + i), 0, 100))
            && (SlotSeries(rows, target, lib, start + i) == [] ==> p.prediction == Some(0))
  {
    ForecastPoint(store, target, false, hour, minute, start, end, lib, i);
  }

  /** The live correction, in terms of the reference last reading. */
  lemma LiveDeltaIsLastReading(rows: seq<Row>, target: int, cur: int, start: int, end: int, lib: string)
    ensures var liveNow := if start <= cur <= end then LastLiveReading(rows, target, lib, cur) else None;
            LiveDelta(rows, target, true, cur, start, end, lib)
            == if liveNow.Some? then liveNow.value - SlotBaseline(rows, target, lib, cur) else 0
  {
    LiveOccIsLastReading(rows, target, lib, cur);
  }

  /** What today's slot `c` must show: the last reading taken in it, and a
      prediction only for a later slot without a reading, equal to the slot's
      baseline shifted by the gap between the current slot's reading and its
      baseline, clamped to 0..100. */
  predicate TodayRule(rows: seq<Row>, target: int, cur: int, start: int, end: int, lib: string, c: int, p: Point) {
    var liveNow := if start <= cur <= end then LastLiveReading(rows, target, lib, cur) else None;
    var delta := if liveNow.Some? then liveNow.value - SlotBaseline(rows, target, lib, cur) else 0;
    p.occupancy == LastLiveReading(rows, target, lib, c)
    && (p.prediction.Some? <==> p.occupancy.None? && c > cur)
    && (p.prediction.Some? ==> p.prediction.value == Clamp(SlotBaseline(rows, target, lib, c) + delta, 0, 100))
  }

  lemma TodayPoint(rows: seq<Row>, target: int, cur: int, start: int, end: int, lib: string, c: int)
    ensures TodayRule(rows, target, cur, start, end, lib, c,
                      PointOf(rows, target, true, cur, LiveDelta(rows, target, true, cur, start, end, lib), lib, c))
  {
    LiveOccIsLastReading(rows, target, lib, c);
    assert OccNow(rows, target, true, lib, c) == LastLiveReading(rows, target, lib, c);
    LiveDeltaIsLastReading(rows, target, cur, start, end, lib);
  }

  /** Today's forecast follows the rule above in every slot. */
  lemma TodayForecast(store: seq<Row>, target: int, hour: int, minute: int, start: int, end: int, lib: string, i: int)
    requires target >= 7 && start <= end + 1
    requires LiveLibrariesKnown(ForecastRows(store, target, true), target)
    requires lib in AllLibs && 0 <= i <= end - start
    ensures TodayRule(ForecastRows(store, target, true), target, Slots.ComputeChunk(hour, minute), start, end, lib, start + i,
                      GetPrediction(store, target, true, hour, minute, start, end).occupancy[lib][i])
  {
    var rows := ForecastRows(store, target, true);
    var cur := Slots.ComputeChunk(hour, minute);
    SeriesOfForecast(store, target, true, hour, minute, start, end, lib);
    PointOfSeries(rows, target, true, cur, start, end, lib, i);
    TodayPoint(rows, target, cur, start, end, lib, start + i);
  }

  /** Every prediction lies in 0..100. */
  lemma PredictionsInRange(store: seq<Row>, target: int, isToday: bool, hour: int, minute: int,
                           start: int, end: int, lib: string, i: int)
    requires HistoryDays(target) != [] ==> start <= end + 1
    requires isToday && HistoryDays(target) != [] ==> LiveLibrariesKnown(ForecastRows(store, target, isToday), target)
    requires lib in AllLibs && 0 <= i < Max(0, end - start + 1)
    ensures var p := GetPrediction(store, target, isToday, hour, minute, start, end).occupancy[lib][i];
            p.prediction.Some? ==> 0 <= p.prediction.value <= 100
  {
    if target >= 7 {
      ForecastPoint(store, target, isToday, hour, minute, start, end, lib, i);
    }
  }
}
