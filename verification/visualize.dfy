/** script/mitgrate_v2/visualize.js without the file I/O and the console: the date
    argument's accepted shapes and the 144-row table of one day's records. */
module Visualize {
  import opened Wrappers
  import opened Text
  import opened Collections
  import opened Sorting
  import Slots
  import Migration

  // ---- the date argument -------------------------------------------------------

  /** What `parseDateArg` leads to: an exit with the format message (`Rejected`), no
      usable date (`InvalidDate`) or a calendar day. `InvalidDate` covers two paths
      that both end the script without a table: an out-of-range day gives an invalid
      Luxon date whose fields are NaN, so no record matches and the script exits for
      lack of records; a NaN unit makes `DateTime.fromObject` throw, which nothing
      catches. */
  datatype DateArg = Rejected | InvalidDate | Day(year: int, month: int, day: int)

  predicate DigitsAt(s: string, from: int, to: int)
    requires 0 <= from <= to <= |s|
  {
    forall i :: from <= i < to ==> IsDigit(s[i])
  }

  /** `/^\d{2}\s\d{2}\s\d{4}$/`. */
  predicate DayFirstShape(s: string) {
    |s| == 10 && DigitsAt(s, 0, 2) && IsSpace(s[2]) && DigitsAt(s, 3, 5) && IsSpace(s[5]) && DigitsAt(s, 6, 10)
  }

  /** `/^\d{4}-\d{2}-\d{2}$/`. */
  predicate IsoShape(s: string) {
    |s| == 10 && DigitsAt(s, 0, 4) && s[4] == '-' && DigitsAt(s, 5, 7) && s[7] == '-' && DigitsAt(s, 8, 10)
  }

  predicate LeapYear(y: int) {
    y % 4 == 0 && (y % 100 != 0 || y % 400 == 0)
  }

  function DaysInMonth(y: int, m: int): int
    requires 1 <= m <= 12
  {
    if m == 2 then (if LeapYear(y) then 29 else 28)
    else if m == 4 || m == 6 || m == 9 || m == 11 then 30
    else 31
  }

  /** Luxon builds a valid date from these numbers exactly when they name a day of the
      (proleptic Gregorian) calendar. */
  function CalendarDay(y: int, m: int, d: int): (r: DateArg)
    ensures r.Day? ==> r == Day(y, m, d) && 1 <= m <= 12 && 1 <= d <= 31
    ensures r.Rejected? == false
  {
    if 1 <= m <= 12 && 1 <= d <= DaysInMonth(y, m) then Day(y, m, d) else InvalidDate
  }

  /** `parseDateArg`. In the day-first shape `split(' ')` finds the three parts only
      when both separators are spaces; any other white space leaves a NaN unit, on
      which `DateTime.fromObject` throws. */
  function ParseDateArg(arg: string): (r: DateArg)
    ensures r.Rejected? <==> !DayFirstShape(arg) && !IsoShape(arg)
  {
    if DayFirstShape(arg) then
      if arg[2] == ' ' && arg[5] == ' ' then
        CalendarDay(ParseDigits(arg[6..10]), ParseDigits(arg[3..5]), ParseDigits(arg[..2]))
      else InvalidDate
    else if IsoShape(arg) then
      CalendarDay(ParseDigits(arg[..4]), ParseDigits(arg[5..7]), ParseDigits(arg[8..10]))
    else Rejected
  }

  /** The two shapes never overlap: the third character is a digit in one and white
      space in the other. */
  lemma ShapesAreDisjoint(arg: string)
    ensures DayFirstShape(arg) ==> !IsoShape(arg)
  {
    if DayFirstShape(arg) {
      assert !IsDigit(arg[2]);
    }
  }

  lemma ParseDigitsExamples()
    ensures ParseDigits(['2', '0', '2', '5']) == 2025
    ensures ParseDigits(['0', '1']) == 1 && ParseDigits(['2', '5']) == 25
  {
    assert ['2', '0', '2', '5'][..3] == ['2', '0', '2'];
    assert ['2', '0', '2'][..2] == ['2', '0'];
    assert ['2', '0'][..1] == ['2'];
    assert ['2'][..0] == [];
    assert ['0', '1'][..1] == ['0'];
    assert ['0'][..0] == [];
    assert ['2', '5'][..1] == ['2'];
  }

  /** "25 01 2025" is 25 January 2025, and "2025-01-25" the same day. */
  lemma ParseExamples()
    ensures ParseDateArg("25 01 2025") == Day(2025, 1, 25)
    ensures ParseDateArg("2025-01-25") == Day(2025, 1, 25)
    ensures ParseDateArg("25.01.2025") == Rejected
  {
    ParseDigitsExamples();
    var a := "25 01 2025";
    assert a[6..10] == ['2', '0', '2', '5'];
    assert a[3] == '0' && a[4] == '1';
    assert a[3..5] == ['0', '1'];
    assert a[..2] == ['2', '5'];
    var b := "2025-01-25";
    assert b[..4] == ['2', '0', '2', '5'] && b[5..7] == ['0', '1'] && b[8..10] == ['2', '5'];
    var c := "25.01.2025";
    assert !IsSpace(c[2]) && c[4] == '1';
  }

  // ---- the table ------------------------------------------------------------------

  /** A record of the migrated file as this script reads it: `percentage` is absent
      (`None`) in the migration's output, which writes `occupancy` instead. */
  datatype VisRecord = VisRecord(percentage: Option<int>, name: string, year: int, month: int, day: int, chunk: int)

  /** `rec ? rec.percentage : 0` prints a number or `undefined`. */
  datatype Cell = Number(value: int) | Undefined

  datatype TableRow = TableRow(time: string, cells: seq<Cell>)

  /** The libraries (columns) and the rows. */
  datatype Table = Table(libs: seq<string>, rows: seq<TableRow>)

  predicate OnDay(r: VisRecord, d: DateArg) {
    d.Day? && r.year == d.year && r.month == d.month && r.day == d.day
  }

  /** `records.filter(...)` for the day: each record of the day as often as it
      occurs, in file order, which decides the first match `find` returns. */
  function RecordsOn(all: seq<VisRecord>, d: DateArg): (r: seq<VisRecord>)
    ensures IsSubsequence(r, all)
    ensures forall x :: multiset(r)[x] == if OnDay(x, d) then multiset(all)[x] else 0
    ensures forall x :: x in r <==> x in all && OnDay(x, d)
  {
    Filter(all, (x: VisRecord) => OnDay(x, d))
  }

  function Names(rs: seq<VisRecord>): (names: seq<string>)
    ensures |names| == |rs| && forall i :: 0 <= i < |rs| ==> names[i] == rs[i].name
  {
    seq(|rs|, i requires 0 <= i < |rs| => rs[i].name)
  }

  /** `filtered.find(r => r.name === lib && r.chunk === chunk)`. */
  function Find(rs: seq<VisRecord>, lib: string, c: int): (r: Option<VisRecord>)
    ensures r.None? <==> forall i :: 0 <= i < |rs| ==> !(rs[i].name == lib && rs[i].chunk == c)
    ensures r.Some? ==> exists i :: 0 <= i < |rs| && rs[i] == r.value && rs[i].name == lib && rs[i].chunk == c
                                    && forall j :: 0 <= j < i ==> !(rs[j].name == lib && rs[j].chunk == c)
  {
    if |rs| == 0 then None
    else if rs[0].name == lib && rs[0].chunk == c then Some(rs[0])
    else
      var r := Find(rs[1..], lib, c);
      assert forall i :: 1 <= i < |rs| ==> rs[1..][i - 1] == rs[i];
      r
  }

  function CellFor(rs: seq<VisRecord>, lib: string, c: int): Cell {
    var rec := Find(rs, lib, c);
    if rec.None? then Number(0)
    else if rec.value.percentage.Some? then Number(rec.value.percentage.value)
    else Undefined
  }

  /** The libraries of the day's records, each once, sorted. */
  function Columns(rs: seq<VisRecord>): seq<string> {
    SortStrings(Dedup(Names(rs)))
  }

  /** One row per slot, one cell per library. */
  function Rows(rs: seq<VisRecord>, libs: seq<string>): (rows: seq<TableRow>)
    ensures |rows| == Slots.SlotsPerDay
    ensures forall c :: 0 <= c < |rows| ==> |rows[c].cells| == |libs|
  {
    seq(Slots.SlotsPerDay, c =>
      TableRow(Slots.FormatTime(c), seq(|libs|, j requires 0 <= j < |libs| => CellFor(rs, libs[j], c))))
  }

  /** The table of day `d`, or `None` where the script exits because the day has no records. */
  function BuildTable(all: seq<VisRecord>, d: DateArg): (t: Option<Table>)
    ensures t.None? <==> forall x :: x in all ==> !OnDay(x, d)
    ensures t.Some? ==> |t.value.rows| == Slots.SlotsPerDay
    ensures t.Some? ==> forall c :: 0 <= c < |t.value.rows| ==> |t.value.rows[c].cells| == |t.value.libs|
  {
    var rs := RecordsOn(all, d);
    if |rs| == 0 then None
    else
      assert rs[0] in rs;
      Some(Table(Columns(rs), Rows(rs, Columns(rs))))
  }

  /** The columns of records `rs`: exactly their names, strictly ascending. */
  lemma {:induction false} ColumnsAreNames(rs: seq<VisRecord>)
    ensures forall n :: n in Columns(rs) <==> exists i :: 0 <= i < |rs| && rs[i].name == n
    ensures var libs := Columns(rs);
            forall i, k :: 0 <= i < k < |libs| ==> StrLess(libs[i], libs[k])
  {
    var u := Dedup(Names(rs));
    SortDistinctStrings(u);
    forall n ensures n in Columns(rs) <==> exists i :: 0 <= i < |rs| && rs[i].name == n {
      if n in u {
        var i :| 0 <= i < |rs| && Names(rs)[i] == n;
      }
      if exists i :: 0 <= i < |rs| && rs[i].name == n {
        var i :| 0 <= i < |rs| && rs[i].name == n;
        assert Names(rs)[i] == n;
      }
    }
  }

  lemma {:induction false} ColumnOfRecord(all: seq<VisRecord>, d: DateArg, x: VisRecord)
    requires x in all && OnDay(x, d)
    ensures x.name in Columns(RecordsOn(all, d))
  {
    var rs := RecordsOn(all, d);
    assert x in rs;
    var i :| 0 <= i < |rs| && rs[i] == x;
    ColumnsAreNames(rs);
  }

  lemma {:induction false} RecordOfColumn(all: seq<VisRecord>, d: DateArg, n: string)
    requires n in Columns(RecordsOn(all, d))
    ensures exists x :: x in all && OnDay(x, d) && x.name == n
  {
    var rs := RecordsOn(all, d);
    ColumnsAreNames(rs);
    var i :| 0 <= i < |rs| && rs[i].name == n;
    assert rs[i] in rs;
  }

  /** The columns of a day's records are the names present on that day, strictly ascending. */
  lemma {:induction false} DayColumns(all: seq<VisRecord>, d: DateArg)
    ensures var libs := Columns(RecordsOn(all, d));
            (forall n :: n in libs <==> exists x :: x in all && OnDay(x, d) && x.name == n)
            && (forall i, k :: 0 <= i < k < |libs| ==> StrLess(libs[i], libs[k]))
  {
    var libs := Columns(RecordsOn(all, d));
    ColumnsAreNames(RecordsOn(all, d));
    forall n ensures n in libs <==> exists x :: x in all && OnDay(x, d) && x.name == n {
      if n in libs {
        RecordOfColumn(all, d, n);
      }
      if exists x :: x in all && OnDay(x, d) && x.name == n {
        var x :| x in all && OnDay(x, d) && x.name == n;
        ColumnOfRecord(all, d, x);
      }
    }
  }

  /** The columns are the names present on that day, each once, in ascending order. */
  lemma {:induction false} TableColumns(all: seq<VisRecord>, d: DateArg)
    requires BuildTable(all, d).Some?
    ensures var libs := BuildTable(all, d).value.libs;
            (forall n :: n in libs <==> exists x :: x in all && OnDay(x, d) && x.name == n)
            && (forall i, k :: 0 <= i < k < |libs| ==> StrLess(libs[i], libs[k]))
  {
    assert BuildTable(all, d).value.libs == Columns(RecordsOn(all, d));
    DayColumns(all, d);
  }

  /** Row `c` is slot `c`, and its cell for column `j` is the first matching record's
      percentage, or 0 without one. */
  lemma {:induction false} TableRows(all: seq<VisRecord>, d: DateArg, c: int, j: int)
    requires BuildTable(all, d).Some?
    requires 0 <= c < Slots.SlotsPerDay
    ensures var t := BuildTable(all, d).value;
            t.rows[c].time == Slots.FormatTime(c)
            && |t.rows[c].cells| == |t.libs|
            && (0 <= j < |t.libs| ==> t.rows[c].cells[j] == CellFor(RecordsOn(all, d), t.libs[j], c))
  {}

  /** A found record without a percentage prints `undefined`. */
  lemma CellOfRecordWithoutPercentage(rs: seq<VisRecord>, lib: string, c: int, q: int)
    requires 0 <= q < |rs| && rs[q].name == lib && rs[q].chunk == c
    requires forall i :: 0 <= i < |rs| ==> rs[i].percentage.None?
    ensures CellFor(rs, lib, c) == Undefined
  {
    var rec := Find(rs, lib, c);
    assert rec.Some?;
  }

  // ---- the migrated file -------------------------------------------------------

  /** How this script sees a record the migration wrote. */
  function FromMigrated(m: Migration.MigratedRecord): VisRecord {
    VisRecord(None, m.name, m.year, m.month, m.day, m.chunk)
  }

  function ReadMigrated(out: seq<Migration.MigratedRecord>): (rs: seq<VisRecord>)
    ensures |rs| == |out| && forall i :: 0 <= i < |out| ==> rs[i] == FromMigrated(out[i])
  {
    seq(|out|, i requires 0 <= i < |out| => FromMigrated(out[i]))
  }

  /** On the migration's own output every cell of every library of a day comes out
      `undefined`: each (library, slot) has a record, and none has a `percentage`. */
  lemma {:induction false} MigratedCellsAreUndefined(raw: seq<Migration.RawEntry>, d: DateArg, c: int, j: int)
    requires BuildTable(ReadMigrated(Migration.Migrate(raw)), d).Some?
    requires 0 <= c < Slots.SlotsPerDay
    requires 0 <= j < |BuildTable(ReadMigrated(Migration.Migrate(raw)), d).value.libs|
    ensures BuildTable(ReadMigrated(Migration.Migrate(raw)), d).value.rows[c].cells[j] == Undefined
  {
    var all := ReadMigrated(Migration.Migrate(raw));
    var t := BuildTable(all, d).value;
    var lib := t.libs[j];
    assert lib in t.libs;
    TableColumns(all, d);
    assert exists x :: x in all && OnDay(x, d) && x.name == lib;
    TableRows(all, d, c, j);
    MigratedCell(raw, d, lib, c);
  }

  /** A day whose records all lack a percentage prints `undefined` for every library
      and slot that has a record. */
  lemma {:induction false} PresentRecordWithoutPercentage(all: seq<VisRecord>, d: DateArg, y: VisRecord)
    requires y in all && OnDay(y, d)
    requires forall i :: 0 <= i < |all| ==> all[i].percentage.None?
    ensures CellFor(RecordsOn(all, d), y.name, y.chunk) == Undefined
  {
    var rs := RecordsOn(all, d);
    assert y in rs;
    var q :| 0 <= q < |rs| && rs[q] == y;
    forall i | 0 <= i < |rs| ensures rs[i].percentage.None? {
      assert rs[i] in all;
    }
    CellOfRecordWithoutPercentage(rs, y.name, y.chunk, q);
  }

  lemma {:induction false} MigratedCell(raw: seq<Migration.RawEntry>, d: DateArg, lib: string, c: int)
    requires 0 <= c < Slots.SlotsPerDay
    requires exists x :: x in ReadMigrated(Migration.Migrate(raw)) && OnDay(x, d) && x.name == lib
    ensures CellFor(RecordsOn(ReadMigrated(Migration.Migrate(raw)), d), lib, c) == Undefined
  {
    var y := SlotRecord(raw, d, lib, c);
    PresentRecordWithoutPercentage(ReadMigrated(Migration.Migrate(raw)), d, y);
  }

  /** A library with a migrated record on a day has a migrated record for every slot of that day. */
  lemma {:induction false} SlotRecord(raw: seq<Migration.RawEntry>, d: DateArg, lib: string, c: int) returns (y: VisRecord)
    requires 0 <= c < Slots.SlotsPerDay
    requires exists x :: x in ReadMigrated(Migration.Migrate(raw)) && OnDay(x, d) && x.name == lib
    ensures y in ReadMigrated(Migration.Migrate(raw)) && OnDay(y, d) && y.name == lib && y.chunk == c
  {
    var out := Migration.Migrate(raw);
    var all := ReadMigrated(out);
    var x :| x in all && OnDay(x, d) && x.name == lib;
    var i :| 0 <= i < |all| && all[i] == x;
    Migration.SameGroupSlot(raw, i, c);
    var j := Slots.SlotsPerDay * (i / Slots.SlotsPerDay) + c;
    y := all[j];
  }
}
