/** src/components/calendar/utils/calendarHelpers.ts, the older variant: the period
    types are only lecture, exam, holiday and break, and the day's type is the head of
    the applicable periods sorted by holiday < break < exam < lecture. */
module CalendarLegacy {
  import opened Wrappers
  import opened Sorting
  import opened CalendarPeriods

  /** The types this variant's `SemesterPeriod` allows; the others have no priority,
      which would make the comparator NaN. */
  predicate KnownKind(k: EventType) {
    k == Lecture || k == Exam || k == Holiday || k == Break
  }

  /** `priorityOrder`, over the four known types. */
  function Priority(k: EventType): (r: int)
    ensures 0 <= r <= 3
    ensures KnownKind(k) ==> (r == 0 <==> k == Holiday) && (r == 1 <==> k == Break)
                             && (r == 2 <==> k == Exam) && (r == 3 <==> k == Lecture)
  {
    if k == Holiday then 0 else if k == Break then 1 else if k == Exam then 2 else 3
  }

  function PriorityKey(): SemesterPeriod -> int {
    (p: SemesterPeriod) => Priority(p.kind)
  }

  /** `getDayPeriodType`: the applicable periods sorted by priority, then the first. */
  function DayPeriodType(dateStr: string, periods: seq<SemesterPeriod>): (r: Option<DayPeriod>)
    requires forall i :: 0 <= i < |periods| ==> KnownKind(periods[i].kind)
    ensures r.None? <==> forall p :: p in periods ==> !Covers(p, dateStr)
  {
    var applicable := PeriodsForDay(dateStr, periods);
    if |applicable| == 0 then None
    else
      assert applicable[0] in applicable;
      var top := SortByKey(applicable, PriorityKey())[0];
      Some(DayPeriod(top.kind, dateStr == top.start, dateStr == top.end))
  }

  /** The sort is stable, so the chosen period is the first applicable one of smallest
      priority; the flags say whether the day is its first or last day. */
  lemma DayPeriodChoice(dateStr: string, periods: seq<SemesterPeriod>) returns (m: int)
    requires forall i :: 0 <= i < |periods| ==> KnownKind(periods[i].kind)
    requires exists p :: p in periods && Covers(p, dateStr)
    ensures var a := PeriodsForDay(dateStr, periods);
            var r := DayPeriodType(dateStr, periods);
            IsFirstMin(a, m, PriorityKey()) && r.Some?
            && r.value.kind == a[m].kind
            && (r.value.isStart <==> dateStr == a[m].start)
            && (r.value.isEnd <==> dateStr == a[m].end)
  {
    var a := PeriodsForDay(dateStr, periods);
    var p :| p in periods && Covers(p, dateStr);
    assert p in a;
    m := SortHeadIsFirstMin(a, PriorityKey());
  }

  /** Here a holiday beats an exam on the same day, unlike in the newer variant. */
  lemma HolidayWins(dateStr: string, periods: seq<SemesterPeriod>, h: SemesterPeriod)
    requires forall i :: 0 <= i < |periods| ==> KnownKind(periods[i].kind)
    requires h in periods && h.kind == Holiday && Covers(h, dateStr)
    ensures DayPeriodType(dateStr, periods).Some? && DayPeriodType(dateStr, periods).value.kind == Holiday
  {
    var a := PeriodsForDay(dateStr, periods);
    var m := DayPeriodChoice(dateStr, periods);
    var j :| 0 <= j < |a| && a[j] == h;
    assert PriorityKey()(a[m]) <= PriorityKey()(a[j]);
    assert a[m] in a;
  }

  /** The colour part of `getDayColor`. */
  function Color(k: EventType): (c: string)
    ensures KnownKind(k) <==> c != "bg-transparent"
  {
    match k
    case Lecture => "bg-blue-100 dark:bg-blue-900/30"
    case Holiday => "bg-green-100 dark:bg-green-900/30"
    case Break => "bg-amber-100 dark:bg-amber-900/30"
    case Exam => "bg-red-100 dark:bg-red-900/30"
    case _ => "bg-transparent"
  }

  predicate SameType(days: seq<string>, i: int, periods: seq<SemesterPeriod>, k: EventType)
    requires forall j :: 0 <= j < |periods| ==> KnownKind(periods[j].kind)
  {
    0 <= i < |days| && DayPeriodType(days[i], periods).Some? && DayPeriodType(days[i], periods).value.kind == k
  }

  /** `getDayColor`; for a covered day an index outside -1..|days| would read a missing
      neighbour and throw, while an uncovered day returns before any neighbour is read. */
  function DayColor(dateStr: string, weekday: int, dayIndex: int, days: seq<string>, periods: seq<SemesterPeriod>)
    : (c: string)
    requires forall j :: 0 <= j < |periods| ==> KnownKind(periods[j].kind)
    requires 0 <= weekday <= 6
    requires DayPeriodType(dateStr, periods).Some? ==> -1 <= dayIndex <= |days|
    ensures (forall p :: p in periods ==> !Covers(p, dateStr)) <==> c == "bg-transparent"
  {
    var info := DayPeriodType(dateStr, periods);
    if info.None? then "bg-transparent"
    else
      var k := info.value.kind;
      Color(k) + " " + Radius(weekday, SameType(days, dayIndex - 1, periods, k), SameType(days, dayIndex + 1, periods, k))
  }
}
