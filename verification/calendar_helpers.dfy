/** components/calendar/utils/calendarHelpers.ts: the day's period type picked by
    `reduce` over the priorities exam < holiday < break < lecture < anything else, and
    the cell colour that follows from it. */
module CalendarHelpers {
  import opened Wrappers
  import opened Sorting
  import opened CalendarPeriods

  /** `getPriority`. */
  function Priority(k: EventType): (r: int)
    ensures 0 <= r <= 4
    ensures (r == 0 <==> k == Exam) && (r == 1 <==> k == Holiday) && (r == 2 <==> k == Break)
            && (r == 3 <==> k == Lecture)
  {
    match k
    case Exam => 0
    case Holiday => 1
    case Break => 2
    case Lecture => 3
    case _ => 4
  }

  function PriorityKey(): SemesterPeriod -> int {
    (p: SemesterPeriod) => Priority(p.kind)
  }

  /** `applicable.reduce((best, cur) => priority(cur) < priority(best) ? cur : best)`. */
  function Reduce(s: seq<SemesterPeriod>): SemesterPeriod
    requires |s| > 0
  {
    if |s| == 1 then s[0]
    else
      var best := Reduce(s[..|s| - 1]);
      var cur := s[|s| - 1];
      if Priority(cur.kind) < Priority(best.kind) then cur else best
  }

  /** The reduction keeps the first period of the smallest priority: a later one replaces
      the current best only when strictly better. */
  lemma {:induction false} ReduceIsFirstMin(s: seq<SemesterPeriod>) returns (m: int)
    requires |s| > 0
    ensures IsFirstMin(s, m, PriorityKey()) && Reduce(s) == s[m]
  {
    if |s| == 1 {
      m := 0;
    } else {
      var init := s[..|s| - 1];
      var i := ReduceIsFirstMin(init);
      assert forall j :: 0 <= j < |init| ==> init[j] == s[j];
      if Priority(s[|s| - 1].kind) < Priority(Reduce(init).kind) {
        m := |s| - 1;
      } else {
        m := i;
      }
    }
  }

  /** `getDayPeriodType`. */
  function DayPeriodType(dateStr: string, periods: seq<SemesterPeriod>): (r: Option<DayPeriod>)
    ensures r.None? <==> forall p :: p in periods ==> !Covers(p, dateStr)
  {
    var applicable := PeriodsForDay(dateStr, periods);
    if |applicable| == 0 then None
    else
      assert applicable[0] in applicable;
      var top := Reduce(applicable);
      Some(DayPeriod(top.kind, dateStr == top.start, dateStr == top.end))
  }

  /** The chosen period is the first applicable one of smallest priority; the flags say
      whether the day is that period's first or last day. */
  lemma DayPeriodChoice(dateStr: string, periods: seq<SemesterPeriod>) returns (m: int)
    requires exists p :: p in periods && Covers(p, dateStr)
    ensures var a := PeriodsForDay(dateStr, periods);
            var r := DayPeriodType(dateStr, periods);
            IsFirstMin(a, m, PriorityKey()) && r.Some?
            && r.value.kind == a[m].kind
            && (r.value.isStart <==> dateStr == a[m].start)
            && (r.value.isEnd <==> dateStr == a[m].end)
  {
    var a := PeriodsForDay(dateStr, periods);
    var p :| p in periods && Covers(p, dateStr);
    assert p in a;
    m := ReduceIsFirstMin(a);
  }

  /** An exam on the day beats every other period. */
  lemma ExamWins(dateStr: string, periods: seq<SemesterPeriod>, e: SemesterPeriod)
    requires e in periods && e.kind == Exam && Covers(e, dateStr)
    ensures DayPeriodType(dateStr, periods).Some? && DayPeriodType(dateStr, periods).value.kind == Exam
  {
    var a := PeriodsForDay(dateStr, periods);
    var m := DayPeriodChoice(dateStr, periods);
    var j :| 0 <= j < |a| && a[j] == e;
    assert PriorityKey()(a[m]) <= PriorityKey()(a[j]);
  }

  /** The colour part of `getDayColor`: 'info' is drawn like 'lecture', 'event' not at all. */
  function Color(k: EventType): (c: string)
    ensures (k == Lecture || k == Info) <==> c == "bg-blue-100 dark:bg-blue-900/30"
    ensures k == Event <==> c == "bg-transparent"
  {
    match k
    case Exam => "bg-red-100 dark:bg-red-900/30"
    case Lecture => "bg-blue-100 dark:bg-blue-900/30"
    case Info => "bg-blue-100 dark:bg-blue-900/30"
    case Holiday => "bg-green-100 dark:bg-green-900/30"
    case Break => "bg-amber-100 dark:bg-amber-900/30"
    case Event => "bg-transparent"
  }

  /** Whether the neighbour at `i` exists and has period type `k`. */
  predicate SameType(days: seq<string>, i: int, periods: seq<SemesterPeriod>, k: EventType) {
    0 <= i < |days| && DayPeriodType(days[i], periods).Some? && DayPeriodType(days[i], periods).value.kind == k
  }

  /** `getDayColor` for the day `dateStr` at `dayIndex` of `days`, on JavaScript weekday
      `weekday`. For a covered day, an index outside -1..|days| would read a missing
      neighbour and throw; an uncovered day returns before any neighbour is read. */
  function DayColor(dateStr: string, weekday: int, dayIndex: int, days: seq<string>, periods: seq<SemesterPeriod>)
    : (c: string)
    requires 0 <= weekday <= 6
    requires DayPeriodType(dateStr, periods).Some? ==> -1 <= dayIndex <= |days|
    ensures (forall p :: p in periods ==> !Covers(p, dateStr)) <==> c == "bg-transparent"
  {
    var info := DayPeriodType(dateStr, periods);
    if info.None? then "bg-transparent"
    else
      var k := info.value.kind;
      Color(k) + " " + Radius(weekday, SameType(days, dayIndex - 1, periods, k), SameType(days, dayIndex + 1, periods, k))
  }

  /** A day whose neighbours both differ in type is a full pill. */
  lemma IsolatedDayIsRound(dateStr: string, weekday: int, dayIndex: int, days: seq<string>, periods: seq<SemesterPeriod>)
    requires 0 <= weekday <= 6 && -1 <= dayIndex <= |days|
    requires DayPeriodType(dateStr, periods).Some?
    requires var k := DayPeriodType(dateStr, periods).value.kind;
             !SameType(days, dayIndex - 1, periods, k) && !SameType(days, dayIndex + 1, periods, k)
    ensures DayColor(dateStr, weekday, dayIndex, days, periods)
         == Color(DayPeriodType(dateStr, periods).value.kind) + " rounded-full"
  {
    var c := Color(DayPeriodType(dateStr, periods).value.kind);
    assert DayColor(dateStr, weekday, dayIndex, days, periods) == c + " " + "rounded-full";
    assert c + " " + "rounded-full" == c + " rounded-full";
  }
}
