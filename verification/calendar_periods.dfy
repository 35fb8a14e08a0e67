/** What the two calendarHelpers.ts files (components/calendar/utils and
    src/components/calendar/utils) share: the period record, the filter by day, the
    weekday mapping, the rounded corners of a day cell and the countdown to the next
    exam or break. Dates are "yyyy-MM-dd" strings compared as strings; the current time
    and `parseISO(...).getTime()` are parameters. */
module CalendarPeriods {
  import opened Wrappers
  import opened Text
  import opened Collections
  import opened Sorting

  datatype EventType = Lecture | Exam | Holiday | Break | Event | Info

  datatype SemesterPeriod = SemesterPeriod(start: string, end: string, kind: EventType, name: string)

  /** The result of `getDayPeriodType`. */
  datatype DayPeriod = DayPeriod(kind: EventType, isStart: bool, isEnd: bool)

  /** `dateStr >= period.start && dateStr <= period.end`. */
  predicate Covers(p: SemesterPeriod, dateStr: string) {
    StrLessEq(p.start, dateStr) && StrLessEq(dateStr, p.end)
  }

  /** `getPeriodsForDay`: each period covering the day, as often as it occurs in
      `periods`, in input order. */
  function PeriodsForDay(dateStr: string, periods: seq<SemesterPeriod>): (r: seq<SemesterPeriod>)
    ensures IsSubsequence(r, periods)
    ensures forall p :: multiset(r)[p] == if Covers(p, dateStr) then multiset(periods)[p] else 0
    ensures forall p :: p in r <==> p in periods && Covers(p, dateStr)
  {
    Filter(periods, (p: SemesterPeriod) => Covers(p, dateStr))
  }

  /** `getDay`: JavaScript's weekday 0 (Sunday) … 6 turned into 1 (Monday) … 7 (Sunday). */
  function Day(weekday: int): (d: int)
    requires 0 <= weekday <= 6
    ensures 1 <= d <= 7
    ensures weekday != 0 ==> d == weekday
    ensures d == 7 <==> weekday == 0
  {
    if weekday == 0 then 7 else weekday
  }

  /** `getDay` never gives 0, so the "Sunday" test of `getDayColor` never fires. */
  lemma DayIsNeverZero(weekday: int)
    requires 0 <= weekday <= 6
    ensures Day(weekday) != 0
  {}

  /** The `borderRadius` of `getDayColor` for a day whose weekday is `weekday` and whose
      neighbours do (`true`) or do not have the same period type. Every type is a
      non-empty string, so the `periodInfo.type` tests always hold. */
  function Radius(weekday: int, prevSame: bool, nextSame: bool): (r: string)
    requires 0 <= weekday <= 6
    ensures !prevSame && !nextSame ==> r == "rounded-full"
  {
    var a := if Day(weekday) == 1 then " rounded-l-full" else "";
    var b := a + (if Day(weekday) == 0 then " rounded-r-full" else "");
    var c := b + (if !prevSame then " rounded-l-full" else "");
    var d := c + (if !nextSame then " rounded-r-full" else "");
    if !prevSame && !nextSame then "rounded-full" else d
  }

  /** The corners of a day inside a run of equal periods: only a Monday is rounded
      (left); a Sunday is not, since its test compares with 0. A run's first or last day
      gets its left or right corner, a Monday that starts a run the left one twice. */
  lemma RadiusCases(weekday: int, prevSame: bool, nextSame: bool)
    requires 0 <= weekday <= 6
    ensures prevSame && nextSame ==> Radius(weekday, prevSame, nextSame) == (if weekday == 1 then " rounded-l-full" else "")
    ensures !prevSame && nextSame ==>
              Radius(weekday, prevSame, nextSame) == (if weekday == 1 then " rounded-l-full rounded-l-full" else " rounded-l-full")
    ensures prevSame && !nextSame ==>
              Radius(weekday, prevSame, nextSame) == (if weekday == 1 then " rounded-l-full rounded-r-full" else " rounded-r-full")
  {}

  /** The `days` of a countdown: `Math.ceil(diff / one day)` for a positive `diff` in ms. */
  const DayMs: int := 86400000

  function CeilDays(diff: int): (d: int)
    requires diff > 0
    ensures d >= 1 && (d - 1) * DayMs < diff <= d * DayMs
  {
    (diff + DayMs - 1) / DayMs
  }

  datatype Countdown = Countdown(name: string, kind: EventType, days: int)

  /** A period of `kind` starting after `now`; an unparsable start (`None`) compares false. */
  predicate IsUpcoming(p: SemesterPeriod, kind: EventType, parse: string -> Option<int>, now: int) {
    p.kind == kind && parse(p.start).Some? && parse(p.start).value > now
  }

  /** `periods.filter(...)` for the upcoming periods of `kind`: each as often as it
      occurs, in input order, which decides the countdown on a tie. */
  function Upcoming(periods: seq<SemesterPeriod>, kind: EventType, parse: string -> Option<int>, now: int)
    : (r: seq<SemesterPeriod>)
    ensures IsSubsequence(r, periods)
    ensures forall p :: multiset(r)[p] == if IsUpcoming(p, kind, parse, now) then multiset(periods)[p] else 0
    ensures forall p :: p in r <==> p in periods && IsUpcoming(p, kind, parse, now)
  {
    Filter(periods, (p: SemesterPeriod) => IsUpcoming(p, kind, parse, now))
  }

  function StartKey(parse: string -> Option<int>): SemesterPeriod -> int {
    (p: SemesterPeriod) => parse(p.start).GetOr(0)
  }

  /** The countdown to the first upcoming period of `kind` after sorting by start. */
  function CountdownTo(periods: seq<SemesterPeriod>, kind: EventType, parse: string -> Option<int>, now: int)
    : (r: Option<Countdown>)
    ensures r.None? <==> |Upcoming(periods, kind, parse, now)| == 0
  {
    var u := Upcoming(periods, kind, parse, now);
    if |u| == 0 then None
    else
      var next := SortByKey(u, StartKey(parse))[0];
      assert next in multiset(u);
      assert next in u;
      assert IsUpcoming(next, kind, parse, now);
      Some(Countdown(next.name, kind, CeilDays(parse(next.start).value - now)))
  }

  /** `getNextEventCountdown`: exams first, then breaks. */
  function NextEventCountdown(periods: seq<SemesterPeriod>, parse: string -> Option<int>, now: int): Option<Countdown> {
    var exam := CountdownTo(periods, Exam, parse, now);
    if exam.Some? then exam else CountdownTo(periods, Break, parse, now)
  }

  /** The countdown names the earliest-starting upcoming period of its kind (the first of
      them in input order on a tie) and counts the days to its start, rounded up. */
  lemma CountdownToEarliest(periods: seq<SemesterPeriod>, kind: EventType, parse: string -> Option<int>, now: int)
    returns (m: int)
    requires |Upcoming(periods, kind, parse, now)| > 0
    ensures var u := Upcoming(periods, kind, parse, now);
            var c := CountdownTo(periods, kind, parse, now).value;
            IsFirstMin(u, m, StartKey(parse)) && c.name == u[m].name && c.kind == kind
            && parse(u[m].start).Some?
            && c.days >= 1 && (c.days - 1) * DayMs < parse(u[m].start).value - now <= c.days * DayMs
            && forall p :: p in periods && IsUpcoming(p, kind, parse, now) ==> parse(u[m].start).value <= parse(p.start).value
  {
    var u := Upcoming(periods, kind, parse, now);
    m := SortHeadIsFirstMin(u, StartKey(parse));
    assert u[m] in u;
    forall p | p in periods && IsUpcoming(p, kind, parse, now)
      ensures parse(u[m].start).value <= parse(p.start).value
    {
      var j :| 0 <= j < |u| && u[j] == p;
      assert StartKey(parse)(u[m]) <= StartKey(parse)(u[j]);
    }
  }

  /** An upcoming exam always wins over a break, however near the break; with neither
      there is no countdown. */
  lemma ExamBeforeBreak(periods: seq<SemesterPeriod>, parse: string -> Option<int>, now: int)
    ensures var r := NextEventCountdown(periods, parse, now);
            (r.None? <==> (forall p :: p in periods ==> !IsUpcoming(p, Exam, parse, now) && !IsUpcoming(p, Break, parse, now)))
            && ((exists p :: p in periods && IsUpcoming(p, Exam, parse, now)) ==> r.Some? && r.value.kind == Exam)
            && ((forall p :: p in periods ==> !IsUpcoming(p, Exam, parse, now)) ==> r == CountdownTo(periods, Break, parse, now))
  {
    var ue := Upcoming(periods, Exam, parse, now);
    var ub := Upcoming(periods, Break, parse, now);
    if |ue| > 0 {
      var m := CountdownToEarliest(periods, Exam, parse, now);
      assert ue[m] in ue;
    }
    if |ub| > 0 {
      assert ub[0] in ub;
    }
  }
}
