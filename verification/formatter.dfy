/** src/utils/formatter.ts `getDaySuffix`: the English ordinal suffix of a day of the month. */
module Formatter {
  import opened Numeric

  /** `getDaySuffix`; its `day % 10` truncates towards zero, so a negative day never
      reaches the cases 1, 2 and 3. */
  function DaySuffix(day: int): (s: string)
    ensures s in ["st", "nd", "rd", "th"]
  {
    if 11 <= day <= 13 then "th"
    else if JsRem(day, 10) == 1 then "st"
    else if JsRem(day, 10) == 2 then "nd"
    else if JsRem(day, 10) == 3 then "rd"
    else "th"
  }

  /** Days below 1 all get "th": `-9 % 10` is -9 in the source, not 1. */
  lemma NonPositiveDayIsTh(day: int)
    requires day <= 0
    ensures DaySuffix(day) == "th"
  {
    assert JsRem(day, 10) <= 0;
  }

  /** For the days of a month: "st", "nd" and "rd" exactly for the days ending in
      1, 2 and 3 other than 11, 12 and 13; "th" for all others. */
  lemma DaySuffixOfMonthDay(day: int)
    requires 1 <= day <= 31
    ensures DaySuffix(day) == "st" <==> day in {1, 21, 31}
    ensures DaySuffix(day) == "nd" <==> day in {2, 22}
    ensures DaySuffix(day) == "rd" <==> day in {3, 23}
    ensures DaySuffix(day) == "th" <==> (4 <= day <= 20 || 24 <= day <= 30)
  {}
}
