/** lib/scraper.ts without the HTTP request and the HTML extraction: the name
    normalisation, the percentage parsing and the construction of one scrape's rows. */
module Scraper {
  import opened Wrappers
  import opened Text
  import opened Collections
  import Slots

  /** `nameMapping`: (keyword, target) pairs, tried in this order. */
  const NameMapping: seq<(string, string)> :=
    [("A3", "A3"), ("A5", "A5"), ("Ehrenhof", "Jura"), ("Westflügel", "Schloss"), ("Schneckenhof", "BWL")]

  /** Entry `k` is the first entry whose keyword occurs in `raw`. */
  predicate FirstMatchAt(raw: string, mapping: seq<(string, string)>, k: int) {
    0 <= k < |mapping| && Includes(raw, mapping[k].0)
    && forall j :: 0 <= j < k ==> !Includes(raw, mapping[j].0)
  }

  /** The target of the first entry whose keyword occurs in `raw`, if any. */
  function FirstMatch(raw: string, mapping: seq<(string, string)>): (r: Option<string>)
    ensures r.None? <==> forall k :: 0 <= k < |mapping| ==> !Includes(raw, mapping[k].0)
    ensures r.Some? ==> exists k :: FirstMatchAt(raw, mapping, k) && r.value == mapping[k].1
  {
    if |mapping| == 0 then None
    else if Includes(raw, mapping[0].0) then
      assert FirstMatchAt(raw, mapping, 0);
      Some(mapping[0].1)
    else
      var r := FirstMatch(raw, mapping[1..]);
      assert forall k :: FirstMatchAt(raw, mapping[1..], k) ==> FirstMatchAt(raw, mapping, k + 1);
      assert forall k :: 1 <= k < |mapping| ==> mapping[k] == mapping[1..][k - 1];
      r
  }

  /** `normalizeName`: the first matching target, else the raw name unchanged. */
  function NormalizeName(raw: string): (name: string)
    ensures (forall k :: 0 <= k < |NameMapping| ==> !Includes(raw, NameMapping[k].0)) ==> name == raw
    ensures (exists k :: 0 <= k < |NameMapping| && Includes(raw, NameMapping[k].0)) ==>
              exists k :: FirstMatchAt(raw, NameMapping, k) && name == NameMapping[k].1
  {
    FirstMatch(raw, NameMapping).GetOr(raw)
  }

  /** "A3" is tried first, so a name mentioning it normalises to "A3" whatever else it mentions. */
  lemma A3Wins(raw: string)
    requires Includes(raw, "A3")
    ensures NormalizeName(raw) == "A3"
  {
    assert FirstMatchAt(raw, NameMapping, 0);
  }

  lemma OccurrencesStartWithHead(s: string, sub: string)
    requires |sub| > 0
    ensures forall i :: OccursAt(s, sub, i) ==> s[i] == sub[0]
  {
    forall i | OccursAt(s, sub, i) ensures s[i] == sub[0] {
      assert s[i..i + |sub|][0] == s[i];
    }
  }

  lemma FirstCharMissing(s: string, sub: string)
    requires |sub| > 0 && sub[0] !in s
    ensures !Includes(s, sub)
  {
    OccurrencesStartWithHead(s, sub);
  }

  lemma TooLong(s: string, sub: string)
    requires |sub| > |s|
    ensures !Includes(s, sub)
  {}

  /** A name in which no keyword occurs is left as it is. */
  lemma NoKeyword(raw: string)
    requires !Includes(raw, "A3") && !Includes(raw, "A5") && !Includes(raw, "Ehrenhof")
    requires !Includes(raw, "Westflügel") && !Includes(raw, "Schneckenhof")
    ensures NormalizeName(raw) == raw
  {}

  lemma A5Fixed()
    ensures NormalizeName("A5") == "A5"
  {
    OccurrencesStartWithHead("A5", "A3");
    assert !Includes("A5", "A3") by {
      forall i | OccursAt("A5", "A3", i) ensures i == 0 {}
      assert "A5"[0..2] == "A5";
    }
    assert OccursAt("A5", "A5", 0);
    assert FirstMatchAt("A5", NameMapping, 1);
  }

  lemma JuraFixed()
    ensures NormalizeName("Jura") == "Jura"
  {
    FirstCharMissing("Jura", "A3");
    FirstCharMissing("Jura", "A5");
    NoKeyword("Jura");
  }

  lemma SchlossFixed()
    ensures NormalizeName("Schloss") == "Schloss"
  {
    FirstCharMissing("Schloss", "A3");
    FirstCharMissing("Schloss", "A5");
    FirstCharMissing("Schloss", "Ehrenhof");
    NoKeyword("Schloss");
  }

  lemma BwlFixed()
    ensures NormalizeName("BWL") == "BWL"
  {
    FirstCharMissing("BWL", "A3");
    FirstCharMissing("BWL", "A5");
    NoKeyword("BWL");
  }

  /** Every target maps to itself. */
  lemma TargetsAreFixed()
    ensures NormalizeName("A3") == "A3" && NormalizeName("A5") == "A5" && NormalizeName("Jura") == "Jura"
    ensures NormalizeName("Schloss") == "Schloss" && NormalizeName("BWL") == "BWL"
  {
    assert OccursAt("A3", "A3", 0);
    A3Wins("A3");
    A5Fixed();
    JuraFixed();
    SchlossFixed();
    BwlFixed();
  }

  /** A normalised name is the raw name or one of the targets. */
  lemma NormalizeNameRange(raw: string)
    ensures var t := NormalizeName(raw);
            t == raw || t == "A3" || t == "A5" || t == "Jura" || t == "Schloss" || t == "BWL"
  {
    var r := FirstMatch(raw, NameMapping);
    if r.Some? {
      var k :| FirstMatchAt(raw, NameMapping, k) && r.value == NameMapping[k].1;
      assert 0 <= k < 5;
    }
  }

  /** Normalising twice is normalising once. */
  lemma NormalizeNameIdempotent(raw: string)
    ensures NormalizeName(NormalizeName(raw)) == NormalizeName(raw)
  {
    TargetsAreFixed();
    NormalizeNameRange(raw);
  }

  // ---- percentage -----------------------------------------------------------

  function SkipSpaces(s: string): (t: string)
    ensures |t| <= |s|
  {
    if |s| > 0 && IsSpace(s[0]) then SkipSpaces(s[1..]) else s
  }

  /** What is skipped is white space, and what remains starts with something else. */
  lemma {:induction false} SkipSpacesShape(s: string)
    ensures var t := SkipSpaces(s);
            (forall i :: 0 <= i < |s| - |t| ==> IsSpace(s[i])) && (|t| > 0 ==> !IsSpace(t[0]))
  {
    if |s| > 0 && IsSpace(s[0]) {
      SkipSpacesShape(s[1..]);
      assert forall i :: 1 <= i < |s| ==> s[i] == s[1..][i - 1];
    }
  }

  /** The longest prefix of decimal digits. */
  function LeadingDigits(s: string): (d: string)
    ensures d <= s && AllDigits(d)
    ensures |d| < |s| ==> !IsDigit(s[|d|])
  {
    if |s| > 0 && IsDigit(s[0]) then [s[0]] + LeadingDigits(s[1..]) else []
  }

  function DigitsValue(d: string, negative: bool): Option<int> {
    if |d| == 0 then None else if negative then Some(-ParseDigits(d)) else Some(ParseDigits(d))
  }

  /** `parseInt(s, 10)`: `None` stands for `NaN`. */
  function ParseInt(s: string): Option<int> {
    var t := SkipSpaces(s);
    if |t| > 0 && (t[0] == '-' || t[0] == '+') then DigitsValue(LeadingDigits(t[1..]), t[0] == '-')
    else DigitsValue(LeadingDigits(t), false)
  }

  /** `s.replace(c, '')` with a one-character pattern: only the first occurrence goes. */
  function RemoveFirst(s: string, c: char): (r: string)
    ensures c !in s ==> r == s
    ensures c in s ==> r == s[..IndexOf(s, c)] + s[IndexOf(s, c) + 1..]
  {
    if |s| == 0 then s
    else if s[0] == c then s[1..]
    else
      assert s == [s[0]] + s[1..];
      [s[0]] + RemoveFirst(s[1..], c)
  }

  /** The stored percentage of a status text: parsed when it shows a '%', else 0. */
  function Percentage(status: string): (p: Option<int>)
    ensures '%' !in status ==> p == Some(0)
  {
    if '%' in status then ParseInt(RemoveFirst(status, '%')) else Some(0)
  }

  lemma LeadingDigitsOfDigits(d: string, rest: string)
    requires AllDigits(d) && (|rest| == 0 || !IsDigit(rest[0]))
    ensures LeadingDigits(d + rest) == d
  {
    if |d| > 0 {
      assert (d + rest)[1..] == d[1..] + rest;
      LeadingDigitsOfDigits(d[1..], rest);
    }
  }

  /** `parseInt` reads back the decimal form of any integer, whatever non-digit text follows. */
  lemma ParseIntOfNumber(n: int, rest: string)
    requires |rest| == 0 || !IsDigit(rest[0])
    ensures ParseInt(IntToString(n) + rest) == Some(n)
  {
    if n < 0 {
      ParseIntOfNegative(-n, rest);
    } else {
      ParseIntOfNatural(n, rest);
    }
  }

  lemma {:induction false} ParseIntOfNatural(n: nat, rest: string)
    requires |rest| == 0 || !IsDigit(rest[0])
    ensures ParseInt(NatToString(n) + rest) == Some(n)
  {
    var d := NatToString(n);
    ParseNatToString(n);
    assert DigitsValue(d, false) == Some(n);
    ParseIntOfDigits(d, rest);
  }

  lemma {:induction false} ParseIntOfDigits(d: string, rest: string)
    requires |d| > 0 && AllDigits(d) && (|rest| == 0 || !IsDigit(rest[0]))
    ensures ParseInt(d + rest) == DigitsValue(d, false)
  {
    var s := d + rest;
    assert s[0] == d[0] && IsDigit(s[0]);
    assert SkipSpaces(s) == s;
    LeadingDigitsOfDigits(d, rest);
  }

  lemma {:induction false} ParseIntOfNegative(m: int, rest: string)
    requires m > 0 && (|rest| == 0 || !IsDigit(rest[0]))
    ensures ParseInt(IntToString(-m) + rest) == Some(-m)
  {
    var d := NatToString(m);
    ParseNatToString(m);
    assert DigitsValue(d, true) == Some(-m);
    ParseIntOfMinusDigits(d, rest);
    MinusText(m, rest);
  }

  lemma MinusText(m: int, rest: string)
    requires m > 0
    ensures IntToString(-m) + rest == "-" + (NatToString(m) + rest)
  {}

  lemma {:induction false} ParseIntOfMinusDigits(d: string, rest: string)
    requires |d| > 0 && AllDigits(d) && (|rest| == 0 || !IsDigit(rest[0]))
    ensures ParseInt("-" + (d + rest)) == DigitsValue(d, true)
  {
    var s := "-" + (d + rest);
    assert s[1..] == d + rest;
    ParseIntOfMinus(s);
    LeadingDigitsOfDigits(d, rest);
  }

  lemma ParseIntOfMinus(s: string)
    requires |s| > 0 && s[0] == '-'
    ensures ParseInt(s) == DigitsValue(LeadingDigits(s[1..]), true)
  {
    assert !IsSpace(s[0]);
    assert SkipSpaces(s) == s;
  }

  /** A status "<n>%" stores `n`. */
  lemma PercentageOfLabel(n: int)
    ensures Percentage(IntToString(n) + "%") == Some(n)
  {
    var s := IntToString(n);
    assert '%' !in s by {
      assert forall k :: 0 <= k < |s| ==> s[k] == '-' || IsDigit(s[k]);
    }
    var t := s + "%";
    assert IndexOf(t, '%') == |s| by {
      assert t[|s|] == '%';
      assert forall j :: 0 <= j < |s| ==> t[j] == s[j];
    }
    assert RemoveFirst(t, '%') == s + "";
    ParseIntOfNumber(n, "");
  }

  // ---- rows of one scrape ---------------------------------------------------

  /** The two cells of a table row as extracted text, or a row whose extraction throws. */
  datatype Cell = Cell(rawName: string, statusText: string) | Unreadable

  /** The shared metadata of one scrape: the Berlin date and time, `iat` and `ttl`. */
  datatype ScrapeClock = ScrapeClock(year: int, month: int, day: int, hour: int, minute: int, iat: string, ttl: string)

  /** `BibDataRow`; `percentage` is `None` where `parseInt` gives `NaN`. */
  datatype BibDataRow = BibDataRow(percentage: Option<int>, name: string, year: int, month: int, day: int,
                                   chunk: int, iat: string, ttl: string)

  /** The row's metadata is the scrape's. */
  predicate SharesClock(r: BibDataRow, clk: ScrapeClock) {
    r.year == clk.year && r.month == clk.month && r.day == clk.day && r.iat == clk.iat && r.ttl == clk.ttl
  }

  function BuildRow(cell: Cell, clk: ScrapeClock): (r: BibDataRow)
    ensures SharesClock(r, clk)
  {
    match cell
    case Unreadable => BibDataRow(Some(0), "", clk.year, clk.month, clk.day, 0, clk.iat, clk.ttl)
    case Cell(rawName, status) =>
      BibDataRow(Percentage(status), NormalizeName(rawName), clk.year, clk.month, clk.day,
                 Slots.ComputeChunk(clk.hour, clk.minute), clk.iat, clk.ttl)
  }

  /** The rows of one scrape, one per table row in order. */
  function BuildRows(cells: seq<Cell>, clk: ScrapeClock): (rows: seq<BibDataRow>)
    ensures |rows| == |cells|
    ensures forall i :: 0 <= i < |rows| ==> SharesClock(rows[i], clk)
  {
    seq(|cells|, i requires 0 <= i < |cells| => BuildRow(cells[i], clk))
  }

  /** All rows of a scrape carry the same metadata and, with a valid clock, a chunk of
      the day; a row that throws stores 0 for the library "" in chunk 0; a readable
      row stores its normalised name, its status percentage and the scrape's chunk. */
  lemma ScrapeRows(cells: seq<Cell>, clk: ScrapeClock, i: int, j: int)
    requires 0 <= i < |cells| && 0 <= j < |cells|
    ensures var rows := BuildRows(cells, clk);
            rows[i].year == rows[j].year && rows[i].month == rows[j].month && rows[i].day == rows[j].day
            && rows[i].iat == rows[j].iat && rows[i].ttl == rows[j].ttl
    ensures var r := BuildRows(cells, clk)[i];
            (0 <= clk.hour <= 23 && 0 <= clk.minute <= 59 ==> 0 <= r.chunk < Slots.SlotsPerDay)
            && (cells[i].Unreadable? ==> r.percentage == Some(0) && r.name == "" && r.chunk == 0)
            && (cells[i].Cell? ==> r.name == NormalizeName(cells[i].rawName)
                                   && r.percentage == Percentage(cells[i].statusText)
                                   && r.chunk * 10 <= clk.hour * 60 + clk.minute < r.chunk * 10 + 10)
  {
    assert BuildRows(cells, clk)[i] == BuildRow(cells[i], clk);
  }
}
