/** String helpers standing in for the JavaScript string operations the source
    uses: `String(n)`, `padStart(2, '0')`, `includes`, `endsWith` and the `<`
    comparison on strings (UTF-16 code-unit order; modelled as code-point order,
    which agrees on the Basic Multilingual Plane). */
module Text {

  predicate IsDigit(c: char) { '0' <= c <= '9' }

  predicate AllDigits(s: string) { forall i :: 0 <= i < |s| ==> IsDigit(s[i]) }

  /** JavaScript's white space and line terminators: what `parseInt` skips and what
      `\s` matches in a regular expression. */
  predicate IsSpace(c: char) {
    c == ' ' || c == '\t' || c == '\n' || c == '\r' || c == '\U{000B}' || c == '\U{000C}'
    || c == '\U{00A0}' || c == '\U{1680}' || ('\U{2000}' <= c <= '\U{200A}')
    || c == '\U{2028}' || c == '\U{2029}' || c == '\U{202F}' || c == '\U{205F}'
    || c == '\U{3000}' || c == '\U{FEFF}'
  }

  function DigitChar(d: int): (c: char)
    requires 0 <= d < 10
    ensures IsDigit(c) && c as int - '0' as int == d
  {
    (d + '0' as int) as char
  }

  /** Value of a string of decimal digits. */
  function ParseDigits(s: string): int {
    if |s| == 0 then 0 else ParseDigits(s[..|s| - 1]) * 10 + (s[|s| - 1] as int - '0' as int)
  }

  /** `String(n)` for a non-negative integer: its decimal digits, no leading zero. */
  function NatToString(n: nat): (s: string)
    ensures |s| >= 1 && AllDigits(s)
    ensures |s| == 1 <==> n < 10
    ensures n < 100 ==> |s| <= 2
    decreases n
  {
    if n < 10 then [DigitChar(n)] else NatToString(n / 10) + [DigitChar(n % 10)]
  }

  /** `String(i)` for any integer. */
  function IntToString(i: int): string {
    if i < 0 then "-" + NatToString(-i) else NatToString(i)
  }

  /** `s.padStart(2, '0')`. */
  function PadStart2(s: string): (r: string)
    ensures |s| >= 2 ==> r == s
    ensures |r| == if |s| >= 2 then |s| else 2
  {
    if |s| >= 2 then s else if |s| == 1 then "0" + s else "00"
  }

  /** Padding only ever adds zeros in front: the original string is a suffix. */
  lemma PadStart2Suffix(s: string)
    ensures PadStart2(s)[|PadStart2(s)| - |s|..] == s
    ensures forall k :: 0 <= k < |PadStart2(s)| - |s| ==> PadStart2(s)[k] == '0'
  {}

  /** `String(i).padStart(2, '0')`, the two-digit field of an "HH:MM" label. */
  function Pad2Int(i: int): string {
    PadStart2(IntToString(i))
  }

  /** "HH:MM" built from an hour and a minute field. */
  function TimeLabel(h: int, m: int): string {
    Pad2Int(h) + ":" + Pad2Int(m)
  }

  lemma {:induction false} ParseNatToString(n: nat)
    ensures ParseDigits(NatToString(n)) == n
    decreases n
  {
    if n >= 10 {
      var s := NatToString(n / 10);
      assert (s + [DigitChar(n % 10)])[..|s|] == s;
      ParseNatToString(n / 10);
    }
  }

  lemma {:induction false} ParseLeadingZero(s: string)
    requires AllDigits(s)
    ensures ParseDigits("0" + s) == ParseDigits(s)
    decreases |s|
  {
    if |s| > 0 {
      var t := s[..|s| - 1];
      assert ("0" + s)[..|"0" + s| - 1] == "0" + t;
      ParseLeadingZero(t);
    }
  }

  /** A two-digit field of a non-negative number reads back as that number. */
  lemma Pad2NatParses(n: nat)
    ensures ParseDigits(Pad2Int(n)) == n
    ensures AllDigits(Pad2Int(n))
  {
    ParseNatToString(n);
    if n < 10 {
      ParseLeadingZero(NatToString(n));
    }
  }

  /** The field of a negative number is its minus sign followed by its digits. */
  lemma Pad2Negative(a: int)
    requires a < 0
    ensures Pad2Int(a) == "-" + NatToString(-a)
    ensures Pad2Int(a)[0] == '-'
    ensures Pad2Int(a)[1..] == NatToString(-a)
  {}

  lemma Pad2NonNegativeStartsWithDigit(n: int)
    requires n >= 0
    ensures IsDigit(Pad2Int(n)[0])
  {
    Pad2NatParses(n);
  }

  lemma Pad2NegativeInjective(a: int, b: int)
    requires a < 0 && b < 0 && Pad2Int(a) == Pad2Int(b)
    ensures a == b
  {
    Pad2Negative(a);
    Pad2Negative(b);
    ParseNatToString(-a);
    ParseNatToString(-b);
  }

  lemma Pad2NonNegativeInjective(a: int, b: int)
    requires a >= 0 && b >= 0 && Pad2Int(a) == Pad2Int(b)
    ensures a == b
  {
    Pad2NatParses(a);
    Pad2NatParses(b);
  }

  /** Distinct integers have distinct two-digit fields. */
  lemma Pad2IntInjective(a: int, b: int)
    requires Pad2Int(a) == Pad2Int(b)
    ensures a == b
  {
    if a >= 0 && b >= 0 {
      Pad2NonNegativeInjective(a, b);
    } else if a < 0 && b < 0 {
      Pad2NegativeInjective(a, b);
    } else if a < 0 {
      Pad2Negative(a);
      Pad2NonNegativeStartsWithDigit(b);
    } else {
      Pad2Negative(b);
      Pad2NonNegativeStartsWithDigit(a);
    }
  }

  lemma Pad2IntHasNoColon(i: int)
    ensures ':' !in Pad2Int(i)
  {
    var s := IntToString(i);
    assert forall k :: 0 <= k < |s| ==> s[k] == '-' || IsDigit(s[k]);
  }

  lemma Pad2SmallShape(n: int)
    requires 0 <= n < 100
    ensures |Pad2Int(n)| == 2 && AllDigits(Pad2Int(n))
  {}

  /** A separator that occurs in neither left part splits a concatenation uniquely. */
  lemma SplitAtSeparator(a: string, b: string, c: string, d: string, sep: char)
    requires sep !in a && sep !in c
    requires a + [sep] + b == c + [sep] + d
    ensures a == c && b == d
  {
    var x := a + [sep] + b;
    assert x[|a|] == sep;
    assert x[|c|] == sep;
    assert |a| == |c|;
    assert a == x[..|a|] == c;
    assert b == x[|a| + 1..] == d;
  }

  /** Equal "HH:MM" labels come from equal hour and minute fields. */
  lemma TimeLabelInjective(h1: int, m1: int, h2: int, m2: int)
    requires TimeLabel(h1, m1) == TimeLabel(h2, m2)
    ensures h1 == h2 && m1 == m2
  {
    Pad2IntHasNoColon(h1);
    Pad2IntHasNoColon(h2);
    SplitAtSeparator(Pad2Int(h1), Pad2Int(m1), Pad2Int(h2), Pad2Int(m2), ':');
    Pad2IntInjective(h1, h2);
    Pad2IntInjective(m1, m2);
  }

  /** `sub` occurs in `s` starting at index `i`. */
  predicate OccursAt(s: string, sub: string, i: int) {
    0 <= i && i + |sub| <= |s| && s[i..i + |sub|] == sub
  }

  /** `s.includes(sub)`, scanning the start positions left to right. */
  function Includes(s: string, sub: string): (r: bool)
    ensures r <==> exists i :: OccursAt(s, sub, i)
    decreases |s|
  {
    if |sub| > |s| then false
    else if s[..|sub|] == sub then assert OccursAt(s, sub, 0); true
    else
      var r := Includes(s[1..], sub);
      assert forall i :: OccursAt(s[1..], sub, i) ==> OccursAt(s, sub, i + 1);
      assert forall i :: OccursAt(s, sub, i) ==> i >= 1 && OccursAt(s[1..], sub, i - 1);
      r
  }

  /** `s.endsWith(suffix)`. */
  predicate EndsWith(s: string, suffix: string) {
    |suffix| <= |s| && s[|s| - |suffix|..] == suffix
  }

  /** JavaScript's `a < b` on strings: lexicographic, a proper prefix comes first. */
  predicate StrLess(a: string, b: string) {
    if |b| == 0 then false
    else if |a| == 0 then true
    else if a[0] != b[0] then a[0] < b[0]
    else StrLess(a[1..], b[1..])
  }

  /** JavaScript's `a <= b` on strings. */
  predicate StrLessEq(a: string, b: string) {
    a == b || StrLess(a, b)
  }

  lemma StrLessIrreflexive(a: string)
    ensures !StrLess(a, a)
  {}

  lemma StrLessTransitive(a: string, b: string, c: string)
    requires StrLess(a, b) && StrLess(b, c)
    ensures StrLess(a, c)
  {
    if |a| > 0 && |b| > 0 && |c| > 0 && a[0] == b[0] && b[0] == c[0] {
      StrLessTransitive(a[1..], b[1..], c[1..]);
    }
  }

  lemma StrLessTotal(a: string, b: string)
    requires a != b
    ensures StrLess(a, b) || StrLess(b, a)
  {
    if |a| > 0 && |b| > 0 && a[0] == b[0] {
      assert a == [a[0]] + a[1..];
      assert b == [b[0]] + b[1..];
      StrLessTotal(a[1..], b[1..]);
    }
  }

  lemma StrLessAsymmetric(a: string, b: string)
    requires StrLess(a, b)
    ensures !StrLess(b, a)
  {
    if |a| > 0 && |b| > 0 && a[0] == b[0] {
      StrLessAsymmetric(a[1..], b[1..]);
    }
  }
}
