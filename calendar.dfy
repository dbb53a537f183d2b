/**
 * UTC calendar values and the three strings the resampler derives from a
 * sample's date: the bucket key `"YYYY-MM"` (zero-based month, as built from
 * `getUTCFullYear()` and `getUTCMonth()`), the ISO date `"YYYY-MM-DD"`
 * (one-based month, as cut from `toISOString()`) and the short en-US label
 * `"Mar 2024"`. Each string comes with a parser, and the lemmas show the
 * strings lose nothing (round trips) and that the key's string order is
 * chronological.
 */
module Calendar {
  import opened Wrappers
  import opened Seqs

  /** A zero-based month index, as `Date.prototype.getUTCMonth` returns it. */
  type MonthIndex = m: int | 0 <= m <= 11

  /** A day of the month, as `Date.prototype.getUTCDate` returns it. */
  type DayOfMonth = d: int | 1 <= d <= 31 witness 1

  /** A UTC calendar date. */
  datatype Date = Date(year: int, month: MonthIndex, day: DayOfMonth)

  /** A UTC calendar month: the identity of one bucket. */
  datatype YearMonth = YearMonth(year: int, month: MonthIndex)

  function MonthOfDate(d: Date): YearMonth {
    YearMonth(d.year, d.month)
  }

  /** Months counted from year 0; consecutive months have consecutive ordinals. */
  function MonthOrdinal(ym: YearMonth): int {
    ym.year * 12 + ym.month
  }

  lemma MonthOrdinalInjective(a: YearMonth, b: YearMonth)
    ensures MonthOrdinal(a) == MonthOrdinal(b) <==> a == b
    ensures MonthOrdinal(a) < MonthOrdinal(b) <==> a.year < b.year || (a.year == b.year && a.month < b.month)
  {
    if a.year < b.year {
      assert MonthOrdinal(a) <= (b.year - 1) * 12 + 11;
    } else if b.year < a.year {
      assert MonthOrdinal(b) <= (a.year - 1) * 12 + 11;
    }
  }

  /** Calendar order on dates: by year, then month, then day. */
  predicate DateLe(a: Date, b: Date) {
    a.year < b.year
    || (a.year == b.year && a.month < b.month)
    || (a.year == b.year && a.month == b.month && a.day <= b.day)
  }

  // ----- decimal digits -----

  function Pow10(w: nat): (r: nat)
    ensures r >= 1
  {
    if w == 0 then 1 else 10 * Pow10(w - 1)
  }

  function DigitChar(d: int): char
    requires 0 <= d <= 9
  {
    (48 + d) as char
  }

  predicate IsDigit(c: char) {
    '0' <= c <= '9'
  }

  /** The last `w` decimal digits of `n`, with leading zeros. */
  function Pad(n: nat, w: nat): (r: string)
    ensures |r| == w
    ensures forall i :: 0 <= i < |r| ==> IsDigit(r[i])
  {
    if w == 0 then [] else Pad(n / 10, w - 1) + [DigitChar(n % 10)]
  }

  /** `String(n)` for a natural number: decimal digits, no leading zeros. */
  function Decimal(n: nat): (r: string)
    ensures |r| >= 1
  {
    if n < 10 then [DigitChar(n)] else Decimal(n / 10) + [DigitChar(n % 10)]
  }

  /** `String(i)` for an integer. */
  function IntString(i: int): string {
    if i < 0 then "-" + Decimal(-i) else Decimal(i)
  }

  /** `s.padStart(w, "0")`. */
  function PadStart(s: string, w: nat): (r: string)
    decreases w - |s|
  {
    if |s| >= w then s else PadStart("0" + s, w)
  }

  /** The value of a string of decimal digits; `None` if a character is not a digit. */
  function ParseDigits(s: string): Option<nat> {
    if s == [] then Some(0)
    else
      var last := s[|s| - 1];
      match ParseDigits(s[..|s| - 1])
      case None => None
      case Some(v) => if IsDigit(last) then Some(v * 10 + (last as int - 48)) else None
  }

  lemma {:induction false} ParsePad(n: nat, w: nat)
    requires n < Pow10(w)
    ensures ParseDigits(Pad(n, w)) == Some(n)
  {
    if w > 0 {
      var p := Pad(n, w);
      assert p[..|p| - 1] == Pad(n / 10, w - 1);
      ParsePad(n / 10, w - 1);
    }
  }

  /** Four-digit years print without padding, so `String(year)` is `Pad(year, 4)`. */
  lemma FourDigitDecimal(y: int)
    requires 1000 <= y <= 9999
    ensures Decimal(y) == Pad(y, 4)
  {
    var a, b, c := y / 1000, y / 100, y / 10;
    assert 1 <= a <= 9 && b / 10 == a && c / 10 == b && 10 <= b && 100 <= c;
    assert Decimal(a) == Pad(a, 1);
    DecimalPadStep(b, 2);
    DecimalPadStep(c, 3);
    DecimalPadStep(y, 4);
  }

  /** Both forms end in the last digit, so they agree when they agree on the rest. */
  lemma DecimalPadStep(n: nat, w: nat)
    requires n >= 10 && w >= 1
    requires Decimal(n / 10) == Pad(n / 10, w - 1)
    ensures Decimal(n) == Pad(n, w)
  {
  }

  /** `String(m).padStart(2, "0")` for a month index is its two-digit form. */
  lemma MonthPadStart(m: MonthIndex)
    ensures PadStart(Decimal(m), 2) == Pad(m, 2)
  {
  }

  // ----- lexicographic string order (JavaScript's default `sort()`) -----

  /** `s < t` in code-unit order, the comparison `Array.prototype.sort()` uses by default. */
  predicate StrLess(s: string, t: string) {
    if s == [] then t != []
    else if t == [] then false
    else s[0] < t[0] || (s[0] == t[0] && StrLess(s[1..], t[1..]))
  }

  lemma {:induction false} StrLessAppend(p1: string, q1: string, p2: string, q2: string)
    requires |p1| == |p2|
    ensures StrLess(p1 + q1, p2 + q2) <==> StrLess(p1, p2) || (p1 == p2 && StrLess(q1, q2))
  {
    if p1 != [] {
      assert (p1 + q1)[1..] == p1[1..] + q1;
      assert (p2 + q2)[1..] == p2[1..] + q2;
      StrLessAppend(p1[1..], q1, p2[1..], q2);
      if p1[0] == p2[0] && p1[1..] == p2[1..] {
        assert p1 == [p1[0]] + p1[1..] && p2 == [p2[0]] + p2[1..];
      }
    } else {
      assert p1 + q1 == q1 && p2 + q2 == q2;
    }
  }

  lemma {:induction false} StrLessAsymmetric(s: string, t: string)
    ensures StrLess(s, t) ==> !StrLess(t, s)
  {
    if s != [] && t != [] && s[0] == t[0] {
      StrLessAsymmetric(s[1..], t[1..]);
    }
  }

  lemma {:induction false} StrLessTransitive(s: string, t: string, u: string)
    ensures StrLess(s, t) && StrLess(t, u) ==> StrLess(s, u)
  {
    if s != [] && t != [] && u != [] {
      StrLessTransitive(s[1..], t[1..], u[1..]);
    }
  }

  /** Two strings are equal or one is less than the other. */
  lemma {:induction false} StrLessTotal(s: string, t: string)
    ensures s == t || StrLess(s, t) || StrLess(t, s)
  {
    if s != [] && t != [] && s[0] == t[0] {
      StrLessTotal(s[1..], t[1..]);
      assert s == [s[0]] + s[1..] && t == [t[0]] + t[1..];
    }
  }

  /** String order is a strict weak order, so `sort()` with no comparator is well defined. */
  lemma StrLessOrder()
    ensures StrictWeakOrder(StrLess)
  {
    forall s, t | StrLess(s, t) ensures !StrLess(t, s) {
      StrLessAsymmetric(s, t);
    }
    forall s, t, u | StrLess(s, u) ensures StrLess(s, t) || StrLess(t, u) {
      StrLessTotal(s, t);
      StrLessTransitive(t, s, u);
    }
  }

  lemma PadInjective(a: nat, b: nat, w: nat)
    requires a < Pow10(w) && b < Pow10(w)
    ensures Pad(a, w) == Pad(b, w) <==> a == b
  {
    ParsePad(a, w);
    ParsePad(b, w);
  }

  /** For same-width zero-padded numbers, string order is numeric order. */
  lemma {:induction false} PadOrder(a: nat, b: nat, w: nat)
    requires a < Pow10(w) && b < Pow10(w)
    ensures StrLess(Pad(a, w), Pad(b, w)) <==> a < b
  {
    if w == 0 {
    } else {
      PadOrder(a / 10, b / 10, w - 1);
      PadInjective(a / 10, b / 10, w - 1);
      StrLessAppend(Pad(a / 10, w - 1), [DigitChar(a % 10)], Pad(b / 10, w - 1), [DigitChar(b % 10)]);
      assert StrLess([DigitChar(a % 10)], [DigitChar(b % 10)]) <==> a % 10 < b % 10;
    }
  }

  // ----- the bucket key "YYYY-MM" -----

  /** The bucket key: `${getUTCFullYear()}-${String(getUTCMonth()).padStart(2, "0")}`. */
  function MonthKey(ym: YearMonth): string {
    IntString(ym.year) + "-" + PadStart(Decimal(ym.month), 2)
  }

  /** Reads back a key of the form `"YYYY-MM"`. */
  function ParseMonthKey(k: string): Option<YearMonth> {
    if |k| != 7 || k[4] != '-' then None
    else match (ParseDigits(k[..4]), ParseDigits(k[5..]))
      case (Some(y), Some(m)) => if m <= 11 then Some(YearMonth(y, m)) else None
      case _ => None
  }

  /** For a four-digit year the key is the year's digits, a dash and the two-digit month index. */
  lemma MonthKeyShape(ym: YearMonth)
    requires 1000 <= ym.year <= 9999
    ensures MonthKey(ym) == Pad(ym.year, 4) + "-" + Pad(ym.month, 2)
    ensures |MonthKey(ym)| == 7
  {
    FourDigitDecimal(ym.year);
    MonthPadStart(ym.month);
  }

  /** Keys of four-digit years read back to their month, so distinct months never share a bucket. */
  lemma MonthKeyRoundTrip(ym: YearMonth)
    requires 1000 <= ym.year <= 9999
    ensures ParseMonthKey(MonthKey(ym)) == Some(ym)
  {
    MonthKeyShape(ym);
    var k := MonthKey(ym);
    assert k[..4] == Pad(ym.year, 4);
    assert k[5..] == Pad(ym.month, 2);
    ParsePad(ym.year, 4);
    ParsePad(ym.month, 2);
  }

  /** The comparator of `Object.keys(monthlyGroups).sort()`: string order on the months' keys. */
  predicate KeyLess(a: YearMonth, b: YearMonth) {
    StrLess(MonthKey(a), MonthKey(b))
  }

  /** Key order is a strict weak order on months, whatever their years. */
  lemma KeyLessOrder()
    ensures StrictWeakOrder(KeyLess)
  {
    StrLessOrder();
    forall a, b | KeyLess(a, b) ensures !KeyLess(b, a) {
    }
    forall a, b, c | KeyLess(a, c) ensures KeyLess(a, b) || KeyLess(b, c) {
    }
  }

  /**
   * Sorting keys as strings visits months in chronological order (for
   * four-digit years): the key order is the month order.
   */
  lemma MonthKeyOrder(a: YearMonth, b: YearMonth)
    requires 1000 <= a.year <= 9999 && 1000 <= b.year <= 9999
    ensures StrLess(MonthKey(a), MonthKey(b)) <==> MonthOrdinal(a) < MonthOrdinal(b)
  {
    MonthKeyShape(a);
    MonthKeyShape(b);
    MonthOrdinalInjective(a, b);
    PadOrder(a.year, b.year, 4);
    PadInjective(a.year, b.year, 4);
    PadOrder(a.month, b.month, 2);
    var pa, pb := Pad(a.year, 4), Pad(b.year, 4);
    var qa, qb := "-" + Pad(a.month, 2), "-" + Pad(b.month, 2);
    assert MonthKey(a) == pa + qa && MonthKey(b) == pb + qb;
    StrLessAppend(pa, qa, pb, qb);
    StrLessAppend("-", Pad(a.month, 2), "-", Pad(b.month, 2));
  }

  // ----- the ISO date "YYYY-MM-DD" -----

  /** The year as `toISOString()` writes it: four digits, or a sign and six digits outside 0..9999. */
  function IsoYear(y: int): string {
    if 0 <= y <= 9999 then Pad(y, 4)
    else if y < 0 then "-" + Pad(-y, 6)
    else "+" + Pad(y, 6)
  }

  /** The date part of `toISOString()`: `"YYYY-MM-DD"` with a one-based month. */
  function IsoDate(d: Date): string {
    IsoYear(d.year) + "-" + Pad(d.month + 1, 2) + "-" + Pad(d.day, 2)
  }

  /** Reads back a date of the form `"YYYY-MM-DD"`. */
  function ParseIsoDate(s: string): Option<Date> {
    if |s| != 10 || s[4] != '-' || s[7] != '-' then None
    else match (ParseDigits(s[..4]), ParseDigits(s[5..7]), ParseDigits(s[8..]))
      case (Some(y), Some(m), Some(d)) =>
        if 1 <= m <= 12 && 1 <= d <= 31 then Some(Date(y, m - 1, d)) else None
      case _ => None
  }

  /** Where the fields of a `"YYYY-MM-DD"` string sit. */
  lemma DashedFields(y: string, m: string, d: string)
    requires |y| == 4 && |m| == 2 && |d| == 2
    ensures var s := y + "-" + m + "-" + d;
      |s| == 10 && s[..4] == y && s[4] == '-' && s[5..7] == m && s[7] == '-' && s[8..] == d
  {
  }

  /** The ISO date of a year-0..9999 date has ten characters and reads back to the same date. */
  lemma IsoDateRoundTrip(d: Date)
    requires 0 <= d.year <= 9999
    ensures |IsoDate(d)| == 10
    ensures ParseIsoDate(IsoDate(d)) == Some(d)
  {
    assert IsoDate(d) == Pad(d.year, 4) + "-" + Pad(d.month + 1, 2) + "-" + Pad(d.day, 2);
    DashedFields(Pad(d.year, 4), Pad(d.month + 1, 2), Pad(d.day, 2));
    ParsePad(d.year, 4);
    ParsePad(d.month + 1, 2);
    ParsePad(d.day, 2);
    var s := IsoDate(d);
    assert ParseDigits(s[..4]) == Some(d.year);
    assert ParseDigits(s[5..7]) == Some(d.month + 1);
    assert ParseDigits(s[8..]) == Some(d.day);
  }

  // ----- the chart label "Mon YYYY" -----

  /** Short en-US month names, indexed by the zero-based month. */
  const MonthNames: seq<string> :=
    ["Jan", "Feb", "Mar", "Apr", "May", "Jun", "Jul", "Aug", "Sep", "Oct", "Nov", "Dec"]

  /** `toLocaleDateString("en-US", { month: "short", year: "numeric", timeZone: "UTC" })`. */
  function Label(ym: YearMonth): string {
    MonthNames[ym.month] + " " + IntString(ym.year)
  }

  /** The month-name table has one distinct three-letter name per month. */
  lemma MonthNamesTable()
    ensures |MonthNames| == 12
    ensures forall i :: 0 <= i < 12 ==> |MonthNames[i]| == 3
    ensures forall i, j :: 0 <= i < j < 12 ==> MonthNames[i] != MonthNames[j]
  {
  }

  /** A label names its month: the first three characters are the month's name. */
  lemma LabelNamesMonth(a: YearMonth, b: YearMonth)
    requires Label(a) == Label(b)
    ensures a.month == b.month
  {
    MonthNamesTable();
    assert Label(a)[..3] == MonthNames[a.month];
    assert Label(b)[..3] == MonthNames[b.month];
  }
}
