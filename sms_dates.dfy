/**
 * `datetime.strptime(text, '%Y-%m-%d %H:%M:%S').isoformat()` on the texts DATE_RE
 * captures (dsa/parse_xml.py:45): the format's own regular expression first bounds each
 * field, then the `datetime` constructor checks the calendar, and `isoformat` prints the
 * fields back with a `T` between date and time.
 */
module SmsDates {
  import opened Wrappers
  import opened Text
  import opened SmsPatterns

  datatype DateTime = DateTime(year: nat, month: nat, day: nat, hour: nat, minute: nat, second: nat)

  /** The Gregorian leap-year rule that `datetime` uses. */
  predicate IsLeapYear(y: nat) {
    y % 4 == 0 && (y % 100 != 0 || y % 400 == 0)
  }

  function DaysInMonth(y: nat, m: nat): (n: nat)
    requires 1 <= m <= 12
    ensures 28 <= n <= 31
    ensures n == 29 <==> m == 2 && IsLeapYear(y)
  {
    if m == 2 then (if IsLeapYear(y) then 29 else 28)
    else if m == 4 || m == 6 || m == 9 || m == 11 then 30
    else 31
  }

  /** What the `datetime` constructor accepts (MINYEAR is 1, MAXYEAR is 9999). */
  predicate Valid(dt: DateTime) {
    1 <= dt.year <= 9999 && 1 <= dt.month <= 12 && 1 <= dt.day <= DaysInMonth(dt.year, dt.month)
    && dt.hour <= 23 && dt.minute <= 59 && dt.second <= 59
  }

  /**
   * What the regular expression `strptime` compiles from the format accepts on two-digit
   * fields: `%m` is 01-12, `%d` is 01-31, `%H` is 00-23, `%M` is 00-59, and `%S` is 00-61
   * (leap seconds get past the format and are refused by the constructor).
   */
  predicate FormatAccepts(dt: DateTime) {
    1 <= dt.month <= 12 && 1 <= dt.day <= 31 && dt.hour <= 23 && dt.minute <= 59 && dt.second <= 61
  }

  /** A text of the shape DATE_RE captures: date, whitespace run, time. */
  predicate DateText(c: string) {
    IsDateText(c, 0, |c|)
  }

  /** The value of the `n` digits at `i`. */
  function NumberAt(c: string, i: nat, n: nat): nat
    requires DigitsAt(c, i, n)
  {
    assert AllDigits(c[i..i + n]);
    DigitsValue(c[i..i + n])
  }

  /** The six fields read at their fixed places: the date at `p`, the time at `t`. */
  function FieldsAt(c: string, p: nat, t: nat): DateTime
    requires CalendarAt(c, p) && ClockAt(c, t)
  {
    DateTime(NumberAt(c, p, YearWidth), NumberAt(c, p + 5, FieldWidth), NumberAt(c, p + 8, FieldWidth),
             NumberAt(c, t, FieldWidth), NumberAt(c, t + 3, FieldWidth), NumberAt(c, t + 6, FieldWidth))
  }

  /** The six fields of a date text. */
  function Fields(c: string): DateTime
    requires DateText(c)
  {
    FieldsAt(c, 0, |c| - 8)
  }

  /** `strptime`: the format check, then the constructor; either failing raises `ValueError`. */
  function Strptime(c: string): (r: Option<DateTime>)
    requires DateText(c)
    ensures r.Some? <==> Valid(Fields(c))
    ensures r.Some? ==> r.value == Fields(c)
  {
    var dt := Fields(c);
    if !FormatAccepts(dt) then None
    else if !Valid(dt) then None
    else Some(dt)
  }

  /** `%Y` and `isoformat` use four digits for the year, two for every other field. */
  const YearWidth: nat := 4
  const FieldWidth: nat := 2

  function IsoDate(dt: DateTime): string {
    FixedDigits(dt.year, YearWidth) + "-" + FixedDigits(dt.month, FieldWidth) + "-" + FixedDigits(dt.day, FieldWidth)
  }

  function IsoClock(dt: DateTime): string {
    FixedDigits(dt.hour, FieldWidth) + ":" + FixedDigits(dt.minute, FieldWidth) + ":" + FixedDigits(dt.second, FieldWidth)
  }

  /** `isoformat()` of a `datetime` without microseconds: `YYYY-MM-DDTHH:MM:SS`. */
  function IsoFormat(dt: DateTime): (r: string)
    ensures |r| == 19
  {
    IsoDate(dt) + "T" + IsoClock(dt)
  }

  /** Reads an ISO text back, as `datetime.fromisoformat` does for this exact shape. */
  function ParseIso(t: string): Option<DateTime> {
    if |t| == 19 && CalendarAt(t, 0) && CharAt(t, 10, 'T') && ClockAt(t, 11) then
      var dt := FieldsAt(t, 0, 11);
      if Valid(dt) then Some(dt) else None
    else None
  }

  // ---------------------------------------------------------------------------------------
  // Reading printed fields back

  /** A field printed at its width is read back as itself. */
  lemma NumberOfFixed(t: string, i: nat, v: nat, n: nat)
    requires i + n <= |t| && t[i..i + n] == FixedDigits(v, n) && v < Pow10(n)
    ensures DigitsAt(t, i, n) && NumberAt(t, i, n) == v
  {
    assert forall j :: i <= j < i + n ==> t[j] == t[i..i + n][j - i];
  }

  lemma ThreeFields(u: string, x: string, sep: char, y: string, z: string)
    requires u == x + [sep] + y + [sep] + z
    ensures u[..|x|] == x && u[|x|] == sep && u[|x| + 1..|x| + 1 + |y|] == y
    ensures u[|x| + 1 + |y|] == sep && u[|x| + 2 + |y|..] == z
  {
  }

  /** The printed date holds its three fields at their places. */
  lemma IsoDateFields(dt: DateTime)
    requires dt.year < 10000 && dt.month < 100 && dt.day < 100
    ensures var d := IsoDate(dt); (
      |d| == 10 && CalendarAt(d, 0)
      && NumberAt(d, 0, YearWidth) == dt.year && NumberAt(d, 5, FieldWidth) == dt.month && NumberAt(d, 8, FieldWidth) == dt.day)
  {
    var d := IsoDate(dt);
    assert Pow10(4) == 10000 && Pow10(2) == 100;
    ThreeFields(d, FixedDigits(dt.year, YearWidth), '-', FixedDigits(dt.month, FieldWidth), FixedDigits(dt.day, FieldWidth));
    NumberOfFixed(d, 0, dt.year, YearWidth);
    NumberOfFixed(d, 5, dt.month, FieldWidth);
    NumberOfFixed(d, 8, dt.day, FieldWidth);
  }

  /** The printed time holds its three fields at their places. */
  lemma IsoClockFields(dt: DateTime)
    requires dt.hour < 100 && dt.minute < 100 && dt.second < 100
    ensures var k := IsoClock(dt); (
      |k| == 8 && ClockAt(k, 0)
      && NumberAt(k, 0, FieldWidth) == dt.hour && NumberAt(k, 3, FieldWidth) == dt.minute && NumberAt(k, 6, FieldWidth) == dt.second)
  {
    var k := IsoClock(dt);
    assert Pow10(2) == 100;
    ThreeFields(k, FixedDigits(dt.hour, FieldWidth), ':', FixedDigits(dt.minute, FieldWidth), FixedDigits(dt.second, FieldWidth));
    NumberOfFixed(k, 0, dt.hour, FieldWidth);
    NumberOfFixed(k, 3, dt.minute, FieldWidth);
    NumberOfFixed(k, 6, dt.second, FieldWidth);
  }

  /** Digits keep their value when text is appended after them. */
  lemma DigitsBefore(u: string, b: string, i: nat, n: nat)
    requires DigitsAt(u, i, n)
    ensures DigitsAt(u + b, i, n) && NumberAt(u + b, i, n) == NumberAt(u, i, n)
  {
    assert (u + b)[i..i + n] == u[i..i + n];
  }

  /** Digits keep their value when text is put in front of them. */
  lemma DigitsAfter(a: string, u: string, i: nat, n: nat)
    requires DigitsAt(u, i, n)
    ensures DigitsAt(a + u, |a| + i, n) && NumberAt(a + u, |a| + i, n) == NumberAt(u, i, n)
  {
    assert forall j :: i <= j < i + n ==> (a + u)[|a| + j] == u[j];
    assert (a + u)[|a| + i..|a| + i + n] == u[i..i + n];
  }

  /** The date half of an ISO text reads back as the date fields. */
  lemma IsoDatePart(dt: DateTime)
    requires Valid(dt)
    ensures var t := IsoFormat(dt); (
      CalendarAt(t, 0)
      && NumberAt(t, 0, YearWidth) == dt.year && NumberAt(t, 5, FieldWidth) == dt.month && NumberAt(t, 8, FieldWidth) == dt.day)
  {
    var d, rest := IsoDate(dt), "T" + IsoClock(dt);
    IsoDateFields(dt);
    assert IsoFormat(dt) == d + rest;
    DigitsBefore(d, rest, 0, YearWidth);
    DigitsBefore(d, rest, 5, FieldWidth);
    DigitsBefore(d, rest, 8, FieldWidth);
    assert (d + rest)[4] == d[4] && (d + rest)[7] == d[7];
  }

  /** The time half of an ISO text reads back as the time fields. */
  lemma IsoClockPart(dt: DateTime)
    requires Valid(dt)
    ensures var t := IsoFormat(dt); (
      ClockAt(t, 11) && t[10] == 'T'
      && NumberAt(t, 11, FieldWidth) == dt.hour && NumberAt(t, 14, FieldWidth) == dt.minute && NumberAt(t, 17, FieldWidth) == dt.second)
  {
    var front, k := IsoDate(dt) + "T", IsoClock(dt);
    IsoClockFields(dt);
    assert |front| == 11;
    DigitsAfter(front, k, 0, FieldWidth);
    DigitsAfter(front, k, 3, FieldWidth);
    DigitsAfter(front, k, 6, FieldWidth);
    assert (front + k)[13] == k[2] && (front + k)[16] == k[5] && (front + k)[10] == 'T';
  }

  /** Every valid date-time survives printing and reading back. */
  lemma IsoRoundTrip(dt: DateTime)
    requires Valid(dt)
    ensures ParseIso(IsoFormat(dt)) == Some(dt)
  {
    IsoDatePart(dt);
    IsoClockPart(dt);
    assert FieldsAt(IsoFormat(dt), 0, 11) == dt;
  }

  // ---------------------------------------------------------------------------------------
  // Printing read fields back

  /** Digits read and printed again at the same width are the digits themselves. */
  lemma FixedOfNumber(c: string, i: nat, n: nat)
    requires DigitsAt(c, i, n)
    ensures FixedDigits(NumberAt(c, i, n), n) == c[i..i + n]
  {
    FixedDigitsOfValue(c[i..i + n]);
  }

  /** Three fields and the two one-character separators between them, read off `c[i..e]`. */
  lemma Glue(c: string, sep: char, x: string, y: string, z: string, i: nat, a: nat, a1: nat, b: nat, b1: nat, e: nat)
    requires i <= a && a1 == a + 1 <= b && b1 == b + 1 <= e <= |c|
    requires c[i..a] == x && c[a] == sep && c[a1..b] == y && c[b] == sep && c[b1..e] == z
    ensures c[i..e] == x + [sep] + y + [sep] + z
  {
    assert c[i..e] == c[i..a] + [c[a]] + c[a1..b] + [c[b]] + c[b1..e];
  }

  lemma DateOfText(c: string, p: nat, t: nat)
    requires CalendarAt(c, p) && ClockAt(c, t)
    ensures IsoDate(FieldsAt(c, p, t)) == c[p..p + 10]
  {
    var dt := FieldsAt(c, p, t);
    FixedOfNumber(c, p, YearWidth);
    FixedOfNumber(c, p + 5, FieldWidth);
    FixedOfNumber(c, p + 8, FieldWidth);
    Glue(c, '-', FixedDigits(dt.year, YearWidth), FixedDigits(dt.month, FieldWidth), FixedDigits(dt.day, FieldWidth),
         p, p + 4, p + 5, p + 7, p + 8, p + 10);
  }

  lemma ClockOfText(c: string, p: nat, t: nat)
    requires CalendarAt(c, p) && ClockAt(c, t)
    ensures IsoClock(FieldsAt(c, p, t)) == c[t..t + 8]
  {
    var dt := FieldsAt(c, p, t);
    FixedOfNumber(c, t, FieldWidth);
    FixedOfNumber(c, t + 3, FieldWidth);
    FixedOfNumber(c, t + 6, FieldWidth);
    Glue(c, ':', FixedDigits(dt.hour, FieldWidth), FixedDigits(dt.minute, FieldWidth), FixedDigits(dt.second, FieldWidth),
         t, t + 2, t + 3, t + 5, t + 6, t + 8);
  }

  /**
   * On a valid date text, the timestamp is the text itself with its whitespace run replaced
   * by a single `T`.
   */
  lemma IsoOfText(c: string)
    requires DateText(c)
    ensures IsoFormat(Fields(c)) == c[..10] + "T" + c[|c| - 8..]
  {
    var t := |c| - 8;
    DateOfText(c, 0, t);
    ClockOfText(c, 0, t);
    assert c[..10] == c[0..10];
    assert c[t..] == c[t..t + 8];
  }

  /** The text DATE_RE matched, taken out of the message, is a date text of its own. */
  lemma DateTextSlice(s: string, p: nat, q: nat)
    requires IsDateText(s, p, q)
    ensures DateText(s[p..q])
  {
    var c := s[p..q];
    assert forall j :: 0 <= j < |c| ==> c[j] == s[p + j];
  }

  /** Digits read from a slice are the digits at the matching place of the whole text. */
  lemma NumberInSlice(s: string, p: nat, q: nat, i: nat, n: nat)
    requires p <= q <= |s| && DigitsAt(s[p..q], i, n)
    ensures DigitsAt(s, p + i, n) && NumberAt(s[p..q], i, n) == NumberAt(s, p + i, n)
  {
    assert forall j :: i <= j < i + n ==> s[p..q][j] == s[p + j];
    assert s[p..q][i..i + n] == s[p + i..p + i + n];
  }

  /** The fields of the matched text, read in place in the message. */
  lemma FieldsInPlace(s: string, p: nat, q: nat)
    requires IsDateText(s, p, q)
    ensures DateText(s[p..q]) && Fields(s[p..q]) == FieldsAt(s, p, q - 8)
  {
    DateTextSlice(s, p, q);
    var t := q - p - 8;
    NumberInSlice(s, p, q, 0, YearWidth);
    NumberInSlice(s, p, q, 5, FieldWidth);
    NumberInSlice(s, p, q, 8, FieldWidth);
    NumberInSlice(s, p, q, t, FieldWidth);
    NumberInSlice(s, p, q, t + 3, FieldWidth);
    NumberInSlice(s, p, q, t + 6, FieldWidth);
  }

  /** The timestamp of the matched text, read in place in the message. */
  lemma IsoInPlace(s: string, p: nat, q: nat)
    requires IsDateText(s, p, q)
    ensures DateText(s[p..q])
    ensures IsoFormat(Fields(s[p..q])) == s[p..p + 10] + "T" + s[q - 8..q]
  {
    var c := s[p..q];
    DateTextSlice(s, p, q);
    IsoOfText(c);
    assert c[..10] == s[p..p + 10];
    assert c[|c| - 8..] == s[q - 8..q];
  }
}
