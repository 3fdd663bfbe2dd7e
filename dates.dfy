/** The date helpers of the application: `parse_date`, which reads a cell as
    `%Y-%m-%d` or else as a bare `%Y`, and `date_to_string`, which formats a
    date back as `%Y-%m-%d`. */
module Dates {
  import opened Ascii
  import opened Optional

  datatype Ymd = Ymd(year: int, month: int, day: int)

  predicate IsLeapYear(y: int) {
    y % 4 == 0 && (y % 100 != 0 || y % 400 == 0)
  }

  function DaysInMonth(y: int, m: int): int
    requires 1 <= m <= 12
  {
    if m == 2 then (if IsLeapYear(y) then 29 else 28)
    else if m == 4 || m == 6 || m == 9 || m == 11 then 30
    else 31
  }

  /** What Python's `datetime.date` accepts: years 1 to 9999, real days. */
  predicate IsValid(d: Ymd) {
    && 1 <= d.year <= 9999
    && 1 <= d.month <= 12
    && 1 <= d.day <= DaysInMonth(d.year, d.month)
  }

  type Date = d: Ymd | IsValid(d) witness Ymd(1, 1, 1)

  /** `datetime.date.max`. */
  const MaxDate: Date := Ymd(9999, 12, 31)

  /** Python's `a <= b` on dates. */
  predicate NotAfter(a: Date, b: Date) {
    || a.year < b.year
    || (a.year == b.year && a.month < b.month)
    || (a.year == b.year && a.month == b.month && a.day <= b.day)
  }

  /** A Python value that can sit in a row cell or be handed to the date
      helpers: `None`, a `str`, a `datetime.date` or an `int`. */
  datatype Value = Null | Text(text: string) | DateValue(date: Date) | Number(n: int)

  /** Builds `datetime.date(y, m, d)`; `None` where Python raises `ValueError`. */
  function MakeDate(y: int, m: int, d: int): (r: Option<Date>)
    ensures r.Some? <==> IsValid(Ymd(y, m, d))
    ensures r.Some? ==> r.value == Ymd(y, m, d)
  {
    if IsValid(Ymd(y, m, d)) then Some(Ymd(y, m, d)) else None
  }

  /** The `%Y` directive of `strptime`: exactly four digits at position `i`. */
  predicate YearTokenAt(s: string, i: nat) {
    i + 4 <= |s| && IsDigit(s[i]) && IsDigit(s[i + 1]) && IsDigit(s[i + 2]) && IsDigit(s[i + 3])
  }

  function YearValue(s: string, i: nat): int
    requires YearTokenAt(s, i)
  {
    1000 * DigitValue(s[i]) + 100 * DigitValue(s[i + 1]) + 10 * DigitValue(s[i + 2]) + DigitValue(s[i + 3])
  }

  /** The `%m` directive at position `i`, which the pattern follows with a
      literal `-`: the alternatives `1[0-2]`, `0[1-9]`, `[1-9]` in that
      order. Gives the month and the token's length. */
  function MonthToken(s: string, i: nat): Option<(int, nat)>
  {
    if i + 2 < |s| && s[i] == '1' && '0' <= s[i + 1] <= '2' && s[i + 2] == '-' then
      Some((10 + DigitValue(s[i + 1]), 2))
    else if i + 2 < |s| && s[i] == '0' && '1' <= s[i + 1] <= '9' && s[i + 2] == '-' then
      Some((DigitValue(s[i + 1]), 2))
    else if i + 1 < |s| && '1' <= s[i] <= '9' && s[i + 1] == '-' then
      Some((DigitValue(s[i]), 1))
    else
      None
  }

  /** The `%d` directive at position `i`, last in the pattern: the first of
      the alternatives `3[01]`, `[12]\d`, `0[1-9]`, `[1-9]`, ` [1-9]` that
      matches. Gives the day and the token's length. */
  function DayToken(s: string, i: nat): Option<(int, nat)>
  {
    if i + 1 < |s| && s[i] == '3' && (s[i + 1] == '0' || s[i + 1] == '1') then
      Some((30 + DigitValue(s[i + 1]), 2))
    else if i + 1 < |s| && (s[i] == '1' || s[i] == '2') && IsDigit(s[i + 1]) then
      Some((10 * DigitValue(s[i]) + DigitValue(s[i + 1]), 2))
    else if i + 1 < |s| && s[i] == '0' && '1' <= s[i + 1] <= '9' then
      Some((DigitValue(s[i + 1]), 2))
    else if i < |s| && '1' <= s[i] <= '9' then
      Some((DigitValue(s[i]), 1))
    else if i + 1 < |s| && s[i] == ' ' && '1' <= s[i + 1] <= '9' then
      Some((DigitValue(s[i + 1]), 2))
    else
      None
  }

  /** `datetime.strptime(s, "%Y-%m-%d").date()`: the pattern must match at
      the start and consume the whole string, and the date must exist. */
  function ParseIsoDate(s: string): Option<Date>
  {
    if !(YearTokenAt(s, 0) && 4 < |s| && s[4] == '-') then None
    else
      match MonthToken(s, 5)
      case None => None
      case Some(month) =>
        var dayAt := 5 + month.1 + 1;
        match DayToken(s, dayAt)
        case None => None
        case Some(day) =>
          if dayAt + day.1 != |s| then None
          else MakeDate(YearValue(s, 0), month.0, day.0)
  }

  /** `datetime.strptime(s, "%Y").date().replace(month=1, day=1)`. */
  function ParseYearOnly(s: string): Option<Date>
  {
    if |s| == 4 && YearTokenAt(s, 0) then MakeDate(YearValue(s, 0), 1, 1) else None
  }

  /** `parse_date`: `None` stays `None`, a date is returned as it is, and a
      string is tried as `%Y-%m-%d`, then as `%Y`, else `None`. An `int`
      makes `strptime` raise `TypeError`, which is not caught, so callers
      never pass one. */
  function ParseDate(v: Value): (r: Option<Date>)
    requires !v.Number?
    ensures v.Null? ==> r.None?
    ensures v.DateValue? ==> r == Some(v.date)
    ensures v.Text? && r.Some? ==> YearTokenAt(v.text, 0) && YearValue(v.text, 0) == r.value.year
  {
    match v
    case Null => None
    case DateValue(d) => Some(d)
    case Text(s) =>
      match ParseIsoDate(s)
      case Some(d) => Some(d)
      case None => ParseYearOnly(s)
  }

  /** A date as the value `parse_date` hands back to its callers. */
  function AsValue(d: Option<Date>): (v: Value)
    ensures !v.Number?
  {
    match d
    case None => Null
    case Some(date) => DateValue(date)
  }

  function Pad2(n: int): (r: string)
    requires 0 <= n < 100
    ensures |r| == 2 && IsDigit(r[0]) && IsDigit(r[1])
    ensures 10 * DigitValue(r[0]) + DigitValue(r[1]) == n
  {
    [DigitChar(n / 10), DigitChar(n % 10)]
  }

  function Pad4(n: int): (r: string)
    requires 0 <= n < 10000
    ensures |r| == 4 && YearTokenAt(r, 0)
  {
    var tens, hundreds := n / 10, n / 100;
    [DigitChar(hundreds / 10), DigitChar(hundreds % 10), DigitChar(tens % 10), DigitChar(n % 10)]
  }

  /** The four digits `Pad4` writes read back as the year. */
  lemma Pad4Value(n: int)
    requires 0 <= n < 10000
    ensures YearValue(Pad4(n), 0) == n
  {
    var tens, hundreds := n / 10, n / 100;
    assert n == 10 * tens + n % 10;
    assert tens == 10 * hundreds + tens % 10;
    assert hundreds == 10 * (hundreds / 10) + hundreds % 10;
  }

  /** `date_to_string`: `strftime("%Y-%m-%d")` for a date (year zero-padded
      to four digits), and `""` for anything without a `strftime` method. */
  function DateToString(v: Value): (r: string)
    ensures r == "" <==> !v.DateValue?
    ensures v.DateValue? ==> |r| == 10 && r[4] == '-' && r[7] == '-'
  {
    match v
    case DateValue(d) => Pad4(d.year) + "-" + Pad2(d.month) + "-" + Pad2(d.day)
    case _ => ""
  }

  /** The shape `date_to_string` produces: `DDDD-DD-DD`. */
  predicate IsCanonical(s: string) {
    && |s| == 10
    && YearTokenAt(s, 0) && s[4] == '-'
    && IsDigit(s[5]) && IsDigit(s[6]) && s[7] == '-'
    && IsDigit(s[8]) && IsDigit(s[9])
  }

  /** `parse_date(None)` is `None`, a date comes back unchanged, and so
      `parse_date` is idempotent. */
  lemma ParseDateFixedPoints(v: Value)
    requires !v.Number?
    ensures v.Null? ==> ParseDate(v).None?
    ensures v.DateValue? ==> ParseDate(v) == Some(v.date)
    ensures ParseDate(AsValue(ParseDate(v))) == ParseDate(v)
  {
  }

  /** `date_to_string` writes the year, month and day as the digits of a
      canonical string. */
  lemma FormatShape(d: Date)
    ensures var s := DateToString(DateValue(d));
      && IsCanonical(s)
      && YearValue(s, 0) == d.year
      && 10 * DigitValue(s[5]) + DigitValue(s[6]) == d.month
      && 10 * DigitValue(s[8]) + DigitValue(s[9]) == d.day
  {
    var s := DateToString(DateValue(d));
    var y, m, dd := Pad4(d.year), Pad2(d.month), Pad2(d.day);
    Pad4Value(d.year);
    assert s[0] == y[0] && s[1] == y[1] && s[2] == y[2] && s[3] == y[3] && s[4] == '-';
    assert s[5] == m[0] && s[6] == m[1] && s[7] == '-';
    assert s[8] == dd[0] && s[9] == dd[1];
  }

  /** On a canonical string the `%Y-%m-%d` pattern reads two-digit month and
      day tokens, so the string parses exactly when its numbers form a date. */
  lemma CanonicalParse(s: string)
    requires IsCanonical(s)
    ensures ParseIsoDate(s) == MakeDate(YearValue(s, 0), 10 * DigitValue(s[5]) + DigitValue(s[6]),
                                        10 * DigitValue(s[8]) + DigitValue(s[9]))
  {
    var m := 10 * DigitValue(s[5]) + DigitValue(s[6]);
    var d := 10 * DigitValue(s[8]) + DigitValue(s[9]);
    match MonthToken(s, 5)
    case None =>
      assert !(1 <= m <= 12);
    case Some(month) =>
      assert month == (m, 2);
      match DayToken(s, 8)
      case None =>
        assert !(1 <= d <= 31);
      case Some(day) =>
        if day.1 == 2 {
          assert day.0 == d;
        }
  }

  /** Formatting a date and parsing the text gives the date back. */
  lemma FormatThenParse(d: Date)
    ensures IsCanonical(DateToString(DateValue(d)))
    ensures ParseDate(Text(DateToString(DateValue(d)))) == Some(d)
  {
    var s := DateToString(DateValue(d));
    FormatShape(d);
    CanonicalParse(s);
    assert ParseYearOnly(s).None?;
  }

  lemma Pad2Digits(a: char, b: char)
    requires IsDigit(a) && IsDigit(b)
    ensures Pad2(10 * DigitValue(a) + DigitValue(b)) == [a, b]
  {
    var n := 10 * DigitValue(a) + DigitValue(b);
    assert n / 10 == DigitValue(a) && n % 10 == DigitValue(b);
  }

  lemma Pad4Digits(s: string)
    requires YearTokenAt(s, 0)
    ensures Pad4(YearValue(s, 0)) == s[..4]
  {
    var a, b, c, d := DigitValue(s[0]), DigitValue(s[1]), DigitValue(s[2]), DigitValue(s[3]);
    var n := YearValue(s, 0);
    assert n / 10 == 100 * a + 10 * b + c && n % 10 == d;
    assert n / 100 == 10 * a + b && n / 10 % 10 == c;
    assert n / 100 / 10 == a && n / 100 % 10 == b;
  }

  /** A canonical string is the formatting of the date its numbers name. */
  lemma FormatCanonical(s: string, d: Date)
    requires IsCanonical(s)
    requires d == Ymd(YearValue(s, 0), 10 * DigitValue(s[5]) + DigitValue(s[6]),
                      10 * DigitValue(s[8]) + DigitValue(s[9]))
    ensures DateToString(DateValue(d)) == s
  {
    Pad4Digits(s);
    Pad2Digits(s[5], s[6]);
    Pad2Digits(s[8], s[9]);
    var r := DateToString(DateValue(d));
    assert r == s[..4] + "-" + [s[5], s[6]] + "-" + [s[8], s[9]];
    assert r == s;
  }

  /** A canonical string that parses is exactly the formatting of its date. */
  lemma ParseThenFormat(s: string)
    requires IsCanonical(s)
    requires ParseDate(Text(s)).Some?
    ensures DateToString(DateValue(ParseDate(Text(s)).value)) == s
  {
    assert ParseYearOnly(s).None?;
    CanonicalParse(s);
    FormatCanonical(s, ParseIsoDate(s).value);
  }

  /** A bare four-digit year reads as the 1st of January of that year; the
      year `0000` does not exist and reads as `None`. */
  lemma YearOnly(s: string)
    requires |s| == 4 && YearTokenAt(s, 0)
    ensures YearValue(s, 0) >= 1 ==> ParseDate(Text(s)) == Some(Ymd(YearValue(s, 0), 1, 1))
    ensures YearValue(s, 0) == 0 ==> ParseDate(Text(s)).None?
  {
  }

  /** The cases of the unit tests for `parse_date`. */
  lemma ParseDateExamples()
    ensures ParseDate(Text("2022-01-01")) == Some(Ymd(2022, 1, 1))
    ensures ParseDate(Text("2022-13-01")).None?
    ensures ParseDate(Text("")).None?
    ensures ParseDate(Null).None?
    ensures ParseDate(Text("01-01-2022")).None?
  {
    FormatThenParse(Ymd(2022, 1, 1));
    assert DateToString(DateValue(Ymd(2022, 1, 1))) == "2022-01-01";
    assert !YearTokenAt("01-01-2022", 0);
    var t := "2022-13-01";
    assert MonthToken(t, 5).None?;
  }

  /** The cases of the unit tests for `date_to_string`. */
  lemma DateToStringExamples()
    ensures DateToString(DateValue(Ymd(2024, 1, 1))) == "2024-01-01"
    ensures DateToString(Text("")) == ""
    ensures DateToString(Text("not a date")) == ""
    ensures DateToString(Number(1)) == ""
    ensures DateToString(Null) == ""
  {
  }
}
