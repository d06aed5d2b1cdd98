/** Calendar dates and the three text forms the report pipeline uses for them:
    the extract's `YYYY-MM-DD 00:00:00`, the display form `DD.MM.YYYY`, and the
    spreadsheet formula `=DATE(y, m, d)`. */
module Dates {
  import opened Wrappers

  datatype Date = Date(year: int, month: int, day: int)

  predicate IsLeapYear(y: int) {
    y % 4 == 0 && (y % 100 != 0 || y % 400 == 0)
  }

  function DaysInMonth(y: int, m: int): (n: int)
    requires 1 <= m <= 12
    ensures 28 <= n <= 31
    ensures m == 2 ==> (n == 29 <==> IsLeapYear(y))
  {
    if m == 2 then (if IsLeapYear(y) then 29 else 28)
    else if m == 4 || m == 6 || m == 9 || m == 11 then 30
    else 31
  }

  /** A date Python's `datetime` can hold: years 1 to 9999, a real day of a real month. */
  predicate ValidDate(d: Date) {
    1 <= d.year <= 9999 && 1 <= d.month <= 12 && 1 <= d.day <= DaysInMonth(d.year, d.month)
  }

  /** Strict chronological order of midnights. */
  predicate Before(a: Date, b: Date) {
    a.year < b.year
    || (a.year == b.year && a.month < b.month)
    || (a.year == b.year && a.month == b.month && a.day < b.day)
  }

  /** The midnights a pandas `Timestamp` can hold (it spans 1677-09-21 00:12 to 2262-04-11 23:47);
      anything outside is coerced to a null by `errors='coerce'`. */
  predicate InTimestampRange(d: Date) {
    !Before(d, Date(1677, 9, 22)) && !Before(Date(2262, 4, 11), d)
  }

  // ---------------------------------------------------------------- digits

  predicate IsDigit(c: char) {
    '0' <= c <= '9'
  }

  predicate AllDigits(s: string) {
    forall i :: 0 <= i < |s| ==> IsDigit(s[i])
  }

  function DigitChar(k: int): (c: char)
    requires 0 <= k < 10
    ensures IsDigit(c)
  {
    ('0' as int + k) as char
  }

  function DigitValue(c: char): (k: int)
    requires IsDigit(c)
    ensures 0 <= k < 10 && DigitChar(k) == c
  {
    c as int - '0' as int
  }

  /** The number a string of decimal digits denotes. */
  function DigitsValue(s: string): nat
    requires AllDigits(s)
  {
    if s == "" then 0 else 10 * DigitsValue(s[..|s| - 1]) + DigitValue(s[|s| - 1])
  }

  function Pow10(k: nat): (p: nat)
    ensures p >= 1
  {
    if k == 0 then 1 else 10 * Pow10(k - 1)
  }

  /** `n` written with exactly `width` digits, zero-padded on the left (strftime's `%d`, `%m`, `%Y`). */
  function Padded(n: nat, width: nat): (s: string)
    ensures |s| == width && AllDigits(s)
  {
    if width == 0 then "" else Padded(n / 10, width - 1) + [DigitChar(n % 10)]
  }

  /** `n` in decimal without padding, as Python's `str(int)` writes it. */
  function Decimal(n: nat): (s: string)
    ensures |s| >= 1 && AllDigits(s)
    ensures IsDigit(s[0]) && (n > 0 ==> s[0] != '0')
  {
    if n < 10 then [DigitChar(n)] else Decimal(n / 10) + [DigitChar(n % 10)]
  }

  lemma {:induction false} PaddedValue(n: nat, width: nat)
    requires n < Pow10(width)
    ensures DigitsValue(Padded(n, width)) == n
  {
    if width > 0 {
      var s := Padded(n, width);
      assert s[..|s| - 1] == Padded(n / 10, width - 1);
      PaddedValue(n / 10, width - 1);
    }
  }

  lemma {:induction false} PaddedOfValue(s: string)
    requires AllDigits(s)
    ensures DigitsValue(s) < Pow10(|s|)
    ensures Padded(DigitsValue(s), |s|) == s
  {
    if s != "" {
      var p := s[..|s| - 1];
      PaddedOfValue(p);
      var v, d := DigitsValue(p), DigitValue(s[|s| - 1]);
      assert (10 * v + d) / 10 == v && (10 * v + d) % 10 == d;
      assert s == p + [s[|s| - 1]];
    }
  }

  lemma {:induction false} DecimalValue(n: nat)
    ensures DigitsValue(Decimal(n)) == n
  {
    if n >= 10 {
      var s := Decimal(n);
      assert s[..|s| - 1] == Decimal(n / 10);
      DecimalValue(n / 10);
    }
  }

  // ------------------------------------------------- `YYYY-MM-DD 00:00:00`

  const MidnightSuffix: string := " 00:00:00"

  /** The extract's date form, and the form `formatted_date` gives today's midnight. */
  function FormatIso(d: Date): (s: string)
    requires 0 <= d.year && 0 <= d.month && 0 <= d.day
    ensures |s| == 19
  {
    Padded(d.year, 4) + "-" + Padded(d.month, 2) + "-" + Padded(d.day, 2) + MidnightSuffix
  }

  /** `pd.to_datetime(value, format='%Y-%m-%d 00:00:00', errors='coerce')` on one text value:
      the date it denotes, or None (pandas' NaT) for text that does not match or is no
      representable date. Only the zero-padded spelling of month and day is accepted. */
  function ParseIso(s: string): (r: Option<Date>)
    ensures r.Some? ==> ValidDate(r.value) && InTimestampRange(r.value)
  {
    if |s| == 19 && AllDigits(s[..4]) && s[4] == '-' && AllDigits(s[5..7]) && s[7] == '-'
       && AllDigits(s[8..10]) && s[10..] == MidnightSuffix
    then
      var d := Date(DigitsValue(s[..4]), DigitsValue(s[5..7]), DigitsValue(s[8..10]));
      if ValidDate(d) && InTimestampRange(d) then Some(d) else None
    else None
  }

  lemma ParseIsoOfFormat(d: Date)
    requires ValidDate(d) && InTimestampRange(d)
    ensures ParseIso(FormatIso(d)) == Some(d)
  {
    var y, m, dd := Padded(d.year, 4), Padded(d.month, 2), Padded(d.day, 2);
    var s := FormatIso(d);
    assert s[..4] == y && s[5..7] == m && s[8..10] == dd && s[10..] == MidnightSuffix;
    PaddedValue(d.year, 4);
    PaddedValue(d.month, 2);
    PaddedValue(d.day, 2);
  }

  /** Every text the parser accepts is the canonical spelling of the date it yields. */
  lemma ParseIsoCanonical(s: string)
    requires ParseIso(s).Some?
    ensures s == FormatIso(ParseIso(s).value)
  {
    PaddedOfValue(s[..4]);
    PaddedOfValue(s[5..7]);
    PaddedOfValue(s[8..10]);
    assert s == s[..4] + "-" + s[5..7] + "-" + s[8..10] + s[10..];
  }

  // ------------------------------------------------------------ `DD.MM.YYYY`

  /** `Series.dt.strftime("%d.%m.%Y")` on one date. */
  function FormatDmy(d: Date): (s: string)
    requires 0 <= d.year && 0 <= d.month && 0 <= d.day
    ensures |s| == 10 && s[2] == '.' && s[5] == '.'
    ensures AllDigits(s[..2]) && AllDigits(s[3..5]) && AllDigits(s[6..])
    ensures d.year < 10000 && d.month < 100 && d.day < 100 ==>
              DigitsValue(s[..2]) == d.day && DigitsValue(s[3..5]) == d.month && DigitsValue(s[6..]) == d.year
  {
    var dd, m, y := Padded(d.day, 2), Padded(d.month, 2), Padded(d.year, 4);
    DmyLayout(dd, m, y);
    if d.year < 10000 && d.month < 100 && d.day < 100 then
      DmyFieldValues(d);
      dd + "." + m + "." + y
    else dd + "." + m + "." + y
  }

  /** Where the three fields of a `DD.MM.YYYY` text sit. */
  lemma DmyLayout(dd: string, m: string, y: string)
    requires |dd| == 2 && |m| == 2
    ensures var s := dd + "." + m + "." + y;
            s[..2] == dd && s[2] == '.' && s[3..5] == m && s[5] == '.' && s[6..] == y
  {
  }

  lemma DmyFieldValues(d: Date)
    requires 0 <= d.year < 10000 && 0 <= d.month < 100 && 0 <= d.day < 100
    ensures DigitsValue(Padded(d.day, 2)) == d.day && DigitsValue(Padded(d.month, 2)) == d.month
    ensures DigitsValue(Padded(d.year, 4)) == d.year
  {
    assert Pow10(2) == 100 && Pow10(4) == 10000;
    PaddedValue(d.year, 4);
    PaddedValue(d.month, 2);
    PaddedValue(d.day, 2);
  }

  /** `datetime.strptime(s, "%d.%m.%Y")`: the date, or None where Python raises ValueError.
      Only the zero-padded spelling of day and month is accepted. */
  function ParseDmy(s: string): (r: Option<Date>)
    ensures r.Some? ==> ValidDate(r.value)
  {
    if |s| == 10 && AllDigits(s[..2]) && s[2] == '.' && AllDigits(s[3..5]) && s[5] == '.'
       && AllDigits(s[6..])
    then
      var d := Date(DigitsValue(s[6..]), DigitsValue(s[3..5]), DigitsValue(s[..2]));
      if ValidDate(d) then Some(d) else None
    else None
  }

  lemma ParseDmyOfFormat(d: Date)
    requires ValidDate(d)
    ensures ParseDmy(FormatDmy(d)) == Some(d)
  {
    assert d.day <= 31;
  }

  /** Every text `strptime` accepts here is the `strftime` spelling of the date it yields. */
  lemma ParseDmyCanonical(s: string)
    requires ParseDmy(s).Some?
    ensures s == FormatDmy(ParseDmy(s).value)
  {
    PaddedOfValue(s[..2]);
    PaddedOfValue(s[3..5]);
    PaddedOfValue(s[6..]);
    var f := FormatDmy(ParseDmy(s).value);
    assert f[..2] == s[..2] && f[3..5] == s[3..5] && f[6..] == s[6..];
    assert s == s[..2] + "." + s[3..5] + "." + s[6..];
    assert f == f[..2] + "." + f[3..5] + "." + f[6..];
  }

  // ------------------------------------------------------- `=DATE(y, m, d)`

  /** The formula text `set_excel_data` writes for a date: `=DATE({year}, {month}, {day})`. */
  function DateFormula(d: Date): (f: string)
    requires 0 <= d.year && 0 <= d.month && 0 <= d.day
    ensures |f| >= 13 && f[..6] == "=DATE(" && f[|f| - 1] == ')'
  {
    "=DATE(" + Decimal(d.year) + ", " + Decimal(d.month) + ", " + Decimal(d.day) + ")"
  }

  /** The longest prefix of `s` made of digits. */
  function LeadingDigits(s: string): (p: string)
    ensures p <= s && AllDigits(p)
    ensures |p| < |s| ==> !IsDigit(s[|p|])
  {
    if s == "" || !IsDigit(s[0]) then "" else [s[0]] + LeadingDigits(s[1..])
  }

  lemma {:induction false} LeadingDigitsOfJoin(a: string, b: string)
    requires AllDigits(a)
    requires b == "" || !IsDigit(b[0])
    ensures LeadingDigits(a + b) == a
  {
    if a != "" {
      assert (a + b)[1..] == a[1..] + b;
      LeadingDigitsOfJoin(a[1..], b);
    }
  }

  /** Reads a run of digits followed by `sep`: the number and the text after `sep`. */
  function NumberThen(s: string, sep: string): Option<(nat, string)> {
    var n := LeadingDigits(s);
    var rest := s[|n|..];
    if |n| > 0 && sep <= rest then Some((DigitsValue(n), rest[|sep|..])) else None
  }

  lemma NumberThenOfJoin(a: string, sep: string, tail: string)
    requires |a| > 0 && AllDigits(a) && |sep| > 0 && !IsDigit(sep[0])
    ensures NumberThen(a + sep + tail, sep) == Some((DigitsValue(a), tail))
  {
    assert a + sep + tail == a + (sep + tail);
    LeadingDigitsOfJoin(a, sep + tail);
    assert (a + sep + tail)[|a|..] == sep + tail;
  }

  /** Reads the arguments `y, m, d)` of a DATE formula. */
  function DateArguments(s: string): Option<Date> {
    match NumberThen(s, ", ")
    case None => None
    case Some((y, r1)) =>
      match NumberThen(r1, ", ")
      case None => None
      case Some((m, r2)) =>
        match NumberThen(r2, ")")
        case None => None
        case Some((d, r3)) => if r3 == "" then Some(Date(y, m, d)) else None
  }

  /** The calendar date a spreadsheet gives a `=DATE(y, m, d)` formula with in-range month and
      day. Like Excel, a year from 0 to 1899 is read as that many years after 1900. */
  function FormulaDate(f: string): (r: Option<Date>)
    ensures r.Some? ==> r.value.year >= 1900
  {
    if |f| < 6 || f[..6] != "=DATE(" then None
    else match DateArguments(f[6..])
      case None => None
      case Some(d) => Some(if d.year < 1900 then Date(d.year + 1900, d.month, d.day) else d)
  }

  /** Reading the arguments of a written formula gives back the date's three numbers. */
  lemma DateArgumentsOfFormula(d: Date)
    requires 0 <= d.year && 0 <= d.month && 0 <= d.day
    ensures DateArguments(DateFormula(d)[6..]) == Some(d)
  {
    var y, m, dd := Decimal(d.year), Decimal(d.month), Decimal(d.day);
    assert DateFormula(d)[6..] == y + ", " + m + ", " + dd + ")";
    assert DateFormula(d)[6..] == y + ", " + (m + ", " + (dd + ")" + ""));
    NumberThenOfJoin(y, ", ", m + ", " + (dd + ")" + ""));
    NumberThenOfJoin(m, ", ", dd + ")" + "");
    NumberThenOfJoin(dd, ")", "");
    DecimalValue(d.year);
    DecimalValue(d.month);
    DecimalValue(d.day);
  }

  /** The formula written for a date from 1900 on denotes that very date. */
  lemma FormulaRoundTrip(d: Date)
    requires ValidDate(d) && d.year >= 1900
    ensures FormulaDate(DateFormula(d)) == Some(d)
  {
    DateArgumentsOfFormula(d);
  }

  /** For a date before 1900 the spreadsheet reads the formula 1900 years later. */
  lemma FormulaShiftsEarlyYears(d: Date)
    requires 0 <= d.year < 1900 && 0 <= d.month && 0 <= d.day
    ensures FormulaDate(DateFormula(d)) == Some(Date(d.year + 1900, d.month, d.day))
  {
    DateArgumentsOfFormula(d);
  }
}
