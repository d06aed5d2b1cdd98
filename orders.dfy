/** The open-order filter of `main`: find the configured date columns present in the extract,
    coerce them to dates, keep the rows whose `Requested` date is missing or before today
    (before the 26th of the month only), and format the date columns back as `DD.MM.YYYY`. */
module OrderFilter {
  import opened Wrappers
  import opened Dates

  /** The column the row filter looks at. */
  const RequestedColumn: string := "Requested"

  /** Rows are filtered only on days of the month below this one. */
  const FilterDayThreshold: int := 26

  /** The exception texts of the two ways the block can raise. */
  const MissingRequestedError: string := "'Requested'"
  const NotDatetimeError: string := "Can only use .dt accessor with datetimelike values"

  /** A frame as `pd.read_excel(path, dtype=str)` gives it: every cell a text or NaN (None).
      pandas renames repeated headers, so column names are distinct. */
  datatype RawFrame = RawFrame(columns: seq<string>, rows: seq<seq<Option<string>>>)

  /** A cell after coercion: NaN/NaT, a text, or a date (a midnight `Timestamp`). */
  datatype Value = Missing | Text(text: string) | Stamp(date: Date)

  datatype Frame = Frame(columns: seq<string>, rows: seq<seq<Value>>)

  predicate Distinct(xs: seq<string>) {
    forall i, j :: 0 <= i < j < |xs| ==> xs[i] != xs[j]
  }

  predicate WellFormedRaw(f: RawFrame) {
    Distinct(f.columns) && forall r :: 0 <= r < |f.rows| ==> |f.rows[r]| == |f.columns|
  }

  predicate WellFormed(f: Frame) {
    Distinct(f.columns) && forall r :: 0 <= r < |f.rows| ==> |f.rows[r]| == |f.columns|
  }

  /** `DataFrame.empty`: no rows or no columns. */
  predicate IsEmpty(f: Frame) {
    |f.rows| == 0 || |f.columns| == 0
  }

  // ----------------------------------------------------------- date columns

  /** `existing_column_names`: the configured date columns that the frame has, in the order
      of the configuration. */
  function DateColumns(configured: seq<string>, columns: seq<string>): seq<string> {
    if configured == [] then []
    else (if configured[0] in columns then [configured[0]] else []) + DateColumns(configured[1..], columns)
  }

  /** `a` is `b` with some entries deleted (order kept). */
  predicate IsSubsequence<T(==)>(a: seq<T>, b: seq<T>)
    decreases |b|
  {
    a == [] || (b != [] && ((a[0] == b[0] && IsSubsequence(a[1..], b[1..])) || IsSubsequence(a, b[1..])))
  }

  lemma {:induction false} DateColumnsSelection(configured: seq<string>, columns: seq<string>)
    ensures forall x :: x in DateColumns(configured, columns) <==> x in configured && x in columns
    ensures IsSubsequence(DateColumns(configured, columns), configured)
  {
    if configured != [] {
      var rest := DateColumns(configured[1..], columns);
      DateColumnsSelection(configured[1..], columns);
      assert configured == [configured[0]] + configured[1..];
      if configured[0] in columns {
        var r := [configured[0]] + rest;
        assert r[0] == configured[0] && r[1..] == rest;
        assert IsSubsequence(r, configured);
      } else {
        assert [] + rest == rest;
      }
    }
  }

  lemma {:induction false} DateColumnsDistinct(configured: seq<string>, columns: seq<string>)
    requires Distinct(configured)
    ensures Distinct(DateColumns(configured, columns))
  {
    if configured != [] {
      var rest := DateColumns(configured[1..], columns);
      DateColumnsDistinct(configured[1..], columns);
      DateColumnsSelection(configured[1..], columns);
      assert configured[0] !in configured[1..];
      assert configured[0] !in rest;
    }
  }

  // --------------------------------------------------------------- coercion

  /** `pd.to_datetime(..., format='%Y-%m-%d 00:00:00', errors='coerce')` on a date-column cell,
      and the plain text of any other cell. Unparsable dates become missing; nothing raises. */
  function CoerceCell(v: Option<string>, isDate: bool): (r: Value)
    ensures r.Missing? <==> v.None? || (isDate && ParseIso(v.value).None?)
    ensures r.Text? <==> v.Some? && !isDate
    ensures r.Text? ==> r.text == v.value
    ensures r.Stamp? ==> ValidDate(r.date) && InTimestampRange(r.date) && v == Some(FormatIso(r.date))
  {
    match v
    case None => Missing
    case Some(s) =>
      if !isDate then Text(s)
      else match ParseIso(s)
        case None => Missing
        case Some(d) =>
          ParseIsoCanonical(s);
          Stamp(d)
  }

  function CoerceRow(row: seq<Option<string>>, columns: seq<string>, dateCols: seq<string>): (r: seq<Value>)
    requires |row| == |columns|
    ensures |r| == |row|
  {
    seq(|row|, c requires 0 <= c < |row| => CoerceCell(row[c], columns[c] in dateCols))
  }

  function CoerceRows(rows: seq<seq<Option<string>>>, columns: seq<string>, dateCols: seq<string>): (r: seq<seq<Value>>)
    requires forall i :: 0 <= i < |rows| ==> |rows[i]| == |columns|
    ensures |r| == |rows| && forall i :: 0 <= i < |r| ==> |r[i]| == |columns|
  {
    seq(|rows|, i requires 0 <= i < |rows| => CoerceRow(rows[i], columns, dateCols))
  }

  // ------------------------------------------------------------------ filter

  /** Python's `<` on two texts: code-point-wise lexicographic order. */
  predicate LexLess(a: string, b: string) {
    if a == "" then b != ""
    else if b == "" then false
    else if a[0] != b[0] then a[0] < b[0]
    else LexLess(a[1..], b[1..])
  }

  lemma {:induction false} LexLessIrreflexive(a: string)
    ensures !LexLess(a, a)
  {
    if a != "" {
      LexLessIrreflexive(a[1..]);
    }
  }

  /** Comparing two texts that start with equally long parts: the parts decide unless they are
      equal, and then the rest does. */
  lemma {:induction false} LexLessConcat(x: string, y: string, a: string, b: string)
    requires |x| == |y|
    ensures LexLess(x + a, y + b) == if x == y then LexLess(a, b) else LexLess(x, y)
  {
    if x == "" {
      assert x + a == a && y + b == b;
    } else {
      assert (x + a)[0] == x[0] && (y + b)[0] == y[0];
      if x[0] == y[0] {
        assert (x + a)[1..] == x[1..] + a && (y + b)[1..] == y[1..] + b;
        LexLessConcat(x[1..], y[1..], a, b);
        assert x == y <==> x[1..] == y[1..] by {
          assert x == [x[0]] + x[1..] && y == [y[0]] + y[1..];
        }
      }
    }
  }

  /** On digit strings of one length, text order is numeric order. */
  lemma {:induction false} DigitsLexLess(x: string, y: string)
    requires |x| == |y| && AllDigits(x) && AllDigits(y)
    ensures LexLess(x, y) <==> DigitsValue(x) < DigitsValue(y)
  {
    if x != "" {
      var n := |x|;
      var p, q := x[..n - 1], y[..n - 1];
      var c, e := x[n - 1], y[n - 1];
      assert x == p + [c] && y == q + [e];
      LexLessConcat(p, q, [c], [e]);
      DigitsLexLess(p, q);
      var vp, vq := DigitsValue(p), DigitsValue(q);
      if p == q {
        assert [c][1..] == [] && [e][1..] == [];
      } else {
        PaddedOfValue(p);
        PaddedOfValue(q);
        assert vp != vq;
        assert 10 * vp + 9 < 10 * vq || 10 * vq + 9 < 10 * vp;
      }
    }
  }

  /** The fields of a date fixed by `FormatIso`, in the order text comparison reads them. */
  lemma IsoFields(d: Date)
    requires 0 <= d.year && 0 <= d.month && 0 <= d.day
    ensures FormatIso(d) == Padded(d.year, 4) + ("-" + (Padded(d.month, 2) + ("-" + (Padded(d.day, 2) + MidnightSuffix))))
  {
  }

  /** Padded fields of one width compare as text exactly as their numbers compare. */
  lemma PaddedLexLess(n: nat, m: nat, width: nat, a: string, b: string)
    requires n < Pow10(width) && m < Pow10(width)
    ensures LexLess(Padded(n, width) + a, Padded(m, width) + b)
              == if n == m then LexLess(a, b) else n < m
  {
    LexLessConcat(Padded(n, width), Padded(m, width), a, b);
    DigitsLexLess(Padded(n, width), Padded(m, width));
    PaddedValue(n, width);
    PaddedValue(m, width);
  }

  /** The same separator in front of both texts leaves the comparison to what follows. */
  lemma SeparatorLexLess(sep: char, a: string, b: string)
    ensures LexLess([sep] + a, [sep] + b) == LexLess(a, b)
  {
    assert ([sep] + a)[1..] == a && ([sep] + b)[1..] == b;
  }

  /** `filtered_data['Requested'].isna() | (filtered_data['Requested'] < formatted_date)` for one
      value: a date compares with today's midnight; a text column (when `Requested` is not a
      configured date column) compares as text with `formatted_date`. */
  predicate Keep(v: Value, today: Date)
    requires ValidDate(today)
  {
    match v
    case Missing => true
    case Stamp(d) => Before(d, today)
    case Text(s) => LexLess(s, FormatIso(today))
  }

  /** When `Requested` is not a configured date column its values stay texts, and the mask
      compares them with `formatted_date` as texts. For the extract's own spelling of a date
      that text comparison keeps exactly the rows the date comparison keeps. */
  lemma KeepTextAgreesWithDate(d: Date, today: Date)
    requires ValidDate(d) && ValidDate(today)
    ensures Keep(Text(FormatIso(d)), today) <==> Keep(Stamp(d), today)
  {
    assert Pow10(2) == 100 && Pow10(4) == 10000;
    IsoFields(d);
    IsoFields(today);
    LexLessIrreflexive(MidnightSuffix);
    PaddedLexLess(d.day, today.day, 2, MidnightSuffix, MidnightSuffix);
    var dayPart, todayDayPart := Padded(d.day, 2) + MidnightSuffix, Padded(today.day, 2) + MidnightSuffix;
    SeparatorLexLess('-', dayPart, todayDayPart);
    PaddedLexLess(d.month, today.month, 2, "-" + dayPart, "-" + todayDayPart);
    var monthPart := Padded(d.month, 2) + ("-" + dayPart);
    var todayMonthPart := Padded(today.month, 2) + ("-" + todayDayPart);
    SeparatorLexLess('-', monthPart, todayMonthPart);
    PaddedLexLess(d.year, today.year, 4, "-" + monthPart, "-" + todayMonthPart);
  }

  /** The boolean-mask selection: the rows whose value at column `k` is kept, in order. */
  function FilterRows(rows: seq<seq<Value>>, k: nat, today: Date): (r: seq<seq<Value>>)
    requires ValidDate(today)
    requires forall i :: 0 <= i < |rows| ==> k < |rows[i]|
    ensures |r| <= |rows| && forall i :: 0 <= i < |r| ==> r[i] in rows && Keep(r[i][k], today)
  {
    if rows == [] then []
    else (if Keep(rows[0][k], today) then [rows[0]] else []) + FilterRows(rows[1..], k, today)
  }

  /** The mask keeps every copy of a row that passes it and no copy of one that does not. */
  lemma {:induction false} FilterRowsCount(rows: seq<seq<Value>>, k: nat, today: Date, row: seq<Value>)
    requires ValidDate(today)
    requires forall i :: 0 <= i < |rows| ==> k < |rows[i]|
    requires k < |row|
    ensures multiset(FilterRows(rows, k, today))[row] == if Keep(row[k], today) then multiset(rows)[row] else 0
  {
    if rows != [] {
      FilterRowsCount(rows[1..], k, today, row);
      assert rows == [rows[0]] + rows[1..];
      assert multiset(rows) == multiset([rows[0]]) + multiset(rows[1..]);
    }
  }

  lemma {:induction false} FilterRowsSelection(rows: seq<seq<Value>>, k: nat, today: Date)
    requires ValidDate(today)
    requires forall i :: 0 <= i < |rows| ==> k < |rows[i]|
    ensures forall row :: row in FilterRows(rows, k, today) <==> row in rows && Keep(row[k], today)
    ensures IsSubsequence(FilterRows(rows, k, today), rows)
    ensures forall i :: 0 <= i < |rows| ==>
              multiset(FilterRows(rows, k, today))[rows[i]]
                == if Keep(rows[i][k], today) then multiset(rows)[rows[i]] else 0
  {
    forall i | 0 <= i < |rows|
      ensures multiset(FilterRows(rows, k, today))[rows[i]]
                == if Keep(rows[i][k], today) then multiset(rows)[rows[i]] else 0
    {
      FilterRowsCount(rows, k, today, rows[i]);
    }
    if rows != [] {
      var rest := FilterRows(rows[1..], k, today);
      FilterRowsSelection(rows[1..], k, today);
      assert rows == [rows[0]] + rows[1..];
      if Keep(rows[0][k], today) {
        var r := [rows[0]] + rest;
        assert r[0] == rows[0] && r[1..] == rest;
        assert IsSubsequence(r, rows);
      } else {
        assert [] + rest == rest;
      }
    }
  }

  function IndexOf(xs: seq<string>, x: string): (i: nat)
    requires x in xs
    ensures i < |xs| && xs[i] == x
  {
    if xs[0] == x then 0 else 1 + IndexOf(xs[1..], x)
  }

  // --------------------------------------------------------------- display

  /** `.dt.strftime("%d.%m.%Y")` on a date-column cell (NaT stays missing); other cells as they are. */
  function DisplayCell(v: Value, isDate: bool): Value {
    if isDate && v.Stamp? && ValidDate(v.date) then Text(FormatDmy(v.date)) else v
  }

  function DisplayRows(rows: seq<seq<Value>>, columns: seq<string>, dateCols: seq<string>): (r: seq<seq<Value>>)
    requires forall i :: 0 <= i < |rows| ==> |rows[i]| == |columns|
    ensures |r| == |rows| && forall i :: 0 <= i < |r| ==> |r[i]| == |columns|
  {
    seq(|rows|, i requires 0 <= i < |rows| =>
      seq(|columns|, c requires 0 <= c < |columns| => DisplayCell(rows[i][c], columns[c] in dateCols)))
  }

  /** A cell the display step can leave in a date column: missing, or the `DD.MM.YYYY` spelling
      of a real date. */
  predicate IsDisplayDate(v: Value) {
    v.Missing? || (v.Text? && ParseDmy(v.text).Some? && FormatDmy(ParseDmy(v.text).value) == v.text)
  }

  // ------------------------------------------------------------ whole block

  datatype Prepared = Prepared(frame: Frame, dateColumns: seq<string>)

  /** The block of `main` from the date-column search to the display formatting. `today` is the
      midnight `formatted_date` was taken at (module load), `dayOfMonth` the day `now()` gives
      at the call. Fails with the text of the exception pandas raises: a `KeyError` when the
      filter runs and the frame has no `Requested` column, an `AttributeError` when a date
      column is listed twice and so formatted twice. */
  function PrepareFrame(raw: RawFrame, configured: seq<string>, today: Date, dayOfMonth: int): (r: Result<Prepared, string>)
    requires WellFormedRaw(raw) && ValidDate(today)
    ensures r.Failure? ==> r.error == MissingRequestedError || r.error == NotDatetimeError
    ensures r.Failure? && r.error == MissingRequestedError ==> dayOfMonth < FilterDayThreshold
    ensures r.Success? ==> r.value.frame.columns == raw.columns && |r.value.frame.rows| <= |raw.rows|
    ensures r.Success? && dayOfMonth >= FilterDayThreshold ==> |r.value.frame.rows| == |raw.rows|
  {
    var dateCols := DateColumns(configured, raw.columns);
    var coerced := CoerceRows(raw.rows, raw.columns, dateCols);
    if dayOfMonth < FilterDayThreshold && RequestedColumn !in raw.columns then
      Failure(MissingRequestedError)
    else
      var kept := if dayOfMonth < FilterDayThreshold
                  then FilterRows(coerced, IndexOf(raw.columns, RequestedColumn), today)
                  else coerced;
      if !Distinct(dateCols) then Failure(NotDatetimeError)
      else Success(Prepared(Frame(raw.columns, DisplayRows(kept, raw.columns, dateCols)), dateCols))
  }

  /** The block raises exactly when the filter needs a `Requested` column the frame lacks, or when
      a date column would be formatted twice; otherwise it keeps the columns and reports the
      date columns it found. */
  lemma PrepareFrameOutcome(raw: RawFrame, configured: seq<string>, today: Date, dayOfMonth: int)
    requires WellFormedRaw(raw) && ValidDate(today)
    ensures PrepareFrame(raw, configured, today, dayOfMonth).Failure? <==>
              (dayOfMonth < FilterDayThreshold && RequestedColumn !in raw.columns)
              || !Distinct(DateColumns(configured, raw.columns))
    ensures (Distinct(configured) && (dayOfMonth >= FilterDayThreshold || RequestedColumn in raw.columns))
              ==> PrepareFrame(raw, configured, today, dayOfMonth).Success?
    ensures PrepareFrame(raw, configured, today, dayOfMonth).Success? ==>
              var p := PrepareFrame(raw, configured, today, dayOfMonth).value;
              p.frame.columns == raw.columns && p.dateColumns == DateColumns(configured, raw.columns)
              && WellFormed(p.frame)
  {
    if Distinct(configured) {
      DateColumnsDistinct(configured, raw.columns);
    }
  }

  /** From the 26th on every row is kept, in order; a text outside the date columns is unchanged,
      and a date-column cell becomes the `DD.MM.YYYY` spelling of the date it parses to, or
      missing when it does not parse. */
  lemma PrepareKeepsAllRowsFromThe26th(raw: RawFrame, configured: seq<string>, today: Date, dayOfMonth: int)
    requires WellFormedRaw(raw) && ValidDate(today) && dayOfMonth >= FilterDayThreshold
    requires PrepareFrame(raw, configured, today, dayOfMonth).Success?
    ensures var p := PrepareFrame(raw, configured, today, dayOfMonth).value;
            |p.frame.rows| == |raw.rows| &&
            forall i, c :: 0 <= i < |raw.rows| && 0 <= c < |raw.columns| ==>
              p.frame.rows[i][c] ==
                match raw.rows[i][c]
                case None => Missing
                case Some(s) =>
                  if raw.columns[c] !in p.dateColumns then Text(s)
                  else if ParseIso(s).Some? then Text(FormatDmy(ParseIso(s).value))
                  else Missing
  {
  }

  /** Before the 26th the rows kept are exactly the rows whose `Requested` value is missing or
      before today, every copy of each, in their original order and with their values untouched
      by the filter. */
  lemma PrepareFiltersBeforeThe26th(raw: RawFrame, configured: seq<string>, today: Date, dayOfMonth: int)
    requires WellFormedRaw(raw) && ValidDate(today) && dayOfMonth < FilterDayThreshold
    requires PrepareFrame(raw, configured, today, dayOfMonth).Success?
    ensures RequestedColumn in raw.columns
    ensures var dateCols := DateColumns(configured, raw.columns);
            var coerced := CoerceRows(raw.rows, raw.columns, dateCols);
            var k := IndexOf(raw.columns, RequestedColumn);
            var kept := FilterRows(coerced, k, today);
            PrepareFrame(raw, configured, today, dayOfMonth).value.frame.rows
              == DisplayRows(kept, raw.columns, dateCols)
            && (forall row :: row in kept <==> row in coerced && Keep(row[k], today))
            && IsSubsequence(kept, coerced)
            && (forall i :: 0 <= i < |coerced| ==>
                  multiset(kept)[coerced[i]] == if Keep(coerced[i][k], today) then multiset(coerced)[coerced[i]] else 0)
  {
    var dateCols := DateColumns(configured, raw.columns);
    var coerced := CoerceRows(raw.rows, raw.columns, dateCols);
    FilterRowsSelection(coerced, IndexOf(raw.columns, RequestedColumn), today);
  }

  /** A coerced cell, once displayed, holds no raw date, and in a date column it is missing or
      a canonical `DD.MM.YYYY` text. */
  lemma DisplayedCoercedCell(x: Option<string>, isDate: bool)
    ensures var d := DisplayCell(CoerceCell(x, isDate), isDate);
            !d.Stamp? && (isDate ==> IsDisplayDate(d))
  {
    var v := CoerceCell(x, isDate);
    if v.Stamp? {
      ParseDmyOfFormat(v.date);
    }
  }

  /** After the block, every cell of a date column is missing or a canonical `DD.MM.YYYY` text,
      and no cell holds a raw date any more. */
  lemma PreparedCellsAreDisplayed(raw: RawFrame, configured: seq<string>, today: Date, dayOfMonth: int)
    requires WellFormedRaw(raw) && ValidDate(today)
    requires PrepareFrame(raw, configured, today, dayOfMonth).Success?
    ensures var p := PrepareFrame(raw, configured, today, dayOfMonth).value;
            forall i, c :: 0 <= i < |p.frame.rows| && 0 <= c < |p.frame.columns| ==>
              !p.frame.rows[i][c].Stamp?
              && (p.frame.columns[c] in p.dateColumns ==> IsDisplayDate(p.frame.rows[i][c]))
  {
    var p := PrepareFrame(raw, configured, today, dayOfMonth).value;
    var dateCols := p.dateColumns;
    var coerced := CoerceRows(raw.rows, raw.columns, dateCols);
    var k := if RequestedColumn in raw.columns then IndexOf(raw.columns, RequestedColumn) else 0;
    var kept := if dayOfMonth < FilterDayThreshold then FilterRows(coerced, k, today) else coerced;
    assert p.frame.rows == DisplayRows(kept, raw.columns, dateCols);
    assert forall i :: 0 <= i < |kept| ==> kept[i] in coerced;
    forall i, c | 0 <= i < |p.frame.rows| && 0 <= c < |p.frame.columns|
      ensures !p.frame.rows[i][c].Stamp?
      ensures p.frame.columns[c] in dateCols ==> IsDisplayDate(p.frame.rows[i][c])
    {
      var j :| 0 <= j < |coerced| && coerced[j] == kept[i];
      var isDate := raw.columns[c] in dateCols;
      assert p.frame.rows[i][c] == DisplayCell(kept[i][c], isDate);
      assert kept[i][c] == CoerceCell(raw.rows[j][c], isDate);
      DisplayedCoercedCell(raw.rows[j][c], isDate);
    }
  }
}
