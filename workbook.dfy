/** The report workbook: `set_excel_data` writes the filtered frame and turns every date cell
    of a date column into a `=DATE(y, m, d)` formula; `adjust_color_width_in_excel` then scans
    the header row into five column categories, fills cells yellow or red, and sizes every
    column to its longest text plus 6. */
module Workbook {
  import opened Wrappers
  import opened Dates
  import opened Cells
  import opened OrderFilter

  /** Added to the longest text of a column to give its width. */
  const WidthPadding: int := 6

  datatype Fill = NoFill | Yellow | Red

  /** The value lists `adjust_color_width_in_excel` works from: the highlight list
      (`colored_column_names_to_check`), the header names of the five categories, and the
      trigger values of the four value-flagging categories. */
  datatype StyleConfig = StyleConfig(
    highlightValues: seq<string>,
    notBlankColumns: seq<string>,
    incompleteColumns: seq<string>, incompleteValues: seq<string>,
    matstColumns: seq<string>, matstValues: seq<string>,
    mrpcontrColumns: seq<string>, mrpcontrValues: seq<string>,
    checkColumns: seq<string>, checkValues: seq<string>)

  /** The five `*_columns_indexes` lists: column letters per category. */
  datatype ColumnIndexes = ColumnIndexes(
    notBlank: seq<string>, incomplete: seq<string>, matst: seq<string>,
    mrpcontr: seq<string>, check: seq<string>)

  // ------------------------------------------------------------ rendering

  /** How `to_excel` writes a frame value: NaN as an empty cell, a text as a text, a date as a
      date cell (a non-text value). */
  function RenderValue(v: Value): Cell {
    match v
    case Missing => Blank
    case Text(s) => Str(s)
    case Stamp(_) => Other
  }

  /** The cell at 0-based sheet row `r` (row 0 is the header) and column `c` as `to_excel`
      with `index=False` writes it. */
  function Rendered(frame: Frame, r: nat, c: nat): Cell
    requires WellFormed(frame) && r <= |frame.rows| && c < |frame.columns|
  {
    if r == 0 then Str(frame.columns[c]) else RenderValue(frame.rows[r - 1][c])
  }

  // ------------------------------------------------------- date formulas

  /** The formula `set_excel_data` writes at 0-based sheet row `r`, column `c` (Excel's
      `{letter}{index + 2}` for data index `r - 1`), if any: a non-null cell of a date column
      whose text parses as `DD.MM.YYYY`. */
  function FormulaAt(frame: Frame, dateCols: seq<string>, r: nat, c: nat): Option<string>
    requires WellFormed(frame) && r <= |frame.rows| && c < |frame.columns|
  {
    if r == 0 || frame.columns[c] !in dateCols then None
    else match frame.rows[r - 1][c]
      case Text(s) => (match ParseDmy(s) case Some(d) => Some(DateFormula(d)) case None => None)
      case _ => None
  }

  /** A date-column value `strptime` accepts: NaN is skipped, a text must parse; anything else
      raises. */
  predicate WritableDateValue(v: Value) {
    v.Missing? || (v.Text? && ParseDmy(v.text).Some?)
  }

  /** `set_excel_data` runs to the end without raising. */
  predicate DatesParse(frame: Frame, dateCols: seq<string>)
    requires WellFormed(frame)
  {
    forall r, c :: 0 <= r < |frame.rows| && 0 <= c < |frame.columns| && frame.columns[c] in dateCols
      ==> WritableDateValue(frame.rows[r][c])
  }

  /** A frame that went through the filter block never makes `set_excel_data` raise. */
  lemma PreparedFramesWriteCleanly(raw: RawFrame, configured: seq<string>, today: Date, dayOfMonth: int)
    requires WellFormedRaw(raw) && ValidDate(today)
    requires PrepareFrame(raw, configured, today, dayOfMonth).Success?
    ensures var p := PrepareFrame(raw, configured, today, dayOfMonth).value;
            WellFormed(p.frame) && DatesParse(p.frame, p.dateColumns)
  {
    PrepareFrameOutcome(raw, configured, today, dayOfMonth);
    PreparedCellsAreDisplayed(raw, configured, today, dayOfMonth);
  }

  /** Each written formula denotes the calendar date of the text it replaces (for dates from
      1900 on; the spreadsheet reads earlier years 1900 years late). */
  lemma FormulaKeepsDate(frame: Frame, dateCols: seq<string>, r: nat, c: nat)
    requires WellFormed(frame) && 1 <= r <= |frame.rows| && c < |frame.columns|
    requires FormulaAt(frame, dateCols, r, c).Some?
    ensures frame.columns[c] in dateCols && frame.rows[r - 1][c].Text?
    ensures var d := ParseDmy(frame.rows[r - 1][c].text).value;
            d.year >= 1900 ==> FormulaDate(FormulaAt(frame, dateCols, r, c).value) == Some(d)
  {
    var d := ParseDmy(frame.rows[r - 1][c].text).value;
    if d.year >= 1900 {
      FormulaRoundTrip(d);
    }
  }

  // ------------------------------------------------------- header scan

  /** Letters of the columns among `header` whose header value is one of `names`, left to right. */
  function HeaderLetters(header: seq<Cell>, names: seq<string>): seq<string> {
    if header == [] then []
    else
      HeaderLetters(header[..|header| - 1], names)
      + (if Matches(header[|header| - 1], names) then [ColumnLetter(|header|)] else [])
  }

  /** Every letter in a category's list is the letter of a column whose header is one of the
      category's names. */
  lemma {:induction false} HeaderLettersSound(header: seq<Cell>, names: seq<string>)
    ensures forall x :: x in HeaderLetters(header, names) ==>
              exists c :: 0 <= c < |header| && x == ColumnLetter(c + 1) && Matches(header[c], names)
  {
    if header != [] {
      var n := |header|;
      var init := header[..n - 1];
      HeaderLettersSound(init, names);
      forall x | x in HeaderLetters(header, names)
        ensures exists c :: 0 <= c < n && x == ColumnLetter(c + 1) && Matches(header[c], names)
      {
        if x in HeaderLetters(init, names) {
          var c :| 0 <= c < n - 1 && x == ColumnLetter(c + 1) && Matches(init[c], names);
          assert header[c] == init[c];
        } else {
          assert x == ColumnLetter(n) && Matches(header[n - 1], names);
        }
      }
    }
  }

  /** A column's letter is in its category's list exactly when its header is one of the
      category's names; every letter in the list is the letter of such a column. */
  lemma {:induction false} HeaderLettersMembers(header: seq<Cell>, names: seq<string>)
    ensures forall c :: 0 <= c < |header| ==>
              (ColumnLetter(c + 1) in HeaderLetters(header, names) <==> Matches(header[c], names))
    ensures forall x :: x in HeaderLetters(header, names) ==>
              exists c :: 0 <= c < |header| && x == ColumnLetter(c + 1) && Matches(header[c], names)
  {
    HeaderLettersSound(header, names);
    if header != [] {
      var n := |header|;
      var init := header[..n - 1];
      HeaderLettersMembers(init, names);
      var tail := if Matches(header[n - 1], names) then [ColumnLetter(n)] else [];
      assert HeaderLetters(header, names) == HeaderLetters(init, names) + tail;
      forall c | 0 <= c < n
        ensures ColumnLetter(c + 1) in HeaderLetters(header, names) <==> Matches(header[c], names)
      {
        if c < n - 1 {
          assert init[c] == header[c];
          if ColumnLetter(c + 1) == ColumnLetter(n) {
            ColumnLetterInjective(c + 1, n);
          }
        } else if ColumnLetter(n) in HeaderLetters(init, names) {
          var j :| 0 <= j < n - 1 && ColumnLetter(n) == ColumnLetter(j + 1) && Matches(init[j], names);
          ColumnLetterInjective(n, j + 1);
          assert false;
        }
      }
    }
  }

  /** The five lists the header scan builds. */
  function Categorize(header: seq<Cell>, cfg: StyleConfig): ColumnIndexes {
    ColumnIndexes(
      HeaderLetters(header, cfg.notBlankColumns),
      HeaderLetters(header, cfg.incompleteColumns),
      HeaderLetters(header, cfg.matstColumns),
      HeaderLetters(header, cfg.mrpcontrColumns),
      HeaderLetters(header, cfg.checkColumns))
  }

  /** The scan of the first row: five independent tests per header cell, so one column can join
      several categories. */
  method ScanHeader(header: seq<Cell>, cfg: StyleConfig) returns (idx: ColumnIndexes)
    ensures idx == Categorize(header, cfg)
  {
    var notBlank, incomplete, matst, mrpcontr, check := [], [], [], [], [];
    for c := 0 to |header|
      invariant ColumnIndexes(notBlank, incomplete, matst, mrpcontr, check) == Categorize(header[..c], cfg)
    {
      assert header[..c + 1][..c] == header[..c];
      var value, letter := header[c], ColumnLetter(c + 1);
      if Matches(value, cfg.notBlankColumns) {
        notBlank := notBlank + [letter];
      }
      if Matches(value, cfg.incompleteColumns) {
        incomplete := incomplete + [letter];
      }
      if Matches(value, cfg.matstColumns) {
        matst := matst + [letter];
      }
      if Matches(value, cfg.mrpcontrColumns) {
        mrpcontr := mrpcontr + [letter];
      }
      if Matches(value, cfg.checkColumns) {
        check := check + [letter];
      }
    }
    assert header[..|header|] == header;
    idx := ColumnIndexes(notBlank, incomplete, matst, mrpcontr, check);
  }

  // ---------------------------------------------------------- fill rule

  /** Some red test of `adjust_color_width_in_excel` fires for a cell of the column `letter`. */
  predicate RedFlagged(cfg: StyleConfig, idx: ColumnIndexes, letter: string, v: Cell) {
    (letter in idx.notBlank && v != Blank)
    || (letter in idx.incomplete && Matches(v, cfg.incompleteValues))
    || (letter in idx.matst && Matches(v, cfg.matstValues))
    || (letter in idx.mrpcontr && Matches(v, cfg.mrpcontrValues))
    || (letter in idx.check && Matches(v, cfg.checkValues))
  }

  /** The fill of one cell, as the source decides it: yellow for a highlight value, otherwise
      five `if`s in a row, each of which may set red. The result is yellow for a highlight
      value, red when any red test fires, and the cell's fill as it was otherwise. */
  function CellFill(cfg: StyleConfig, idx: ColumnIndexes, letter: string, v: Cell, current: Fill): (f: Fill)
    ensures Matches(v, cfg.highlightValues) ==> f == Yellow
    ensures !Matches(v, cfg.highlightValues) ==> (f == Red <==> RedFlagged(cfg, idx, letter, v) || current == Red)
    ensures !Matches(v, cfg.highlightValues) && !RedFlagged(cfg, idx, letter, v) ==> f == current
  {
    if !Matches(v, cfg.highlightValues) then
      var f1 := if letter in idx.notBlank && v != Blank then Red else current;
      var f2 := if letter in idx.incomplete && Matches(v, cfg.incompleteValues) then Red else f1;
      var f3 := if letter in idx.matst && Matches(v, cfg.matstValues) then Red else f2;
      var f4 := if letter in idx.mrpcontr && Matches(v, cfg.mrpcontrValues) then Red else f3;
      if letter in idx.check && Matches(v, cfg.checkValues) then Red else f4
    else
      Yellow
  }

  /** The fill rule in terms of the header of the cell's column: a highlight value is yellow and
      never red; any other cell is red when it is non-empty under a not-blank header, or holds a
      trigger value of a category its header belongs to; otherwise its fill is unchanged. */
  lemma FillByHeader(cfg: StyleConfig, header: seq<Cell>, c: nat, v: Cell, current: Fill)
    requires c < |header|
    ensures CellFill(cfg, Categorize(header, cfg), ColumnLetter(c + 1), v, current) ==
      if Matches(v, cfg.highlightValues) then Yellow
      else if (Matches(header[c], cfg.notBlankColumns) && v != Blank)
           || (Matches(header[c], cfg.incompleteColumns) && Matches(v, cfg.incompleteValues))
           || (Matches(header[c], cfg.matstColumns) && Matches(v, cfg.matstValues))
           || (Matches(header[c], cfg.mrpcontrColumns) && Matches(v, cfg.mrpcontrValues))
           || (Matches(header[c], cfg.checkColumns) && Matches(v, cfg.checkValues))
      then Red
      else current
  {
    HeaderLettersMembers(header, cfg.notBlankColumns);
    HeaderLettersMembers(header, cfg.incompleteColumns);
    HeaderLettersMembers(header, cfg.matstColumns);
    HeaderLettersMembers(header, cfg.mrpcontrColumns);
    HeaderLettersMembers(header, cfg.checkColumns);
  }

  /** The header cell of a not-blank column is itself non-empty, so it is filled red unless its
      name is a highlight value. */
  lemma NotBlankHeaderIsRed(cfg: StyleConfig, header: seq<Cell>, c: nat, current: Fill)
    requires c < |header| && Matches(header[c], cfg.notBlankColumns)
    ensures CellFill(cfg, Categorize(header, cfg), ColumnLetter(c + 1), header[c], current) ==
            if Matches(header[c], cfg.highlightValues) then Yellow else Red
  {
    FillByHeader(cfg, header, c, header[c], current);
  }

  // ------------------------------------------------------------- widths

  /** What a cell adds to its column's width: the length of a text; nothing for an empty cell
      or a non-text value, whose `len` raises and is skipped. */
  function TextLength(v: Cell): nat {
    if v.Str? then |v.text| else 0
  }

  /** `max_length` after scanning `cells` from the top. */
  function MaxTextLength(cells: seq<Cell>): nat {
    if cells == [] then 0
    else
      var m := MaxTextLength(cells[..|cells| - 1]);
      var t := TextLength(cells[|cells| - 1]);
      if t > m then t else m
  }

  /** `MaxTextLength` is the longest text of the column, and 0 when the column has no non-empty
      text. */
  lemma {:induction false} MaxTextLengthIsLongest(cells: seq<Cell>)
    ensures forall i :: 0 <= i < |cells| && cells[i].Str? ==> |cells[i].text| <= MaxTextLength(cells)
    ensures MaxTextLength(cells) == 0
            || exists i :: 0 <= i < |cells| && cells[i].Str? && |cells[i].text| == MaxTextLength(cells)
  {
    if cells != [] {
      var init := cells[..|cells| - 1];
      MaxTextLengthIsLongest(init);
      forall i | 0 <= i < |cells| - 1 && cells[i].Str?
        ensures |cells[i].text| <= MaxTextLength(cells)
      {
        assert init[i] == cells[i];
      }
      if MaxTextLength(cells) != 0 && MaxTextLength(cells) == MaxTextLength(init) {
        var i :| 0 <= i < |init| && init[i].Str? && |init[i].text| == MaxTextLength(init);
        assert cells[i] == init[i];
      }
    }
  }

  // -------------------------------------------------------------- sheet

  /** The cells of column `c` of a grid, top to bottom, header included. */
  ghost function ColumnOf(a: array2<Cell>, c: nat): (s: seq<Cell>)
    reads a
    requires c < a.Length1
    ensures |s| == a.Length0
  {
    seq(a.Length0, r requires 0 <= r < a.Length0 reads a => a[r, c])
  }

  /** The first row of a grid. */
  ghost function HeaderOf(a: array2<Cell>): (s: seq<Cell>)
    reads a
    requires a.Length0 >= 1
    ensures |s| == a.Length1
  {
    seq(a.Length1, c requires 0 <= c < a.Length1 reads a => a[0, c])
  }

  /** The single sheet of the report file: cell values, cell fills and column widths. Row 0 is
      the header row. */
  class Sheet {
    var values: array2<Cell>
    var fills: array2<Fill>
    var widths: array<int>

    ghost predicate Valid()
      reads this
    {
      values.Length0 >= 1 && fills.Length0 == values.Length0 && fills.Length1 == values.Length1
      && widths.Length == values.Length1
    }

    /** `filtered_data.to_excel(writer, index=False)`: a header row, then one row per frame row;
        no cell has a fill yet. */
    constructor (frame: Frame)
      requires WellFormed(frame)
      ensures Valid() && fresh(values) && fresh(fills) && fresh(widths)
      ensures values.Length0 == |frame.rows| + 1 && values.Length1 == |frame.columns|
      ensures forall r, c :: 0 <= r < values.Length0 && 0 <= c < values.Length1 ==>
                values[r, c] == Rendered(frame, r, c) && fills[r, c] == NoFill
    {
      var height, width := |frame.rows| + 1, |frame.columns|;
      values := new Cell[height, width]((r, c) requires 0 <= r < height && 0 <= c < width => Rendered(frame, r, c));
      fills := new Fill[height, width]((r, c) => NoFill);
      widths := new int[width](c => 0);
    }

    /** The row loop of `set_excel_data` for the date column `c`: every non-null cell is parsed
        as `DD.MM.YYYY` and replaced by its `=DATE(y, m, d)` formula. Returns false, with the
        column partly rewritten, where `strptime` raises. */
    method WriteColumnFormulas(frame: Frame, dateCols: seq<string>, c: nat) returns (ok: bool)
      requires Valid() && WellFormed(frame)
      requires values.Length0 == |frame.rows| + 1 && values.Length1 == |frame.columns|
      requires c < |frame.columns| && frame.columns[c] in dateCols
      modifies values
      ensures Valid()
      ensures ok <==> forall r :: 0 <= r < |frame.rows| ==> WritableDateValue(frame.rows[r][c])
      ensures ok ==> forall r, c' :: 0 <= r < values.Length0 && 0 <= c' < values.Length1 ==>
                values[r, c'] == if c' == c && FormulaAt(frame, dateCols, r, c').Some?
                                 then Str(FormulaAt(frame, dateCols, r, c').value)
                                 else old(values[r, c'])
    {
      var i := 0;
      while i < |frame.rows|
        invariant 0 <= i <= |frame.rows|
        invariant forall r :: 0 <= r < i ==> WritableDateValue(frame.rows[r][c])
        invariant forall r, c' :: 0 <= r < values.Length0 && 0 <= c' < values.Length1 ==>
                    values[r, c'] == if c' == c && r <= i && FormulaAt(frame, dateCols, r, c').Some?
                                     then Str(FormulaAt(frame, dateCols, r, c').value)
                                     else old(values[r, c'])
      {
        var v := frame.rows[i][c];
        if v.Text? {
          var parsed := ParseDmy(v.text);
          if parsed.None? {
            return false;
          }
          values[i + 1, c] := Str(DateFormula(parsed.value));
        } else if v.Stamp? {
          return false;
        }
        i := i + 1;
      }
      return true;
    }

    /** The formula loop of `set_excel_data`: for every date column, every non-null cell is
        parsed as `DD.MM.YYYY` and replaced by its `=DATE(y, m, d)` formula. Returns false, with
        the sheet partly rewritten, where `strptime` raises. */
    method WriteDateFormulas(frame: Frame, dateCols: seq<string>) returns (ok: bool)
      requires Valid() && WellFormed(frame)
      requires values.Length0 == |frame.rows| + 1 && values.Length1 == |frame.columns|
      modifies values
      ensures Valid()
      ensures ok == DatesParse(frame, dateCols)
      ensures ok ==> forall r, c :: 0 <= r < values.Length0 && 0 <= c < values.Length1 ==>
                values[r, c] == match FormulaAt(frame, dateCols, r, c)
                                case Some(f) => Str(f)
                                case None => old(values[r, c])
    {
      var c := 0;
      while c < values.Length1
        invariant 0 <= c <= values.Length1
        invariant forall r, c' :: 0 <= r < |frame.rows| && 0 <= c' < c && frame.columns[c'] in dateCols
                    ==> WritableDateValue(frame.rows[r][c'])
        invariant forall r, c' :: 0 <= r < values.Length0 && 0 <= c' < values.Length1 ==>
                    values[r, c'] == if c' < c && FormulaAt(frame, dateCols, r, c').Some?
                                     then Str(FormulaAt(frame, dateCols, r, c').value)
                                     else old(values[r, c'])
      {
        if frame.columns[c] in dateCols {
          var columnOk := WriteColumnFormulas(frame, dateCols, c);
          if !columnOk {
            return false;
          }
        }
        c := c + 1;
      }
      return true;
    }

    /** One pass of the column loop of `adjust_color_width_in_excel`: sets the fill of every cell
        of column `c` and returns the column's `max_length`. Other columns keep their fills. */
    method StyleColumn(cfg: StyleConfig, idx: ColumnIndexes, c: nat) returns (maxLength: nat)
      requires Valid() && c < values.Length1
      modifies fills
      ensures Valid()
      ensures maxLength == MaxTextLength(ColumnOf(values, c))
      ensures forall r, c' :: 0 <= r < values.Length0 && 0 <= c' < values.Length1 ==>
                fills[r, c'] == if c' == c then CellFill(cfg, idx, ColumnLetter(c + 1), values[r, c], old(fills[r, c]))
                                else old(fills[r, c'])
    {
      var letter := ColumnLetter(c + 1);
      ghost var column := ColumnOf(values, c);
      maxLength := 0;
      var r := 0;
      while r < values.Length0
        invariant 0 <= r <= values.Length0
        invariant maxLength == MaxTextLength(column[..r])
        invariant forall r', c' :: 0 <= r' < values.Length0 && 0 <= c' < values.Length1 ==>
                    fills[r', c'] == if c' == c && r' < r then CellFill(cfg, idx, letter, values[r', c], old(fills[r', c]))
                                     else old(fills[r', c'])
      {
        assert column[..r + 1][..r] == column[..r];
        var v := values[r, c];
        assert v == column[r];
        fills[r, c] := CellFill(cfg, idx, letter, v, fills[r, c]);
        if v.Str? && |v.text| > maxLength {
          maxLength := |v.text|;
        }
        r := r + 1;
      }
      assert column[..values.Length0] == column;
    }

    /** `adjust_color_width_in_excel` on the loaded sheet: scan the header row into the five
        category lists, then column by column set every cell's fill and the column's width. */
    method ApplyStyles(cfg: StyleConfig)
      requires Valid()
      modifies fills, widths
      ensures Valid()
      ensures forall r, c :: 0 <= r < values.Length0 && 0 <= c < values.Length1 ==>
                fills[r, c] == CellFill(cfg, Categorize(HeaderOf(values), cfg), ColumnLetter(c + 1), values[r, c], old(fills[r, c]))
      ensures forall c :: 0 <= c < widths.Length ==> widths[c] == MaxTextLength(ColumnOf(values, c)) + WidthPadding
    {
      var header := HeaderRow();
      var idx := ScanHeader(header, cfg);
      ghost var a := values;
      for c := 0 to values.Length1
        invariant forall r', c' :: 0 <= r' < values.Length0 && 0 <= c' < values.Length1 ==>
                    fills[r', c'] == if c' < c then CellFill(cfg, idx, ColumnLetter(c' + 1), values[r', c'], old(fills[r', c']))
                                     else old(fills[r', c'])
        invariant forall c' :: 0 <= c' < c ==> widths[c'] == MaxTextLength(ColumnOf(a, c')) + WidthPadding
      {
        var maxLength := StyleColumn(cfg, idx, c);
        widths[c] := maxLength + WidthPadding;
      }
    }

    /** The values of the first row, the one the header scan reads. */
    method HeaderRow() returns (header: seq<Cell>)
      requires Valid()
      ensures header == HeaderOf(values)
    {
      var a := values;
      header := seq(a.Length1, c requires 0 <= c < a.Length1 reads a => a[0, c]);
    }
  }
}
