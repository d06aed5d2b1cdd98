/** Spreadsheet cell values and column letters, as openpyxl presents a loaded sheet. */
module Cells {

  /** A cell's value: empty (`None`), text (`str`, including formulas, which openpyxl
      loads as their `=...` text), or any other value (a number, boolean or datetime),
      which is never equal to a text and has no `len`. */
  datatype Cell = Blank | Str(text: string) | Other

  /** True when the cell holds one of the given texts (Python's `cell.value in names`). */
  predicate Matches(v: Cell, names: seq<string>) {
    v.Str? && v.text in names
  }

  function Letter(k: nat): (c: char)
    requires k < 26
    ensures 'A' <= c <= 'Z'
  {
    ('A' as int + k) as char
  }

  /** openpyxl's `get_column_letter`: 1 is "A", 26 is "Z", 27 is "AA", and so on
      (bijective base 26). */
  function ColumnLetter(n: nat): (s: string)
    requires n >= 1
    ensures |s| >= 1 && (n <= 26 <==> |s| == 1)
    ensures forall i :: 0 <= i < |s| ==> 'A' <= s[i] <= 'Z'
  {
    if n <= 26 then [Letter(n - 1)] else ColumnLetter((n - 1) / 26) + [Letter((n - 1) % 26)]
  }

  /** Different columns have different letters, so a letter list identifies its columns. */
  lemma {:induction false} ColumnLetterInjective(a: nat, b: nat)
    requires a >= 1 && b >= 1 && ColumnLetter(a) == ColumnLetter(b)
    ensures a == b
  {
    if a > 26 && b > 26 {
      var sa, sb := ColumnLetter(a), ColumnLetter(b);
      assert sa[..|sa| - 1] == ColumnLetter((a - 1) / 26);
      assert sb[..|sb| - 1] == ColumnLetter((b - 1) / 26);
      assert Letter((a - 1) % 26) == sa[|sa| - 1] == sb[|sb| - 1] == Letter((b - 1) % 26);
      ColumnLetterInjective((a - 1) / 26, (b - 1) / 26);
    }
  }
}
