/** Recipient resolution: the existence check on the two recipient list files and the
    builder of the `"; "`-separated address string. */
module Recipients {
  import opened Cells

  /** The rows of a sheet as `pd.read_excel(...).values.tolist()` gives them: the rows below
      the header, each as wide as the sheet, so never empty. */
  type Table = rows: seq<seq<Cell>> | forall i :: 0 <= i < |rows| ==> |rows[i]| > 0 witness []

  const Separator: string := "; "

  // ------------------------------------------------------------ file check

  datatype RecipientLists = Found(recipients: Table, copyRecipients: Table) | NotFound(path: string)

  /** `check_recipients_file`: the primary list file is checked first and, when it is missing,
      the copy file is never looked at. Besides the outcome, returns the paths whose existence
      was queried, in order. A `NotFound` outcome ends the whole process in the source. */
  function CheckRecipientsFile(primary: string, copy: string, present: string -> bool,
                               read: string -> Table): (r: (RecipientLists, seq<string>))
    ensures 1 <= |r.1| <= 2 && r.1[0] == primary
    ensures !present(primary) ==> r.1 == [primary] && r.0 == NotFound(primary)
    ensures r.0.Found? <==> present(primary) && present(copy)
    ensures r.0.Found? ==> r.0.recipients == read(primary) && r.0.copyRecipients == read(copy)
    ensures r.0.NotFound? ==> r.0.path == r.1[|r.1| - 1] && !present(r.0.path)
  {
    if !present(primary) then (NotFound(primary), [primary])
    else if !present(copy) then (NotFound(copy), [primary, copy])
    else (Found(read(primary), read(copy)), [primary, copy])
  }

  // ---------------------------------------------------------- address list

  /** The text values in the first column, in row order; numbers, blanks and other
      non-text values are skipped. */
  function FirstColumnTexts(rows: Table): seq<string> {
    if rows == [] then []
    else
      var last := rows[|rows| - 1][0];
      FirstColumnTexts(rows[..|rows| - 1]) + (if last.Str? then [last.text] else [])
  }

  lemma {:induction false} FirstColumnTextsMembers(rows: Table, s: string)
    ensures s in FirstColumnTexts(rows) <==> exists i :: 0 <= i < |rows| && rows[i][0] == Str(s)
  {
    if rows != [] {
      var init := rows[..|rows| - 1];
      FirstColumnTextsMembers(init, s);
      if s in FirstColumnTexts(init) {
        var i :| 0 <= i < |init| && init[i][0] == Str(s);
        assert rows[i][0] == Str(s);
      }
      if exists i :: 0 <= i < |rows| && rows[i][0] == Str(s) {
        var i :| 0 <= i < |rows| && rows[i][0] == Str(s);
        if i < |init| {
          assert init[i][0] == Str(s);
        }
      }
    }
  }

  /** The entries joined by `"; "`, with no separator after the last one. */
  function Join(xs: seq<string>): string {
    if xs == [] then ""
    else if |xs| == 1 then xs[0]
    else xs[0] + Separator + Join(xs[1..])
  }

  /** Every entry followed by `"; "`: what the loop of `get_users` has built so far. */
  function Terminated(xs: seq<string>): string {
    if xs == [] then "" else Terminated(xs[..|xs| - 1]) + xs[|xs| - 1] + Separator
  }

  lemma {:induction false} JoinSnoc(xs: seq<string>, x: string)
    requires xs != []
    ensures Join(xs + [x]) == Join(xs) + Separator + x
  {
    if |xs| > 1 {
      assert (xs + [x])[1..] == xs[1..] + [x];
      JoinSnoc(xs[1..], x);
    }
  }

  lemma {:induction false} TerminatedIsJoinPlusSeparator(xs: seq<string>)
    requires xs != []
    ensures Terminated(xs) == Join(xs) + Separator
  {
    var init := xs[..|xs| - 1];
    if init != [] {
      TerminatedIsJoinPlusSeparator(init);
      JoinSnoc(init, xs[|xs| - 1]);
      assert init + [xs[|xs| - 1]] == xs;
    }
  }

  /** `get_users`: appends every text first-column entry and `"; "` to an accumulator, then
      drops the last two characters (`[:-2]`, which leaves an empty string empty). */
  method GetUsers(users: Table) returns (emails: string)
    ensures emails == Join(FirstColumnTexts(users))
  {
    var acc := "";
    for i := 0 to |users|
      invariant acc == Terminated(FirstColumnTexts(users[..i]))
    {
      assert users[..i + 1][..i] == users[..i];
      var user := users[i][0];
      ghost var before := FirstColumnTexts(users[..i]);
      assert FirstColumnTexts(users[..i + 1]) == before + (if user.Str? then [user.text] else []);
      if user.Str? {
        assert (before + [user.text])[..|before|] == before;
        assert Terminated(before + [user.text]) == Terminated(before) + user.text + Separator;
        acc := acc + user.text + Separator;
      } else {
        assert before + [] == before;
      }
    }
    assert users[..|users|] == users;
    if FirstColumnTexts(users) != [] {
      TerminatedIsJoinPlusSeparator(FirstColumnTexts(users));
    }
    emails := if |acc| >= 2 then acc[..|acc| - 2] else "";
  }

  // ------------------------------------------------------ reading it back

  /** How a reader of the address string splits it: at every `"; "`. */
  function SplitAddresses(s: string): (r: seq<string>)
    ensures |r| >= 1
  {
    if |s| < 2 then [s]
    else if s[..2] == Separator then [""] + SplitAddresses(s[2..])
    else
      var rest := SplitAddresses(s[1..]);
      [[s[0]] + rest[0]] + rest[1..]
  }

  predicate NoSemicolon(x: string) {
    forall i :: 0 <= i < |x| ==> x[i] != ';'
  }

  lemma {:induction false} SplitOfEntry(a: string, rest: string)
    requires NoSemicolon(a)
    ensures SplitAddresses(a + Separator + rest) == [a] + SplitAddresses(rest)
    ensures SplitAddresses(a) == [a]
  {
    if a != "" {
      SplitOfEntry(a[1..], rest);
      assert (a + Separator + rest)[1..] == a[1..] + Separator + rest;
      assert [a[0]] + a[1..] == a;
    }
  }

  /** Splitting the joined string gives back the entries, when there is at least one and no
      entry contains a semicolon. */
  lemma {:induction false} SplitJoin(xs: seq<string>)
    requires xs != []
    requires forall i :: 0 <= i < |xs| ==> NoSemicolon(xs[i])
    ensures SplitAddresses(Join(xs)) == xs
  {
    if |xs| == 1 {
      SplitOfEntry(xs[0], "");
    } else {
      var rest := xs[1..];
      assert forall i :: 0 <= i < |rest| ==> rest[i] == xs[i + 1];
      SplitJoin(rest);
      assert Join(xs) == xs[0] + Separator + Join(rest);
      SplitOfEntry(xs[0], Join(rest));
      assert [xs[0]] + rest == xs;
    }
  }
}
