/** One run of `main`: connect to the database, then for every segment (sales organisation) of
    the slot build, style and mail its open-order report. One `try` wraps the whole segment loop,
    so the first exception ends the run: the handler mails the error text to support and the
    remaining segments are not processed. `exit()` (a missing recipient list file, a failed
    connection) is not caught and ends the process. */
module Pipeline {
  import opened Wrappers
  import opened Dates
  import opened Recipients
  import opened OrderFilter
  import opened Workbook
  import opened Notifier

  /** The two runs of the day, `main("9am")` and `main("1pm")`. */
  datatype Slot = Morning | Afternoon

  /** The paths built for one segment: the extract to read, its file name (the attachment of
      the missing-extract and error mails), the two recipient list files and the report file. */
  datatype SegmentFiles = SegmentFiles(extract: string, fileName: string, recipientsFile: string,
                                       copyRecipientsFile: string, report: string)

  /** The deployment's settings: the support address, `column_names_to_check`, the styling
      lists, the segments of each slot, each segment's paths and the body of a report mail. */
  datatype Config = Config(
    support: string,
    dateColumns: seq<string>,
    style: StyleConfig,
    morningSegments: seq<string>,
    afternoonSegments: seq<string>,
    files: string -> SegmentFiles,
    dataBody: string)

  /** An extract as `pd.read_excel(file_path, dtype=str)` reads it. */
  type Extract = raw: RawFrame | WellFormedRaw(raw) witness RawFrame([], [])

  /** What the run sees of the outside world: whether the database connects, which paths exist,
      the extract read from a path, the rows of a recipient list file, the date `formatted_date`
      was taken from and the current day of the month. */
  datatype Environment = Environment(
    connects: bool,
    present: string -> bool,
    extracts: string -> Extract,
    lists: string -> Table,
    today: Date,
    dayOfMonth: int)

  predicate ValidEnvironment(env: Environment) {
    ValidDate(env.today)
  }

  const EmptyReportBody: string := "The excel file contains no data."

  /** The error raised when `set_excel_data` meets a date text that is not `DD.MM.YYYY`. */
  const UnparsableDateError: string := "time data does not match format '%d.%m.%Y'"

  function MissingExtractBody(path: string): string {
    "ERROR: " + path + " was not found."
  }

  /** The segment lists of the two slots. */
  function Segments(cfg: Config, slot: Slot): seq<string> {
    match slot
    case Morning => cfg.morningSegments
    case Afternoon => cfg.afternoonSegments
  }

  // ---------------------------------------------------------- one segment

  /** How one segment ends: with one mail sent, with an exception, or with `exit()` because a
      recipient list file is missing. */
  datatype SegmentResult = Sent(mail: Mail) | Raised(error: string) | Quit(path: string)

  /** One pass of the segment loop. A missing extract is reported to support and the loop goes
      on. Otherwise the frame is filtered, written with its date formulas and styled; an empty
      report is sent to support, a non-empty one to the addresses of the two list files. */
  function ProcessSegment(cfg: Config, env: Environment, seg: string): (r: SegmentResult)
    requires ValidEnvironment(env)
    ensures !r.Sent? ==> env.present(cfg.files(seg).extract)
    ensures r.Sent? && r.mail.recipients != cfg.support ==>
              env.present(cfg.files(seg).extract)
              && env.present(cfg.files(seg).recipientsFile) && env.present(cfg.files(seg).copyRecipientsFile)
              && r.mail == Mail(cfg.files(seg).report,
                                Join(FirstColumnTexts(env.lists(cfg.files(seg).recipientsFile))),
                                Join(FirstColumnTexts(env.lists(cfg.files(seg).copyRecipientsFile))),
                                cfg.dataBody)
  {
    var files := cfg.files(seg);
    if !env.present(files.extract) then
      Sent(ComposeMail(files.fileName, cfg.support, "", MissingExtractBody(files.extract), cfg.support))
    else
      var raw := env.extracts(files.extract);
      match PrepareFrame(raw, cfg.dateColumns, env.today, env.dayOfMonth)
      case Failure(e) => Raised(e)
      case Success(p) =>
        PrepareFrameOutcome(raw, cfg.dateColumns, env.today, env.dayOfMonth);
        if !DatesParse(p.frame, p.dateColumns) then Raised(UnparsableDateError)
        else if IsEmpty(p.frame) then
          Sent(ComposeMail(files.report, cfg.support, "", EmptyReportBody, cfg.support))
        else
          match CheckRecipientsFile(files.recipientsFile, files.copyRecipientsFile, env.present, env.lists).0
          case NotFound(path) => Quit(path)
          case Found(to, cc) =>
            Sent(ComposeMail(files.report, Join(FirstColumnTexts(to)), Join(FirstColumnTexts(cc)),
                             cfg.dataBody, cfg.support))
  }

  /** What a segment can end with. A missing extract is reported to support, without a file,
      and the loop goes on. The date rewrite never raises on a filtered frame: the only
      exceptions are the two of the filter block. A mail carries a file only when it is the
      report mail to the list addresses, and then the file is the segment's report. */
  lemma SegmentOutcomes(cfg: Config, env: Environment, seg: string)
    requires ValidEnvironment(env)
    ensures !env.present(cfg.files(seg).extract) ==>
              ProcessSegment(cfg, env, seg).Sent? && ProcessSegment(cfg, env, seg).mail.recipients == cfg.support
              && ProcessSegment(cfg, env, seg).mail.attachment == ""
    ensures var files := cfg.files(seg);
            var res := ProcessSegment(cfg, env, seg);
            (res.Raised? ==>
               env.present(files.extract) && (res.error == MissingRequestedError || res.error == NotDatetimeError))
            && (res.Quit? ==>
               env.present(files.extract) && !env.present(res.path)
               && (res.path == files.recipientsFile || res.path == files.copyRecipientsFile))
            && (res.Sent? ==>
               (res.mail.recipients == cfg.support ==> res.mail.attachment == "")
               && (res.mail.attachment != "" ==> res.mail.attachment == files.report && res.mail.body == cfg.dataBody))
  {
    var files := cfg.files(seg);
    if env.present(files.extract) {
      var raw := env.extracts(files.extract);
      var prepared := PrepareFrame(raw, cfg.dateColumns, env.today, env.dayOfMonth);
      PrepareFrameOutcome(raw, cfg.dateColumns, env.today, env.dayOfMonth);
      if prepared.Success? {
        PreparedFramesWriteCleanly(raw, cfg.dateColumns, env.today, env.dayOfMonth);
      }
    }
  }

  /** Which outcome each segment gets, case by case. A missing extract mails its path to
      support. A failing filter block raises its error. A prepared frame always passes the date
      rewrite; when it is empty, support gets the "no data" mail without a file. Otherwise the
      list files decide: with both present the report goes to their joined addresses, and the
      first missing one, the primary before the copy, ends the process. */
  lemma SegmentCases(cfg: Config, env: Environment, seg: string)
    requires ValidEnvironment(env)
    ensures var files := cfg.files(seg);
            !env.present(files.extract) ==>
              ProcessSegment(cfg, env, seg) == Sent(Mail("", cfg.support, "", MissingExtractBody(files.extract)))
    ensures var files := cfg.files(seg);
            var res := ProcessSegment(cfg, env, seg);
            var prepared := PrepareFrame(env.extracts(files.extract), cfg.dateColumns, env.today, env.dayOfMonth);
            env.present(files.extract) ==>
              (prepared.Failure? ==> res == Raised(prepared.error))
              && (prepared.Success? && IsEmpty(prepared.value.frame) ==>
                    res == Sent(Mail("", cfg.support, "", EmptyReportBody)))
              && (prepared.Success? && !IsEmpty(prepared.value.frame) ==>
                    (!env.present(files.recipientsFile) ==> res == Quit(files.recipientsFile))
                    && (env.present(files.recipientsFile) && !env.present(files.copyRecipientsFile) ==>
                          res == Quit(files.copyRecipientsFile))
                    && (env.present(files.recipientsFile) && env.present(files.copyRecipientsFile) ==>
                          res == Sent(ComposeMail(files.report,
                                                  Join(FirstColumnTexts(env.lists(files.recipientsFile))),
                                                  Join(FirstColumnTexts(env.lists(files.copyRecipientsFile))),
                                                  cfg.dataBody, cfg.support))))
  {
    var files := cfg.files(seg);
    if env.present(files.extract) {
      var raw := env.extracts(files.extract);
      var prepared := PrepareFrame(raw, cfg.dateColumns, env.today, env.dayOfMonth);
      if prepared.Success? {
        PreparedFramesWriteCleanly(raw, cfg.dateColumns, env.today, env.dayOfMonth);
      }
    }
  }

  /** The segment run as a method: the report sheet is built (`to_excel`), its date cells
      rewritten (`set_excel_data`) and styled (`adjust_color_width_in_excel`) before the
      emptiness test, as the source does; the addresses come from `get_users`. */
  method RunSegment(cfg: Config, env: Environment, seg: string) returns (res: SegmentResult)
    requires ValidEnvironment(env)
    ensures res == ProcessSegment(cfg, env, seg)
  {
    var files := cfg.files(seg);
    if !env.present(files.extract) {
      return Sent(ComposeMail(files.fileName, cfg.support, "", MissingExtractBody(files.extract), cfg.support));
    }
    var raw := env.extracts(files.extract);
    var prepared := PrepareFrame(raw, cfg.dateColumns, env.today, env.dayOfMonth);
    if prepared.Failure? {
      return Raised(prepared.error);
    }
    PrepareFrameOutcome(raw, cfg.dateColumns, env.today, env.dayOfMonth);
    var p := prepared.value;
    var sheet := new Sheet(p.frame);
    var ok := sheet.WriteDateFormulas(p.frame, p.dateColumns);
    if !ok {
      return Raised(UnparsableDateError);
    }
    sheet.ApplyStyles(cfg.style);
    if IsEmpty(p.frame) {
      return Sent(ComposeMail(files.report, cfg.support, "", EmptyReportBody, cfg.support));
    }
    var lists := CheckRecipientsFile(files.recipientsFile, files.copyRecipientsFile, env.present, env.lists).0;
    if lists.NotFound? {
      return Quit(lists.path);
    }
    var to := GetUsers(lists.recipients);
    var cc := GetUsers(lists.copyRecipients);
    return Sent(ComposeMail(files.report, to, cc, cfg.dataBody, cfg.support));
  }

  // ------------------------------------------------------------ the handler

  /** The message text with every `'` removed (`.replace("'", "")`). */
  function StripQuotes(s: string): (r: string)
    ensures |r| <= |s|
    ensures forall i :: 0 <= i < |r| ==> r[i] != '\''
  {
    if s == [] then []
    else StripQuotes(s[..|s| - 1]) + (if s[|s| - 1] == '\'' then [] else [s[|s| - 1]])
  }

  /** Removing quotes works piece by piece and leaves a text without quotes as it is. */
  lemma {:induction false} StripQuotesConcat(a: string, b: string)
    ensures StripQuotes(a + b) == StripQuotes(a) + StripQuotes(b)
  {
    if b != [] {
      var init := b[..|b| - 1];
      StripQuotesConcat(a, init);
      assert (a + b)[..|a + b| - 1] == a + init;
      assert (a + b)[|a + b| - 1] == b[|b| - 1];
    } else {
      assert a + b == a;
    }
  }

  lemma {:induction false} StripQuotesKeepsPlainText(s: string)
    requires forall i :: 0 <= i < |s| ==> s[i] != '\''
    ensures StripQuotes(s) == s
  {
    if s != [] {
      StripQuotesKeepsPlainText(s[..|s| - 1]);
    }
  }

  /** The handler's mail: the error text to support, with the segment's file name, which the
      support rule then drops. */
  function HandlerMail(cfg: Config, seg: string, error: string): (m: Mail)
    ensures m.recipients == cfg.support && m.copyRecipients == "" && m.attachment == ""
  {
    ComposeMail(cfg.files(seg).fileName, cfg.support, "", StripQuotes("Error: " + error + "."), cfg.support)
  }

  /** Stripping a quoted name out of quote-free surroundings leaves the bare name in place. */
  lemma StripQuotesOfQuoted(front: string, name: string, stop: string)
    requires forall i :: 0 <= i < |front| ==> front[i] != '\''
    requires forall i :: 0 <= i < |name| ==> name[i] != '\''
    requires forall i :: 0 <= i < |stop| ==> stop[i] != '\''
    ensures StripQuotes(front + ("'" + name + "'") + stop) == front + name + stop
  {
    var quote := "'";
    assert StripQuotes(quote) == [] by {
      assert quote[..0] == [];
    }
    StripQuotesKeepsPlainText(front);
    StripQuotesKeepsPlainText(name);
    StripQuotesKeepsPlainText(stop);
    var quoted := quote + name + quote;
    StripQuotesConcat(quote, name);
    StripQuotesConcat(quote + name, quote);
    assert StripQuotes(quoted) == name;
    StripQuotesConcat(front, quoted);
    StripQuotesConcat(front + quoted, stop);
  }

  /** A KeyError renders its key in quotes, which the handler strips: support reads the bare
      key name. */
  lemma HandlerStripsKeyQuotes(cfg: Config, seg: string, name: string)
    requires forall i :: 0 <= i < |name| ==> name[i] != '\''
    ensures HandlerMail(cfg, seg, "'" + name + "'").body == "Error: " + name + "."
  {
    StripQuotesOfQuoted("Error: ", name, ".");
  }

  /** The missing `Requested` column reaches support as "Error: Requested.". */
  lemma MissingRequestedMessage(cfg: Config, seg: string)
    ensures HandlerMail(cfg, seg, MissingRequestedError).body == "Error: Requested."
  {
    var name := "Requested";
    assert MissingRequestedError == "'" + name + "'";
    HandlerStripsKeyQuotes(cfg, seg, name);
  }

  // ------------------------------------------------------- the segment loop

  /** Where a run stands: still in the loop, ended by an exception that the handler reported,
      or ended by `exit()`; with the mails sent so far. */
  datatype RunState = Running(mails: seq<Mail>) | Handled(mails: seq<Mail>) | Halted(mails: seq<Mail>)

  /** One segment more while the loop is still running, given how that segment ends. */
  function Step(cfg: Config, mails: seq<Mail>, seg: string, res: SegmentResult): RunState {
    match res
    case Sent(m) => Running(mails + [m])
    case Raised(e) => Handled(mails + [HandlerMail(cfg, seg, e)])
    case Quit(_) => Halted(mails)
  }

  /** The segment loop inside its `try`, over the segments in order; `results[i]` is how the
      body ends for `segs[i]`. */
  function Loop(cfg: Config, segs: seq<string>, results: seq<SegmentResult>): (r: RunState)
    requires |results| == |segs|
    ensures |r.mails| <= |segs|
    ensures r.Halted? ==> |r.mails| < |segs|
  {
    if segs == [] then Running([])
    else
      var n := |segs|;
      var prev := Loop(cfg, segs[..n - 1], results[..n - 1]);
      if prev.Running? then Step(cfg, prev.mails, segs[n - 1], results[n - 1]) else prev
  }

  /** How the loop body ends for each segment. */
  function Outcomes(cfg: Config, env: Environment, segs: seq<string>): (r: seq<SegmentResult>)
    requires ValidEnvironment(env)
    ensures |r| == |segs|
    ensures forall i :: 0 <= i < |segs| ==> r[i] == ProcessSegment(cfg, env, segs[i])
  {
    seq(|segs|, i requires 0 <= i < |segs| => ProcessSegment(cfg, env, segs[i]))
  }

  /** A whole `main(slot)`: a failed connection exits before any segment. */
  function SlotRun(cfg: Config, env: Environment, slot: Slot): (r: RunState)
    requires ValidEnvironment(env)
    ensures !env.connects ==> r == Halted([])
    ensures |r.mails| <= |Segments(cfg, slot)|
    ensures r.Running? ==> |r.mails| == |Segments(cfg, slot)|
  {
    if env.connects then
      var segs := Segments(cfg, slot);
      RunningRunMailsPerSegment(cfg, segs, Outcomes(cfg, env, segs));
      Loop(cfg, segs, Outcomes(cfg, env, segs))
    else Halted([])
  }

  /** Once the run has left the loop, further segments change nothing: the segments after an
      exception or an `exit()` are never processed, so a run whose first `k` segments left the
      loop ends as those `k` segments left it. */
  lemma {:induction false} StoppedRunIgnoresLaterSegments(cfg: Config, segs: seq<string>, results: seq<SegmentResult>, k: nat)
    requires |results| == |segs| && k <= |segs|
    requires !Loop(cfg, segs[..k], results[..k]).Running?
    ensures Loop(cfg, segs, results) == Loop(cfg, segs[..k], results[..k])
    decreases |segs|
  {
    if k < |segs| {
      var n := |segs|;
      var shorter, shorterResults := segs[..n - 1], results[..n - 1];
      assert shorter[..k] == segs[..k] && shorterResults[..k] == results[..k];
      StoppedRunIgnoresLaterSegments(cfg, shorter, shorterResults, k);
      assert !Loop(cfg, shorter, shorterResults).Running?;
    } else {
      assert segs[..k] == segs && results[..k] == results;
    }
  }

  /** The loop stays running exactly while every segment sends its mail, and then it has sent
      one mail per segment, in segment order. */
  lemma {:induction false} RunningRunMailsPerSegment(cfg: Config, segs: seq<string>, results: seq<SegmentResult>)
    requires |results| == |segs|
    ensures Loop(cfg, segs, results).Running? <==> forall i :: 0 <= i < |results| ==> results[i].Sent?
    ensures Loop(cfg, segs, results).Running? ==>
              |Loop(cfg, segs, results).mails| == |segs|
              && forall i :: 0 <= i < |segs| ==> results[i] == Sent(Loop(cfg, segs, results).mails[i])
  {
    if segs != [] {
      var n := |segs|;
      var init := results[..n - 1];
      RunningRunMailsPerSegment(cfg, segs[..n - 1], init);
      var prev := Loop(cfg, segs[..n - 1], init);
      if prev.Running? {
        if results[n - 1].Sent? {
          var mails := prev.mails + [results[n - 1].mail];
          assert Loop(cfg, segs, results) == Running(mails);
          forall i | 0 <= i < n
            ensures results[i] == Sent(mails[i])
          {
            if i < n - 1 {
              assert init[i] == results[i];
            }
          }
        }
      } else {
        var i :| 0 <= i < n - 1 && !init[i].Sent?;
        assert !results[i].Sent?;
      }
    }
  }

  /** The first segment that does not send its mail decides how the run ends: with the mails of
      the segments before it, plus the handler's mail when it raised. */
  lemma FirstFailureEndsRun(cfg: Config, segs: seq<string>, results: seq<SegmentResult>, k: nat)
    requires |results| == |segs| && k < |segs|
    requires forall i :: 0 <= i < k ==> results[i].Sent?
    requires !results[k].Sent?
    ensures var before := Loop(cfg, segs[..k], results[..k]).mails;
            |before| == k
            && (forall i :: 0 <= i < k ==> results[i] == Sent(before[i]))
            && Loop(cfg, segs, results) ==
                 if results[k].Raised?
                 then Handled(before + [HandlerMail(cfg, segs[k], results[k].error)])
                 else Halted(before)
  {
    var prefix := results[..k];
    RunningRunMailsPerSegment(cfg, segs[..k], prefix);
    assert forall i :: 0 <= i < k ==> prefix[i] == results[i];
    assert segs[..k + 1][..k] == segs[..k];
    assert results[..k + 1][..k] == prefix;
    StoppedRunIgnoresLaterSegments(cfg, segs, results, k + 1);
  }

  /** After the first `k` segments the loop is still running and has sent `mails`. */
  ghost predicate LoopReached(cfg: Config, segs: seq<string>, results: seq<SegmentResult>, k: nat, mails: seq<Mail>) {
    |results| == |segs| && k <= |segs| && Loop(cfg, segs[..k], results[..k]) == Running(mails)
  }

  /** One segment more: a mail sent keeps the loop running, anything else decides the run. */
  lemma LoopStep(cfg: Config, segs: seq<string>, results: seq<SegmentResult>, k: nat, mails: seq<Mail>)
    requires LoopReached(cfg, segs, results, k, mails) && k < |segs|
    ensures results[k].Sent? ==> LoopReached(cfg, segs, results, k + 1, mails + [results[k].mail])
    ensures !results[k].Sent? ==> Loop(cfg, segs, results) == Step(cfg, mails, segs[k], results[k])
  {
    assert segs[..k + 1][..k] == segs[..k];
    assert results[..k + 1][..k] == results[..k];
    assert Loop(cfg, segs[..k + 1], results[..k + 1]) == Step(cfg, mails, segs[k], results[k]);
    if !results[k].Sent? {
      StoppedRunIgnoresLaterSegments(cfg, segs, results, k + 1);
    }
  }

  lemma LoopDone(cfg: Config, segs: seq<string>, results: seq<SegmentResult>, mails: seq<Mail>)
    requires LoopReached(cfg, segs, results, |segs|, mails)
    ensures Loop(cfg, segs, results) == Running(mails)
  {
    assert segs[..|segs|] == segs && results[..|results|] == results;
  }

  /** `main(slot)` as the loop it is. */
  method RunSlot(cfg: Config, env: Environment, slot: Slot) returns (r: RunState)
    requires ValidEnvironment(env)
    ensures r == SlotRun(cfg, env, slot)
  {
    if !env.connects {
      return Halted([]);
    }
    var segs := Segments(cfg, slot);
    ghost var results := Outcomes(cfg, env, segs);
    var mails: seq<Mail> := [];
    var i := 0;
    assert segs[..0] == [] && results[..0] == [];
    while i < |segs|
      invariant LoopReached(cfg, segs, results, i, mails)
      decreases |segs| - i
    {
      var res := RunSegment(cfg, env, segs[i]);
      LoopStep(cfg, segs, results, i, mails);
      if res.Raised? {
        return Handled(mails + [HandlerMail(cfg, segs[i], res.error)]);
      } else if res.Quit? {
        return Halted(mails);
      }
      mails := mails + [res.mail];
      i := i + 1;
    }
    LoopDone(cfg, segs, results, mails);
    return Running(mails);
  }
}
