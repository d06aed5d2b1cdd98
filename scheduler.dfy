/** `run_at_specific_times`: a loop that reads the clock once a second. The first pass logs the
    start; a reading of exactly 09:00:30 runs the morning slot and keeps polling, unless that run
    exits; a reading of exactly 13:05:00 runs the afternoon slot and then exits; a reading at the
    top of an hour logs a heartbeat. The clock readings, and what the process finds at each of
    them, are the model's input, one per pass. */
module Scheduler {
  import opened Wrappers
  import opened Dates
  import opened Pipeline

  datatype Clock = Clock(hour: int, minute: int, second: int)

  const MorningTrigger: Clock := Clock(9, 0, 30)
  const AfternoonTrigger: Clock := Clock(13, 5, 0)

  /** The scheduler's log: the start notice, one slot run with how it ended, a heartbeat. */
  datatype Event = Started | Ran(slot: Slot, outcome: RunState) | Heartbeat

  /** The slot a clock reading starts, if any. */
  function Trigger(t: Clock): (s: Option<Slot>)
    ensures s == Some(Morning) <==> t == MorningTrigger
    ensures s == Some(Afternoon) <==> t == AfternoonTrigger
  {
    if t.hour == 9 && t.minute == 0 && t.second == 30 then Some(Morning)
    else if t.hour == 13 && t.minute == 5 && t.second == 0 then Some(Afternoon)
    else None
  }

  predicate IsTopOfHour(t: Clock) {
    t.minute == 0 && t.second == 0
  }

  /** The world as a run started at a reading sees it: `world` is what the process finds at
      that reading (the connection, the files, the day of the month `now()` gives). Only the
      filter date is not read there: `formatted_date` was fixed when the process started. */
  function EnvironmentAt(world: Environment, start: Date): Environment {
    world.(today := start)
  }

  /** How the run a reading starts ends; a reading that starts no run gets the outcome of an
      empty run, which `Tick` never looks at. */
  function RunAt(cfg: Config, world: Environment, start: Date, t: Clock): (r: RunState)
    requires ValidDate(start)
    ensures Trigger(t).Some? ==> r == SlotRun(cfg, EnvironmentAt(world, start), Trigger(t).value)
  {
    match Trigger(t)
    case None => Running([])
    case Some(slot) => SlotRun(cfg, EnvironmentAt(world, start), slot)
  }

  /** `formatted_date` is fixed when the process starts: two worlds that differ only in the
      date they give at the reading start the same run, whatever else (the day of the month,
      the files, the connection) they give. */
  lemma RunUsesStartDate(cfg: Config, world: Environment, world': Environment, start: Date, t: Clock)
    requires ValidDate(start)
    requires world' == world.(today := world'.today)
    ensures RunAt(cfg, world, start, t) == RunAt(cfg, world', start, t)
  {
  }

  /** The runs the readings start, one entry per reading; `worlds[i]` is what the process
      finds at reading `i`, so two readings at the same time of day on different days may see
      different days of the month and different files. */
  function Runs(cfg: Config, worlds: seq<Environment>, start: Date, ticks: seq<Clock>): (r: seq<RunState>)
    requires ValidDate(start) && |worlds| == |ticks|
    ensures |r| == |ticks|
    ensures forall i :: 0 <= i < |ticks| ==> r[i] == RunAt(cfg, worlds[i], start, ticks[i])
  {
    seq(|ticks|, i requires 0 <= i < |ticks| => RunAt(cfg, worlds[i], start, ticks[i]))
  }

  /** One pass of the loop: what it logs and whether the process ends. */
  datatype TickResult = TickResult(events: seq<Event>, halts: bool)

  /** One pass, given how the run it starts (if any) ends. The process ends after the afternoon
      run, and after a morning run that exited; the heartbeat test comes after the slot runs, so
      an ending pass logs none. */
  function Tick(t: Clock, first: bool, run: RunState): (r: TickResult)
    ensures r.halts <==> t == AfternoonTrigger || (t == MorningTrigger && run.Halted?)
    ensures Heartbeat in r.events <==> IsTopOfHour(t) && !r.halts
    ensures Started in r.events <==> first
    ensures first ==> r.events[0] == Started
    ensures forall e :: e in r.events && e.Ran? ==> Trigger(t) == Some(e.slot) && e.outcome == run
    ensures Trigger(t).Some? ==> Ran(Trigger(t).value, run) in r.events
  {
    var opening := if first then [Started] else [];
    match Trigger(t)
    case None =>
      TickResult(opening + (if IsTopOfHour(t) then [Heartbeat] else []), false)
    case Some(slot) =>
      var halts := slot == Afternoon || run.Halted?;
      TickResult(opening + [Ran(slot, run)] + (if !halts && IsTopOfHour(t) then [Heartbeat] else []), halts)
  }

  /** The log so far and whether the process has ended. */
  datatype Trace = Trace(events: seq<Event>, halted: bool)

  /** The loop over the passes in order, `passes[i]` being what the `i`-th pass logs and
      decides; nothing happens after a pass has ended the process. */
  function Fold(passes: seq<TickResult>): (r: Trace)
    ensures r.halted <==> exists i :: 0 <= i < |passes| && passes[i].halts
  {
    if passes == [] then Trace([], false)
    else
      var n := |passes|;
      var prev := Fold(passes[..n - 1]);
      assert forall i :: 0 <= i < n - 1 ==> passes[..n - 1][i] == passes[i];
      if prev.halted then prev else Trace(prev.events + passes[n - 1].events, passes[n - 1].halts)
  }

  /** The passes over the readings, `runs[i]` being how the run `ticks[i]` starts ends. */
  function Passes(ticks: seq<Clock>, runs: seq<RunState>): (r: seq<TickResult>)
    requires |runs| == |ticks|
    ensures |r| == |ticks|
    ensures forall i :: 0 <= i < |ticks| ==> r[i] == Tick(ticks[i], i == 0, runs[i])
  {
    seq(|ticks|, i requires 0 <= i < |ticks| => Tick(ticks[i], i == 0, runs[i]))
  }

  /** `run_at_specific_times` over the readings, given how the runs they start end. */
  function Schedule(ticks: seq<Clock>, runs: seq<RunState>): (r: Trace)
    requires |runs| == |ticks|
    ensures r.halted <==>
              exists i :: 0 <= i < |ticks| && (ticks[i] == AfternoonTrigger || (ticks[i] == MorningTrigger && runs[i].Halted?))
  {
    Fold(Passes(ticks, runs))
  }

  /** A prefix of a prefix is a prefix. */
  lemma PrefixOfPrefix<T>(s: seq<T>, n: nat, k: nat)
    requires k <= n <= |s|
    ensures s[..n][..k] == s[..k]
  {
  }

  /** The passes over the first `k` readings are the first `k` passes. */
  lemma PassesOfPrefix(ticks: seq<Clock>, runs: seq<RunState>, k: nat)
    requires |runs| == |ticks| && k <= |ticks|
    ensures Passes(ticks[..k], runs[..k]) == Passes(ticks, runs)[..k]
  {
  }

  /** Once a pass has ended the process, later passes change nothing. */
  lemma {:induction false} HaltedFoldIsFinal(passes: seq<TickResult>, k: nat)
    requires k <= |passes| && Fold(passes[..k]).halted
    ensures Fold(passes) == Fold(passes[..k])
  {
    if k < |passes| {
      var n := |passes|;
      PrefixOfPrefix(passes, n - 1, k);
      HaltedFoldIsFinal(passes[..n - 1], k);
      assert Fold(passes[..n - 1]).halted;
    } else {
      assert passes[..k] == passes;
    }
  }

  /** Once the process has ended, later readings change nothing: a log whose first `k` readings
      already ended the process is the log of those `k` readings. */
  lemma HaltedScheduleIsFinal(ticks: seq<Clock>, runs: seq<RunState>, k: nat)
    requires |runs| == |ticks| && k <= |ticks|
    requires Schedule(ticks[..k], runs[..k]).halted
    ensures Schedule(ticks, runs) == Schedule(ticks[..k], runs[..k])
  {
    PassesOfPrefix(ticks, runs, k);
    HaltedFoldIsFinal(Passes(ticks, runs), k);
  }

  /** A pass that ends the process ends the loop there. */
  lemma FoldEndsAt(passes: seq<TickResult>, k: nat)
    requires k < |passes| && passes[k].halts
    ensures Fold(passes).halted && Fold(passes) == Fold(passes[..k + 1])
  {
    PrefixOfPrefix(passes, k + 1, k);
    assert Fold(passes[..k + 1]).halted;
    HaltedFoldIsFinal(passes, k + 1);
  }

  /** A reading of 13:05:00 ends the process: whatever follows it is never looked at. */
  lemma AfternoonEndsSchedule(ticks: seq<Clock>, runs: seq<RunState>, k: nat)
    requires |runs| == |ticks| && k < |ticks| && ticks[k] == AfternoonTrigger
    ensures Schedule(ticks, runs).halted
    ensures Schedule(ticks, runs) == Schedule(ticks[..k + 1], runs[..k + 1])
  {
    var passes := Passes(ticks, runs);
    assert passes[k].halts;
    FoldEndsAt(passes, k);
    PassesOfPrefix(ticks, runs, k + 1);
  }

  /** A log in which the start notice appears at most at its head. */
  predicate StartOnlyAtHead(events: seq<Event>) {
    forall j :: 0 < j < |events| ==> events[j] != Started
  }

  /** A log in which an afternoon run, if any, is the last entry, after which the process ended. */
  predicate AfternoonRunLast(tr: Trace) {
    forall j :: 0 <= j < |tr.events| && tr.events[j].Ran? && tr.events[j].slot == Afternoon
      ==> tr.halted && j == |tr.events| - 1
  }

  /** One pass's own log: the start notice only at its head, an afternoon run only at its end. */
  lemma TickLogShape(t: Clock, first: bool, run: RunState)
    ensures var r := Tick(t, first, run);
            StartOnlyAtHead(r.events) && AfternoonRunLast(Trace(r.events, r.halts))
  {
    if t == AfternoonTrigger {
      assert Tick(t, first, run).events == (if first then [Started] else []) + [Ran(Afternoon, run)];
    }
  }

  lemma StartOnlyAtHeadConcat(a: seq<Event>, b: seq<Event>)
    requires StartOnlyAtHead(a) && StartOnlyAtHead(b) && (a != [] ==> Started !in b)
    ensures StartOnlyAtHead(a + b)
  {
    forall j | 0 < j < |a + b|
      ensures (a + b)[j] != Started
    {
      if j >= |a| {
        assert (a + b)[j] == b[j - |a|];
      }
    }
  }

  lemma AfternoonRunLastConcat(a: seq<Event>, b: seq<Event>, halted: bool)
    requires AfternoonRunLast(Trace(a, false)) && AfternoonRunLast(Trace(b, halted))
    ensures AfternoonRunLast(Trace(a + b, halted))
  {
    forall j | 0 <= j < |a + b| && (a + b)[j].Ran? && (a + b)[j].slot == Afternoon
      ensures halted && j == |a + b| - 1
    {
      if j < |a| {
        assert false;
      } else {
        assert (a + b)[j] == b[j - |a|];
      }
    }
  }

  /** Passes whose own logs open with the start notice on the first pass only. */
  predicate OpensOnce(passes: seq<TickResult>) {
    (forall i :: 0 <= i < |passes| ==> StartOnlyAtHead(passes[i].events))
    && (forall i :: 0 < i < |passes| ==> Started !in passes[i].events)
    && (passes != [] ==> |passes[0].events| >= 1 && passes[0].events[0] == Started)
  }

  lemma {:induction false} FoldStartsOnce(passes: seq<TickResult>)
    requires OpensOnce(passes)
    ensures var tr := Fold(passes);
            (passes != [] ==> |tr.events| >= 1 && tr.events[0] == Started) && StartOnlyAtHead(tr.events)
  {
    if passes != [] {
      var n := |passes|;
      var init := passes[..n - 1];
      assert OpensOnce(init) by {
        assert forall i :: 0 <= i < n - 1 ==> init[i] == passes[i];
      }
      FoldStartsOnce(init);
      var prev := Fold(init);
      if !prev.halted {
        if n == 1 {
          assert prev.events == [] && prev.events + passes[0].events == passes[0].events;
        } else {
          StartOnlyAtHeadConcat(prev.events, passes[n - 1].events);
        }
      }
    }
  }

  lemma {:induction false} FoldAfternoonRunLast(passes: seq<TickResult>)
    requires forall i :: 0 <= i < |passes| ==> AfternoonRunLast(Trace(passes[i].events, passes[i].halts))
    ensures AfternoonRunLast(Fold(passes))
  {
    if passes != [] {
      var n := |passes|;
      var init := passes[..n - 1];
      assert forall i :: 0 <= i < n - 1 ==> init[i] == passes[i];
      FoldAfternoonRunLast(init);
      var prev := Fold(init);
      if !prev.halted {
        AfternoonRunLastConcat(prev.events, passes[n - 1].events, passes[n - 1].halts);
      }
    }
  }

  /** The start notice is logged first, and never again. */
  lemma StartNoticeOnlyFirst(ticks: seq<Clock>, runs: seq<RunState>)
    requires |runs| == |ticks|
    ensures var tr := Schedule(ticks, runs);
            (ticks != [] ==> |tr.events| >= 1 && tr.events[0] == Started) && StartOnlyAtHead(tr.events)
  {
    var passes := Passes(ticks, runs);
    forall i | 0 <= i < |passes|
      ensures StartOnlyAtHead(passes[i].events)
    {
      TickLogShape(ticks[i], i == 0, runs[i]);
    }
    FoldStartsOnce(passes);
  }

  /** The afternoon run, if any, is the last thing logged, and the process has then ended. */
  lemma AfternoonRunIsLast(ticks: seq<Clock>, runs: seq<RunState>)
    requires |runs| == |ticks|
    ensures AfternoonRunLast(Schedule(ticks, runs))
  {
    var passes := Passes(ticks, runs);
    forall i | 0 <= i < |passes|
      ensures AfternoonRunLast(Trace(passes[i].events, passes[i].halts))
    {
      TickLogShape(ticks[i], i == 0, runs[i]);
    }
    FoldAfternoonRunLast(passes);
  }

  /** After the first `k` passes the loop has logged `events` and has or has not ended. */
  ghost predicate Reached(passes: seq<TickResult>, k: nat, events: seq<Event>, halted: bool) {
    k <= |passes| && Fold(passes[..k]) == Trace(events, halted)
  }

  /** One more pass, from a log that has not ended. */
  lemma FoldStep(passes: seq<TickResult>, k: nat, events: seq<Event>)
    requires Reached(passes, k, events, false) && k < |passes|
    ensures Reached(passes, k + 1, events + passes[k].events, passes[k].halts)
  {
    PrefixOfPrefix(passes, k + 1, k);
  }

  /** The loop's result once it has made every pass or the process has ended. */
  lemma FoldDone(passes: seq<TickResult>, k: nat, events: seq<Event>, halted: bool)
    requires Reached(passes, k, events, halted) && (k == |passes| || halted)
    ensures Fold(passes) == Trace(events, halted)
  {
    if halted {
      HaltedFoldIsFinal(passes, k);
    } else {
      assert passes[..k] == passes;
    }
  }

  /** The body of the loop for one reading: `first` is `counter == 1`. */
  method Poll(cfg: Config, world: Environment, start: Date, now: Clock, first: bool)
    returns (r: TickResult)
    requires ValidDate(start)
    ensures r == Tick(now, first, RunAt(cfg, world, start, now))
  {
    var events, halts := [], false;
    if first {
      events := events + [Started];
    }
    var env := EnvironmentAt(world, start);
    if now.hour == 9 && now.minute == 0 && now.second == 30 {
      var outcome := RunSlot(cfg, env, Morning);
      events := events + [Ran(Morning, outcome)];
      halts := outcome.Halted?;
    } else if now.hour == 13 && now.minute == 5 && now.second == 0 {
      var outcome := RunSlot(cfg, env, Afternoon);
      events := events + [Ran(Afternoon, outcome)];
      halts := true;
    }
    if !halts && now.minute == 0 && now.second == 0 {
      events := events + [Heartbeat];
    }
    r := TickResult(events, halts);
  }

  /** `run_at_specific_times` as the loop it is, over the given clock readings and what the
      process finds at each of them. */
  method RunAtSpecificTimes(cfg: Config, worlds: seq<Environment>, start: Date, ticks: seq<Clock>)
    returns (events: seq<Event>, halted: bool)
    requires ValidDate(start) && |worlds| == |ticks|
    ensures Trace(events, halted) == Schedule(ticks, Runs(cfg, worlds, start, ticks))
  {
    ghost var passes := Passes(ticks, Runs(cfg, worlds, start, ticks));
    var counter := 0;
    events, halted := [], false;
    while counter < |ticks| && !halted
      invariant Reached(passes, counter, events, halted)
      decreases |ticks| - counter
    {
      var tick := Poll(cfg, worlds[counter], start, ticks[counter], counter == 0);
      FoldStep(passes, counter, events);
      counter := counter + 1;
      events, halted := events + tick.events, tick.halts;
    }
    FoldDone(passes, counter, events, halted);
  }
}
