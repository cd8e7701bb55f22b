/**
 * One run of the supervisor: load the settings, offer to change them, run
 * the server, record its stop in the history log, and shut the computer
 * down only inside the shutdown window and only when the countdown is not
 * cancelled. The server process, the clock, the log file and the console
 * are inputs: whether the server exited normally, the formatted stop time,
 * the current minute of the day when the window is checked, the log file's
 * old contents, the lines typed at the console, and the cancellation oracle.
 */
module Supervisor {
  import opened GoStrings
  import opened TimeWindow
  import opened Countdown
  import opened HistoryLog
  import opened Settings

  /**
   * What one run does after the server has stopped: the lines and the text
   * it writes to the log, whether the current minute is inside the window,
   * the remaining seconds it shows, and whether it runs the shutdown command.
   */
  datatype Report = Report(
    ledger: seq<string>,
    logText: string,
    inWindow: bool,
    shown: seq<int>,
    shutdown: bool)

  /**
   * The decisions `main` takes once the server has stopped, given the log
   * entry, whether the current minute is inside the window and the
   * configured waiting time: the entry is always logged; the countdown runs
   * only inside the window; the shutdown command runs exactly when the
   * countdown fires.
   */
  function Decide(seconds: int, entry: string, logData: Option<string>, inWindow: bool, cancelledAt: nat -> bool): Report
  {
    var ledger := Rotate(logData, entry);
    Report(
      ledger,
      Render(ledger),
      inWindow,
      if inWindow then Displayed(seconds, cancelledAt) else [],
      inWindow && CountdownOutcome(seconds, cancelledAt) == Fired)
  }

  /**
   * `main` after `setup`: `normalExit` is `startServer`'s classification
   * (the server command returned no error), `stamp` and `clock` the stop
   * time as the log writes it, and `nowMinutes` the minute of the day at
   * which the window is checked.
   */
  method RunOnce(config: Config, normalExit: bool, logData: Option<string>, stamp: string, clock: string,
                 nowMinutes: int, cancelledAt: nat -> bool) returns (report: Report)
    requires 0 <= nowMinutes < MinutesPerDay
    ensures report == Decide(config.countdownSeconds, FormatEntry(normalExit, stamp, clock), logData,
      IsInShutdownWindow(config.shutdownTimeStart, config.shutdownTimeEnd, nowMinutes), cancelledAt)
  {
    var entry := FormatEntry(normalExit, stamp, clock);
    var inWindow := IsInShutdownWindow(config.shutdownTimeStart, config.shutdownTimeEnd, nowMinutes);
    ghost var intended := Decide(config.countdownSeconds, entry, logData, inWindow, cancelledAt);
    var ledger, logText := WriteLog(logData, entry);
    var shown: seq<int> := [];
    var shutdown := false;
    if inWindow {
      var outcome;
      outcome, shown := RunCountdown(config.countdownSeconds, cancelledAt);
      shutdown := outcome == Fired;
    }
    assert ledger == intended.ledger && logText == intended.logText;
    assert shown == intended.shown && shutdown == intended.shutdown;
    report := Report(ledger, logText, inWindow, shown, shutdown);
  }

  /**
   * The whole program: `loadConfig`, `setup` on the typed lines, then the
   * run. `report` is `None` when `setup` would prompt forever; `settings`
   * are the ones the run used.
   */
  method Supervise(saved: SavedFields, typed: seq<string>, normalExit: bool, logData: Option<string>,
                   stamp: string, clock: string, nowMinutes: int, cancelledAt: nat -> bool)
    returns (settings: Snapshot, report: Option<Report>)
    requires 0 <= nowMinutes < MinutesPerDay
    ensures report.Some? ==> report.value == Decide(settings.countdownSeconds, FormatEntry(normalExit, stamp, clock), logData,
      IsInShutdownWindow(settings.shutdownTimeStart, settings.shutdownTimeEnd, nowMinutes), cancelledAt)
    ensures var o := SetupOutcome(typed, Loaded(saved));
      && (report.None? <==> o.None?)
      && (o.Some? ==> settings == o.value)
  {
    var config := new Config.Load(saved);
    var input := new InputReader(typed);
    var hung := config.Setup(input);
    settings := config.Current();
    if hung {
      return settings, None;
    }
    var r := RunOnce(config, normalExit, logData, stamp, clock, nowMinutes, cancelledAt);
    report := Some(r);
  }

  /**
   * The log is written whatever happens later: the ledger is the same
   * inside and outside the window, for every waiting time and every
   * cancellation; it holds at most five lines and ends with this run's entry.
   */
  lemma LogWrittenWhateverHappens(seconds: int, entry: string, logData: Option<string>, inWindow: bool, cancelledAt: nat -> bool,
                                  otherSeconds: int, otherWindow: bool, otherCancelledAt: nat -> bool)
    ensures var r := Decide(seconds, entry, logData, inWindow, cancelledAt);
      && r.ledger == Decide(otherSeconds, entry, logData, otherWindow, otherCancelledAt).ledger
      && 1 <= |r.ledger| <= MaxEntries
      && r.ledger[|r.ledger| - 1] == entry
  {
    RotateKeepsNewest(logData, entry);
  }

  /** The text written to the log reads back as the ledger when the entry is a non-blank line. */
  lemma LogReadsBack(seconds: int, entry: string, logData: Option<string>, inWindow: bool, cancelledAt: nat -> bool)
    requires !IsBlank(entry) && '\n' !in entry
    ensures var r := Decide(seconds, entry, logData, inWindow, cancelledAt);
      ReadLedger(Some(r.logText)) == r.ledger
  {
    RotateReadsBack(logData, entry);
  }

  /**
   * The exit classification is recorded: runs that differ only in it log
   * different last entries, and the entry `main` writes always reads back.
   */
  lemma ExitClassificationLogged(seconds: int, logData: Option<string>, stamp: string, clock: string,
                                 inWindow: bool, cancelledAt: nat -> bool)
    requires '\n' !in stamp && '\n' !in clock
    ensures var good := Decide(seconds, FormatEntry(true, stamp, clock), logData, inWindow, cancelledAt);
      var bad := Decide(seconds, FormatEntry(false, stamp, clock), logData, inWindow, cancelledAt);
      && good.ledger[|good.ledger| - 1] != bad.ledger[|bad.ledger| - 1]
      && ReadLedger(Some(good.logText)) == good.ledger
      && ReadLedger(Some(bad.logText)) == bad.ledger
  {
    LogWrittenWhateverHappens(seconds, FormatEntry(true, stamp, clock), logData, inWindow, cancelledAt, seconds, inWindow, cancelledAt);
    LogWrittenWhateverHappens(seconds, FormatEntry(false, stamp, clock), logData, inWindow, cancelledAt, seconds, inWindow, cancelledAt);
    LogReadsBack(seconds, FormatEntry(true, stamp, clock), logData, inWindow, cancelledAt);
    LogReadsBack(seconds, FormatEntry(false, stamp, clock), logData, inWindow, cancelledAt);
    FormatEntryShowsStatus(stamp, clock);
  }

  /**
   * Outside the window nothing is counted down and the computer stays on,
   * whatever the operator does.
   */
  lemma NoCountdownOutsideWindow(seconds: int, entry: string, logData: Option<string>, cancelledAt: nat -> bool)
    ensures var r := Decide(seconds, entry, logData, false, cancelledAt);
      r.shown == [] && !r.shutdown
  {
  }

  /**
   * The shutdown command runs exactly when the window admits the current
   * minute and none of the countdown's N + 1 looks found the channel closed.
   */
  lemma ShutdownIffNotCancelled(seconds: int, entry: string, logData: Option<string>, inWindow: bool, cancelledAt: nat -> bool)
    ensures Decide(seconds, entry, logData, inWindow, cancelledAt).shutdown <==>
      inWindow && forall k :: 0 <= k <= LoopChecks(seconds) ==> !cancelledAt(k)
  {
    var fired := CountdownOutcome(seconds, cancelledAt) == Fired;
    assert Decide(seconds, entry, logData, inWindow, cancelledAt).shutdown == (inWindow && fired);
    CancelledIffObserved(seconds, cancelledAt);
  }

  /**
   * With a channel that stays closed once closed, the shutdown command runs
   * exactly when the window admits the current minute and the channel is
   * still open at the countdown's final look.
   */
  lemma ShutdownIffOpenAtFinalCheck(seconds: int, entry: string, logData: Option<string>, inWindow: bool, cancelledAt: nat -> bool)
    requires Monotone(cancelledAt)
    ensures Decide(seconds, entry, logData, inWindow, cancelledAt).shutdown <==>
      inWindow && !cancelledAt(LoopChecks(seconds))
  {
    var fired := CountdownOutcome(seconds, cancelledAt) == Fired;
    assert Decide(seconds, entry, logData, inWindow, cancelledAt).shutdown == (inWindow && fired);
    FiresIffOpenAtFinalCheck(seconds, cancelledAt);
  }

  /**
   * With the default window 02:00-08:00, a stop at a minute inside it that
   * nobody cancels shows every second of the countdown and shuts down.
   */
  lemma DefaultWindowUncancelled(seconds: int, entry: string, logData: Option<string>, nowMinutes: int)
    requires 120 <= nowMinutes < 480
    ensures var r := Decide(seconds, entry, logData, IsInShutdownWindow(DefaultStart, DefaultEnd, nowMinutes), NeverCancelled());
      r.inWindow && r.shutdown && r.shown == Ticks(seconds, LoopChecks(seconds))
  {
    DefaultWindow(nowMinutes);
    NoSignalFires(seconds, NeverCancelled());
  }

  /**
   * With the default window 02:00-08:00, a stop at a minute outside it shows
   * nothing and leaves the computer on, whatever the operator does.
   */
  lemma DefaultWindowOutside(seconds: int, entry: string, logData: Option<string>, nowMinutes: int, cancelledAt: nat -> bool)
    requires 0 <= nowMinutes < 120 || 480 <= nowMinutes < MinutesPerDay
    ensures var r := Decide(seconds, entry, logData, IsInShutdownWindow(DefaultStart, DefaultEnd, nowMinutes), cancelledAt);
      !r.inWindow && !r.shutdown && r.shown == []
  {
    DefaultWindow(nowMinutes);
  }

  /**
   * Through the window 22:00-06:00, a stop after 22:00 or before 06:00 whose
   * countdown the operator cancels at look `t` (at most N) shows exactly the
   * first `t` values and leaves the computer on.
   */
  lemma OvernightCancelled(seconds: int, t: nat, entry: string, logData: Option<string>, nowMinutes: int)
    requires 1320 <= nowMinutes < MinutesPerDay || 0 <= nowMinutes < 360
    requires t <= LoopChecks(seconds)
    ensures var r := Decide(seconds, entry, logData, IsInShutdownWindow("22:00", "06:00", nowMinutes), SignalAt(t));
      r.inWindow && !r.shutdown && r.shown == Ticks(seconds, t)
  {
    OvernightWindow(nowMinutes);
    SignalObservedAt(seconds, t);
  }

  /** A bound that does not parse opens the window at every minute, so the countdown always runs. */
  lemma BrokenBoundAlwaysCountsDown(seconds: int, entry: string, logData: Option<string>, start: string, end: string,
                                    nowMinutes: int, cancelledAt: nat -> bool)
    requires 0 <= nowMinutes < MinutesPerDay
    requires ParseHHMM(start).Err? || ParseHHMM(end).Err?
    ensures var r := Decide(seconds, entry, logData, IsInShutdownWindow(start, end, nowMinutes), cancelledAt);
      r.inWindow && r.shown == Displayed(seconds, cancelledAt)
  {
    FailOpen(start, end, nowMinutes);
  }
}
