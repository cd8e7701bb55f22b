# Minecraft server auto-shutdown supervisor: a verified model of its decision core

The supervisor (`main.go`) runs a Minecraft server in the foreground. It first
loads its settings and offers to change them at the console. When the server
process ends, it appends a line to a rolling five-line history log. If the
current time lies inside a configured shutdown window, it counts down a
configurable number of seconds that the operator can cancel with Enter, and
then powers the computer off.

The model is written in Dafny. It has six modules.

- `GoStrings` covers the standard library functions the program relies on:
  - `strings.Split` and `strings.Join` with a one-character separator;
  - `strings.TrimSpace`, with Go's full `unicode.IsSpace` set;
  - `strconv.Atoi`, which takes an optional sign, one or more ASCII digits,
    leading zeros, and reports an error outside the 64-bit `int` range;
  - `strconv.Itoa`.
- `TimeWindow` covers `parseHHMM` and `isInShutdownWindow`. The current
  minute of the day is a parameter.
  - The window is half-open, `[start, end)`, and wraps past midnight when
    the start is later than the end.
  - An unparsable bound opens the window at every minute.
- `Countdown` covers `countdown`. The goroutine that closes the cancellation
  channel becomes an oracle `cancelledAt(k)`: does the k-th non-blocking look
  at the channel find it closed? Looks 0..N-1 happen at the top of the loop
  iterations and look N after the loop.
- `HistoryLog` covers the list logic of `writeLog`:
  - split the old file on `\n` and drop blank lines;
  - append the entry and keep the last five;
  - write the kept lines, each followed by a newline.
- `Settings` covers:
  - `loadConfig`: the defaults, with every field a saved file supplies
    written over them;
  - `readLine`;
  - the `setup` flow, as a `Config` class updated in place from an
    `InputReader` class over the lines typed at the console.

  Each validated prompt is specified by `PromptOutcome`, the first acceptable
  answer. A prompt that the Go program would repeat forever is reported as
  `Hung`: at end of input every read yields "", and the fallback value is not
  acceptable either.
- `Supervisor` covers `main`:
  - the log entry is always written;
  - the countdown runs only inside the window;
  - the shutdown command runs exactly when the window admits the current
    minute and the countdown fires.

  `Decide` states these decisions as a function, and the `RunOnce` and
  `Supervise` methods are proved to follow it.

### Where the code and its description differ

In each case the model follows the code.

- The bounds parse leniently, not strictly. `parseHHMM` uses `strconv.Atoi`,
  so a sign and extra leading zeros are accepted: `"+2:5"` and `"002:0005"`
  both mean 02:05 (`TimeWindow.SignedBound`, `TimeWindow.ZeroPaddedBound`).
- A saved waiting time is not checked to be positive. `loadConfig` takes
  `countdown_seconds` from the file without validation. With zero or a
  negative value the countdown shows nothing, and only its final look at the
  channel decides (`Countdown.NonPositiveSeconds`).
- The window is checked with its own reading of the clock (`time.Now()`
  inside `isInShutdownWindow`), not with the stop time that is logged. The
  model therefore takes the minute of the day (`nowMinutes`) separately from
  the formatted stop time.

## Model

| member | source | states |
|---|---|---|
| GoStrings.CountBounds | main.go:54-55 | the number of separators is at most the length, and zero exactly when the separator does not occur |
| GoStrings.SplitCount | main.go:54-55 | `strings.Split` yields one field more than there are separators, so two fields means exactly one colon |
| GoStrings.SplitFieldsFree | main.go:247 | no field of a split contains the separator, so no log line read back contains a newline |
| GoStrings.JoinSplit | main.go:54 | joining the fields of a split with the separator gives back the original text |
| GoStrings.SplitNoSeparator | main.go:247 | a text without the separator splits into itself alone |
| GoStrings.SplitAfterField | main.go:54 | splitting `a + sep + b`, with no separator in `a`, gives `a` followed by the fields of `b` |
| GoStrings.SplitJoin | main.go:278 | splitting what `strings.Join` wrote gives back the parts when no part contains the separator |
| GoStrings.TrimSpaceTrims | main.go:90-91 | `TrimSpace` never lengthens its input; it is empty exactly when the input is all white space; otherwise neither end is white space |
| GoStrings.TrimSpaceOfTrimmed | main.go:90 | trimming a text with no white space at either end changes nothing |
| GoStrings.TrimSpaceIdempotent | main.go:90 | trimming twice is the same as trimming once |
| GoStrings.AtoiAccepted | main.go:58-59 | whatever `Atoi` accepts is an optional sign followed by digits only; its value is the value of the digits, negated after a '-' |
| GoStrings.AtoiShortDecimal | main.go:58-59 | every optional sign plus digits shorter than 19 characters is accepted |
| GoStrings.AtoiLeadingZero | main.go:58-59 | a leading zero is accepted and does not change the value |
| GoStrings.NatDigitsValue | main.go:126 | `Itoa` writes a numeral of the value with no leading zero |
| GoStrings.AtoiItoa | main.go:126-127 | what `Itoa` writes for any 64-bit value, `Atoi` reads back unchanged |
| TimeWindow.Clock.Minutes | main.go:75-76 | a valid clock reading is a minute of the day in 0..1439 |
| TimeWindow.ParseHHMM | main.go:53-64 | an accepted text gives an hour in 0..23 and a minute in 0..59 |
| TimeWindow.ParseHHMMFormatError | main.go:54-57 | the "invalid format" error is returned exactly when the text does not have exactly one colon |
| TimeWindow.ParseHHMMFields | main.go:58-63 | `a:b` parses exactly when `Atoi` accepts both fields with hour 0..23 and minute 0..59; it parses to those two values |
| TimeWindow.OneColonFields | main.go:54-55 | a text with one colon is its two split fields joined by that colon |
| TimeWindow.ParseFormatHHMM | main.go:53-64 | every zero-padded "HH:MM" text of a valid reading parses back to that reading |
| TimeWindow.InWindow | main.go:78-83 | both branches agree with one rule: walking forward round the clock from the start, the current minute comes before the end |
| TimeWindow.IsInShutdownWindow | main.go:66-71 | when either bound fails to parse, the result is true |
| TimeWindow.FailOpen | main.go:67-71 | an unparsable bound permits shutdown at every minute |
| TimeWindow.SameDayWindow | main.go:78-80 | with start <= end, inside exactly on [start, end) |
| TimeWindow.MidnightWindow | main.go:82-83 | with start > end, inside exactly from the start to midnight and from midnight up to, but not including, the end |
| TimeWindow.EmptyWindow | main.go:78-80 | equal bounds never admit shutdown |
| TimeWindow.SwappedBoundsComplement | main.go:78-83 | swapping two distinct valid bounds gives the complementary window |
| TimeWindow.DefaultWindow | main.go:66-84 | the window 02:00-08:00 is the minutes 120..479 |
| TimeWindow.OvernightWindow | main.go:82-83 | the window 22:00-06:00 is the minutes 1320..1439 and 0..359 |
| TimeWindow.ExampleWindows | main.go:78-83 | 02:00-08:00 admits 03:00 but not 12:00; 22:00-06:00 admits 23:30 but not 10:00 |
| TimeWindow.SignedBound | main.go:58-59 | "+2:5" is accepted as 02:05 |
| TimeWindow.ZeroPaddedBound | main.go:58-59 | "002:0005" is accepted as 02:05 |
| TimeWindow.RejectedBounds | main.go:55-61 | "24:00" is an invalid value; "2:00:00" and "2.00" are invalid formats |
| Countdown.FirstCancel | main.go:201-210 | the first look in a range that finds the channel closed: no earlier look does, and it does unless the range is exhausted |
| Countdown.Ticks | main.go:207 | the values shown are from, from - 1, and so on, one per loop iteration |
| Countdown.RunCountdown | main.go:188-219 | the loop's result and the values it shows are `CountdownOutcome` and `Displayed` |
| Countdown.CancelledIffObserved | main.go:201-218 | the countdown is cancelled exactly when one of its N + 1 looks finds the channel closed |
| Countdown.DisplayedCountsDown | main.go:201-210 | the values shown count down one by one from the configured seconds, all positive and strictly decreasing; all N appear when it fires; when it is cancelled they stop at the look that saw the closed channel |
| Countdown.FiresIffOpenAtFinalCheck | main.go:195-218 | with a channel that stays closed once closed, the countdown fires exactly when the channel is still open at the final look |
| Countdown.NonPositiveSeconds | main.go:201-218 | with zero or negative seconds nothing is shown, and only the final look decides |
| Countdown.NoSignalFires | main.go:201-217 | when no look finds the channel closed, all N values are shown and the countdown fires |
| Countdown.NeverCancelled | main.go:196-199 | the oracle of an operator who never presses Enter: closed at no look, and monotone |
| Countdown.SignalAt | main.go:196-199 | the oracle of an Enter first seen at look t: closed from look t on, and monotone |
| Countdown.SignalObservedAt | main.go:201-218 | an Enter first seen at look t <= N cancels after t values; a later one lets the countdown fire after all N |
| Countdown.CancelAtSecondTick | main.go:201-215 | a five-second countdown cancelled at look 2 shows 5 and 4, then is cancelled |
| HistoryLog.FormatEntry | main.go:255-263 | the new entry is never blank, and has no newline when the two formatted times have none |
| HistoryLog.FormatEntryShowsStatus | main.go:255-258 | entries for a normal exit and an abnormal exit differ |
| HistoryLog.NonBlank | main.go:247-251 | the kept lines are non-blank lines drawn from the input, and no more of them |
| HistoryLog.NonBlankConcat | main.go:247-251 | filtering a concatenation filters each part |
| HistoryLog.NonBlankOfNonBlank | main.go:247-251 | filtering a list without blank lines keeps it unchanged |
| HistoryLog.KeepLast | main.go:266-269 | at most five lines are kept: all of them when there are fewer |
| HistoryLog.KeepLastSuffix | main.go:266-269 | the kept lines are the newest ones, in their original order |
| HistoryLog.KeepLastAppend | main.go:264-269 | trimming before appending and trimming again is the same as appending and then trimming |
| HistoryLog.WriteLog | main.go:244-278 | the loop keeps exactly the non-blank lines; the list written is `Rotate` of the old contents, and the text is `Render` of it |
| HistoryLog.RotateKeepsNewest | main.go:264-269 | after a write the list has 1..5 lines, ends with the new entry, and before it holds the newest old entries in order |
| HistoryLog.JoinAppend | main.go:278 | joining a list with one more line adds the separator and that line |
| HistoryLog.ReadRendered | main.go:244-278 | reading back what was written gives the same list when every line is non-blank and newline-free |
| HistoryLog.LedgerLinesClean | main.go:247-251 | every entry read from the file is non-blank and has no newline |
| HistoryLog.RotateReadsBack | main.go:244-278 | the text written reads back as exactly the list kept |
| HistoryLog.LogKeepsLastFive | main.go:238-278 | after any number of runs the file holds exactly the last five entries, oldest first |
| Settings.LineOrFallbackCases | main.go:88-96 | a blank line gives the fallback; any other line gives its trimmed text, which is non-empty and has no white space at either end |
| Settings.InputReader.constructor | main.go:99 | the reader starts at the first typed line |
| Settings.InputReader.ReadString | main.go:110 | the next line is returned and consumed; at end of input the result is "" and nothing moves |
| Settings.InputReader.ReadLine | main.go:88-96 | `readLine`: one line is consumed, and the result is the trimmed line or the fallback |
| Settings.PromptTakesFirstAcceptable | main.go:125-133 | a re-prompting loop accepts exactly its first acceptable answer; it never ends exactly when no line is acceptable and neither is the empty read at end of input |
| Settings.PromptEnds | main.go:125-133 | a loop that accepts the empty read at end of input always ends |
| Settings.SecondsAnswer | main.go:126-128 | a read of the waiting-time loop is accepted only with a positive number |
| Settings.ClockAnswer | main.go:137-139 | a read of a window-bound loop is accepted only with a text `parseHHMM` accepts |
| Settings.SecondsPromptPositive | main.go:125-133 | the waiting-time loop ends, if at all, with a positive number |
| Settings.SecondsPromptEnds | main.go:125-133 | with a positive current value, the waiting-time loop always ends |
| Settings.BlankKeepsSeconds | main.go:126-128 | a blank line re-reads a positive current value, through `Itoa` and `Atoi`, as itself |
| Settings.SecondsBlankKeepsCurrent | main.go:125-133 | a blank first answer keeps a positive waiting time after one read |
| Settings.ClockPromptParses | main.go:135-153 | a window-bound loop ends, if at all, with a text `parseHHMM` accepts |
| Settings.ClockPromptEnds | main.go:135-153 | with a current bound that parses, a window-bound loop always ends |
| Settings.ClockBlankKeepsCurrent | main.go:135-143 | a blank first answer keeps a valid bound after one read |
| Settings.PromptSeconds | main.go:125-133 | the loop's value, whether it hangs, and the lines it consumes are those of `SecondsOutcome` |
| Settings.PromptClock | main.go:135-153 | the loop's value, whether it hangs, and the lines it consumes are those of `ClockOutcome` |
| Settings.LimitsOutcomeValid | main.go:125-153 | the three prompts end only with a positive waiting time and two parsable bounds, and always end when the current values are already such |
| Settings.WindowOutcomeValid | main.go:135-153 | the two bound prompts end only with parsable bounds, and always end when both current bounds parse |
| Settings.LimitsBlankKeep | main.go:125-153 | with valid current values, three blank answers keep all three |
| Settings.WindowBlankKeep | main.go:135-153 | with valid current bounds, two blank answers keep both |
| Settings.SetupOutcomeProperties | main.go:98-163 | declining keeps every setting; accepting and finishing leaves valid limits; valid current limits always let setup finish |
| Settings.Config.Load | main.go:32-45 | the settings are the defaults with each saved field written over them; with nothing saved they are valid |
| Settings.Config.Setup | main.go:98-163 | the new settings, and whether setup hangs, are those `SetupOutcome` gives for the typed lines and the old settings; after an accepted change that finishes, the configuration is valid; from a valid configuration it never hangs |
| Settings.Config.PromptLimits | main.go:125-153 | the new waiting time and bounds, and whether a prompt hangs, are those of `LimitsOutcome` |
| Settings.Config.PromptWindow | main.go:135-153 | the new bounds, and whether a prompt hangs, are those of `WindowOutcome` |
| Settings.DefaultsValid | main.go:33-39 | the defaults are 60 seconds and a window whose bounds parse |
| Settings.DefaultBoundsParse | main.go:37-38 | "02:00" and "08:00" parse to 02:00 and 08:00 |
| Settings.DefaultSetupFinishes | main.go:98-163 | with nothing saved, setup finishes whatever is typed |
| Supervisor.RunOnce | main.go:289-307 | the log, the window decision, the values shown and the shutdown decision are those of `Decide` |
| Supervisor.Supervise | main.go:285-308 | the run happens exactly when setup finishes, with the settings setup produced, and then decides as `Decide` does |
| Supervisor.LogWrittenWhateverHappens | main.go:292-294 | the log is written before the window check: it is the same for every window result, waiting time and cancellation; it holds 1..5 lines and ends with this run's entry |
| Supervisor.LogReadsBack | main.go:292 | the log text written reads back as the list kept |
| Supervisor.ExitClassificationLogged | main.go:289-292 | a normal exit and an abnormal exit log different entries, and both read back |
| Supervisor.NoCountdownOutsideWindow | main.go:294-303 | outside the window nothing is counted down and the shutdown command does not run |
| Supervisor.ShutdownIffNotCancelled | main.go:294-307 | the shutdown command runs exactly when the window admits the minute and none of the N + 1 looks found the channel closed |
| Supervisor.ShutdownIffOpenAtFinalCheck | main.go:294-307 | with a channel that stays closed, the shutdown command runs exactly when the window admits the minute and the channel is open at the final look |
| Supervisor.DefaultWindowUncancelled | main.go:294-307 | with the default window, an uncancelled stop inside it shows every second and shuts down |
| Supervisor.DefaultWindowOutside | main.go:294-303 | with the default window, a stop outside it shows nothing and does not shut down |
| Supervisor.OvernightCancelled | main.go:294-307 | in the window 22:00-06:00, an Enter first seen at look t <= N shows t values and prevents the shutdown |
| Supervisor.BrokenBoundAlwaysCountsDown | main.go:66-71 | with either bound unparsable, whichever it is, the window admits every minute and the countdown runs, showing its values |

## Left out

- JSON decoding and encoding of the settings file (`loadConfig`, `saveConfig`): the saved file is given as the fields it supplies, each present or absent. Writing the file back at the end of `setup` is not modelled.
- File I/O: the old log contents are an input (`None` when the file cannot be read). The text to write is an output. Failure to create the directory or the file is not modelled.
- Running the server (`startServer`): its result is the boolean `normalExit`, true when the command returned no error.
- The shutdown command (`shutdown`) and its error path: the model says only whether it would be run.
- Time: `time.Now()` becomes the minute of the day (`nowMinutes`) and the two formatted stop-time texts. Go's time formatting is not modelled.
- Concurrency and sleeping in `countdown`: the goroutine reading the console becomes the oracle `cancelledAt`, and the one-second sleeps are dropped.
- Console output (prompts, banners, messages) and the extra Enter read after "outside the window".
- The console read inside `countdown` is covered by the cancellation oracle `cancelledAt`.
- The Enter read inside `shutdown` is left out along with its error path.
- Console buffering: `setup` reads through one `bufio.Reader`, which may read ahead; the later readers in `countdown` and `main` then start after it. The model treats the typed lines as one stream consumed line by line.
- Settings.Config.Setup: a prompt that Go would repeat forever reports `hung` instead of looping.
- Go's `int` is taken to be 64 bits wide (`GoStrings.Int64`), as on 64-bit Windows builds. A 32-bit (386) build would have `Atoi` reject values outside the 32-bit range, including such a `countdown_seconds`. That range is not modelled.
- Strings are sequences of Unicode code points. Invalid UTF-8 and the byte-level behaviour of the Go string functions are not modelled.
