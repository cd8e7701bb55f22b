/**
 * The supervisor's configuration: the defaults `loadConfig` starts from,
 * the fields a saved configuration may overwrite, and the interactive
 * `setup` flow that re-prompts until each value is acceptable. Standard
 * input is a finite list of lines; once it is used up, every further read
 * yields the empty string, as a read at end of input does in Go.
 */
module Settings {
  import opened GoStrings
  import opened TimeWindow

  /** The settings as the rest of the program reads them. */
  datatype Snapshot = Snapshot(
    serverFolder: string,
    serverJar: string,
    countdownSeconds: Int64,
    shutdownTimeStart: string,
    shutdownTimeEnd: string)

  /**
   * What a saved configuration file supplies: each field is present or
   * absent. An unreadable or malformed file supplies nothing.
   */
  datatype SavedFields = SavedFields(
    serverFolder: Option<string>,
    serverJar: Option<string>,
    countdownSeconds: Option<Int64>,
    shutdownTimeStart: Option<string>,
    shutdownTimeEnd: Option<string>)

  /** The default shutdown window, 02:00 to 08:00. */
  const DefaultStart: string := "02:00"
  const DefaultEnd: string := "08:00"

  const NothingSaved := SavedFields(None, None, None, None, None)

  function GetOr<T>(o: Option<T>, default: T): T
  {
    match o
    case Some(v) => v
    case None => default
  }

  /** The settings `loadConfig` produces: the defaults, overwritten by every saved field. */
  function Loaded(saved: SavedFields): Snapshot
  {
    Snapshot(
      GetOr(saved.serverFolder, "server"),
      GetOr(saved.serverJar, "forge-server.jar"),
      GetOr(saved.countdownSeconds, 60),
      GetOr(saved.shutdownTimeStart, DefaultStart),
      GetOr(saved.shutdownTimeEnd, DefaultEnd))
  }

  /**
   * `readLine`'s choice: the trimmed input, or the current value when the
   * input is blank.
   */
  function LineOrFallback(raw: string, fallback: string): string
  {
    var input := TrimSpace(raw);
    if input == "" then fallback else input
  }

  /**
   * A blank line gives the fallback; any other line gives its trimmed text,
   * which is not empty and has no white space at either end.
   */
  lemma LineOrFallbackCases(raw: string, fallback: string)
    ensures IsBlank(raw) ==> LineOrFallback(raw, fallback) == fallback
    ensures !IsBlank(raw) ==> LineOrFallback(raw, fallback) == TrimSpace(raw) != ""
    ensures !IsBlank(raw) ==> var value := LineOrFallback(raw, fallback);
      !IsSpace(value[0]) && !IsSpace(value[|value| - 1])
  {
    TrimSpaceTrims(raw);
  }

  /** The process's standard input, consumed one line at a time. */
  class InputReader {
    const lines: seq<string>
    var pos: nat

    ghost predicate Valid()
      reads this
    {
      pos <= |lines|
    }

    constructor (lines: seq<string>)
      ensures Valid() && this.lines == lines && pos == 0
    {
      this.lines := lines;
      pos := 0;
    }

    predicate AtEnd()
      reads this
    {
      pos >= |lines|
    }

    /** The lines not yet read. */
    function Rest(): seq<string>
      reads this
      requires Valid()
    {
      lines[pos..]
    }

    /** The line `k` places ahead of the next one to be read, "" past the end. */
    function Ahead(k: nat): string
      reads this
    {
      if pos + k < |lines| then lines[pos + k] else ""
    }

    /** `ReadString('\n')`: the next line, or "" at end of input. */
    method ReadString() returns (line: string)
      requires Valid()
      modifies this
      ensures Valid()
      ensures line == old(Ahead(0))
      ensures pos == if old(AtEnd()) then old(pos) else old(pos) + 1
    {
      if pos < |lines| {
        line := lines[pos];
        pos := pos + 1;
      } else {
        line := "";
      }
    }

    /** `readLine`: read a line and fall back to the current value when it is blank. */
    method ReadLine(fallback: string) returns (value: string)
      requires Valid()
      modifies this
      ensures Valid()
      ensures value == LineOrFallback(old(Ahead(0)), fallback)
      ensures pos == if old(AtEnd()) then old(pos) else old(pos) + 1
    {
      var raw := ReadString();
      value := LineOrFallback(raw, fallback);
    }
  }

  // ---------------------------------------------------------------------------
  // Prompts that re-read until the answer is acceptable
  // ---------------------------------------------------------------------------

  /**
   * How a re-prompting loop ends: with an accepted value after `count` reads,
   * or never, when the input runs out and the fallback is not acceptable
   * either (every further read yields "", which falls back to it again).
   */
  datatype Prompted<T> = Accepted(value: T, count: nat) | Hung
  {
    /** The same outcome seen from `k` reads earlier. */
    function Shift(k: nat): Prompted<T>
    {
      match this
      case Accepted(v, n) => Accepted(v, n + k)
      case Hung => Hung
    }

    /** How many of `available` remaining lines the loop takes off the input. */
    function LinesRead(available: nat): nat
    {
      match this
      case Accepted(_, n) => if n < available then n else available
      case Hung => available
    }
  }

  /**
   * What the loop makes of its k-th read, given the answers to the remaining
   * lines and the answer to the empty read at the end of input.
   */
  function AnswerAt<T>(answers: seq<Option<T>>, atEnd: Option<T>, k: nat): Option<T>
  {
    if k < |answers| then answers[k] else atEnd
  }

  /**
   * The outcome of a loop that reads until an answer is acceptable; once the
   * lines run out every read is the empty one, whose answer never changes.
   */
  function PromptOutcome<T>(answers: seq<Option<T>>, atEnd: Option<T>): Prompted<T>
    decreases |answers|
  {
    if answers == [] then
      (if atEnd.Some? then Accepted(atEnd.value, 1) else Hung)
    else if answers[0].Some? then Accepted(answers[0].value, 1)
    else PromptOutcome(answers[1..], atEnd).Shift(1)
  }

  /**
   * The loop takes the first acceptable answer: it is accepted on read n
   * exactly when that read's answer is acceptable and every earlier one was
   * not; it never ends exactly when no line is acceptable and neither is
   * the empty read at the end of input.
   */
  lemma {:induction false} PromptTakesFirstAcceptable<T>(answers: seq<Option<T>>, atEnd: Option<T>)
    ensures var p := PromptOutcome(answers, atEnd);
      && (p.Accepted? ==>
            && 1 <= p.count <= |answers| + 1
            && AnswerAt(answers, atEnd, p.count - 1) == Some(p.value)
            && forall k :: 0 <= k < p.count - 1 ==> AnswerAt(answers, atEnd, k).None?)
      && (p.Hung? <==> forall k :: 0 <= k <= |answers| ==> AnswerAt(answers, atEnd, k).None?)
    decreases |answers|
  {
    if answers != [] && answers[0].None? {
      var tail := answers[1..];
      PromptTakesFirstAcceptable(tail, atEnd);
      assert forall k :: 1 <= k <= |answers| ==> AnswerAt(answers, atEnd, k) == AnswerAt(tail, atEnd, k - 1);
    }
  }

  /** A loop that accepts the empty read at the end of input always ends. */
  lemma {:induction false} PromptEnds<T>(answers: seq<Option<T>>, atEnd: Option<T>)
    requires atEnd.Some?
    ensures PromptOutcome(answers, atEnd).Accepted?
    decreases |answers|
  {
    if answers != [] && answers[0].None? {
      PromptEnds(answers[1..], atEnd);
    }
  }

  /**
   * One read of the waiting-time loop: `readLine` with the current value,
   * as `Itoa` writes it, as fallback; accepted when `Atoi` gives a positive
   * number.
   */
  function SecondsAnswer(raw: string, current: Int64): (answer: Option<Int64>)
    ensures answer.Some? ==> answer.value > 0
  {
    var sec := Atoi(LineOrFallback(raw, Itoa(current)));
    if sec.Some? && sec.value > 0 then sec else None
  }

  function SecondsAnswers(lines: seq<string>, current: Int64): (r: seq<Option<Int64>>)
    ensures |r| == |lines|
  {
    if lines == [] then [] else [SecondsAnswer(lines[0], current)] + SecondsAnswers(lines[1..], current)
  }

  lemma {:induction false} SecondsAnswersAt(lines: seq<string>, current: Int64, k: nat)
    requires k < |lines|
    ensures SecondsAnswers(lines, current)[k] == SecondsAnswer(lines[k], current)
  {
    if k > 0 {
      SecondsAnswersAt(lines[1..], current, k - 1);
      assert lines[1..][k - 1] == lines[k];
    }
  }

  /** The outcome of the waiting-time loop on the remaining lines. */
  function SecondsOutcome(rest: seq<string>, current: Int64): Prompted<Int64>
  {
    PromptOutcome(SecondsAnswers(rest, current), SecondsAnswer("", current))
  }

  /**
   * One read of a window-bound loop: `readLine` with the current bound as
   * fallback; accepted when `ParseHHMM` accepts the text.
   */
  function ClockAnswer(raw: string, current: string): (answer: Option<string>)
    ensures answer.Some? ==> ParseHHMM(answer.value).Ok?
  {
    var s := LineOrFallback(raw, current);
    if ParseHHMM(s).Ok? then Some(s) else None
  }

  function ClockAnswers(lines: seq<string>, current: string): (r: seq<Option<string>>)
    ensures |r| == |lines|
  {
    if lines == [] then [] else [ClockAnswer(lines[0], current)] + ClockAnswers(lines[1..], current)
  }

  lemma {:induction false} ClockAnswersAt(lines: seq<string>, current: string, k: nat)
    requires k < |lines|
    ensures ClockAnswers(lines, current)[k] == ClockAnswer(lines[k], current)
  {
    if k > 0 {
      ClockAnswersAt(lines[1..], current, k - 1);
      assert lines[1..][k - 1] == lines[k];
    }
  }

  /** The outcome of a window-bound loop on the remaining lines. */
  function ClockOutcome(rest: seq<string>, current: string): Prompted<string>
  {
    PromptOutcome(ClockAnswers(rest, current), ClockAnswer("", current))
  }

  /** The waiting-time prompt ends, if at all, with a positive number. */
  lemma SecondsPromptPositive(rest: seq<string>, current: Int64)
    ensures var p := SecondsOutcome(rest, current);
      p.Accepted? ==> p.value > 0
  {
    var answers, atEnd := SecondsAnswers(rest, current), SecondsAnswer("", current);
    var p := PromptOutcome(answers, atEnd);
    PromptTakesFirstAcceptable(answers, atEnd);
    if p.Accepted? && p.count - 1 < |rest| {
      SecondsAnswersAt(rest, current, p.count - 1);
    }
  }

  /**
   * The waiting-time prompt always ends when the current value is positive,
   * since a blank line or the end of input offers that value again.
   */
  lemma SecondsPromptEnds(rest: seq<string>, current: Int64)
    requires current > 0
    ensures SecondsOutcome(rest, current).Accepted?
  {
    BlankKeepsSeconds("", current);
    PromptEnds(SecondsAnswers(rest, current), SecondsAnswer("", current));
  }

  /** A blank line, or the end of input, answers the waiting-time prompt with a positive current value. */
  lemma BlankKeepsSeconds(raw: string, current: Int64)
    requires current > 0 && IsBlank(raw)
    ensures SecondsAnswer(raw, current) == Some(current)
  {
    AtoiItoa(current);
    LineOrFallbackCases(raw, Itoa(current));
  }

  /** A blank first line ends the waiting-time prompt with a positive current value. */
  lemma SecondsBlankKeepsCurrent(rest: seq<string>, current: Int64)
    requires current > 0 && rest != [] && IsBlank(rest[0])
    ensures SecondsOutcome(rest, current) == Accepted(current, 1)
  {
    BlankKeepsSeconds(rest[0], current);
    assert SecondsAnswers(rest, current)[0] == Some(current);
  }

  /** A window-bound prompt ends, if at all, with a text `ParseHHMM` accepts. */
  lemma ClockPromptParses(rest: seq<string>, current: string)
    ensures var p := ClockOutcome(rest, current);
      p.Accepted? ==> ParseHHMM(p.value).Ok?
  {
    var answers, atEnd := ClockAnswers(rest, current), ClockAnswer("", current);
    var p := PromptOutcome(answers, atEnd);
    PromptTakesFirstAcceptable(answers, atEnd);
    if p.Accepted? && p.count - 1 < |rest| {
      ClockAnswersAt(rest, current, p.count - 1);
    }
  }

  /**
   * A window-bound prompt always ends when the current bound is a text
   * `ParseHHMM` accepts.
   */
  lemma ClockPromptEnds(rest: seq<string>, current: string)
    requires ParseHHMM(current).Ok?
    ensures ClockOutcome(rest, current).Accepted?
  {
    LineOrFallbackCases("", current);
    PromptEnds(ClockAnswers(rest, current), ClockAnswer("", current));
  }

  /**
   * The waiting-time loop of `setup`: read with the current value (as
   * `Itoa` writes it) as fallback, until `Atoi` gives a positive number.
   */
  method PromptSeconds(input: InputReader, current: Int64) returns (value: Int64, hung: bool)
    requires input.Valid()
    modifies input
    ensures input.Valid()
    ensures var p := SecondsOutcome(old(input.Rest()), current);
      && (hung <==> p.Hung?)
      && (!hung ==> value == p.value)
      && input.pos == old(input.pos) + p.LinesRead(|old(input.Rest())|)
  {
    ghost var rest := input.Rest();
    ghost var done: nat := 0;
    value, hung := current, false;
    while true
      invariant input.Valid() && input.pos == old(input.pos) + done
      invariant SecondsOutcome(rest, current)
        == SecondsOutcome(input.Rest(), current).Shift(done)
      decreases |input.lines| - input.pos
    {
      var atEnd := input.AtEnd();
      ghost var here := input.Rest();
      var secStr := input.ReadLine(Itoa(current));
      var sec := Atoi(secStr);
      if sec.Some? && sec.value > 0 {
        value := sec.value;
        return;
      }
      if atEnd {
        hung := true;
        return;
      }
      assert input.Rest() == here[1..];
      done := done + 1;
    }
  }

  /**
   * A window-bound loop of `setup`: read with the current bound as fallback,
   * until `ParseHHMM` accepts the text.
   */
  method PromptClock(input: InputReader, current: string) returns (value: string, hung: bool)
    requires input.Valid()
    modifies input
    ensures input.Valid()
    ensures var p := ClockOutcome(old(input.Rest()), current);
      && (hung <==> p.Hung?)
      && (!hung ==> value == p.value)
      && input.pos == old(input.pos) + p.LinesRead(|old(input.Rest())|)
  {
    ghost var rest := input.Rest();
    ghost var done: nat := 0;
    value, hung := current, false;
    while true
      invariant input.Valid() && input.pos == old(input.pos) + done
      invariant ClockOutcome(rest, current)
        == ClockOutcome(input.Rest(), current).Shift(done)
      decreases |input.lines| - input.pos
    {
      var atEnd := input.AtEnd();
      ghost var here := input.Rest();
      var s := input.ReadLine(current);
      if ParseHHMM(s).Ok? {
        value := s;
        return;
      }
      if atEnd {
        hung := true;
        return;
      }
      assert input.Rest() == here[1..];
      done := done + 1;
    }
  }

  /** A positive waiting time and two window bounds that `ParseHHMM` accepts. */
  predicate ValidLimits(countdownSeconds: int, shutdownTimeStart: string, shutdownTimeEnd: string)
  {
    countdownSeconds > 0 && ParseHHMM(shutdownTimeStart).Ok? && ParseHHMM(shutdownTimeEnd).Ok?
  }

  // ---------------------------------------------------------------------------
  // The whole `setup` flow as a function of the typed lines
  // ---------------------------------------------------------------------------

  /** The three values `setup` validates: waiting time, window start, window end. */
  datatype Limits = Limits(seconds: Int64, start: string, end: string)

  /** The line `k` places ahead in `rest`, or "" past the end of input. */
  function LineAt(rest: seq<string>, k: nat): string
  {
    if k < |rest| then rest[k] else ""
  }

  /** The lines left once a prompt that ended with `p` has read its lines. */
  function After<T>(rest: seq<string>, p: Prompted<T>): seq<string>
  {
    rest[p.LinesRead(|rest|)..]
  }

  /**
   * The two window-bound prompts run one after the other on the remaining
   * lines: the accepted start and end, or None when one of them would
   * re-prompt forever.
   */
  function WindowOutcome(rest: seq<string>, start: string, end: string): Option<(string, string)>
  {
    var a := ClockOutcome(rest, start);
    if a.Hung? then None
    else
      var b := ClockOutcome(After(rest, a), end);
      if b.Hung? then None else Some((a.value, b.value))
  }

  /**
   * The three validated prompts of `setup` run one after another on the
   * remaining lines: the accepted values, or None when one of the prompts
   * would re-prompt forever.
   */
  function LimitsOutcome(rest: seq<string>, seconds: Int64, start: string, end: string): Option<Limits>
  {
    var s := SecondsOutcome(rest, seconds);
    if s.Hung? then None
    else
      match WindowOutcome(After(rest, s), start, end)
      case None => None
      case Some((a, b)) => Some(Limits(s.value, a, b))
  }

  /**
   * The prompts end only with valid limits, and always end when the current
   * limits are already valid (each prompt then falls back to a valid value).
   */
  lemma LimitsOutcomeValid(rest: seq<string>, seconds: Int64, start: string, end: string)
    ensures var o := LimitsOutcome(rest, seconds, start, end);
      && (o.Some? ==> ValidLimits(o.value.seconds, o.value.start, o.value.end))
      && (ValidLimits(seconds, start, end) ==> o.Some?)
  {
    var s := SecondsOutcome(rest, seconds);
    SecondsPromptPositive(rest, seconds);
    if seconds > 0 {
      SecondsPromptEnds(rest, seconds);
    }
    if s.Accepted? {
      WindowOutcomeValid(After(rest, s), start, end);
    }
  }

  /**
   * The window prompts end only with two bounds `ParseHHMM` accepts, and
   * always end when both current bounds are accepted.
   */
  lemma WindowOutcomeValid(rest: seq<string>, start: string, end: string)
    ensures var o := WindowOutcome(rest, start, end);
      && (o.Some? ==> ParseHHMM(o.value.0).Ok? && ParseHHMM(o.value.1).Ok?)
      && (ParseHHMM(start).Ok? && ParseHHMM(end).Ok? ==> o.Some?)
  {
    var a := ClockOutcome(rest, start);
    ClockPromptParses(rest, start);
    if ParseHHMM(start).Ok? {
      ClockPromptEnds(rest, start);
    }
    if a.Accepted? {
      var rest1 := After(rest, a);
      ClockPromptParses(rest1, end);
      if ParseHHMM(end).Ok? {
        ClockPromptEnds(rest1, end);
      }
    }
  }

  /** With valid limits, three blank answers keep all three unchanged. */
  lemma LimitsBlankKeep(rest: seq<string>, seconds: Int64, start: string, end: string)
    requires ValidLimits(seconds, start, end)
    requires |rest| >= 3 && IsBlank(rest[0]) && IsBlank(rest[1]) && IsBlank(rest[2])
    ensures LimitsOutcome(rest, seconds, start, end) == Some(Limits(seconds, start, end))
  {
    SecondsBlankKeepsCurrent(rest, seconds);
    assert After(rest, SecondsOutcome(rest, seconds)) == rest[1..];
    WindowBlankKeep(rest[1..], start, end);
  }

  /** With two valid bounds, two blank answers keep both unchanged. */
  lemma WindowBlankKeep(rest: seq<string>, start: string, end: string)
    requires ParseHHMM(start).Ok? && ParseHHMM(end).Ok?
    requires |rest| >= 2 && IsBlank(rest[0]) && IsBlank(rest[1])
    ensures WindowOutcome(rest, start, end) == Some((start, end))
  {
    ClockBlankKeepsCurrent(rest, start);
    assert After(rest, ClockOutcome(rest, start)) == rest[1..];
    ClockBlankKeepsCurrent(rest[1..], end);
  }

  /** A blank first line ends a window-bound prompt with a valid current bound. */
  lemma ClockBlankKeepsCurrent(rest: seq<string>, current: string)
    requires ParseHHMM(current).Ok? && rest != [] && IsBlank(rest[0])
    ensures ClockOutcome(rest, current) == Accepted(current, 1)
  {
    LineOrFallbackCases(rest[0], current);
    assert ClockAnswers(rest, current)[0] == Some(current);
  }

  /**
   * `setup` as a function of the lines typed at the console: unless the
   * first line, trimmed, is "y", the settings are kept; otherwise the next
   * two lines give the folder and the jar name (blank keeps the current
   * one), and the three validated prompts read the lines after them. None
   * when a prompt would re-prompt forever.
   */
  function SetupOutcome(rest: seq<string>, current: Snapshot): Option<Snapshot>
  {
    if TrimSpace(LineAt(rest, 0)) != "y" then Some(current)
    else
      var folder := LineOrFallback(LineAt(rest, 1), current.serverFolder);
      var jar := LineOrFallback(LineAt(rest, 2), current.serverJar);
      var remaining := if |rest| < 3 then [] else rest[3..];
      match LimitsOutcome(remaining, current.countdownSeconds, current.shutdownTimeStart, current.shutdownTimeEnd)
      case None => None
      case Some(l) => Some(Snapshot(folder, jar, l.seconds, l.start, l.end))
  }

  /**
   * What `setup` promises: declining keeps every setting; accepting and
   * finishing leaves valid limits; starting from valid limits it always
   * finishes.
   */
  lemma SetupOutcomeProperties(rest: seq<string>, current: Snapshot)
    ensures var o := SetupOutcome(rest, current);
      && (TrimSpace(LineAt(rest, 0)) != "y" ==> o == Some(current))
      && (o.Some? && TrimSpace(LineAt(rest, 0)) == "y" ==>
            ValidLimits(o.value.countdownSeconds, o.value.shutdownTimeStart, o.value.shutdownTimeEnd))
      && (ValidLimits(current.countdownSeconds, current.shutdownTimeStart, current.shutdownTimeEnd) ==> o.Some?)
  {
    var remaining := if |rest| < 3 then [] else rest[3..];
    LimitsOutcomeValid(remaining, current.countdownSeconds, current.shutdownTimeStart, current.shutdownTimeEnd);
  }

  /** The process-wide configuration record. */
  class Config {
    var serverFolder: string
    var serverJar: string
    var countdownSeconds: Int64
    var shutdownTimeStart: string
    var shutdownTimeEnd: string

    /** The invariant the setup flow establishes. */
    predicate Valid()
      reads this
    {
      ValidLimits(countdownSeconds, shutdownTimeStart, shutdownTimeEnd)
    }

    function Current(): Snapshot
      reads this
    {
      Snapshot(serverFolder, serverJar, countdownSeconds, shutdownTimeStart, shutdownTimeEnd)
    }

    /**
     * `loadConfig`: the defaults, with every field the saved file supplies
     * written over them. With nothing saved the result is valid.
     */
    constructor Load(saved: SavedFields)
      ensures Current() == Loaded(saved)
      ensures saved == NothingSaved ==> Valid()
    {
      serverFolder := "server";
      serverJar := "forge-server.jar";
      countdownSeconds := 60;
      shutdownTimeStart := DefaultStart;
      shutdownTimeEnd := DefaultEnd;
      DefaultBoundsParse();
      if saved.serverFolder.Some? { serverFolder := saved.serverFolder.value; }
      if saved.serverJar.Some? { serverJar := saved.serverJar.value; }
      if saved.countdownSeconds.Some? { countdownSeconds := saved.countdownSeconds.value; }
      if saved.shutdownTimeStart.Some? { shutdownTimeStart := saved.shutdownTimeStart.value; }
      if saved.shutdownTimeEnd.Some? { shutdownTimeEnd := saved.shutdownTimeEnd.value; }
    }

    /**
     * `setup` on the console's remaining lines, as `SetupOutcome` describes
     * it: a declined change reads one more line (the Enter that starts the
     * server) and keeps everything; an accepted one reads the folder, the jar
     * name and the three validated values, then the closing Enter. Saving the
     * file is not modelled.
     */
    method Setup(input: InputReader) returns (hung: bool)
      requires input.Valid()
      modifies this, input
      ensures input.Valid()
      ensures var o := SetupOutcome(old(input.Rest()), old(Current()));
        && (hung <==> o.None?)
        && (!hung ==> Current() == o.value)
      ensures !hung && TrimSpace(old(input.Ahead(0))) == "y" ==> Valid()
      ensures old(Valid()) ==> !hung
    {
      ghost var rest, before := input.Rest(), Current();
      assert input.Ahead(0) == LineAt(rest, 0);
      var answer := input.ReadString();
      if TrimSpace(answer) != "y" {
        var _ := input.ReadString();
        hung := false;
      } else {
        assert input.Ahead(0) == LineAt(rest, 1);
        serverFolder := input.ReadLine(serverFolder);
        assert input.Ahead(0) == LineAt(rest, 2);
        serverJar := input.ReadLine(serverJar);
        assert input.Rest() == if |rest| < 3 then [] else rest[3..];
        hung := PromptLimits(input);
        if !hung {
          var _ := input.ReadString();
        }
      }
      SetupOutcomeProperties(rest, before);
    }

    /**
     * The three validated prompts of `setup`: the waiting time, then the start
     * and the end of the window, each changed to the first acceptable answer.
     */
    method PromptLimits(input: InputReader) returns (hung: bool)
      requires input.Valid()
      modifies this`countdownSeconds, this`shutdownTimeStart, this`shutdownTimeEnd, input
      ensures input.Valid()
      ensures var o := LimitsOutcome(old(input.Rest()), old(countdownSeconds), old(shutdownTimeStart), old(shutdownTimeEnd));
        && (hung <==> o.None?)
        && (!hung ==> Limits(countdownSeconds, shutdownTimeStart, shutdownTimeEnd) == o.value)
    {
      ghost var rest0, start0, end0 := input.Rest(), shutdownTimeStart, shutdownTimeEnd;
      ghost var s := SecondsOutcome(rest0, countdownSeconds);
      var seconds;
      seconds, hung := PromptSeconds(input, countdownSeconds);
      if !hung {
        assert input.Rest() == After(rest0, s);
        ghost var w := WindowOutcome(After(rest0, s), start0, end0);
        countdownSeconds := seconds;
        hung := PromptWindow(input);
        assert !hung ==> (shutdownTimeStart, shutdownTimeEnd) == w.value;
      }
    }

    /** The two window-bound prompts of `setup`: the start, then the end of the window. */
    method PromptWindow(input: InputReader) returns (hung: bool)
      requires input.Valid()
      modifies this`shutdownTimeStart, this`shutdownTimeEnd, input
      ensures input.Valid()
      ensures var o := WindowOutcome(old(input.Rest()), old(shutdownTimeStart), old(shutdownTimeEnd));
        && (hung <==> o.None?)
        && (!hung ==> (shutdownTimeStart, shutdownTimeEnd) == o.value)
    {
      ghost var rest0 := input.Rest();
      ghost var a := ClockOutcome(rest0, shutdownTimeStart);
      var start, end;
      start, hung := PromptClock(input, shutdownTimeStart);
      if !hung {
        assert input.Rest() == After(rest0, a);
        shutdownTimeStart := start;
        end, hung := PromptClock(input, shutdownTimeEnd);
        if !hung {
          shutdownTimeEnd := end;
        }
      }
    }
  }

  /** With nothing saved, the settings are valid: 60 seconds, 02:00 to 08:00. */
  lemma DefaultsValid()
    ensures var d := Loaded(NothingSaved);
      d.countdownSeconds == 60 && ValidLimits(d.countdownSeconds, d.shutdownTimeStart, d.shutdownTimeEnd)
  {
    DefaultBoundsParse();
  }

  /**
   * With nothing saved, `setup` always finishes, whatever is typed: every
   * prompt can fall back to a valid default.
   */
  lemma DefaultSetupFinishes(typed: seq<string>)
    ensures SetupOutcome(typed, Loaded(NothingSaved)).Some?
  {
    DefaultsValid();
    SetupOutcomeProperties(typed, Loaded(NothingSaved));
  }

  /** The default window bounds parse. */
  lemma DefaultBoundsParse()
    ensures ParseHHMM(DefaultStart) == Ok(Clock(2, 0))
    ensures ParseHHMM(DefaultEnd) == Ok(Clock(8, 0))
  {
    FormatExamples();
    ParseFormatHHMM(Clock(2, 0));
    ParseFormatHHMM(Clock(8, 0));
  }
}
