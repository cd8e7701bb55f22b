/**
 * The shutdown time window: parsing the "HH:MM" bounds stored in the
 * configuration, and deciding whether the current minute of the day lies in
 * the window [start, end), which wraps past midnight when start is later than
 * end. The current time is a parameter: the minute of the day, 0..1439.
 */
module TimeWindow {
  import opened GoStrings

  const MinutesPerDay: int := 1440

  datatype Result<T, E> = Ok(value: T) | Err(error: E)

  /** The two error messages of `parseHHMM`: "invalid format" and "invalid value". */
  datatype ParseError = InvalidFormat | InvalidValue

  datatype Clock = Clock(hour: int, minute: int)
  {
    predicate Valid()
    {
      0 <= hour <= 23 && 0 <= minute <= 59
    }

    /** Minutes since midnight. */
    function Minutes(): (m: int)
      requires Valid()
      ensures 0 <= m < MinutesPerDay
    {
      hour * 60 + minute
    }
  }

  /**
   * `parseHHMM`: the text must contain exactly one ':' (two fields after
   * splitting); each field must be accepted by `Atoi`, which admits a sign and
   * any number of digits; the hour must be 0..23 and the minute 0..59.
   */
  function ParseHHMM(s: string): (r: Result<Clock, ParseError>)
    ensures r.Ok? ==> r.value.Valid()
  {
    var parts := Split(s, ':');
    if |parts| != 2 then Err(InvalidFormat)
    else
      match (Atoi(parts[0]), Atoi(parts[1]))
      case (Some(h), Some(m)) =>
        if h < 0 || h > 23 || m < 0 || m > 59 then Err(InvalidValue) else Ok(Clock(h, m))
      case _ => Err(InvalidValue)
  }

  /** The format error is reported exactly when the text does not have one colon. */
  lemma ParseHHMMFormatError(s: string)
    ensures ParseHHMM(s) == Err(InvalidFormat) <==> Count(s, ':') != 1
  {
    SplitCount(s, ':');
  }

  /**
   * Every text with one colon is `a + ":" + b`; it parses to (h, m) exactly
   * when `Atoi` accepts `a` as h and `b` as m and both are in range.
   */
  lemma ParseHHMMFields(a: string, b: string)
    requires ':' !in a && ':' !in b
    ensures ParseHHMM(a + ":" + b).Ok? <==>
      Atoi(a).Some? && Atoi(b).Some? && 0 <= Atoi(a).value <= 23 && 0 <= Atoi(b).value <= 59
    ensures ParseHHMM(a + ":" + b).Ok? ==>
      ParseHHMM(a + ":" + b).value == Clock(Atoi(a).value, Atoi(b).value)
  {
    SplitAfterField(a, ':', b);
    SplitNoSeparator(b, ':');
    assert a + ":" + b == a + [':'] + b;
  }

  /** A text with one colon is the two fields of its split joined by that colon. */
  lemma OneColonFields(s: string)
    requires Count(s, ':') == 1
    ensures var parts := Split(s, ':');
      |parts| == 2 && s == parts[0] + ":" + parts[1]
  {
    var parts := Split(s, ':');
    SplitCount(s, ':');
    JoinSplit(s, ':');
    assert Join(parts, ':') == parts[0] + [':'] + Join(parts[1..], ':');
    assert Join(parts[1..], ':') == parts[1];
  }

  /** Two decimal digits, zero-padded, as Go's "15:04" layout writes hours and minutes. */
  function Pad2(n: nat): (s: string)
    requires n < 100
    ensures |s| == 2 && AllDigits(s) && DigitsValue(s) == n
  {
    var s := [DigitChar(n / 10), DigitChar(n % 10)];
    assert s[..1] == [DigitChar(n / 10)];
    s
  }

  /** The "HH:MM" text of a valid clock reading. */
  function FormatHHMM(c: Clock): string
    requires c.Valid()
  {
    Pad2(c.hour) + ":" + Pad2(c.minute)
  }

  /** Every "HH:MM" text that the program writes is read back to the same clock reading. */
  lemma ParseFormatHHMM(c: Clock)
    requires c.Valid()
    ensures ParseHHMM(FormatHHMM(c)) == Ok(c)
  {
    var a, b := Pad2(c.hour), Pad2(c.minute);
    assert ':' !in a && ':' !in b;
    AtoiShortDecimal(a);
    AtoiShortDecimal(b);
    ParseHHMMFields(a, b);
  }

  /**
   * The comparison `isInShutdownWindow` makes once both bounds have parsed:
   * [start, end) on one day when start <= end, otherwise from start round
   * midnight to end. Both branches say the same thing: going forward round
   * the clock from the start minute, `now` comes before the end minute.
   */
  function InWindow(startMinutes: int, endMinutes: int, nowMinutes: int): (inside: bool)
    requires 0 <= startMinutes < MinutesPerDay && 0 <= endMinutes < MinutesPerDay
    requires 0 <= nowMinutes < MinutesPerDay
    ensures inside <==>
      (nowMinutes - startMinutes) % MinutesPerDay < (endMinutes - startMinutes) % MinutesPerDay
  {
    ForwardWalk(startMinutes, endMinutes, nowMinutes);
    if startMinutes <= endMinutes then
      nowMinutes >= startMinutes && nowMinutes < endMinutes
    else
      nowMinutes >= startMinutes || nowMinutes < endMinutes
  }

  lemma ForwardWalk(s: int, e: int, now: int)
    requires 0 <= s < MinutesPerDay && 0 <= e < MinutesPerDay && 0 <= now < MinutesPerDay
    ensures (if s <= e then s <= now < e else now >= s || now < e)
        <==> (now - s) % MinutesPerDay < (e - s) % MinutesPerDay
  {
    var d := if s <= e then e - s else e - s + MinutesPerDay;
    var k := if s <= now then now - s else now - s + MinutesPerDay;
    assert (e - s) % MinutesPerDay == d;
    assert (now - s) % MinutesPerDay == k;
  }

  /**
   * `isInShutdownWindow` with the current minute of the day as a parameter.
   * When either bound fails to parse the window is open at every minute.
   */
  function IsInShutdownWindow(start: string, end: string, nowMinutes: int): (inside: bool)
    requires 0 <= nowMinutes < MinutesPerDay
    ensures (ParseHHMM(start).Err? || ParseHHMM(end).Err?) ==> inside
  {
    var parsedStart, parsedEnd := ParseHHMM(start), ParseHHMM(end);
    if parsedStart.Err? || parsedEnd.Err? then true
    else InWindow(parsedStart.value.Minutes(), parsedEnd.value.Minutes(), nowMinutes)
  }

  /** Fail-open: an unparsable bound permits shutdown at every minute. */
  lemma FailOpen(start: string, end: string, nowMinutes: int)
    requires 0 <= nowMinutes < MinutesPerDay
    requires ParseHHMM(start).Err? || ParseHHMM(end).Err?
    ensures IsInShutdownWindow(start, end, nowMinutes)
  {
  }

  /**
   * Same-day window: inside exactly on [start, end). The start minute is
   * inside, the end minute is not, and equal bounds give an empty window.
   */
  lemma SameDayWindow(start: string, end: string, nowMinutes: int)
    requires 0 <= nowMinutes < MinutesPerDay
    requires ParseHHMM(start).Ok? && ParseHHMM(end).Ok?
    requires ParseHHMM(start).value.Minutes() <= ParseHHMM(end).value.Minutes()
    ensures IsInShutdownWindow(start, end, nowMinutes) <==>
      ParseHHMM(start).value.Minutes() <= nowMinutes < ParseHHMM(end).value.Minutes()
  {
  }

  /**
   * Window across midnight: inside exactly from the start minute to midnight
   * and from midnight up to, not including, the end minute.
   */
  lemma MidnightWindow(start: string, end: string, nowMinutes: int)
    requires 0 <= nowMinutes < MinutesPerDay
    requires ParseHHMM(start).Ok? && ParseHHMM(end).Ok?
    requires ParseHHMM(start).value.Minutes() > ParseHHMM(end).value.Minutes()
    ensures IsInShutdownWindow(start, end, nowMinutes) <==>
      nowMinutes >= ParseHHMM(start).value.Minutes() || nowMinutes < ParseHHMM(end).value.Minutes()
  {
  }

  /** Equal bounds never admit shutdown, at any minute. */
  lemma EmptyWindow(bound: string, nowMinutes: int)
    requires 0 <= nowMinutes < MinutesPerDay
    requires ParseHHMM(bound).Ok?
    ensures !IsInShutdownWindow(bound, bound, nowMinutes)
  {
  }

  /**
   * Swapping two distinct valid bounds gives the complementary window: each
   * minute of the day is in exactly one of [start, end) and [end, start).
   */
  lemma SwappedBoundsComplement(start: string, end: string, nowMinutes: int)
    requires 0 <= nowMinutes < MinutesPerDay
    requires ParseHHMM(start).Ok? && ParseHHMM(end).Ok?
    requires ParseHHMM(start).value.Minutes() != ParseHHMM(end).value.Minutes()
    ensures IsInShutdownWindow(start, end, nowMinutes) != IsInShutdownWindow(end, start, nowMinutes)
  {
  }

  lemma FormatExamples()
    ensures FormatHHMM(Clock(2, 0)) == "02:00"
    ensures FormatHHMM(Clock(8, 0)) == "08:00"
    ensures FormatHHMM(Clock(22, 0)) == "22:00"
    ensures FormatHHMM(Clock(6, 0)) == "06:00"
  {
  }

  /** The default window, 02:00-08:00, is the minutes 120..479 of the day. */
  lemma DefaultWindow(nowMinutes: int)
    requires 0 <= nowMinutes < MinutesPerDay
    ensures IsInShutdownWindow("02:00", "08:00", nowMinutes) <==> 120 <= nowMinutes < 480
  {
    FormatExamples();
    ParseFormatHHMM(Clock(2, 0));
    ParseFormatHHMM(Clock(8, 0));
  }

  /** The window 22:00-06:00 crosses midnight: minutes 1320..1439 and 0..359. */
  lemma OvernightWindow(nowMinutes: int)
    requires 0 <= nowMinutes < MinutesPerDay
    ensures IsInShutdownWindow("22:00", "06:00", nowMinutes) <==> nowMinutes >= 1320 || nowMinutes < 360
  {
    FormatExamples();
    ParseFormatHHMM(Clock(22, 0));
    ParseFormatHHMM(Clock(6, 0));
  }

  /**
   * Window 02:00-08:00 admits 03:00 and not 12:00; the window 22:00-06:00
   * admits 23:30 and not 10:00.
   */
  lemma ExampleWindows()
    ensures IsInShutdownWindow("02:00", "08:00", 3 * 60)
    ensures !IsInShutdownWindow("02:00", "08:00", 12 * 60)
    ensures IsInShutdownWindow("22:00", "06:00", 23 * 60 + 30)
    ensures !IsInShutdownWindow("22:00", "06:00", 10 * 60)
  {
    DefaultWindow(3 * 60);
    DefaultWindow(12 * 60);
    OvernightWindow(23 * 60 + 30);
    OvernightWindow(10 * 60);
  }

  /** `Atoi`'s leniency carries over: a sign and extra leading zeros are accepted. */
  lemma SignedBound()
    ensures ParseHHMM("+2:5") == Ok(Clock(2, 5))
  {
    assert "+2:5" == "+2" + ":" + "5";
    assert Atoi("+2") == Some(2) by { assert "+2"[1..] == "2"; }
    assert Atoi("5") == Some(5);
    ParseHHMMFields("+2", "5");
  }

  lemma ZeroPaddedBound()
    ensures ParseHHMM("002:0005") == Ok(Clock(2, 5))
  {
    assert "002:0005" == "002" + ":" + "0005";
    ZeroPaddedHour();
    ZeroPaddedMinute();
    ParseHHMMFields("002", "0005");
  }

  lemma ZeroPaddedHour()
    ensures Atoi("002") == Some(2)
  {
    assert "0" + "02" == "002" && "0" + "2" == "02";
    AtoiLeadingZero("02");
    AtoiLeadingZero("2");
  }

  lemma ZeroPaddedMinute()
    ensures Atoi("0005") == Some(5)
  {
    assert "0" + "005" == "0005" && "0" + "05" == "005" && "0" + "5" == "05";
    AtoiLeadingZero("005");
    AtoiLeadingZero("05");
    AtoiLeadingZero("5");
  }

  /** An hour of 24 is a value error; a third field is a format error. */
  lemma RejectedBounds()
    ensures ParseHHMM("24:00") == Err(InvalidValue)
    ensures ParseHHMM("2:00:00") == Err(InvalidFormat)
    ensures ParseHHMM("2.00") == Err(InvalidFormat)
  {
    assert "24:00" == "24" + ":" + "00";
    assert Atoi("24") == Some(24);
    ParseHHMMFields("24", "00");
    assert Count("2:00:00", ':') == 2;
    assert Count("2.00", ':') == 0;
  }
}
