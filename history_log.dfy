/**
 * The rolling run history kept in the log file: the file is read as
 * newline-separated lines, blank lines are dropped, the new entry is
 * appended, only the last five lines are kept, and the file is rewritten
 * with every kept line followed by a newline. File I/O is left to the
 * caller: the old contents come in as `Some(text)`, or `None` when the file
 * could not be read, and the new contents go out as a string.
 */
module HistoryLog {
  import opened GoStrings

  /** `maxEntries` in `writeLog`. */
  const MaxEntries: nat := 5

  /** The exit classification as the log writes it: normal or abnormal termination. */
  function StatusText(normalExit: bool): string
  {
    if normalExit then "正常終了" else "異常終了"
  }

  /**
   * The new log line. `stamp` is the stop time in the layout
   * "2006-01-02 15:04:05" and `clock` in "15:04:05"; Go's time formatting is
   * outside this model, so both arrive already formatted.
   */
  function FormatEntry(normalExit: bool, stamp: string, clock: string): (entry: string)
    ensures !IsBlank(entry)
    ensures '\n' !in stamp && '\n' !in clock ==> '\n' !in entry
  {
    var entry := "[" + stamp + "] サーバー停止 | 状態: " + StatusText(normalExit) + " | 停止時刻: " + clock;
    assert !IsSpace(entry[0]);
    entry
  }

  /** The entry tells the two exit classifications apart. */
  lemma FormatEntryShowsStatus(stamp: string, clock: string)
    ensures FormatEntry(true, stamp, clock) != FormatEntry(false, stamp, clock)
  {
    var prefix := "[" + stamp + "] サーバー停止 | 状態: ";
    var good, bad := FormatEntry(true, stamp, clock), FormatEntry(false, stamp, clock);
    assert good[|prefix|] == '正';
    assert bad[|prefix|] == '異';
  }

  /** The lines of `lines` that are not blank, in their original order. */
  function NonBlank(lines: seq<string>): (r: seq<string>)
    ensures |r| <= |lines|
    ensures forall i :: 0 <= i < |r| ==> !IsBlank(r[i]) && r[i] in lines
  {
    if lines == [] then []
    else
      var last := lines[|lines| - 1];
      var front := NonBlank(lines[..|lines| - 1]);
      assert forall x :: x in lines[..|lines| - 1] ==> x in lines;
      if IsBlank(last) then front else front + [last]
  }

  lemma {:induction false} NonBlankConcat(a: seq<string>, b: seq<string>)
    ensures NonBlank(a + b) == NonBlank(a) + NonBlank(b)
    decreases |b|
  {
    if b != [] {
      var b' := b[..|b| - 1];
      assert (a + b)[..|a + b| - 1] == a + b';
      NonBlankConcat(a, b');
    } else {
      assert a + b == a;
    }
  }

  /** Dropping blank lines keeps a list that has none unchanged. */
  lemma {:induction false} NonBlankOfNonBlank(lines: seq<string>)
    requires forall i :: 0 <= i < |lines| ==> !IsBlank(lines[i])
    ensures NonBlank(lines) == lines
  {
    if lines != [] {
      NonBlankOfNonBlank(lines[..|lines| - 1]);
    }
  }

  /** The last `n` elements of `lines`, or all of them when there are fewer. */
  function KeepLast<T>(lines: seq<T>, n: nat): (r: seq<T>)
    ensures |r| == if |lines| < n then |lines| else n
  {
    if |lines| > n then lines[|lines| - n..] else lines
  }

  /** What is kept is a suffix of the input: its element i is element |lines| - |r| + i of the input. */
  lemma KeepLastSuffix<T>(lines: seq<T>, n: nat)
    ensures var r := KeepLast(lines, n);
      r == lines[|lines| - |r|..] && forall i :: 0 <= i < |r| ==> r[i] == lines[|lines| - |r| + i]
  {
  }

  /** Keeping the last n, then adding one and keeping the last n, is adding one and keeping the last n. */
  lemma KeepLastAppend<T>(lines: seq<T>, x: T, n: nat)
    requires n >= 1
    ensures KeepLast(KeepLast(lines, n) + [x], n) == KeepLast(lines + [x], n)
  {
  }

  /** The entries recorded in a log file whose contents are `data`. */
  function ReadLedger(data: Option<string>): seq<string>
  {
    match data
    case None => []
    case Some(text) => NonBlank(Split(text, '\n'))
  }

  /** The list `writeLog` keeps: the existing entries plus the new one, last five only. */
  function Rotate(data: Option<string>, entry: string): seq<string>
  {
    KeepLast(ReadLedger(data) + [entry], MaxEntries)
  }

  /** The file contents `writeLog` writes for a list of lines. */
  function Render(lines: seq<string>): string
  {
    Join(lines, '\n') + "\n"
  }

  /**
   * The list logic of `writeLog`: collect the non-blank lines of the old
   * contents, append the entry, keep the last five, and produce the text to
   * write back.
   */
  method WriteLog(data: Option<string>, entry: string) returns (lines: seq<string>, text: string)
    ensures lines == Rotate(data, entry)
    ensures text == Render(lines)
  {
    lines := [];
    if data.Some? {
      var parts := Split(data.value, '\n');
      var k := 0;
      while k < |parts|
        invariant 0 <= k <= |parts|
        invariant lines == NonBlank(parts[..k])
      {
        assert parts[..k + 1][..k] == parts[..k];
        TrimSpaceTrims(parts[k]);
        if TrimSpace(parts[k]) != "" {
          lines := lines + [parts[k]];
        }
        k := k + 1;
      }
      assert parts[..k] == parts;
    }
    assert lines == ReadLedger(data);
    lines := lines + [entry];
    if |lines| > MaxEntries {
      lines := lines[|lines| - MaxEntries..];
    }
    assert lines == Rotate(data, entry);
    text := Join(lines, '\n') + "\n";
  }

  /**
   * After a write the ledger holds at most five lines, ends with the new
   * entry, and is the tail of the old entries followed by the new one, so
   * the oldest lines are the ones dropped and the order is kept.
   */
  lemma RotateKeepsNewest(data: Option<string>, entry: string)
    ensures var lines := Rotate(data, entry);
      && 1 <= |lines| <= MaxEntries
      && lines[|lines| - 1] == entry
      && lines[..|lines| - 1] == ReadLedger(data)[|ReadLedger(data)| - (|lines| - 1)..]
  {
    var old_ := ReadLedger(data);
    var all := old_ + [entry];
    var lines := KeepLast(all, MaxEntries);
    KeepLastSuffix(all, MaxEntries);
    assert lines[..|lines| - 1] == all[|all| - |lines|..|all| - 1];
  }

  lemma {:induction false} JoinAppend(lines: seq<string>, x: string, sep: char)
    requires |lines| >= 1
    ensures Join(lines + [x], sep) == Join(lines, sep) + [sep] + x
  {
    if |lines| > 1 {
      assert (lines + [x])[1..] == lines[1..] + [x];
      JoinAppend(lines[1..], x, sep);
    }
  }

  /**
   * Reading back what was written gives the same list, provided every line
   * is non-blank and has no newline, as every entry the program writes is.
   */
  lemma ReadRendered(lines: seq<string>)
    requires forall i :: 0 <= i < |lines| ==> !IsBlank(lines[i]) && '\n' !in lines[i]
    ensures ReadLedger(Some(Render(lines))) == lines
  {
    if lines == [] {
      assert Render(lines) == "\n";
      assert Split("\n", '\n') == ["", ""] by {
        assert "\n"[1..] == "";
      }
    } else {
      var fields := lines + [""];
      assert Join(fields, '\n') == Render(lines) by {
        JoinAppend(lines, "", '\n');
      }
      assert Split(Render(lines), '\n') == fields by {
        assert forall i :: 0 <= i < |fields| ==> '\n' !in fields[i] by {
          forall i | 0 <= i < |fields| ensures '\n' !in fields[i] {
            if i < |lines| {
              assert fields[i] == lines[i];
            }
          }
        }
        SplitJoin(fields, '\n');
      }
      assert NonBlank(fields) == lines by {
        NonBlankConcat(lines, [""]);
        NonBlankOfNonBlank(lines);
        assert NonBlank([""]) == [];
      }
    }
  }

  /**
   * When the new entry is a non-blank line, the text `writeLog` writes reads
   * back as exactly the list it kept.
   */
  lemma RotateReadsBack(data: Option<string>, entry: string)
    requires !IsBlank(entry) && '\n' !in entry
    ensures ReadLedger(Some(Render(Rotate(data, entry)))) == Rotate(data, entry)
  {
    var old_ := ReadLedger(data);
    var all := old_ + [entry];
    assert forall i :: 0 <= i < |all| ==> !IsBlank(all[i]) && '\n' !in all[i] by {
      LedgerLinesClean(data);
      forall i | 0 <= i < |all| ensures !IsBlank(all[i]) && '\n' !in all[i] {
        if i < |old_| {
          assert all[i] == old_[i];
        }
      }
    }
    var kept := KeepLast(all, MaxEntries);
    assert forall i :: 0 <= i < |kept| ==> !IsBlank(kept[i]) && '\n' !in kept[i] by {
      KeepLastSuffix(all, MaxEntries);
    }
    ReadRendered(kept);
  }

  /** The entries `ReadLedger` returns are non-blank and have no newline. */
  lemma LedgerLinesClean(data: Option<string>)
    ensures forall i :: 0 <= i < |ReadLedger(data)| ==> !IsBlank(ReadLedger(data)[i]) && '\n' !in ReadLedger(data)[i]
  {
    if data.Some? {
      var parts := Split(data.value, '\n');
      SplitFieldsFree(data.value, '\n');
      assert forall x :: x in parts ==> '\n' !in x;
    }
  }

  /** The log file after the given runs, one entry each, starting with no file. */
  function LogAfter(entries: seq<string>): Option<string>
  {
    if entries == [] then None
    else Some(Render(Rotate(LogAfter(entries[..|entries| - 1]), entries[|entries| - 1])))
  }

  /**
   * After any number of runs the file holds exactly the last five entries
   * (all of them when there were fewer), oldest first.
   */
  lemma {:induction false} LogKeepsLastFive(entries: seq<string>)
    requires |entries| >= 1
    requires forall i :: 0 <= i < |entries| ==> !IsBlank(entries[i]) && '\n' !in entries[i]
    ensures LogAfter(entries) == Some(Render(KeepLast(entries, MaxEntries)))
    ensures ReadLedger(LogAfter(entries)) == KeepLast(entries, MaxEntries)
  {
    var front, e := entries[..|entries| - 1], entries[|entries| - 1];
    assert entries == front + [e];
    if front == [] {
      assert Rotate(None, e) == [e];
    } else {
      LogKeepsLastFive(front);
      var kept := KeepLast(front, MaxEntries);
      KeepLastSuffix(front, MaxEntries);
      ReadRendered(kept);
      KeepLastAppend(front, e, MaxEntries);
    }
    var final := KeepLast(entries, MaxEntries);
    KeepLastSuffix(entries, MaxEntries);
    ReadRendered(final);
  }
}
