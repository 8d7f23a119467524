/** Draining the output pipe of a runtime into its log, with a limit on size and rate. */
module RuntimeOutput {
  import opened Seqs
  import opened Text
  import opened Newlines

  const MAX_LINE: nat := 16384
  const BURST: nat := 20
  const SECOND: nat := 1000000000

  // What is handed to the log: a line, a number of omitted lines, or a failed read.
  datatype Entry = Shown(text: string, truncated: bool) | Omitted(count: nat) | ReadFailed

  // ----- What the log should say: a limiter fed with whole lines

  datatype Limiter = Limiter(window: int, written: nat, suppressed: nat, log: seq<Entry>)

  predicate LineEnd(c: char) {
    c == '\r' || c == '\n'
  }

  function Cut(line: string): string {
    if |line| <= MAX_LINE then line else line[..MAX_LINE]
  }

  // What is kept of a line: at most the first 16 KiB, without its line end.
  function Kept(line: string): Entry {
    Shown(TrimRight(Cut(line), LineEnd), |line| > MAX_LINE)
  }

  function Flushed(log: seq<Entry>, suppressed: nat): seq<Entry> {
    if suppressed > 0 then log + [Omitted(suppressed)] else log
  }

  // A new window begins a second after the last one began.
  function Rolled(l: Limiter, now: int, on: bool): Limiter {
    if now - l.window >= SECOND then Limiter(now, 0, 0, if on then Flushed(l.log, l.suppressed) else l.log) else l
  }

  function Limit(l: Limiter, entry: Entry, now: int, on: bool): Limiter {
    var r := Rolled(l, now, on);
    if !on then r
    else if r.written < BURST then r.(written := r.written + 1, log := r.log + [entry])
    else r.(suppressed := r.suppressed + 1)
  }

  // The limiter after the first k lines. The clock is read once before the first line
  // and once for every line; logging is on or off for each line.
  function Limited(lines: seq<string>, clock: nat -> int, on: nat -> bool, k: nat): Limiter
    requires k <= |lines|
  {
    if k == 0 then Limiter(clock(0), 0, 0, [])
    else Limit(Limited(lines, clock, on, k - 1), Kept(lines[k - 1]), clock(k), on(k))
  }

  // At the end of the stream a failed read is reported, then the lines still omitted.
  function Finished(log: seq<Entry>, suppressed: nat, failed: bool, on: bool): seq<Entry> {
    if on then Flushed(if failed then log + [ReadFailed] else log, suppressed) else log
  }

  function Expected(lines: seq<string>, clock: nat -> int, on: nat -> bool, failed: bool): seq<Entry> {
    var l := Limited(lines, clock, on, |lines|);
    Finished(l.log, l.suppressed, failed, on(|lines| + 1))
  }

  // ----- The loop over chunks

  datatype Status = Delimited | Full | Ended

  // The next chunk of the buffered reader: up to the newline, or a full buffer, or what is
  // left. A reader may report the end together with its last bytes or only afterwards.
  function NextChunk(rest: string, early: bool): (r: (string, Status))
    ensures r.0 <= rest && |r.0| <= MAX_LINE
    ensures r.1 == Delimited ==> IsLine(r.0) && Complete(r.0) && |r.0| > 0
    ensures r.1 != Delimited ==> NEWLINE !in r.0
    ensures r.1 == Full ==> |r.0| == MAX_LINE
    ensures r.1 == Ended ==> r.0 == rest
  {
    if |rest| == 0 then ("", Ended)
    else
      var n := FirstLine(rest);
      if rest[n - 1] == NEWLINE && n <= MAX_LINE then
        assert rest[..n][..n - 1] == rest[..n - 1];
        (rest[..n], Delimited)
      else
        assert rest[n - 1] != NEWLINE ==> rest == rest[..n - 1] + [rest[n - 1]];
        if n > MAX_LINE || (n == MAX_LINE && !early) then
          assert rest[..MAX_LINE] <= rest[..n - 1] || n == MAX_LINE;
          (rest[..MAX_LINE], Full)
        else (rest[..n], Ended)
  }

  // Appending what still fits of a chunk keeps the cut of the whole line.
  lemma CutAppend(pending: string, chunk: string)
    ensures var remaining := MAX_LINE - |Cut(pending)|;
            remaining >= 0
            && Cut(pending + chunk) == Cut(pending) + (if |chunk| > remaining then chunk[..remaining] else chunk)
            && (|pending + chunk| > MAX_LINE <==> |pending| > MAX_LINE || |chunk| > remaining)
  {}

  // The pending line is the next one; what comes after it is still ahead.
  lemma LineDone(lines: seq<string>, k: nat, pending: string, rest: string)
    requires k <= |lines| && lines[k..] == Lines(pending + rest)
    requires IsLine(pending) && (|rest| > 0 ==> Complete(pending))
    ensures k < |lines| && lines[k] == pending && lines[k + 1..] == Lines("" + rest)
  {
    LinesFirst(pending, rest);
    assert lines[k] == lines[k..][0];
    assert lines[k + 1..] == lines[k..][1..];
    assert "" + rest == rest;
  }

  // A chunk completes the pending line unless the buffer was full.
  lemma Gathered(pending: string, rest: string, early: bool)
    requires NEWLINE !in pending
    ensures var (chunk, status) := NextChunk(rest, early);
            var after := rest[|chunk|..];
            && pending + rest == pending + chunk + after
            && (status == Full ==> NEWLINE !in pending + chunk)
            && (status != Full && |pending + chunk| > 0 ==>
                  IsLine(pending + chunk) && (|after| > 0 ==> Complete(pending + chunk)))
            && (status == Ended ==> |after| == 0)
            && (status != Ended ==> |chunk| > 0)
  {}

  // One line through the limiter, step by step as the loop takes it.
  lemma LimitedNext(lines: seq<string>, clock: nat -> int, on: nat -> bool, k: nat, line: string)
    requires k < |lines| && lines[k] == line
    ensures Limited(lines, clock, on, k + 1) == Limit(Limited(lines, clock, on, k), Kept(line), clock(k + 1), on(k + 1))
  {}

  // What the loop does when a line is whole: the clock has been read, logging is on or off.
  method TakeLine(window: int, written: nat, suppressed: nat, log: seq<Entry>,
                  line: string, truncated: bool, current: int, enabled: bool)
    returns (window': int, written': nat, suppressed': nat, log': seq<Entry>)
    ensures Limiter(window', written', suppressed', log')
         == Limit(Limiter(window, written, suppressed, log), Shown(TrimRight(line, LineEnd), truncated),
                  current, enabled)
  {
    window', written', suppressed', log' := window, written, suppressed, log;
    if current - window >= SECOND {
      if enabled {
        log' := Flushed(log, suppressed);
      }
      suppressed' := 0;
      window', written' := current, 0;
    }
    if enabled {
      if written' < BURST {
        log' := log' + [Shown(TrimRight(line, LineEnd), truncated)];
        written' := written' + 1;
      } else {
        suppressed' := suppressed' + 1;
      }
    }
  }

  // The loop holds the first 16 KiB of a pending line, the lines taken so far are the
  // first k, and the pending line and the unread rest make up the others.
  ghost predicate Gathering(lines: seq<string>, k: nat, pending: string, rest: string, line: string, truncated: bool) {
    && NEWLINE !in pending
    && line == Cut(pending) && (truncated <==> |pending| > MAX_LINE)
    && k <= |lines| && lines[k..] == Lines(pending + rest)
  }

  // Some of a stream added to a pending line leaves the same characters ahead.
  lemma Moved(lines: seq<string>, k: nat, pending: string, rest: string, n: nat, whole: string, after: string)
    requires k <= |lines| && lines[k..] == Lines(pending + rest) && n <= |rest|
    requires whole == pending + rest[..n] && after == rest[n..]
    ensures lines[k..] == Lines(whole + after)
  {
    assert whole + after == pending + rest;
  }

  // One turn of the loop: the chunk is added to the line as far as it fits.
  lemma Gather(lines: seq<string>, k: nat, pending: string, rest: string, line: string, truncated: bool, early: bool,
               whole: string, after: string, line': string, truncated': bool)
    requires Gathering(lines, k, pending, rest, line, truncated)
    requires whole == pending + NextChunk(rest, early).0 && after == rest[|NextChunk(rest, early).0|..]
    requires var chunk, remaining := NextChunk(rest, early).0, MAX_LINE - |line|;
             && line' == line + (if |chunk| > remaining then chunk[..remaining] else chunk)
             && truncated' == (truncated || |chunk| > remaining)
    ensures k <= |lines| && lines[k..] == Lines(whole + after)
    ensures line' == Cut(whole) && (truncated' <==> |whole| > MAX_LINE)
    ensures var status := NextChunk(rest, early).1;
            && (status == Full ==> NEWLINE !in whole)
            && (status != Full && |whole| > 0 ==> IsLine(whole) && (|after| > 0 ==> Complete(whole)))
            && (status == Ended ==> |after| == 0)
            && (status != Ended ==> |after| < |rest|)
  {
    var chunk := NextChunk(rest, early).0;
    assert chunk == rest[..|chunk|];
    CutAppend(pending, chunk);
    Gathered(pending, rest, early);
    Moved(lines, k, pending, rest, |chunk|, whole, after);
  }

  // A whole line is the next of the lines, kept as the loop holds it.
  lemma LineTaken(lines: seq<string>, k: nat, whole: string, after: string, line: string, truncated: bool)
    requires k <= |lines| && lines[k..] == Lines(whole + after)
    requires line == Cut(whole) && (truncated <==> |whole| > MAX_LINE)
    requires IsLine(whole) && (|after| > 0 ==> Complete(whole))
    ensures k < |lines| && Kept(lines[k]) == Shown(TrimRight(line, LineEnd), truncated)
    ensures Gathering(lines, k + 1, "", after, "", false)
  {
    LineDone(lines, k, whole, after);
  }

  // The limiter is the one after the first k lines.
  ghost predicate Taken(lines: seq<string>, clock: nat -> int, on: nat -> bool, k: nat, l: Limiter) {
    k <= |lines| && Limited(lines, clock, on, k) == l
  }

  lemma {:induction false} TakenNext(lines: seq<string>, clock: nat -> int, on: nat -> bool, k: nat, l: Limiter,
                                     entry: Entry, next: Limiter)
    requires Taken(lines, clock, on, k, l) && k < |lines| && Kept(lines[k]) == entry
    requires next == Limit(l, entry, clock(k + 1), on(k + 1))
    ensures Taken(lines, clock, on, k + 1, next)
  {
    LimitedNext(lines, clock, on, k, lines[k]);
  }

  // The whole stream is read, whether or not logging is on.
  method Capture(input: string, early: bool, failed: bool, clock: nat -> int, on: nat -> bool)
    returns (log: seq<Entry>, unread: string)
    ensures log == Expected(Lines(input), clock, on, failed)
    ensures unread == ""
  {
    log, unread := [], input;
    var line, truncated := "", false;
    var window := clock(0);
    var written, suppressed, k := 0, 0, 0;
    ghost var lines, pending := Lines(input), "";
    var open := true;
    assert pending + unread == input;
    while open
      invariant Gathering(lines, k, pending, unread, line, truncated)
      invariant open || |pending + unread| == 0
      invariant Taken(lines, clock, on, k, Limiter(window, written, suppressed, log))
      decreases |unread|, open
    {
      var (chunk, status) := NextChunk(unread, early);
      ghost var before, rest, line0, truncated0 := pending, unread, line, truncated;
      pending := pending + chunk;
      unread := unread[|chunk|..];
      var remaining := MAX_LINE - |line|;
      if |chunk| > remaining {
        truncated := true;
        chunk := chunk[..remaining];
      }
      line := line + chunk;
      Gather(lines, k, before, rest, line0, truncated0, early, pending, unread, line, truncated);
      if status != Full {
        if |line| > 0 {
          LineTaken(lines, k, pending, unread, line, truncated);
          ghost var limiter, entry := Limiter(window, written, suppressed, log), Kept(lines[k]);
          k := k + 1;
          window, written, suppressed, log :=
            TakeLine(window, written, suppressed, log, line, truncated, clock(k), on(k));
          TakenNext(lines, clock, on, k - 1, limiter, entry, Limiter(window, written, suppressed, log));
          line, truncated := "", false;
        }
        pending := "";
        if status == Ended {
          open := false;
        }
      }
    }
    assert |lines[k..]| == 0;
    log := Finished(log, suppressed, failed, on(k + 1));
  }

  // ----- What the log says about the stream

  // Read from its end, the log accounts for the lines one after the other: an entry shows
  // the next line, or stands for as many lines as it counts.
  ghost predicate Accounts(log: seq<Entry>, lines: seq<string>)
    decreases |log|
  {
    if |log| == 0 then |lines| == 0
    else
      var last := log[|log| - 1];
      match last
      case Shown(_, _) =>
        |lines| > 0 && last == Kept(lines[|lines| - 1]) && Accounts(log[..|log| - 1], lines[..|lines| - 1])
      case Omitted(count) =>
        count <= |lines| && Accounts(log[..|log| - 1], lines[..|lines| - count])
      case ReadFailed =>
        Accounts(log[..|log| - 1], lines)
  }

  lemma FlushAccounts(log: seq<Entry>, suppressed: nat, lines: seq<string>)
    requires suppressed <= |lines| && Accounts(log, lines[..|lines| - suppressed])
    ensures Accounts(Flushed(log, suppressed), lines)
  {
    if suppressed > 0 {
      assert Flushed(log, suppressed)[..|log|] == log;
    } else {
      assert lines[..|lines|] == lines;
    }
  }

  lemma ShownAccounts(log: seq<Entry>, lines: seq<string>, line: string)
    requires Accounts(log, lines)
    ensures Accounts(log + [Kept(line)], lines + [line])
  {
    assert (log + [Kept(line)])[..|log|] == log;
    assert (lines + [line])[..|lines|] == lines;
  }

  // The log together with the suppressed lines accounts for the lines so far.
  ghost predicate Balanced(l: Limiter, lines: seq<string>) {
    && l.written <= BURST && (l.suppressed > 0 ==> l.written == BURST)
    && l.suppressed <= |lines| && Accounts(l.log, lines[..|lines| - l.suppressed])
  }

  lemma RollBalanced(l: Limiter, lines: seq<string>, now: int)
    requires Balanced(l, lines)
    ensures Balanced(Rolled(l, now, true), lines)
  {
    if now - l.window >= SECOND {
      FlushAccounts(l.log, l.suppressed, lines);
      assert lines[..|lines|] == lines;
    }
  }

  lemma AddBalanced(l: Limiter, lines: seq<string>, line: string)
    requires Balanced(l, lines)
    ensures Balanced(if l.written < BURST then l.(written := l.written + 1, log := l.log + [Kept(line)])
                     else l.(suppressed := l.suppressed + 1), lines + [line])
  {
    if l.written < BURST {
      assert lines[..|lines|] == lines;
      ShownAccounts(l.log, lines, line);
      assert (lines + [line])[..|lines| + 1] == lines + [line];
    } else {
      assert (lines + [line])[..|lines| - l.suppressed] == lines[..|lines| - l.suppressed];
    }
  }

  lemma LimitBalanced(l: Limiter, next: Limiter, before: seq<string>, after: seq<string>, line: string, now: int)
    requires Balanced(l, before) && after == before + [line]
    requires next == Limit(l, Kept(line), now, true)
    ensures Balanced(next, after)
  {
    RollBalanced(l, before, now);
    AddBalanced(Rolled(l, now, true), before, line);
  }

  lemma {:induction false} LimitedAccounts(lines: seq<string>, clock: nat -> int, on: nat -> bool, k: nat)
    requires k <= |lines| && forall i :: on(i)
    ensures Balanced(Limited(lines, clock, on, k), lines[..k])
  {
    if k > 0 {
      var before, line := lines[..k - 1], lines[k - 1];
      LimitedAccounts(lines, clock, on, k - 1);
      LimitedNext(lines, clock, on, k - 1, line);
      TakeNext(lines, k - 1);
      LimitBalanced(Limited(lines, clock, on, k - 1), Limited(lines, clock, on, k), before, lines[..k], line, clock(k));
    }
  }

  // With logging enabled throughout, the log accounts for every line of the stream, in order.
  lemma ExpectedAccounts(lines: seq<string>, clock: nat -> int, on: nat -> bool, failed: bool)
    requires forall i :: on(i)
    ensures Accounts(Expected(lines, clock, on, failed), lines)
  {
    var l := Limited(lines, clock, on, |lines|);
    LimitedAccounts(lines, clock, on, |lines|);
    assert lines[..|lines|] == lines;
    if failed {
      assert (l.log + [ReadFailed])[..|l.log|] == l.log;
      FlushAccounts(l.log + [ReadFailed], l.suppressed, lines);
    } else {
      FlushAccounts(l.log, l.suppressed, lines);
    }
  }

  function ShownCount(log: seq<Entry>): nat {
    if |log| == 0 then 0
    else ShownCount(log[..|log| - 1]) + if log[|log| - 1].Shown? then 1 else 0
  }

  function OmittedCount(log: seq<Entry>): nat {
    if |log| == 0 then 0
    else OmittedCount(log[..|log| - 1]) + if log[|log| - 1].Omitted? then log[|log| - 1].count else 0
  }

  lemma {:induction false} AccountsCounts(log: seq<Entry>, lines: seq<string>)
    requires Accounts(log, lines)
    ensures ShownCount(log) + OmittedCount(log) == |lines|
    decreases |log|
  {
    if |log| > 0 {
      var rest := log[..|log| - 1];
      match log[|log| - 1]
      case Shown(_, _) => AccountsCounts(rest, lines[..|lines| - 1]);
      case Omitted(count) => AccountsCounts(rest, lines[..|lines| - count]);
      case ReadFailed => AccountsCounts(rest, lines);
    }
  }

  // Lines in the stream are lines written plus lines reported as omitted.
  lemma LinesConserved(input: string, clock: nat -> int, on: nat -> bool, failed: bool)
    requires forall i :: on(i)
    ensures var log := Expected(Lines(input), clock, on, failed);
            ShownCount(log) + OmittedCount(log) == |Lines(input)|
  {
    ExpectedAccounts(Lines(input), clock, on, failed);
    AccountsCounts(Expected(Lines(input), clock, on, failed), Lines(input));
  }

  // ----- The rate

  predicate Writes(lines: seq<string>, clock: nat -> int, on: nat -> bool, k: nat)
    requires 1 <= k <= |lines|
  {
    on(k) && Rolled(Limited(lines, clock, on, k - 1), clock(k), on(k)).written < BURST
  }

  // How many of the lines after the first i and up to the first j are written.
  function WrittenIn(lines: seq<string>, clock: nat -> int, on: nat -> bool, i: nat, j: nat): nat
    requires i <= j <= |lines|
  {
    if i == j then 0
    else WrittenIn(lines, clock, on, i, j - 1) + if Writes(lines, clock, on, j) then 1 else 0
  }

  ghost predicate Steady(clock: nat -> int) {
    forall i, j :: 0 <= i <= j ==> clock(i) <= clock(j)
  }

  // Between line i and line j the window is the same, or it began after line i did.
  lemma {:induction false} WindowCount(lines: seq<string>, clock: nat -> int, on: nat -> bool, i: nat, j: nat)
    requires 1 <= i <= j <= |lines| && Steady(clock) && clock(j) - clock(i) < SECOND
    ensures var before, after := Limited(lines, clock, on, i - 1), Limited(lines, clock, on, j);
            before.written <= BURST && after.written <= BURST
            && var count := WrittenIn(lines, clock, on, i - 1, j);
               if after.window == before.window then before.written + count == after.written
               else after.window >= clock(i) && before.written + count <= BURST + after.written
    decreases j
  {
    WrittenBounded(lines, clock, on, i - 1);
    WrittenBounded(lines, clock, on, j);
    if i < j {
      assert clock(i) <= clock(j - 1) <= clock(j);
      WindowCount(lines, clock, on, i, j - 1);
    } else {
      assert WrittenIn(lines, clock, on, i - 1, i - 1) == 0;
    }
  }

  lemma {:induction false} WrittenBounded(lines: seq<string>, clock: nat -> int, on: nat -> bool, k: nat)
    requires k <= |lines|
    ensures Limited(lines, clock, on, k).written <= BURST
  {
    if k > 0 {
      WrittenBounded(lines, clock, on, k - 1);
    }
  }

  // At most 20 lines are written in one window and at most 40 in any second.
  lemma RateBounded(lines: seq<string>, clock: nat -> int, on: nat -> bool, i: nat, j: nat)
    requires 1 <= i <= j <= |lines| && Steady(clock) && clock(j) - clock(i) < 1_000_000_000
    ensures WrittenIn(lines, clock, on, i - 1, j) <= 40
    ensures Limited(lines, clock, on, i - 1).window == Limited(lines, clock, on, j).window ==>
              WrittenIn(lines, clock, on, i - 1, j) <= 20
  {
    WindowCount(lines, clock, on, i, j);
  }

  // The limiter's counter counts lines written since its window began.
  lemma {:induction false} WindowStart(lines: seq<string>, clock: nat -> int, on: nat -> bool, k: nat) returns (i: nat)
    requires k <= |lines| && Steady(clock)
    ensures i <= k && WrittenIn(lines, clock, on, i, k) == Limited(lines, clock, on, k).written
    ensures Limited(lines, clock, on, k).window <= clock(if i < k then i + 1 else i)
  {
    if k == 0 {
      i := 0;
    } else {
      var l := Limited(lines, clock, on, k - 1);
      if clock(k) - l.window >= SECOND {
        i := k - 1;
      } else {
        i := WindowStart(lines, clock, on, k - 1);
      }
    }
  }

  // A line is omitted only when 20 lines have been written less than a second before it.
  lemma OmittedOnlyWhenFull(lines: seq<string>, clock: nat -> int, on: nat -> bool, k: nat) returns (i: nat)
    requires 1 <= k <= |lines| && Steady(clock) && on(k) && !Writes(lines, clock, on, k)
    ensures i < k - 1 && WrittenIn(lines, clock, on, i, k - 1) == 20 && clock(k) - clock(i + 1) < 1_000_000_000
  {
    WrittenBounded(lines, clock, on, k - 1);
    i := WindowStart(lines, clock, on, k - 1);
  }

  // What counts as written is what the log shows.
  lemma {:induction false} ShownIsWritten(lines: seq<string>, clock: nat -> int, on: nat -> bool, k: nat)
    requires k <= |lines|
    ensures ShownCount(Limited(lines, clock, on, k).log) == WrittenIn(lines, clock, on, 0, k)
  {
    if k > 0 {
      ShownIsWritten(lines, clock, on, k - 1);
      LimitShown(Limited(lines, clock, on, k - 1), Kept(lines[k - 1]), clock(k), on(k));
    }
  }

  lemma LimitShown(l: Limiter, entry: Entry, now: int, on: bool)
    requires entry.Shown?
    ensures ShownCount(Limit(l, entry, now, on).log)
         == ShownCount(l.log) + if on && Rolled(l, now, on).written < BURST then 1 else 0
  {
    var r := Rolled(l, now, on);
    assert (l.log + [Omitted(l.suppressed)])[..|l.log|] == l.log;
    assert (r.log + [entry])[..|r.log|] == r.log;
  }

  // What is shown of a line is a prefix of it: all of it up to its line end, unless the
  // line with its newline is longer than 16 KiB, and then it says so.
  lemma {:induction false} KeptIsPrefix(line: string)
    ensures var e := Kept(line);
            && e.Shown? && e.text <= line && |e.text| <= 16384 && (e.truncated <==> |line| > 16384)
            && (forall i :: |e.text| <= i < |line| && i < 16384 ==> line[i] == '\r' || line[i] == '\n')
            && (|e.text| > 0 ==> e.text[|e.text| - 1] != '\r' && e.text[|e.text| - 1] != '\n')
  {
    TrimRightSpec(Cut(line));
  }

  lemma {:induction false} TrimRightSpec(s: string)
    ensures var r := TrimRight(s, LineEnd);
            && r <= s && (forall i :: |r| <= i < |s| ==> LineEnd(s[i]))
            && (|r| > 0 ==> !LineEnd(r[|r| - 1]))
    decreases |s|
  {
    if |s| > 0 && LineEnd(s[|s| - 1]) {
      TrimRightSpec(s[..|s| - 1]);
    }
  }

  // ----- Failed reads, and logging switched off

  // Every omission but the last is followed by a line.
  ghost predicate LineAfterOmission(log: seq<Entry>) {
    forall i :: 0 <= i < |log| - 1 && log[i].Omitted? ==> log[i + 1].Shown?
  }

  ghost predicate OnlyLines(log: seq<Entry>) {
    && ReadFailed !in log && LineAfterOmission(log) && (|log| > 0 ==> log[|log| - 1].Shown?)
  }

  lemma {:induction false} LineAdded(log: seq<Entry>, suppressed: nat, entry: Entry)
    requires OnlyLines(log) && entry.Shown?
    ensures OnlyLines(log + [entry]) && OnlyLines(Flushed(log, suppressed) + [entry])
  {}

  lemma {:induction false} LimitedLines(lines: seq<string>, clock: nat -> int, on: nat -> bool, k: nat)
    requires k <= |lines|
    ensures OnlyLines(Limited(lines, clock, on, k).log)
  {
    if k > 0 {
      var l := Limited(lines, clock, on, k - 1);
      LimitedLines(lines, clock, on, k - 1);
      LineAdded(l.log, l.suppressed, Kept(lines[k - 1]));
    }
  }

  // A failed read is reported exactly if logging is on, once, after the last line and
  // before the last omission.
  lemma {:induction false} FailureReported(lines: seq<string>, clock: nat -> int, on: nat -> bool, failed: bool)
    ensures var log := Expected(lines, clock, on, failed);
            && (ReadFailed in log <==> failed && on(|lines| + 1))
            && (forall i, j :: 0 <= i < j < |log| && log[i] == ReadFailed ==> j == |log| - 1 && log[j].Omitted?)
            && LineAfterOmission(log)
  {
    LimitedLines(lines, clock, on, |lines|);
    var l := Limited(lines, clock, on, |lines|);
    if failed && on(|lines| + 1) {
      var reported := l.log + [ReadFailed];
      assert reported[|l.log|] == ReadFailed;
      assert reported <= Flushed(reported, l.suppressed);
    }
  }

  lemma {:induction false} SilentUpTo(lines: seq<string>, clock: nat -> int, on: nat -> bool, k: nat)
    requires k <= |lines| && forall i :: !on(i)
    ensures Limited(lines, clock, on, k).log == []
  {
    if k > 0 {
      SilentUpTo(lines, clock, on, k - 1);
    }
  }

  // With logging off throughout, nothing is written.
  lemma Silent(lines: seq<string>, clock: nat -> int, on: nat -> bool, failed: bool)
    requires forall i :: !on(i)
    ensures Expected(lines, clock, on, failed) == []
  {
    SilentUpTo(lines, clock, on, |lines|);
  }
}
