/** Node logs: appending with rotation, reading the tail, and the budget for all files. */
module Logs {
  import opened Wrappers
  import opened Newlines

  const MAX_SIZE: int := 2097152
  const ARCHIVES: nat := 2
  const MAX_TOKEN: nat := 1048576

  // A log file: the current file of a node is number 0, its archives are 1 and 2.
  datatype Key = Key(id: string, archive: nat)

  datatype File = File(content: string, modified: int)

  type Files = map<Key, File>

  datatype LogsResult = LogsResult(lines: seq<string>, totalBytes: nat, updated: Option<int>)

  datatype LogError = LineTooLong

  function Content(files: Files, key: Key): string {
    if key in files then files[key].content else ""
  }

  // Everything kept for a node, oldest first.
  function Retained(files: Files, id: string): string {
    Content(files, Key(id, 2)) + Content(files, Key(id, 1)) + Content(files, Key(id, 0))
  }

  // ----- Appending

  // Renaming replaces the target; a missing source changes nothing.
  function Renamed<T>(files: map<Key, T>, source: Key, target: Key): map<Key, T> {
    if source in files then (files - {source})[target := files[source]] else files
  }

  function Rotated<T>(files: map<Key, T>, id: string): map<Key, T> {
    Renamed(Renamed(files, Key(id, 1), Key(id, 2)), Key(id, 0), Key(id, 1))
  }

  function FileLimit(limit: int): int {
    if limit > 0 && limit / 4 < MAX_SIZE then (if limit / 4 < 65536 then 65536 else limit / 4) else MAX_SIZE
  }

  function WithoutReturns(line: string): (r: string)
    ensures '\r' !in r
  {
    if |line| == 0 then ""
    else if line[0] == '\r' then WithoutReturns(line[1..])
    else [line[0]] + WithoutReturns(line[1..])
  }

  function Record(stamp: string, line: string): string {
    stamp + " " + WithoutReturns(line) + [NEWLINE]
  }

  function Appended(files: Files, id: string, record: string, now: int, limit: int): Files {
    var r := if |Content(files, Key(id, 0))| > FileLimit(limit) then Rotated(files, id) else files;
    r[Key(id, 0) := File(Content(r, Key(id, 0)) + record, now)]
  }

  // ----- The budget

  // The bytes in the files from index k on.
  function Bytes(files: Files, order: seq<Key>, k: nat): nat
    requires k <= |order|
    decreases |order| - k
  {
    if k == |order| then 0 else |Content(files, order[k])| + Bytes(files, order, k + 1)
  }

  // Files without repetition, the oldest first.
  ghost predicate Sorted(files: Files, order: seq<Key>) {
    && (forall i :: 0 <= i < |order| ==> order[i] in files)
    && (forall i, j :: 0 <= i < j < |order| ==>
          order[i] != order[j] && files[order[i]].modified <= files[order[j]].modified)
  }

  // Every file once, the oldest first.
  ghost predicate ByAge(files: Files, order: seq<Key>) {
    Sorted(files, order) && forall key :: key in files ==> key in order
  }

  // The files sorted so far and those still to come, none of which is older.
  ghost predicate Sorting(files: Files, order: seq<Key>, todo: set<Key>) {
    && Sorted(files, order) && todo <= files.Keys
    && (forall key :: key in files ==> key in todo || key in order)
    && (forall i, key :: 0 <= i < |order| && key in todo ==>
          order[i] != key && files[order[i]].modified <= files[key].modified)
  }

  lemma SortStep(files: Files, order: seq<Key>, todo: set<Key>, key: Key)
    requires Sorting(files, order, todo) && key in todo
    requires forall other :: other in todo ==> files[key].modified <= files[other].modified
    ensures Sorting(files, order + [key], todo - {key})
  {
    assert forall other :: other in order ==> other in order + [key];
  }

  // The files without the first n.
  function Removed<T>(files: map<Key, T>, order: seq<Key>, n: nat): map<Key, T>
    requires n <= |order|
  {
    if n == 0 then files else Removed(files, order, n - 1) - {order[n - 1]}
  }

  // Removing the first n files meets the limit if any removal can, and removing fewer does not.
  ghost predicate Pruned(files: Files, order: seq<Key>, n: nat, limit: int) {
    && n <= |order|
    && (Bytes(files, order, n) <= limit || n == |order|)
    && (n > 0 ==> Bytes(files, order, n - 1) > limit)
  }

  // ----- Reading

  function TailLength(tail: int): nat {
    if tail < 1 || tail > 1000 then 200 else tail
  }

  // The last n of the texts.
  function Last(texts: seq<string>, n: nat): (r: seq<string>)
    ensures |r| == if |texts| <= n then |texts| else n
  {
    if |texts| <= n then texts else Last(texts[1..], n)
  }

  lemma {:induction false} LastIsSuffix(texts: seq<string>, n: nat)
    ensures |texts| >= n ==> Last(texts, n) == texts[|texts| - n..]
    decreases |texts|
  {
    if |texts| > n {
      LastIsSuffix(texts[1..], n);
      assert texts[1..][|texts| - 1 - n..] == texts[|texts| - n..];
    }
  }

  // Keeping the last n of a growing list by dropping the first one when there are more.
  lemma LastAppend(texts: seq<string>, x: string, n: nat)
    requires n > 0
    ensures var window := Last(texts, n) + [x];
            Last(texts + [x], n) == if |window| > n then window[1..] else window
  {
    LastIsSuffix(texts, n);
    LastIsSuffix(texts + [x], n);
  }

  // A line as the scanner reports it: without its newline and one return before it.
  function LineText(line: string): string {
    var body := if |line| > 0 && line[|line| - 1] == NEWLINE then line[..|line| - 1] else line;
    if |body| > 0 && body[|body| - 1] == '\r' then body[..|body| - 1] else body
  }

  function Texts(lines: seq<string>): (texts: seq<string>)
    ensures |texts| == |lines|
  {
    if |lines| == 0 then [] else Texts(lines[..|lines| - 1]) + [LineText(lines[|lines| - 1])]
  }

  function BodyLength(line: string): nat {
    if |line| > 0 && line[|line| - 1] == NEWLINE then |line| - 1 else |line|
  }

  // Some line does not fit into the buffer of the scanner.
  predicate TooLong(lines: seq<string>, max: nat) {
    exists k :: 0 <= k < |lines| && BodyLength(lines[k]) >= max
  }

  // Scans the lines of one file into the window of the last lines.
  method ScanLines(all: seq<string>, max: nat, window: seq<string>, length: nat, ghost read: seq<string>)
    returns (lines: seq<string>, failed: bool)
    requires length > 0 && window == Last(read, length)
    ensures failed <==> TooLong(all, max)
    ensures !failed ==> lines == Last(read + Texts(all), length)
  {
    lines := window;
    var k := 0;
    assert read + Texts(all[..0]) == read;
    while k < |all|
      invariant k <= |all| && lines == Last(read + Texts(all[..k]), length)
      invariant forall i :: 0 <= i < k ==> BodyLength(all[i]) < max
    {
      if BodyLength(all[k]) >= max {
        return lines, true;
      }
      ScanStep(read, all, k, length);
      lines := lines + [LineText(all[k])];
      if |lines| > length {
        lines := lines[1..];
      }
      k := k + 1;
    }
    assert all[..k] == all;
    failed := false;
  }

  lemma ScanStep(read: seq<string>, all: seq<string>, k: nat, length: nat)
    requires k < |all| && length > 0
    ensures var window := Last(read + Texts(all[..k]), length) + [LineText(all[k])];
            Last(read + Texts(all[..k + 1]), length) == if |window| > length then window[1..] else window
  {
    assert all[..k + 1][..k] == all[..k];
    assert read + Texts(all[..k + 1]) == read + Texts(all[..k]) + [LineText(all[k])];
    LastAppend(read + Texts(all[..k]), LineText(all[k]), length);
  }

  // The files of a node, oldest first.
  function Paths(id: string): (paths: seq<Key>)
    ensures |paths| == ARCHIVES + 1
  {
    [Key(id, 2), Key(id, 1), Key(id, 0)]
  }

  // The lines of the first n files.
  function ReadTexts(files: Files, keys: seq<Key>, n: nat): seq<string>
    requires n <= |keys|
  {
    if n == 0 then [] else ReadTexts(files, keys, n - 1) + Texts(Lines(Content(files, keys[n - 1])))
  }

  // A file that does not exist adds no lines.
  lemma MissingFile(files: Files, keys: seq<Key>, n: nat, max: nat)
    requires n < |keys| && keys[n] !in files
    ensures ReadTexts(files, keys, n + 1) == ReadTexts(files, keys, n)
    ensures !TooLong(Lines(Content(files, keys[n])), max)
  {
    var before := ReadTexts(files, keys, n);
    assert before + [] == before;
  }

  predicate AnyTooLong(files: Files, keys: seq<Key>, k: nat, max: nat)
    requires k <= |keys|
    decreases |keys| - k
  {
    k < |keys| && (TooLong(Lines(Content(files, keys[k])), max) || AnyTooLong(files, keys, k + 1, max))
  }

  // The latest modification among the first n files, of those that exist.
  function Newest(files: Files, keys: seq<Key>, n: nat): (r: Option<int>)
    requires n <= |keys|
    ensures r == None <==> forall i :: 0 <= i < n ==> keys[i] !in files
    ensures r.Some? ==> exists i :: 0 <= i < n && keys[i] in files && files[keys[i]].modified == r.value
    ensures r.Some? ==> forall i :: 0 <= i < n && keys[i] in files ==> files[keys[i]].modified <= r.value
  {
    if n == 0 then None
    else
      var before, key := Newest(files, keys, n - 1), keys[n - 1];
      if key in files && (before == None || files[key].modified > before.value) then Some(files[key].modified)
      else before
  }

  class LogDirectory {
    var files: Files

    constructor ()
      ensures files == map[]
    {
      files := map[];
    }

    method AppendLog(id: string, stamp: string, line: string, now: int, limit: int, enabled: bool)
      modifies this
      ensures files == if enabled then Appended(old(files), id, Record(stamp, line), now, limit) else old(files)
    {
      if !enabled {
        return;
      }
      var fileLimit := MAX_SIZE;
      if limit > 0 && limit / 4 < fileLimit {
        fileLimit := if limit / 4 > 65536 then limit / 4 else 65536;
      }
      if Key(id, 0) in files && |files[Key(id, 0)].content| > fileLimit {
        var i := ARCHIVES - 1;
        while i >= 1
          invariant 0 <= i <= 1
          invariant files == if i == 1 then old(files) else Renamed(old(files), Key(id, 1), Key(id, 2))
        {
          files := Renamed(files, Key(id, i), Key(id, i + 1));
          i := i - 1;
        }
        files := Renamed(files, Key(id, 0), Key(id, 1));
      }
      files := files[Key(id, 0) := File(Content(files, Key(id, 0)) + Record(stamp, line), now)];
    }

    // The files in the order of their age; files of the same age in any order.
    method SortByAge() returns (order: seq<Key>)
      ensures ByAge(files, order)
    {
      order := [];
      var todo := files.Keys;
      while todo != {}
        invariant Sorting(files, order, todo)
        decreases todo
      {
        ghost var oldest := Oldest(files, todo);
        var key :| key in todo && forall other :: other in todo ==> files[key].modified <= files[other].modified;
        SortStep(files, order, todo, key);
        order, todo := order + [key], todo - {key};
      }
    }

    // The last lines of a node, over its archives and its current file.
    method Logs(id: string, tail: int) returns (r: Result<LogsResult, LogError>)
      ensures r.Err? <==> AnyTooLong(files, Paths(id), 0, MAX_TOKEN)
      ensures r.Ok? ==>
                r.value == LogsResult(Last(ReadTexts(files, Paths(id), ARCHIVES + 1),
                                           if 1 <= tail <= 1000 then tail else 200),
                                      Bytes(files, Paths(id), 0), Newest(files, Paths(id), ARCHIVES + 1))
    {
      var length := TailLength(tail);
      var lines: seq<string> := [];
      var totalBytes := 0;
      var updated: Option<int> := None;
      var paths, max, i := Paths(id), MAX_TOKEN, 0;
      while i < |paths|
        invariant i <= |paths|
        invariant lines == Last(ReadTexts(files, paths, i), length)
        invariant totalBytes == Bytes(files, paths, 0) - Bytes(files, paths, i)
        invariant updated == Newest(files, paths, i)
        invariant AnyTooLong(files, paths, 0, max) <==> AnyTooLong(files, paths, i, max)
      {
        if paths[i] in files {
          var file := files[paths[i]];
          totalBytes := totalBytes + |file.content|;
          if updated == None || file.modified > updated.value {
            updated := Some(file.modified);
          }
          var failed;
          lines, failed := ScanLines(Lines(file.content), max, lines, length, ReadTexts(files, paths, i));
          if failed {
            return Err(LineTooLong);
          }
        } else {
          MissingFile(files, paths, i, max);
        }
        i := i + 1;
      }
      r := Ok(LogsResult(lines, totalBytes, updated));
    }

    method MaintainLogs(limit: int) returns (current: nat, removed: nat, order: seq<Key>)
      modifies this
      ensures ByAge(old(files), order) && Pruned(old(files), order, removed, limit)
      ensures files == Removed(old(files), order, removed) && current == Bytes(old(files), order, removed)
    {
      order := SortByAge();
      current := TotalBytes(order);
      removed := 0;
      ghost var before := files;
      while removed < |order| && current > limit
        invariant Pruning(before, files, order, removed, current, limit)
        decreases |order| - removed
      {
        PruneStep(before, files, order, removed, current, limit);
        current := current - |files[order[removed]].content|;
        files := files - {order[removed]};
        removed := removed + 1;
      }
    }

    method TotalBytes(order: seq<Key>) returns (total: nat)
      requires ByAge(files, order)
      ensures total == Bytes(files, order, 0)
    {
      total := 0;
      var i := 0;
      while i < |order|
        invariant i <= |order| && total == Bytes(files, order, 0) - Bytes(files, order, i)
      {
        total := total + |files[order[i]].content|;
        i := i + 1;
      }
    }
  }

  // Exactly the first n files are gone.
  lemma {:induction false} RemovedFirst<T>(files: map<Key, T>, order: seq<Key>, n: nat)
    requires n <= |order| && forall i :: 0 <= i < |order| ==> order[i] in files
    requires forall i, j :: 0 <= i < j < |order| ==> order[i] != order[j]
    ensures var rest := Removed(files, order, n);
            && rest.Keys <= files.Keys && (forall key :: key in rest ==> rest[key] == files[key])
            && (forall k :: 0 <= k < |order| ==> (order[k] in rest <==> n <= k))
  {
    if n > 0 {
      RemovedFirst(files, order, n - 1);
    }
  }

  // The loop has removed the first n files, each of them while there was too much.
  ghost predicate Pruning(before: Files, files: Files, order: seq<Key>, n: nat, current: int, limit: int) {
    && n <= |order| && current == Bytes(before, order, n) && files == Removed(before, order, n)
    && (n > 0 ==> Bytes(before, order, n - 1) > limit)
  }

  lemma PruneStep(before: Files, files: Files, order: seq<Key>, n: nat, current: int, limit: int)
    requires ByAge(before, order) && Pruning(before, files, order, n, current, limit)
    requires n < |order| && current > limit
    ensures order[n] in files
    ensures Pruning(before, files - {order[n]}, order, n + 1, current - |files[order[n]].content|, limit)
  {
    RemovedFirst(before, order, n);
  }

  lemma {:induction false} Oldest(files: Files, keys: set<Key>) returns (key: Key)
    requires keys <= files.Keys && keys != {}
    ensures key in keys && forall other :: other in keys ==> files[key].modified <= files[other].modified
    decreases keys
  {
    key :| key in keys;
    var rest := keys - {key};
    assert forall other :: other in keys ==> other in rest || other == key;
    if rest != {} {
      var oldest := Oldest(files, rest);
      if files[oldest].modified < files[key].modified {
        key := oldest;
      }
    }
  }

  // A file of a node is there only if all younger ones are.
  ghost predicate NoGap<T>(files: map<Key, T>, id: string) {
    && (Key(id, 2) in files ==> Key(id, 1) in files)
    && (Key(id, 1) in files ==> Key(id, 0) in files)
  }

  // ----- The end of a text

  // The retained text is the end of the history, cut where a line ends.
  ghost predicate EndsWith(history: string, retained: string) {
    var n := |history| - |retained|;
    n >= 0 && history[n..] == retained && Complete(history[..n])
  }

  lemma EndsWithFrom(history: string, before: string, retained: string)
    requires Complete(before) && history == before + retained
    ensures EndsWith(history, retained)
  {
    assert history[|before|..] == retained && history[..|before|] == before;
  }

  lemma EndsWithParts(history: string, retained: string) returns (before: string)
    requires EndsWith(history, retained)
    ensures Complete(before) && history == before + retained
  {
    before := history[..|history| - |retained|];
  }

  // Archive 2, archive 1 and the current file are the end of the history, each of whole lines.
  ghost predicate IsEnd(files: Files, id: string, history: string) {
    && Complete(Content(files, Key(id, 2))) && Complete(Content(files, Key(id, 1)))
    && Complete(Content(files, Key(id, 0)))
    && EndsWith(history, Retained(files, id))
  }

  lemma EndsWithAppend(history: string, retained: string, record: string)
    requires EndsWith(history, retained)
    ensures EndsWith(history + record, retained + record)
  {
    var before := EndsWithParts(history, retained);
    EndsWithFrom(history + record, before, retained + record);
  }

  // No file that is gone is newer than one that is left.
  lemma RemovedOldest(files: Files, order: seq<Key>, n: nat)
    requires ByAge(files, order) && n <= |order|
    ensures var rest := Removed(files, order, n);
            && rest.Keys <= files.Keys && (forall key :: key in rest ==> rest[key] == files[key])
            && (forall key, left :: key in files && key !in rest && left in rest ==>
                  files[key].modified <= files[left].modified)
  {
    RemovedFirst(files, order, n);
    var rest := Removed(files, order, n);
    forall key, left | key in files && key !in rest && left in rest
      ensures files[key].modified <= files[left].modified
    {
      var i :| 0 <= i < |order| && order[i] == key;
      var j :| 0 <= j < |order| && order[j] == left;
      assert i < n <= j;
    }
  }

  // ----- Reading the tail

  lemma {:induction false} TextsConcat(a: seq<string>, b: seq<string>)
    ensures Texts(a + b) == Texts(a) + Texts(b)
    decreases |b|
  {
    if |b| == 0 {
      assert a + b == a;
    } else {
      var n := |b| - 1;
      TextsConcat(a, b[..n]);
      assert (a + b)[..|a + b| - 1] == a + b[..n];
    }
  }

  lemma TextsOf(a: string, b: string)
    requires Complete(a)
    ensures Texts(Lines(a + b)) == Texts(Lines(a)) + Texts(Lines(b))
  {
    LinesConcat(a, b);
    TextsConcat(Lines(a), Lines(b));
  }

  lemma LinesOfEnd(history: string, retained: string)
    requires EndsWith(history, retained)
    ensures exists before :: Texts(Lines(history)) == before + Texts(Lines(retained))
  {
    var before := EndsWithParts(history, retained);
    TextsOf(before, retained);
  }

  lemma {:induction false} ReadTwo(all: string, a: string, b: string)
    requires all == a + b && Complete(a)
    ensures Texts(Lines(all)) == Texts(Lines(a)) + Texts(Lines(b))
  {
    TextsOf(a, b);
  }

  lemma {:induction false} ReadRetained(two: string, one: string, zero: string)
    requires Complete(two) && Complete(one)
    ensures Texts(Lines(two + one + zero)) == Texts(Lines(two)) + (Texts(Lines(one)) + Texts(Lines(zero)))
  {
    var rest := one + zero;
    ReadTwo(two + one + zero, two, rest);
    ReadTwo(rest, one, zero);
  }

  // Reading the tail of a node gives the last lines of everything that was ever appended,
  // as many as asked for or as are retained.
  lemma TailOfHistory(files: Files, id: string, history: string, tail: int)
    requires IsEnd(files, id, history)
    ensures var read := ReadTexts(files, Paths(id), ARCHIVES + 1);
            var length := if 1 <= tail <= 1000 then tail else 200;
            && read == Texts(Lines(Retained(files, id)))
            && Bytes(files, Paths(id), 0) == |Retained(files, id)|
            && Last(read, length) == Last(Texts(Lines(history)), if |read| < length then |read| else length)
  {
    ReadRetained(Content(files, Key(id, 2)), Content(files, Key(id, 1)), Content(files, Key(id, 0)));
    ReadThree(files, id);
    LinesOfEnd(history, Retained(files, id));
    var read := ReadTexts(files, Paths(id), ARCHIVES + 1);
    var before :| Texts(Lines(history)) == before + read;
    LastOfEnd(before, read, TailLength(tail));
  }

  lemma ReadStep(files: Files, keys: seq<Key>, n: nat)
    requires n < |keys|
    ensures ReadTexts(files, keys, n + 1) == ReadTexts(files, keys, n) + Texts(Lines(Content(files, keys[n])))
    ensures Bytes(files, keys, n) == |Content(files, keys[n])| + Bytes(files, keys, n + 1)
  {}

  lemma AssociateTexts(a: seq<string>, b: seq<string>, c: seq<string>)
    ensures [] + a + b + c == a + (b + c)
  {}

  lemma ReadThree(files: Files, id: string)
    ensures ReadTexts(files, Paths(id), ARCHIVES + 1)
         == Texts(Lines(Content(files, Key(id, 2))))
            + (Texts(Lines(Content(files, Key(id, 1)))) + Texts(Lines(Content(files, Key(id, 0)))))
    ensures Bytes(files, Paths(id), 0) == |Retained(files, id)|
  {
    var keys := Paths(id);
    ReadStep(files, keys, 0);
    ReadStep(files, keys, 1);
    ReadStep(files, keys, 2);
    AssociateTexts(Texts(Lines(Content(files, keys[0]))), Texts(Lines(Content(files, keys[1]))),
                   Texts(Lines(Content(files, keys[2]))));
  }

  lemma LastOfEnd(before: seq<string>, read: seq<string>, length: nat)
    ensures Last(read, length) == Last(before + read, if |read| < length then |read| else length)
  {
    var n := if |read| < length then |read| else length;
    LastIsSuffix(read, n);
    LastIsSuffix(before + read, n);
    assert read[|read| - n..] == (before + read)[|before + read| - n..];
  }
}
