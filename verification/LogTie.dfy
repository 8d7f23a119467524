/** A run in which the budget for the logs takes the newest record of a node. */
module LogTie {
  import opened Logs
  import opened LogRuns

  // The smallest limit that the settings allow, and the length of the records.
  const LIMIT: int := 1048576
  const SIZE: int := 16384

  // Node a gets 18 records, the last two at one moment; then node b gets 47.
  const SHARED: nat := 18
  const COUNT: nat := 65

  // The 65 records as they are written, and when. None is longer than what is kept of a
  // line of a runtime, and time never goes back.
  ghost predicate Setup(stamps: seq<string>, lines: seq<string>, records: seq<string>, nows: seq<int>) {
    && |stamps| == |lines| == |records| == |nows| == COUNT
    && (forall i :: 0 <= i < COUNT ==> records[i] == Record(stamps[i], lines[i]) && |records[i]| == SIZE)
    && (forall i, j :: 0 <= i <= j < COUNT ==> nows[i] <= nows[j])
    && nows[16] == nows[17] && records[16] != records[17]
  }

  function Node(a: string, b: string, i: nat): string {
    if i < SHARED then a else b
  }

  function Appending(a: string, b: string, stamps: seq<string>, lines: seq<string>, i: nat): LogEvent
    requires i < |stamps| && i < |lines|
  {
    Append(Node(a, b, i), stamps[i], lines[i], LIMIT)
  }

  // ----- The files

  // The records from number i up to number j.
  function Text(records: seq<string>, i: nat, j: nat): string
    requires j <= |records|
  {
    if j <= i then "" else Text(records, i, j - 1) + records[j - 1]
  }

  function Filled(records: seq<string>, nows: seq<int>, i: nat, j: nat): File
    requires 0 < j <= |records| && j <= |nows|
  {
    File(Text(records, i, j), nows[j - 1])
  }

  lemma {:induction false} TextLength(records: seq<string>, i: nat, j: nat)
    requires i <= j <= |records| && forall k :: 0 <= k < |records| ==> |records[k]| == 16384
    ensures |Text(records, i, j)| == (j - i) * 16384
  {
    if i < j {
      TextLength(records, i, j - 1);
    }
  }

  lemma OneRecord(records: seq<string>, i: nat)
    requires i < |records|
    ensures Text(records, i, i + 1) == records[i]
  {
    assert "" + records[i] == records[i];
  }

  // The three ways in which a record gets into the current file.
  lemma Start(files: Files, id: string, records: seq<string>, nows: seq<int>, j: nat)
    requires Key(id, 0) !in files && j < |records| && j < |nows|
    ensures Appended(files, id, records[j], nows[j], LIMIT) == files[Key(id, 0) := Filled(records, nows, j, j + 1)]
  {
    OneRecord(records, j);
    assert "" + records[j] == records[j];
  }

  lemma Grow(files: Files, id: string, records: seq<string>, nows: seq<int>, i: nat, j: nat)
    requires i < j < |records| && j < |nows| && j - i <= 16
    requires forall k :: 0 <= k < |records| ==> |records[k]| == 16384
    requires Key(id, 0) in files && files[Key(id, 0)] == Filled(records, nows, i, j)
    ensures Appended(files, id, records[j], nows[j], LIMIT) == files[Key(id, 0) := Filled(records, nows, i, j + 1)]
  {
    TextLength(records, i, j);
  }

  lemma Rotate(files: Files, id: string, records: seq<string>, nows: seq<int>, i: nat, j: nat)
    requires i < j < |records| && j < |nows| && j - i == 17
    requires forall k :: 0 <= k < |records| ==> |records[k]| == 16384
    requires Key(id, 0) in files && files[Key(id, 0)] == Filled(records, nows, i, j)
    ensures Appended(files, id, records[j], nows[j], LIMIT)
         == Rotated(files, id)[Key(id, 0) := Filled(records, nows, j, j + 1)]
  {
    TextLength(records, i, j);
    OneRecord(records, j);
    assert "" + records[j] == records[j];
  }

  function FilesOfA(a: string, records: seq<string>, nows: seq<int>, k: nat): Files
    requires |records| == |nows| == COUNT && k <= SHARED
  {
    if k == 0 then map[]
    else if k <= 17 then map[Key(a, 0) := Filled(records, nows, 0, k)]
    else map[Key(a, 1) := Filled(records, nows, 0, 17), Key(a, 0) := Filled(records, nows, 17, 18)]
  }

  // The archives of b after k appends, beside the files of a, and where its current file starts.
  function BesideB(a: string, b: string, records: seq<string>, nows: seq<int>, k: nat): Files
    requires |records| == |nows| == COUNT
  {
    var files := FilesOfA(a, records, nows, SHARED);
    if k <= 35 then files
    else if k <= 52 then files[Key(b, 1) := Filled(records, nows, 18, 35)]
    else files[Key(b, 2) := Filled(records, nows, 18, 35)][Key(b, 1) := Filled(records, nows, 35, 52)]
  }

  function StartB(k: nat): nat {
    if k <= 35 then 18 else if k <= 52 then 35 else 52
  }

  // The files after k appends.
  function FilesAt(a: string, b: string, records: seq<string>, nows: seq<int>, k: nat): Files
    requires |records| == |nows| == COUNT && k <= COUNT
  {
    if k <= SHARED then FilesOfA(a, records, nows, k)
    else BesideB(a, b, records, nows, k)[Key(b, 0) := Filled(records, nows, StartB(k), k)]
  }

  lemma FilesNextA(a: string, records: seq<string>, nows: seq<int>, k: nat)
    requires |records| == |nows| == COUNT && k < SHARED
    requires forall i :: 0 <= i < |records| ==> |records[i]| == 16384
    ensures Appended(FilesOfA(a, records, nows, k), a, records[k], nows[k], LIMIT) == FilesOfA(a, records, nows, k + 1)
  {
    var files := FilesOfA(a, records, nows, k);
    if k == 0 {
      Start(files, a, records, nows, k);
    } else if k < 17 {
      Grow(files, a, records, nows, 0, k);
    } else {
      Rotate(files, a, records, nows, 0, k);
    }
  }

  lemma RotateB(a: string, b: string, records: seq<string>, nows: seq<int>, k: nat)
    requires |records| == |nows| == COUNT && (k == 35 || k == 52) && a != b
    ensures Rotated(FilesAt(a, b, records, nows, k), b)[Key(b, 0) := Filled(records, nows, k, k + 1)]
         == FilesAt(a, b, records, nows, k + 1)
  {}

  lemma FilesNextB(a: string, b: string, records: seq<string>, nows: seq<int>, k: nat)
    requires |records| == |nows| == COUNT && SHARED <= k < COUNT && a != b
    requires forall i :: 0 <= i < |records| ==> |records[i]| == 16384
    ensures Appended(FilesAt(a, b, records, nows, k), b, records[k], nows[k], LIMIT)
         == FilesAt(a, b, records, nows, k + 1)
  {
    var files := FilesAt(a, b, records, nows, k);
    if k == 18 {
      Start(files, b, records, nows, k);
    } else if k == 35 || k == 52 {
      Rotate(files, b, records, nows, StartB(k), k);
      RotateB(a, b, records, nows, k);
    } else {
      Grow(files, b, records, nows, StartB(k), k);
    }
  }

  lemma FilesNext(a: string, b: string, records: seq<string>, nows: seq<int>, k: nat)
    requires |records| == |nows| == COUNT && k < COUNT && a != b
    requires forall i :: 0 <= i < |records| ==> |records[i]| == 16384
    ensures Appended(FilesAt(a, b, records, nows, k), Node(a, b, k), records[k], nows[k], LIMIT)
         == FilesAt(a, b, records, nows, k + 1)
  {
    if k < SHARED {
      FilesNextA(a, records, nows, k);
    } else {
      FilesNextB(a, b, records, nows, k);
    }
  }

  // ----- The run

  ghost function World(events: seq<LogEvent>, nows: seq<int>, k: nat): LogWorld
    requires k <= |events| && k <= |nows| && |nows| > 0 && forall i :: 0 <= i < k ==> events[i].Append?
  {
    if k == 0 then LogWorld(map[], map[], map[], nows[0])
    else LogStep(World(events, nows, k - 1), events[k - 1], nows[k - 1])
  }

  ghost predicate Appendings(a: string, b: string, stamps: seq<string>, lines: seq<string>, events: seq<LogEvent>) {
    |stamps| == |lines| == |events| == COUNT
    && forall i :: 0 <= i < COUNT ==> events[i] == Appending(a, b, stamps, lines, i)
  }

  lemma WorldNext(a: string, b: string, stamps: seq<string>, lines: seq<string>, records: seq<string>,
                  nows: seq<int>, events: seq<LogEvent>, k: nat)
    requires Setup(stamps, lines, records, nows) && Appendings(a, b, stamps, lines, events) && k < COUNT
    ensures Appends(World(events, nows, k), World(events, nows, k + 1), Node(a, b, k), records[k], LIMIT, nows[k])
  {
    StepAppends(World(events, nows, k), Node(a, b, k), stamps[k], lines[k], LIMIT, nows[k]);
  }

  lemma FilesStep(w: LogWorld, after: LogWorld, a: string, b: string, records: seq<string>, nows: seq<int>, k: nat)
    requires |records| == |nows| == COUNT && k < COUNT && a != b
    requires forall i :: 0 <= i < |records| ==> |records[i]| == 16384
    requires w.files == FilesAt(a, b, records, nows, k)
    requires Appends(w, after, Node(a, b, k), records[k], LIMIT, nows[k])
    ensures after.files == FilesAt(a, b, records, nows, k + 1)
  {
    FilesNext(a, b, records, nows, k);
  }

  function ShareOfA(k: nat): nat {
    if k <= SHARED then k else SHARED
  }

  lemma RecordsStep(w: LogWorld, after: LogWorld, a: string, b: string, records: seq<string>, nows: seq<int>, k: nat)
    requires |records| == |nows| == COUNT && k < COUNT && a != b
    requires Records(w, a) == records[..ShareOfA(k)]
    requires Appends(w, after, Node(a, b, k), records[k], LIMIT, nows[k])
    ensures Records(after, a) == records[..ShareOfA(k + 1)]
  {
    if k < SHARED {
      assert records[..k + 1] == records[..k] + [records[k]];
    }
  }

  lemma {:induction false} WorldAfter(a: string, b: string, stamps: seq<string>, lines: seq<string>,
                                      records: seq<string>, nows: seq<int>, events: seq<LogEvent>, k: nat)
    requires Setup(stamps, lines, records, nows) && Appendings(a, b, stamps, lines, events) && a != b && k <= COUNT
    ensures World(events, nows, k).files == FilesAt(a, b, records, nows, k)
    ensures Records(World(events, nows, k), a) == records[..ShareOfA(k)]
  {
    if k > 0 {
      WorldAfter(a, b, stamps, lines, records, nows, events, k - 1);
      WorldNext(a, b, stamps, lines, records, nows, events, k - 1);
      FilesStep(World(events, nows, k - 1), World(events, nows, k), a, b, records, nows, k - 1);
      RecordsStep(World(events, nows, k - 1), World(events, nows, k), a, b, records, nows, k - 1);
    }
  }

  // ----- The pruning

  function Oldest5(a: string, b: string): seq<Key> {
    [Key(a, 0), Key(a, 1), Key(b, 2), Key(b, 1), Key(b, 0)]
  }

  lemma PruningPossible(a: string, b: string, records: seq<string>, nows: seq<int>, files: Files, order: seq<Key>)
    requires |records| == |nows| == COUNT && a != b && order == Oldest5(a, b)
    requires forall i :: 0 <= i < |records| ==> |records[i]| == 16384
    requires forall i, j :: 0 <= i <= j < COUNT ==> nows[i] <= nows[j]
    requires nows[16] == nows[17] && files == FilesAt(a, b, records, nows, COUNT)
    ensures ByAge(files, order) && Pruned(files, order, 1, LIMIT)
    ensures Removed(files, order, 1) == files - {Key(a, 0)}
  {
    TextLength(records, 17, 18);
    TextLength(records, 0, 17);
    TextLength(records, 18, 35);
    TextLength(records, 35, 52);
    TextLength(records, 52, 65);
    assert Bytes(files, order, 5) == 0;
    assert Bytes(files, order, 4) == 13 * 16384;
    assert Bytes(files, order, 3) == 30 * 16384;
    assert Bytes(files, order, 2) == 47 * 16384;
    assert Bytes(files, order, 1) == 64 * 16384;
    assert Bytes(files, order, 0) == 65 * 16384;
    assert Removed(files, order, 0) == files;
  }

  lemma {:induction false} JoinedText(records: seq<string>, n: nat)
    requires n <= |records|
    ensures Joined(records[..n]) == Text(records, 0, n)
  {
    if n > 0 {
      JoinedText(records, n - 1);
      assert records[..n][..n - 1] == records[..n - 1];
    }
  }

  // A text that ends in one block does not end in another one of the same length.
  lemma OtherEnd(text: string, x: string, y: string)
    requires |x| == |y| > 0 && x != y
    ensures !EndsWith(text + x + y, text + x)
  {
    var whole := text + x + y;
    assert whole[|x|..][|text|..] == y;
    assert (text + x)[|text|..] == x;
  }

  // What is left of a ends with a record that is not its last one.
  lemma LeftOfA(a: string, b: string, records: seq<string>, nows: seq<int>)
    requires |records| == |nows| == COUNT && a != b
    requires records[16] != records[17] && forall i :: 0 <= i < |records| ==> |records[i]| == 16384
    ensures !EndsWith(Joined(records[..18]), Retained(FilesAt(a, b, records, nows, COUNT) - {Key(a, 0)}, a))
  {
    var files := FilesAt(a, b, records, nows, COUNT) - {Key(a, 0)};
    JoinedText(records, 18);
    assert Content(files, Key(a, 2)) == "" && Content(files, Key(a, 0)) == "";
    assert Content(files, Key(a, 1)) == Text(records, 0, 17);
    assert Retained(files, a) == Text(records, 0, 17);
    assert Text(records, 0, 17) == Text(records, 0, 16) + records[16];
    assert Text(records, 0, 18) == Text(records, 0, 17) + records[17];
    OtherEnd(Text(records, 0, 16), records[16], records[17]);
  }

  lemma WorldNow(events: seq<LogEvent>, nows: seq<int>, k: nat)
    requires k <= |events| && k <= |nows| && |nows| > 0 && forall i :: 0 <= i < k ==> events[i].Append?
    ensures World(events, nows, k).now == if k == 0 then nows[0] else nows[k - 1]
  {}

  lemma AppendStepped(worlds: seq<LogWorld>, events: seq<LogEvent>, nows: seq<int>, k: nat)
    requires |worlds| == |events| + 1 && k < |events| && k < |nows|
    requires forall i :: 0 <= i <= k ==> events[i].Append?
    requires worlds[k] == World(events, nows, k) && worlds[k + 1] == World(events, nows, k + 1)
    requires forall i, j :: 0 <= i <= j < |nows| ==> nows[i] <= nows[j]
    ensures Stepped(worlds, events, k)
  {
    WorldNow(events, nows, k);
    WorldNow(events, nows, k + 1);
  }

  // Appends, each at its moment, and one pruning right after the last of them.
  lemma RunOfAppends(events: seq<LogEvent>, nows: seq<int>, n: nat) returns (worlds: seq<LogWorld>)
    requires |events| == n + 1 && |nows| == n > 0 && events[n].Maintain?
    requires forall i :: 0 <= i < n ==> events[i].Append?
    requires forall i, j :: 0 <= i <= j < |nows| ==> nows[i] <= nows[j]
    requires Possible(World(events, nows, n), events[n])
    ensures Run(worlds, events) && worlds[n + 1] == LogStep(World(events, nows, n), events[n], nows[n - 1])
  {
    var last := LogStep(World(events, nows, n), events[n], nows[n - 1]);
    worlds := seq(n + 1, k requires 0 <= k <= n => World(events, nows, k)) + [last];
    assert forall k :: 0 <= k <= n ==> worlds[k] == World(events, nows, k);
    LastStepped(worlds, events, nows, n);
    WorldsRun(worlds, events, nows, n);
  }

  lemma LastStepped(worlds: seq<LogWorld>, events: seq<LogEvent>, nows: seq<int>, n: nat)
    requires |worlds| == |events| + 1 && |events| == n + 1 && |nows| == n > 0
    requires forall i :: 0 <= i < n ==> events[i].Append?
    requires worlds[n] == World(events, nows, n) && Possible(worlds[n], events[n])
    requires worlds[n + 1] == LogStep(worlds[n], events[n], nows[n - 1])
    ensures Stepped(worlds, events, n)
  {
    WorldNow(events, nows, n);
  }

  lemma AppendsStepped(worlds: seq<LogWorld>, events: seq<LogEvent>, nows: seq<int>, n: nat)
    requires |worlds| == |events| + 1 && n <= |events| && n <= |nows|
    requires forall i :: 0 <= i < n ==> events[i].Append?
    requires forall i, j :: 0 <= i <= j < |nows| ==> nows[i] <= nows[j]
    requires forall k {:trigger World(events, nows, k)} ::
               0 <= k <= n && |nows| > 0 ==> worlds[k] == World(events, nows, k)
    ensures forall k: nat {:trigger Stepped(worlds, events, k)} :: k < n ==> Stepped(worlds, events, k)
  {
    forall k: nat | k < n
      ensures Stepped(worlds, events, k)
    {
      assert worlds[k] == World(events, nows, k) && worlds[k + 1] == World(events, nows, k + 1);
      AppendStepped(worlds, events, nows, k);
    }
  }

  lemma WorldsRun(worlds: seq<LogWorld>, events: seq<LogEvent>, nows: seq<int>, n: nat)
    requires |worlds| == |events| + 1 && |events| == n + 1 && |nows| == n > 0
    requires forall i :: 0 <= i < n ==> events[i].Append?
    requires forall i, j :: 0 <= i <= j < |nows| ==> nows[i] <= nows[j]
    requires forall k {:trigger World(events, nows, k)} :: 0 <= k <= n ==> worlds[k] == World(events, nows, k)
    requires Stepped(worlds, events, n)
    ensures Run(worlds, events)
  {
    AppendsStepped(worlds, events, nows, n);
    assert worlds[0] == World(events, nows, 0);
  }

  // The events of the run: the appends, and the pruning.
  ghost predicate TieEvents(a: string, b: string, stamps: seq<string>, lines: seq<string>, events: seq<LogEvent>) {
    && |stamps| == |lines| == COUNT && |events| == COUNT + 1
    && (forall i :: 0 <= i < COUNT ==> events[i] == Appending(a, b, stamps, lines, i))
    && events[COUNT] == Maintain(Oldest5(a, b), LIMIT, 1)
  }

  // The texts of the files of a node are not the end of everything appended for it.
  ghost predicate Lost(w: LogWorld, id: string) {
    !EndsWith(Joined(Records(w, id)), Retained(w.files, id))
  }

  lemma TieLast(a: string, b: string, stamps: seq<string>, lines: seq<string>, records: seq<string>, nows: seq<int>,
                events: seq<LogEvent>)
    requires Setup(stamps, lines, records, nows) && TieEvents(a, b, stamps, lines, events) && a != b
    ensures Possible(World(events, nows, COUNT), events[COUNT])
    ensures Lost(LogStep(World(events, nows, COUNT), events[COUNT], nows[COUNT - 1]), a)
  {
    var appends := events[..COUNT];
    WorldAfter(a, b, stamps, lines, records, nows, appends, COUNT);
    WorldSame(appends, events, nows, COUNT);
    PruningPossible(a, b, records, nows, World(events, nows, COUNT).files, Oldest5(a, b));
    LeftOfA(a, b, records, nows);
  }

  // All files under one limit: the two newest records of a come at one moment, the second of
  // them after a rotation, and node b fills the rest. The current file of a is then as old as
  // its archive, and removing it is enough: an order by age may lose the newest record of a
  // and keep the older ones.
  lemma TieLosesNewest(a: string, b: string, stamps: seq<string>, lines: seq<string>, records: seq<string>,
                       nows: seq<int>, events: seq<LogEvent>) returns (worlds: seq<LogWorld>)
    requires Setup(stamps, lines, records, nows) && TieEvents(a, b, stamps, lines, events) && a != b
    ensures Run(worlds, events) && Lost(worlds[|events|], a)
  {
    TieLast(a, b, stamps, lines, records, nows, events);
    worlds := RunOfAppends(events, nows, COUNT);
  }

  lemma {:induction false} WorldSame(appends: seq<LogEvent>, events: seq<LogEvent>, nows: seq<int>, k: nat)
    requires k <= |appends| && k <= |events| && k <= |nows| && |nows| > 0
    requires forall i :: 0 <= i < k ==> events[i].Append? && appends[i] == events[i]
    ensures World(events, nows, k) == World(appends, nows, k)
  {
    if k > 0 {
      WorldSame(appends, events, nows, k - 1);
    }
  }
}
