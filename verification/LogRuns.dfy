/** Runs of appends, rotations and prunings: when the files hold the last records of a node. */
module LogRuns {
  import opened Newlines
  import opened Logs

  // ----- Numbered records

  datatype LogEvent =
    | Append(id: string, stamp: string, line: string, limit: int)
    | Maintain(order: seq<Key>, limit: int, removed: nat)

  // The files, every record ever appended for a node, and the numbers of the records that
  // each file holds.
  datatype LogWorld = LogWorld(files: Files, records: map<string, seq<string>>, held: map<Key, seq<nat>>, now: int)

  function Records(w: LogWorld, id: string): seq<string> {
    if id in w.records then w.records[id] else []
  }

  function Held(held: map<Key, seq<nat>>, key: Key): seq<nat> {
    if key in held then held[key] else []
  }

  // The numbers of all records that are kept for a node, in the order of the files.
  function Kept(held: map<Key, seq<nat>>, id: string): seq<nat> {
    Held(held, Key(id, 2)) + Held(held, Key(id, 1)) + Held(held, Key(id, 0))
  }

  // The last numbers below n, in order.
  ghost predicate AreLast(numbers: seq<nat>, n: nat) {
    |numbers| <= n && forall i :: 0 <= i < |numbers| ==> numbers[i] == n - |numbers| + i
  }

  // What is kept for a node are its last records, without a gap.
  ghost predicate Faithful(w: LogWorld, id: string) {
    AreLast(Kept(w.held, id), |Records(w, id)|)
  }

  function Renumbered(held: map<Key, seq<nat>>, id: string, n: nat, full: bool): map<Key, seq<nat>> {
    var r := if full then Rotated(held, id) else held;
    r[Key(id, 0) := Held(r, Key(id, 0)) + [n]]
  }

  ghost predicate Possible(w: LogWorld, e: LogEvent) {
    e.Maintain? ==> ByAge(w.files, e.order) && Pruned(w.files, e.order, e.removed, e.limit)
  }

  // What an append does to files, records and numbers.
  ghost predicate Appends(w: LogWorld, after: LogWorld, id: string, record: string, limit: int, now: int) {
    && after.files == Appended(w.files, id, record, now, limit)
    && after.records == w.records[id := Records(w, id) + [record]]
    && after.held ==
       Renumbered(w.held, id, |Records(w, id)|, |Content(w.files, Key(id, 0))| > FileLimit(limit))
  }

  ghost function LogStep(w: LogWorld, e: LogEvent, now: int): LogWorld
    requires Possible(w, e)
  {
    match e
    case Append(id, stamp, line, limit) =>
      var record, before := Record(stamp, line), Records(w, id);
      var full := |Content(w.files, Key(id, 0))| > FileLimit(limit);
      LogWorld(Appended(w.files, id, record, now, limit), w.records[id := before + [record]],
               Renumbered(w.held, id, |before|, full), now)
    case Maintain(order, limit, removed) =>
      LogWorld(Removed(w.files, order, removed), w.records, Removed(w.held, order, removed), now)
  }

  lemma StepAppends(w: LogWorld, id: string, stamp: string, line: string, limit: int, now: int)
    ensures Appends(w, LogStep(w, Append(id, stamp, line, limit), now), id, Record(stamp, line), limit, now)
    ensures |Record(stamp, line)| > 0 && Complete(Record(stamp, line))
  {}

  // The k-th event is possible and leads to the next world, and time does not go back.
  ghost predicate Stepped(worlds: seq<LogWorld>, events: seq<LogEvent>, k: nat)
    requires k < |events| && |worlds| == |events| + 1
  {
    && Possible(worlds[k], events[k]) && worlds[k].now <= worlds[k + 1].now
    && worlds[k + 1] == LogStep(worlds[k], events[k], worlds[k + 1].now)
  }

  ghost predicate Empty(w: LogWorld) {
    w.files == map[] && w.records == map[] && w.held == map[]
  }

  ghost predicate Run(worlds: seq<LogWorld>, events: seq<LogEvent>) {
    && |worlds| == |events| + 1 && Empty(worlds[0])
    && forall k {:trigger Stepped(worlds, events, k)} :: 0 <= k < |events| ==> Stepped(worlds, events, k)
  }

  // ----- The numbers tell the contents

  function Item(records: seq<string>, n: nat): string {
    if n < |records| then records[n] else ""
  }

  // The records with the given numbers, one after the other.
  function TextOf(records: seq<string>, numbers: seq<nat>): string {
    if |numbers| == 0 then ""
    else
      var k := |numbers| - 1;
      TextOf(records, numbers[..k]) + Item(records, numbers[k])
  }

  // Everything that was ever appended.
  function Joined(records: seq<string>): string {
    if |records| == 0 then "" else Joined(records[..|records| - 1]) + records[|records| - 1]
  }

  // The file with this key holds the given records of a node, at least one.
  ghost predicate Booked(w: LogWorld, key: Key) {
    && key.archive <= ARCHIVES && key in w.held && key in w.files
    && |w.held[key]| > 0 && (forall i :: 0 <= i < |w.held[key]| ==> w.held[key][i] < |Records(w, key.id)|)
    && w.files[key].content == TextOf(Records(w, key.id), w.held[key])
  }

  // Every record is a text of whole lines, at least one.
  ghost predicate WholeRecords(records: seq<string>) {
    forall i :: 0 <= i < |records| ==> |records[i]| > 0 && Complete(records[i])
  }

  ghost predicate Books(w: LogWorld) {
    && w.held.Keys == w.files.Keys
    && (forall key {:trigger Booked(w, key)} :: key in w.files ==> Booked(w, key))
    && (forall id {:trigger Records(w, id)} :: WholeRecords(Records(w, id)))
  }

  lemma TextOfAppend(records: seq<string>, numbers: seq<nat>, n: nat)
    ensures TextOf(records, numbers + [n]) == TextOf(records, numbers) + Item(records, n)
  {
    assert (numbers + [n])[..|numbers|] == numbers;
  }

  // Records that come later do not matter.
  lemma {:induction false} TextOfSame(records: seq<string>, record: string, numbers: seq<nat>)
    requires forall i :: 0 <= i < |numbers| ==> numbers[i] < |records|
    ensures TextOf(records + [record], numbers) == TextOf(records, numbers)
    decreases |numbers|
  {
    if |numbers| > 0 {
      TextOfSame(records, record, numbers[..|numbers| - 1]);
    }
  }

  lemma {:induction false} TextOfConcat(records: seq<string>, left: seq<nat>, right: seq<nat>)
    ensures TextOf(records, left + right) == TextOf(records, left) + TextOf(records, right)
    decreases |right|
  {
    if |right| == 0 {
      assert left + right == left;
    } else {
      var k := |right| - 1;
      var rest, n := right[..k], right[k];
      TextOfConcat(records, left, rest);
      assert right == rest + [n] && left + right == left + rest + [n];
      TextOfAppend(records, rest, n);
      TextOfAppend(records, left + rest, n);
      Associate(TextOf(records, left), TextOf(records, rest), Item(records, n));
    }
  }

  lemma Associate(a: string, b: string, c: string)
    ensures a + b + c == a + (b + c)
  {}

  lemma {:induction false} TextOfComplete(records: seq<string>, numbers: seq<nat>)
    requires WholeRecords(records)
    ensures Complete(TextOf(records, numbers))
    decreases |numbers|
  {
    if |numbers| > 0 {
      TextOfComplete(records, numbers[..|numbers| - 1]);
    }
  }

  lemma {:induction false} JoinedComplete(records: seq<string>)
    requires WholeRecords(records)
    ensures Complete(Joined(records))
    decreases |records|
  {
    if |records| > 0 {
      JoinedComplete(records[..|records| - 1]);
    }
  }

  // The last records are the end of everything.
  lemma {:induction false} LastAreEnd(records: seq<string>, numbers: seq<nat>)
    requires WholeRecords(records) && AreLast(numbers, |records|)
    ensures EndsWith(Joined(records), TextOf(records, numbers))
    decreases |numbers|
  {
    if |numbers| == 0 {
      JoinedComplete(records);
      assert Joined(records) == Joined(records) + "";
      EndsWithFrom(Joined(records), Joined(records), "");
    } else {
      var k, n := |numbers| - 1, |records| - 1;
      LastAreEnd(records[..n], numbers[..k]);
      assert records == records[..n] + [records[n]];
      TextOfSame(records[..n], records[n], numbers[..k]);
      EndsWithAppend(Joined(records[..n]), TextOf(records[..n], numbers[..k]), records[n]);
    }
  }

  lemma HeldText(w: LogWorld, id: string, archive: nat)
    requires Books(w)
    ensures Content(w.files, Key(id, archive)) == TextOf(Records(w, id), Held(w.held, Key(id, archive)))
    ensures Complete(Content(w.files, Key(id, archive)))
  {
    assert Key(id, archive) in w.files ==> Booked(w, Key(id, archive));
    TextOfComplete(Records(w, id), Held(w.held, Key(id, archive)));
  }

  // The text of the files is then the end of everything appended for the node.
  lemma FaithfulText(w: LogWorld, id: string)
    requires Books(w) && Faithful(w, id)
    ensures IsEnd(w.files, id, Joined(Records(w, id)))
  {
    var two, one, zero := Held(w.held, Key(id, 2)), Held(w.held, Key(id, 1)), Held(w.held, Key(id, 0));
    HeldText(w, id, 2);
    HeldText(w, id, 1);
    HeldText(w, id, 0);
    TextOfConcat(Records(w, id), two + one, zero);
    TextOfConcat(Records(w, id), two, one);
    LastAreEnd(Records(w, id), Kept(w.held, id));
  }

  // ----- The books in every run

  lemma BookedSame(w: LogWorld, after: LogWorld, key: Key, source: Key)
    requires Booked(w, source) && source.id == key.id && key.archive <= ARCHIVES
    requires key in after.files && after.files[key] == w.files[source]
    requires key in after.held && after.held[key] == w.held[source]
    requires Records(after, key.id) == Records(w, key.id)
    ensures Booked(after, key)
  {}

  lemma BookedLater(w: LogWorld, after: LogWorld, key: Key, source: Key, record: string)
    requires Booked(w, source) && source.id == key.id && key.archive <= ARCHIVES
    requires key in after.files && after.files[key] == w.files[source]
    requires key in after.held && after.held[key] == w.held[source]
    requires Records(after, key.id) == Records(w, key.id) + [record]
    ensures Booked(after, key)
  {
    TextOfSame(Records(w, key.id), record, w.held[source]);
  }

  // The file that is written: what it held, if anything, and the new record.
  lemma BookedWritten(w: LogWorld, after: LogWorld, id: string, record: string, before: seq<nat>,
                      content: string, now: int)
    requires content == TextOf(Records(w, id), before)
    requires forall i :: 0 <= i < |before| ==> before[i] < |Records(w, id)|
    requires Records(after, id) == Records(w, id) + [record]
    requires Key(id, 0) in after.files && after.files[Key(id, 0)] == File(content + record, now)
    requires Key(id, 0) in after.held && after.held[Key(id, 0)] == before + [|Records(w, id)|]
    ensures Booked(after, Key(id, 0))
  {
    TextOfSame(Records(w, id), record, before);
    TextOfAppend(Records(after, id), before, |Records(w, id)|);
  }

  // Where the file with this key was before the append.
  function Source<T>(files: map<Key, T>, key: Key, id: string, full: bool): Key {
    if full && key.id == id && 0 < key.archive <= ARCHIVES && Key(id, key.archive - 1) in files
    then Key(id, key.archive - 1) else key
  }

  lemma RotatedFrom<T>(files: map<Key, T>, id: string, key: Key, full: bool)
    requires key != Key(id, 0) && (full ==> Key(id, 0) in files)
    ensures var r, source := if full then Rotated(files, id) else files, Source(files, key, id, full);
            key in r ==> source in files && r[key] == files[source]
  {}

  lemma AppendedWritten(w: LogWorld, after: LogWorld, id: string, record: string, limit: int, now: int)
    requires Books(w) && Appends(w, after, id, record, limit, now)
    ensures Booked(after, Key(id, 0))
  {
    HeldText(w, id, 0);
    assert Key(id, 0) in w.files ==> Booked(w, Key(id, 0));
    if |Content(w.files, Key(id, 0))| > FileLimit(limit) {
      assert "" + record == record;
      BookedWritten(w, after, id, record, [], "", now);
    } else {
      BookedWritten(w, after, id, record, Held(w.held, Key(id, 0)), Content(w.files, Key(id, 0)), now);
    }
  }

  lemma AppendedOther(w: LogWorld, after: LogWorld, id: string, record: string, limit: int, now: int, key: Key)
    requires Books(w) && key != Key(id, 0) && key in after.files
    requires Appends(w, after, id, record, limit, now)
    ensures Booked(after, key)
  {
    var full := |Content(w.files, Key(id, 0))| > FileLimit(limit);
    var source := Source(w.files, key, id, full);
    RotatedFrom(w.files, id, key, full);
    RotatedFrom(w.held, id, key, full);
    assert Booked(w, source);
    if key.id == id {
      BookedLater(w, after, key, source, record);
    } else {
      BookedSame(w, after, key, source);
    }
  }

  lemma AppendedBook(w: LogWorld, after: LogWorld, id: string, record: string, limit: int, now: int, key: Key)
    requires Books(w) && Appends(w, after, id, record, limit, now) && key in after.files
    ensures Booked(after, key)
  {
    if key == Key(id, 0) {
      AppendedWritten(w, after, id, record, limit, now);
    } else {
      AppendedOther(w, after, id, record, limit, now, key);
    }
  }

  lemma AppendedRecords(w: LogWorld, after: LogWorld, id: string, record: string, other: string)
    requires after.records == w.records[id := Records(w, id) + [record]]
    requires WholeRecords(Records(w, other)) && |record| > 0 && Complete(record)
    ensures WholeRecords(Records(after, other))
  {}

  lemma AppendBooks(w: LogWorld, after: LogWorld, id: string, record: string, limit: int, now: int)
    requires Books(w) && Appends(w, after, id, record, limit, now) && |record| > 0 && Complete(record)
    ensures Books(after)
  {
    AppendKeys(w, after, id, record, limit, now);
    forall key | key in after.files
      ensures Booked(after, key)
    {
      AppendedBook(w, after, id, record, limit, now, key);
    }
    forall other
      ensures WholeRecords(Records(after, other))
    {
      assert WholeRecords(Records(w, other));
      AppendedRecords(w, after, id, record, other);
    }
  }

  lemma AppendKeys(w: LogWorld, after: LogWorld, id: string, record: string, limit: int, now: int)
    requires w.held.Keys == w.files.Keys && Appends(w, after, id, record, limit, now)
    ensures after.held.Keys == after.files.Keys
  {}

  lemma MaintainBooks(w: LogWorld, order: seq<Key>, limit: int, removed: nat, now: int)
    requires Books(w) && Possible(w, Maintain(order, limit, removed))
    ensures Books(LogStep(w, Maintain(order, limit, removed), now))
  {
    var after := LogStep(w, Maintain(order, limit, removed), now);
    RemovedFirst(w.files, order, removed);
    RemovedFirst(w.held, order, removed);
    SameKeys(w, order, removed);
    forall key | key in after.files
      ensures Booked(after, key)
    {
      assert Booked(w, key);
      BookedSame(w, after, key, key);
    }
    forall id
      ensures WholeRecords(Records(after, id))
    {
      assert Records(after, id) == Records(w, id);
    }
  }

  lemma {:induction false} SameKeys(w: LogWorld, order: seq<Key>, n: nat)
    requires w.held.Keys == w.files.Keys && n <= |order|
    ensures Removed(w.held, order, n).Keys == Removed(w.files, order, n).Keys
  {
    if n > 0 {
      SameKeys(w, order, n - 1);
    }
  }

  lemma LogStepBooks(w: LogWorld, e: LogEvent, now: int)
    requires Books(w) && Possible(w, e)
    ensures Books(LogStep(w, e, now))
  {
    match e
    case Append(id, stamp, line, limit) =>
      StepAppends(w, id, stamp, line, limit, now);
      AppendBooks(w, LogStep(w, e, now), id, Record(stamp, line), limit, now);
    case Maintain(order, limit, removed) => MaintainBooks(w, order, limit, removed, now);
  }

  // In every run, each file consists of the records with the numbers in its book.
  lemma {:induction false} RunBooks(worlds: seq<LogWorld>, events: seq<LogEvent>, k: nat)
    requires Run(worlds, events) && k < |worlds|
    ensures Books(worlds[k])
  {
    if k > 0 {
      RunBooks(worlds, events, k - 1);
      assert Stepped(worlds, events, k - 1);
      LogStepBooks(worlds[k - 1], events[k - 1], worlds[k].now);
    }
  }

  // ----- What is kept are the last records

  // Removing the first n files takes the archives of the node from the oldest on.
  ghost predicate OldestFirst(order: seq<Key>, n: nat, id: string) {
    forall i, j :: 0 <= i < n <= j < |order| && order[i].id == id && order[j].id == id ==>
      order[i].archive > order[j].archive
  }

  // A pruning, if the event is one, takes the archives of the node from the oldest on.
  ghost predicate PrunesInOrder(e: LogEvent, id: string) {
    e.Maintain? ==> OldestFirst(e.order, e.removed, id)
  }

  lemma AreLastAppend(numbers: seq<nat>, n: nat)
    requires AreLast(numbers, n)
    ensures AreLast(numbers + [n], n + 1)
  {}

  lemma AreLastDrop(first: seq<nat>, rest: seq<nat>, n: nat)
    requires AreLast(first + rest, n)
    ensures AreLast(rest, n)
  {
    assert forall i :: 0 <= i < |rest| ==> rest[i] == (first + rest)[|first| + i];
  }

  lemma Regroup(two: seq<nat>, one: seq<nat>, zero: seq<nat>, n: nat)
    ensures two + one + zero == two + (one + zero)
    ensures two + one + (zero + [n]) == two + one + zero + [n]
    ensures [] + one + zero == one + zero
    ensures one + zero + ([] + [n]) == one + zero + [n]
  {}

  // A new last number, with or without the loss of the first part.
  lemma NextLast(two: seq<nat>, one: seq<nat>, zero: seq<nat>, n: nat)
    requires AreLast(two + one + zero, n)
    ensures AreLast(one + zero + ([] + [n]), n + 1) && AreLast(two + one + (zero + [n]), n + 1)
  {
    Regroup(two, one, zero, n);
    AreLastDrop(two, one + zero, n);
    AreLastAppend(one + zero, n);
    AreLastAppend(two + one + zero, n);
  }

  // The numbers that are kept after an append.
  lemma RenumberedKept(held: map<Key, seq<nat>>, id: string, n: nat, full: bool)
    requires NoGap(held, id) && (full ==> Key(id, 0) in held)
    ensures var two, one, zero := Held(held, Key(id, 2)), Held(held, Key(id, 1)), Held(held, Key(id, 0));
            var r := Renumbered(held, id, n, full);
            NoGap(r, id)
            && Kept(r, id) == if full then one + zero + ([] + [n]) else two + one + (zero + [n])
  {}

  // An append, with or without a rotation, keeps the last records.
  lemma AppendFaithful(w: LogWorld, after: LogWorld, id: string, record: string, limit: int, now: int)
    requires w.held.Keys == w.files.Keys && NoGap(w.files, id) && Faithful(w, id)
    requires Appends(w, after, id, record, limit, now)
    ensures NoGap(after.files, id) && Faithful(after, id)
  {
    var n, full := |Records(w, id)|, |Content(w.files, Key(id, 0))| > FileLimit(limit);
    AppendKeys(w, after, id, record, limit, now);
    RenumberedKept(w.held, id, n, full);
    NextLast(Held(w.held, Key(id, 2)), Held(w.held, Key(id, 1)), Held(w.held, Key(id, 0)), n);
  }

  // Of three parts that end with the last number, some stay: what stays still ends with the
  // last number exactly when a part stays only if the later ones do.
  lemma StayLast(two: seq<nat>, one: seq<nat>, zero: seq<nat>, n: nat, stay2: bool, stay1: bool, stay0: bool)
    requires AreLast(two + one + zero, n)
    requires (stay2 ==> |two| > 0 && |one| > 0) && (stay1 ==> |one| > 0) && (|one| > 0 ==> |zero| > 0)
    ensures AreLast((if stay2 then two else []) + (if stay1 then one else []) + (if stay0 then zero else []), n)
       <==> (stay2 ==> stay1) && (stay1 ==> stay0)
  {
    var rest2, rest1, rest0 := if stay2 then two else [], if stay1 then one else [], if stay0 then zero else [];
    var all, rest := two + one + zero, rest2 + rest1 + rest0;
    if (stay2 ==> stay1) && (stay1 ==> stay0) {
      var gone := if stay2 then [] else if stay1 then two else if stay0 then two + one else all;
      assert all == gone + rest;
      AreLastDrop(gone, rest, n);
    } else if stay2 {
      assert rest[0] == two[0] == all[0];
    } else {
      assert rest[0] == one[0] == all[|two|];
    }
  }

  // The first n files of the order are gone, and with them their numbers.
  lemma RemovedKept(held: map<Key, seq<nat>>, order: seq<Key>, n: nat, id: string)
    requires n <= |order| && forall i :: 0 <= i < |order| ==> order[i] in held
    requires forall i, j :: 0 <= i < j < |order| ==> order[i] != order[j]
    ensures var rest := Removed(held, order, n);
            Kept(rest, id) == (if Key(id, 2) in rest then Held(held, Key(id, 2)) else [])
                              + (if Key(id, 1) in rest then Held(held, Key(id, 1)) else [])
                              + (if Key(id, 0) in rest then Held(held, Key(id, 0)) else [])
  {
    RemovedFirst(held, order, n);
  }

  lemma InOrderStays(files: Files, order: seq<Key>, n: nat, id: string)
    requires ByAge(files, order) && n <= |order| && NoGap(files, id)
    requires forall key :: key in files ==> key.archive <= ARCHIVES
    ensures OldestFirst(order, n, id) <==> NoGap(Removed(files, order, n), id)
  {
    if OldestFirst(order, n, id) {
      Stays(files, order, n, id, 1, 0);
      Stays(files, order, n, id, 2, 1);
      RemovedFirst(files, order, n);
    } else {
      var i, j :| 0 <= i < n <= j < |order| && order[i].id == id && order[j].id == id
                  && order[i].archive <= order[j].archive;
      GapOtherwise(files, order, n, i, j);
    }
  }

  lemma GapOtherwise(files: Files, order: seq<Key>, n: nat, i: nat, j: nat)
    requires ByAge(files, order) && i < n <= j < |order|
    requires order[i].id == order[j].id && order[i].archive <= order[j].archive <= ARCHIVES
    ensures !NoGap(Removed(files, order, n), order[i].id)
  {
    var id, rest := order[i].id, Removed(files, order, n);
    RemovedFirst(files, order, n);
    assert order[i] != order[j] && order[i] == Key(id, order[i].archive) && order[j] == Key(id, order[j].archive);
    assert order[i] !in rest && order[j] in rest;
  }

  // A younger file of the node stays when an older one does.
  lemma Stays(files: Files, order: seq<Key>, n: nat, id: string, a: nat, b: nat)
    requires ByAge(files, order) && n <= |order| && OldestFirst(order, n, id) && b < a
    requires Key(id, a) in files ==> Key(id, b) in files
    ensures Key(id, a) in Removed(files, order, n) ==> Key(id, b) in Removed(files, order, n)
  {
    RemovedFirst(files, order, n);
    if Key(id, a) in Removed(files, order, n) {
      var j :| 0 <= j < |order| && order[j] == Key(id, a);
      var i :| 0 <= i < |order| && order[i] == Key(id, b);
    }
  }

  // What a pruning leaves of a node are its last records exactly when the pruning takes the
  // archives of the node from the oldest on.
  lemma PruneFaithful(w: LogWorld, order: seq<Key>, n: nat, id: string)
    requires Books(w) && NoGap(w.files, id) && Faithful(w, id) && ByAge(w.files, order) && n <= |order|
    ensures AreLast(Kept(Removed(w.held, order, n), id), |Records(w, id)|) <==> OldestFirst(order, n, id)
    ensures OldestFirst(order, n, id) ==> NoGap(Removed(w.files, order, n), id)
  {
    var two, one, zero := Key(id, 2), Key(id, 1), Key(id, 0);
    var rest := Removed(w.held, order, n);
    assert forall key :: key in w.files ==> Booked(w, key);
    InOrderStays(w.files, order, n, id);
    SameKeys(w, order, n);
    RemovedFirst(w.held, order, n);
    RemovedKept(w.held, order, n, id);
    StayLast(Held(w.held, two), Held(w.held, one), Held(w.held, zero), |Records(w, id)|,
             two in rest, one in rest, zero in rest);
  }

  // ----- Every run

  ghost predicate Whole(w: LogWorld, id: string) {
    Faithful(w, id) && NoGap(w.files, id)
  }

  lemma OthersSame(w: LogWorld, after: LogWorld, id: string, record: string, limit: int, now: int, other: string)
    requires w.held.Keys == w.files.Keys && Appends(w, after, id, record, limit, now) && other != id
    ensures Kept(after.held, other) == Kept(w.held, other) && Records(after, other) == Records(w, other)
    ensures NoGap(after.files, other) <==> NoGap(w.files, other)
  {}

  lemma AppendWhole(w: LogWorld, after: LogWorld, id: string, record: string, limit: int, now: int, other: string)
    requires w.held.Keys == w.files.Keys && Appends(w, after, id, record, limit, now) && Whole(w, other)
    ensures Whole(after, other)
  {
    if other == id {
      AppendFaithful(w, after, id, record, limit, now);
    } else {
      OthersSame(w, after, id, record, limit, now, other);
    }
  }

  lemma LogStepFaithful(w: LogWorld, e: LogEvent, now: int, id: string)
    requires Possible(w, e) && Books(w) && Whole(w, id)
    ensures Faithful(LogStep(w, e, now), id) <==> PrunesInOrder(e, id)
    ensures PrunesInOrder(e, id) ==> Whole(LogStep(w, e, now), id)
  {
    match e
    case Append(other, stamp, line, limit) =>
      StepAppends(w, other, stamp, line, limit, now);
      AppendWhole(w, LogStep(w, e, now), other, Record(stamp, line), limit, now, id);
    case Maintain(order, limit, removed) => PruneFaithful(w, order, removed, id);
  }

  lemma StepFaithful(worlds: seq<LogWorld>, events: seq<LogEvent>, k: nat, id: string)
    requires Run(worlds, events) && k < |events|
    ensures Whole(worlds[k], id) ==> (Faithful(worlds[k + 1], id) <==> PrunesInOrder(events[k], id))
    ensures Whole(worlds[k], id) && PrunesInOrder(events[k], id) ==> Whole(worlds[k + 1], id)
  {
    RunBooks(worlds, events, k);
    assert Stepped(worlds, events, k);
    if Whole(worlds[k], id) {
      LogStepFaithful(worlds[k], events[k], worlds[k + 1].now, id);
    }
  }

  lemma {:induction false} InOrderIsWhole(worlds: seq<LogWorld>, events: seq<LogEvent>, k: nat, id: string)
    requires Run(worlds, events) && k < |worlds| && forall j :: 0 <= j < k ==> PrunesInOrder(events[j], id)
    ensures Whole(worlds[k], id)
    decreases k
  {
    if k > 0 {
      InOrderIsWhole(worlds, events, k - 1, id);
      StepFaithful(worlds, events, k - 1, id);
    }
  }

  lemma FaithfulNext(worlds: seq<LogWorld>, events: seq<LogEvent>, k: nat, id: string)
    requires Run(worlds, events) && k < |events| && forall j :: 0 <= j < k ==> PrunesInOrder(events[j], id)
    ensures Faithful(worlds[k + 1], id) <==> PrunesInOrder(events[k], id)
  {
    InOrderIsWhole(worlds, events, k, id);
    StepFaithful(worlds, events, k, id);
  }

  lemma {:induction false} FirstOutOfOrder(events: seq<LogEvent>, k: nat, id: string) returns (j: nat)
    requires k <= |events| && exists i :: 0 <= i < k && !PrunesInOrder(events[i], id)
    ensures j < k && !PrunesInOrder(events[j], id) && forall i :: 0 <= i < j ==> PrunesInOrder(events[i], id)
    decreases k
  {
    if exists i :: 0 <= i < k - 1 && !PrunesInOrder(events[i], id) {
      j := FirstOutOfOrder(events, k - 1, id);
    } else {
      j := k - 1;
    }
  }

  lemma FaithfulAll(worlds: seq<LogWorld>, events: seq<LogEvent>, k: nat, id: string)
    requires Run(worlds, events) && k < |worlds| && forall j :: 0 <= j < k ==> PrunesInOrder(events[j], id)
    ensures Faithful(worlds[k], id)
  {
    InOrderIsWhole(worlds, events, k, id);
  }

  // Through appends with rotation and prunings in any order, what is kept for a node has
  // always been its last records, without a gap, exactly when every pruning so far took the
  // archives of the node from the oldest on.
  lemma RetainedIsEnd(worlds: seq<LogWorld>, events: seq<LogEvent>, k: nat, id: string)
    requires Run(worlds, events) && k < |worlds|
    ensures (forall j :: 0 <= j <= k ==> Faithful(worlds[j], id))
        <==> (forall j :: 0 <= j < k ==> PrunesInOrder(events[j], id))
  {
    if forall j :: 0 <= j < k ==> PrunesInOrder(events[j], id) {
      forall j | 0 <= j <= k
        ensures Faithful(worlds[j], id)
      {
        FaithfulAll(worlds, events, j, id);
      }
    } else {
      var j := FirstOutOfOrder(events, k, id);
      FaithfulNext(worlds, events, j, id);
    }
  }

  // ----- The ages decide

  // Every file of the node was last written before the one that followed it.
  ghost predicate InAgeOrder(files: Files, id: string) {
    forall a: nat, b: nat :: a < b && Key(id, a) in files && Key(id, b) in files ==>
                               files[Key(id, b)].modified < files[Key(id, a)].modified
  }

  lemma AgesGiveOrder(files: Files, order: seq<Key>, n: nat, id: string)
    requires InAgeOrder(files, id) && ByAge(files, order) && n <= |order|
    ensures OldestFirst(order, n, id)
  {
    forall i, j | 0 <= i < n <= j < |order| && order[i].id == id && order[j].id == id
      ensures order[i].archive > order[j].archive
    {
      assert order[i] == Key(id, order[i].archive) && order[j] == Key(id, order[j].archive);
    }
  }

  // An order by age in which the one of two files comes first that is not the newer one.
  lemma {:induction false} OrderWith(files: Files, order: seq<Key>, todo: set<Key>, first: Key, second: Key)
    returns (all: seq<Key>)
    requires Sorting(files, order, todo) && first != second
    requires first in files && second in files && files[first].modified <= files[second].modified
    requires second in todo || exists i, j :: 0 <= i < j < |order| && order[i] == first && order[j] == second
    ensures ByAge(files, all) && exists i, j :: 0 <= i < j < |all| && all[i] == first && all[j] == second
    decreases todo
  {
    if todo == {} {
      all := order;
    } else {
      var next := Oldest(files, todo);
      if next == second && first in todo {
        next := first;
      }
      SortStep(files, order, todo, next);
      var longer := order + [next];
      Placed(order, next, first, second, todo);
      all := OrderWith(files, longer, todo - {next}, first, second);
    }
  }

  lemma Placed(order: seq<Key>, next: Key, first: Key, second: Key, todo: set<Key>)
    requires first in todo || first in order
    requires next == second ==> first !in todo
    requires second in todo || exists i, j :: 0 <= i < j < |order| && order[i] == first && order[j] == second
    ensures second in todo - {next}
            || var longer := order + [next];
               exists i, j :: 0 <= i < j < |longer| && longer[i] == first && longer[j] == second
  {
    var longer := order + [next];
    if second in todo && next == second {
      var i :| 0 <= i < |order| && order[i] == first;
      assert longer[i] == first && longer[|order|] == second;
    } else if second !in todo {
      var i, j :| 0 <= i < j < |order| && order[i] == first && order[j] == second;
      assert longer[i] == first && longer[j] == second;
    }
  }

  // No limit and no order by age can make a pruning lose records between others exactly
  // when the files of the node differ in age, the older ones being older.
  lemma AgesDecide(w: LogWorld, id: string)
    requires Books(w)
    ensures InAgeOrder(w.files, id) <==> forall e: LogEvent :: e.Maintain? && Possible(w, e) ==> PrunesInOrder(e, id)
  {
    if InAgeOrder(w.files, id) {
      forall e: LogEvent | e.Maintain? && Possible(w, e)
        ensures PrunesInOrder(e, id)
      {
        AgesGiveOrder(w.files, e.order, e.removed, id);
      }
    } else {
      var a: nat, b: nat :| a < b && Key(id, a) in w.files && Key(id, b) in w.files
                            && w.files[Key(id, b)].modified >= w.files[Key(id, a)].modified;
      var e := BadPruning(w, Key(id, a), Key(id, b));
    }
  }

  lemma BadPruning(w: LogWorld, first: Key, second: Key) returns (e: LogEvent)
    requires Books(w) && first in w.files && second in w.files
    requires first.id == second.id && first.archive < second.archive
    requires w.files[first].modified <= w.files[second].modified
    ensures e.Maintain? && Possible(w, e) && !PrunesInOrder(e, first.id)
  {
    var order := OrderWith(w.files, [], w.files.Keys, first, second);
    var i, j :| 0 <= i < j < |order| && order[i] == first && order[j] == second;
    FullFile(w, first);
    var limit := Bytes(w.files, order, i + 1);
    JustEnough(w.files, order, i);
    e := Maintain(order, limit, i + 1);
  }

  // A limit that removes the files up to the one with index i and no more.
  lemma JustEnough(files: Files, order: seq<Key>, i: nat)
    requires i < |order| && |Content(files, order[i])| > 0
    ensures Pruned(files, order, i + 1, Bytes(files, order, i + 1))
  {
    assert Bytes(files, order, i) == |Content(files, order[i])| + Bytes(files, order, i + 1);
  }

  // No file is empty.
  lemma FullFile(w: LogWorld, key: Key)
    requires Books(w) && key in w.files
    ensures |w.files[key].content| > 0
  {
    assert Booked(w, key) && WholeRecords(Records(w, key.id));
    var numbers := w.held[key];
    assert numbers == numbers[..|numbers| - 1] + [numbers[|numbers| - 1]];
    TextOfAppend(Records(w, key.id), numbers[..|numbers| - 1], numbers[|numbers| - 1]);
  }

  // ----- Time that passes between two events

  ghost predicate Ticking(worlds: seq<LogWorld>) {
    forall k :: 0 <= k < |worlds| - 1 ==> worlds[k].now < worlds[k + 1].now
  }

  ghost predicate NotNewer(files: Files, now: int) {
    forall key :: key in files ==> files[key].modified <= now
  }

  ghost predicate Aged(w: LogWorld, id: string) {
    Whole(w, id) && InAgeOrder(w.files, id) && NotNewer(w.files, w.now)
  }

  lemma AppendInAgeOrder(files: Files, id: string, record: string, limit: int, last: int, now: int, other: string)
    requires NoGap(files, other) && InAgeOrder(files, other) && NotNewer(files, last) && last < now
    requires forall key :: key in files ==> key.archive <= ARCHIVES
    ensures InAgeOrder(Appended(files, id, record, now, limit), other)
    ensures NotNewer(Appended(files, id, record, now, limit), now)
  {}

  lemma PruneInAgeOrder(files: Files, order: seq<Key>, n: nat, id: string, now: int)
    requires InAgeOrder(files, id) && NotNewer(files, now) && ByAge(files, order) && n <= |order|
    ensures InAgeOrder(Removed(files, order, n), id) && NotNewer(Removed(files, order, n), now)
  {
    RemovedFirst(files, order, n);
  }

  lemma LogStepAged(w: LogWorld, e: LogEvent, now: int, id: string)
    requires Books(w) && Aged(w, id) && Possible(w, e) && w.now < now
    ensures InAgeOrder(LogStep(w, e, now).files, id) && NotNewer(LogStep(w, e, now).files, now) && PrunesInOrder(e, id)
  {
    assert forall key :: key in w.files ==> Booked(w, key);
    match e
    case Append(other, stamp, line, limit) =>
      AppendInAgeOrder(w.files, other, Record(stamp, line), limit, w.now, now, id);
    case Maintain(order, limit, removed) =>
      AgesGiveOrder(w.files, order, removed, id);
      PruneInAgeOrder(w.files, order, removed, id, now);
  }

  lemma StepAged(worlds: seq<LogWorld>, events: seq<LogEvent>, k: nat, id: string)
    requires Run(worlds, events) && Ticking(worlds) && k < |events| && Aged(worlds[k], id)
    ensures Aged(worlds[k + 1], id) && PrunesInOrder(events[k], id)
  {
    RunBooks(worlds, events, k);
    assert Stepped(worlds, events, k);
    LogStepAged(worlds[k], events[k], worlds[k + 1].now, id);
    LogStepFaithful(worlds[k], events[k], worlds[k + 1].now, id);
  }

  lemma {:induction false} TickingIsAged(worlds: seq<LogWorld>, events: seq<LogEvent>, k: nat, id: string)
    requires Run(worlds, events) && Ticking(worlds) && k < |worlds|
    ensures Aged(worlds[k], id)
    decreases k
  {
    if k > 0 {
      TickingIsAged(worlds, events, k - 1, id);
      StepAged(worlds, events, k - 1, id);
    }
  }

  // When time passes between two events, what is kept are always the last records, and the
  // text of the files is the end of everything appended.
  lemma TickingIsFaithful(worlds: seq<LogWorld>, events: seq<LogEvent>, k: nat, id: string)
    requires Run(worlds, events) && Ticking(worlds) && k < |worlds|
    ensures Faithful(worlds[k], id) && IsEnd(worlds[k].files, id, Joined(Records(worlds[k], id)))
  {
    TickingIsAged(worlds, events, k, id);
    RunBooks(worlds, events, k);
    FaithfulText(worlds[k], id);
  }
}
