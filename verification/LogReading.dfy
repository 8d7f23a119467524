/** What a line of a log is from its append to its reading, and how the files move. */
module LogReading {
  import opened Newlines
  import opened Logs

  // ----- One line

  // Every return goes and everything else stays.
  lemma {:induction false} ReturnsGo(a: string, b: string)
    ensures WithoutReturns(a + "\r" + b) == WithoutReturns(a) + WithoutReturns(b)
    ensures '\r' !in a ==> WithoutReturns(a) == a
    decreases |a|
  {
    var s := a + "\r" + b;
    if |a| == 0 {
      assert s[1..] == b;
    } else {
      assert s[1..] == a[1..] + "\r" + b;
      ReturnsGo(a[1..], b);
      assert a == [a[0]] + a[1..];
    }
  }

  // A text comes back from its line, with or without a newline, and with a return before it.
  lemma LineTextIs(text: string)
    requires NEWLINE !in text && '\r' !in text
    ensures LineText(text) == LineText(text + "\n") == LineText(text + "\r\n") == LineText(text + "\r") == text
    ensures LineText(text + "\r\r\n") == text + "\r"
  {
    var newline, both, return_, two := text + "\n", text + "\r\n", text + "\r", text + "\r\r\n";
    assert newline[..|newline| - 1] == text;
    assert both[..|both| - 1] == return_ && return_[..|return_| - 1] == text;
    assert two[..|two| - 1] == return_ + "\r" && (return_ + "\r")[..|return_|] == return_;
  }

  // One text on one line.
  predicate Plain(s: string) {
    NEWLINE !in s && '\r' !in s
  }

  lemma RecordIs(stamp: string, line: string)
    requires Plain(stamp) && Plain(line)
    ensures Record(stamp, line) == stamp + " " + line + "\n"
    ensures Complete(Record(stamp, line)) && Lines(Record(stamp, line)) == [Record(stamp, line)]
    ensures Texts(Lines(Record(stamp, line))) == [stamp + " " + line]
  {
    ReturnsGo(line, "");
    var record, text := Record(stamp, line), stamp + " " + line;
    assert record == text + "\n";
    LinesFirst(record, "");
    assert record + "" == record;
    LineTextIs(text);
    assert [record][..0] == [];
  }

  // ----- Appending

  function Bound(limit: int): (b: int)
    ensures 65536 <= b <= 2097152
  {
    if limit <= 0 || limit >= 8388608 then 2097152 else if limit < 262144 then 65536 else limit / 4
  }

  // A record goes to the end of the current file. When that was longer than a quarter of
  // the budget, and at most two megabytes, the files have first moved up by one.
  lemma AppendedMoves(files: Files, id: string, record: string, now: int, limit: int)
    ensures var after, two, one, zero := Appended(files, id, record, now, limit), Key(id, 2), Key(id, 1), Key(id, 0);
            && (forall key: Key :: key.id != id || key.archive > 2 ==>
                  (key in after <==> key in files) && Content(after, key) == Content(files, key))
            && zero in after && after[zero].modified == now
            && if |Content(files, zero)| <= Bound(limit) then
                 && Content(after, zero) == Content(files, zero) + record
                 && Content(after, one) == Content(files, one) && Content(after, two) == Content(files, two)
               else
                 && Content(after, zero) == record && Content(after, one) == Content(files, zero)
                 && Content(after, two) == Content(files, if one in files then one else two)
  {}

  // The current file never outgrows its bound by more than the last record.
  lemma AppendedSize(files: Files, id: string, record: string, now: int, limit: int)
    ensures |Content(Appended(files, id, record, now, limit), Key(id, 0))| <= Bound(limit) + |record|
  {
    AppendedMoves(files, id, record, now, limit);
  }

  // ----- From the append to the reader

  lemma LastKeepsLast(texts: seq<string>, text: string, n: nat)
    requires n > 0
    ensures var last := Last(texts + [text], n);
            |last| > 0 && last[|last| - 1] == text
  {
    LastAppend(texts, text, n);
  }

  // A current file that ends with a record of one line.
  lemma {:induction false} ReadsAtEnd(files: Files, id: string, before: string, record: string, text: string, tail: nat,
                                      paths: seq<Key>)
    requires paths == Paths(id)
    requires Content(files, Key(id, 0)) == before + record && Complete(before) && tail > 0
    requires Texts(Lines(record)) == [text]
    ensures var read := Last(ReadTexts(files, paths, |paths|), tail);
            |read| > 0 && read[|read| - 1] == text
  {
    TextsOf(before, record);
    ReadThree(files, id);
    var two, one := Texts(Lines(Content(files, Key(id, 2)))), Texts(Lines(Content(files, Key(id, 1))));
    AppendLast(two, one, Texts(Lines(before)), text);
    LastKeepsLast(two + (one + Texts(Lines(before))), text, tail);
  }

  lemma AppendLast(two: seq<string>, one: seq<string>, zero: seq<string>, text: string)
    ensures two + (one + (zero + [text])) == two + (one + zero) + [text]
  {}

  // The current file ends with the record.
  lemma CurrentEnds(files: Files, id: string, record: string, now: int, limit: int) returns (before: string)
    requires Complete(Content(files, Key(id, 0)))
    ensures Complete(before) && Content(Appended(files, id, record, now, limit), Key(id, 0)) == before + record
  {
    AppendedMoves(files, id, record, now, limit);
    before := if |Content(files, Key(id, 0))| <= Bound(limit) then Content(files, Key(id, 0)) else "";
  }

  // The last line that a reader sees is the line appended last, after its time.
  lemma {:induction false} LastIsAppended(files: Files, id: string, stamp: string, line: string, now: int, limit: int,
                                          tail: int, paths: seq<Key>, after: Files)
    requires Plain(stamp) && Plain(line) && Complete(Content(files, Key(id, 0)))
    requires paths == Paths(id) && after == Appended(files, id, Record(stamp, line), now, limit)
    ensures var read := Last(ReadTexts(after, paths, |paths|), TailLength(tail));
            |read| > 0 && read[|read| - 1] == stamp + " " + line
  {
    var before := CurrentEnds(files, id, Record(stamp, line), now, limit);
    RecordIs(stamp, line);
    ReadsAtEnd(after, id, before, Record(stamp, line), stamp + " " + line, TailLength(tail), paths);
  }

  // ----- A line that the reader refuses

  // The line without its newline has at least 2^20 characters.
  predicate Refused(line: string) {
    |line| > 1048576 || (|line| == 1048576 && line[1048575] != '\n')
  }

  predicate AnyRefused(content: string) {
    exists line :: line in Lines(content) && Refused(line)
  }

  lemma {:induction false} TooLongIs(content: string)
    ensures TooLong(Lines(content), MAX_TOKEN) <==> AnyRefused(content)
  {
    var lines := Lines(content);
    if TooLong(lines, MAX_TOKEN) {
      var k :| 0 <= k < |lines| && BodyLength(lines[k]) >= MAX_TOKEN;
      assert lines[k] in lines && Refused(lines[k]);
    }
    if AnyRefused(content) {
      var line :| line in lines && Refused(line);
      var k :| 0 <= k < |lines| && lines[k] == line;
      assert BodyLength(lines[k]) >= MAX_TOKEN;
    }
  }

  // Reading fails if and only if some line in the files of the node has that length.
  lemma {:induction false} RefusedExactly(files: Files, id: string, max: nat)
    requires max == MAX_TOKEN
    ensures AnyTooLong(files, Paths(id), 0, max)
       <==> AnyRefused(Content(files, Key(id, 2))) || AnyRefused(Content(files, Key(id, 1)))
            || AnyRefused(Content(files, Key(id, 0)))
  {
    var keys := Paths(id);
    forall archive | 0 <= archive <= 2
      ensures TooLong(Lines(Content(files, Key(id, archive))), max) <==> AnyRefused(Content(files, Key(id, archive)))
    {
      TooLongIs(Content(files, Key(id, archive)));
    }
    assert AnyTooLong(files, keys, 2, max) <==> TooLong(Lines(Content(files, keys[2])), max);
    assert AnyTooLong(files, keys, 1, max) <==>
           TooLong(Lines(Content(files, keys[1])), max) || AnyTooLong(files, keys, 2, max);
  }
}
