/** Splitting a byte stream into lines that keep their newline. */
module Newlines {

  const NEWLINE: char := '\n'

  // The text ends where a line ends.
  predicate Complete(s: string) {
    |s| > 0 ==> s[|s| - 1] == NEWLINE
  }

  // One whole line: a newline, if any, only at the end.
  predicate IsLine(s: string) {
    |s| > 0 && forall i :: 0 <= i < |s| - 1 ==> s[i] != NEWLINE
  }

  // The length of the first line, with its newline if it has one.
  function FirstLine(s: string): (n: nat)
    requires |s| > 0
    ensures IsFirst(s, n)
  {
    if s[0] == NEWLINE || |s| == 1 then 1
    else
      var n := FirstLine(s[1..]) + 1;
      assert forall i :: 0 < i < n ==> s[i] == s[1..][i - 1];
      n
  }

  predicate IsFirst(s: string, n: nat) {
    1 <= n <= |s| && (n < |s| ==> s[n - 1] == NEWLINE) && forall i :: 0 <= i < n - 1 ==> s[i] != NEWLINE
  }

  function Lines(s: string): (lines: seq<string>)
    ensures |s| > 0 <==> |lines| > 0
    decreases |s|
  {
    if |s| == 0 then []
    else
      var n := FirstLine(s);
      [s[..n]] + Lines(s[n..])
  }

  function Concat(lines: seq<string>): string {
    if |lines| == 0 then "" else lines[0] + Concat(lines[1..])
  }

  lemma LinesFirst(head: string, tail: string)
    requires IsLine(head) && (|tail| > 0 ==> Complete(head))
    ensures Lines(head + tail) == [head] + Lines(tail)
  {
    var s := head + tail;
    var n := FirstLine(s);
    assert IsFirst(s, |head|);
    assert n == |head|;
    assert s[..|head|] == head && s[|head|..] == tail;
  }

  lemma TakeFirst(s: string) returns (head: string, tail: string)
    requires |s| > 0
    ensures s == head + tail && |tail| < |s| && IsLine(head) && (|tail| > 0 ==> Complete(head))
  {
    var n := FirstLine(s);
    head, tail := s[..n], s[n..];
  }

  // Whole lines, all but the last of which end with a newline.
  predicate AreLines(lines: seq<string>) {
    |lines| > 0 ==> IsLine(lines[0]) && (|lines| > 1 ==> Complete(lines[0])) && AreLines(lines[1..])
  }

  // The lines are the text, cut exactly after every newline.
  lemma {:induction false} LinesCut(s: string)
    ensures Concat(Lines(s)) == s && AreLines(Lines(s))
    decreases |s|
  {
    if |s| > 0 {
      var head, tail := TakeFirst(s);
      LinesCut(tail);
      LinesFirst(head, tail);
      AddLine(head, Lines(tail));
    }
  }

  lemma AddLine(head: string, lines: seq<string>)
    requires IsLine(head) && AreLines(lines) && (|lines| > 0 ==> Complete(head))
    ensures AreLines([head] + lines) && Concat([head] + lines) == head + Concat(lines)
  {
    assert ([head] + lines)[1..] == lines;
  }

  // No other way of cutting the text gives whole lines.
  lemma {:induction false} LinesUnique(lines: seq<string>)
    requires AreLines(lines)
    ensures Lines(Concat(lines)) == lines
    decreases |lines|
  {
    if |lines| > 0 {
      LinesUnique(lines[1..]);
      LinesFirst(lines[0], Concat(lines[1..]));
    }
  }

  lemma {:induction false} AppendLines(xs: seq<string>, ys: seq<string>)
    requires AreLines(xs) && AreLines(ys) && Complete(Concat(xs))
    ensures AreLines(xs + ys) && Concat(xs + ys) == Concat(xs) + Concat(ys)
    decreases |xs|
  {
    if |xs| == 0 {
      assert xs + ys == ys;
    } else {
      assert |xs| == 1 ==> Concat(xs) == xs[0];
      AppendLines(xs[1..], ys);
      AddLine(xs[0], xs[1..] + ys);
      assert xs + ys == [xs[0]] + (xs[1..] + ys);
    }
  }

  // Where a line ends, the text can be split without changing its lines.
  lemma LinesConcat(a: string, b: string)
    requires Complete(a)
    ensures Lines(a + b) == Lines(a) + Lines(b)
  {
    LinesCut(a);
    LinesCut(b);
    AppendLines(Lines(a), Lines(b));
    LinesUnique(Lines(a) + Lines(b));
  }
}
