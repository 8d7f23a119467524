/** The string operations of the route files: splitting, trimming, decimal numbers. */
module Text {
  // How many characters come before the first c, or before the end.
  function Find(s: string, c: char): (i: nat)
    ensures i <= |s| && (i < |s| ==> s[i] == c)
  {
    if |s| == 0 || s[0] == c then 0 else Find(s[1..], c) + 1
  }

  lemma {:induction false} FindAt(head: string, c: char, tail: string)
    requires c !in head
    ensures Find(head + [c] + tail, c) == |head|
    decreases |head|
  {
    var s := head + [c] + tail;
    if |head| > 0 {
      assert s[1..] == head[1..] + [c] + tail;
      FindAt(head[1..], c, tail);
    }
  }

  // The pieces between separators; a string without separators is one piece.
  function Split(s: string, sep: char): (parts: seq<string>)
    ensures |parts| >= 1
  {
    if |s| == 0 then [""]
    else
      var rest := Split(s[1..], sep);
      if s[0] == sep then [""] + rest else [[s[0]] + rest[0]] + rest[1..]
  }

  lemma {:induction false} SplitNone(s: string, sep: char)
    requires sep !in s
    ensures Split(s, sep) == [s]
    decreases |s|
  {
    if |s| > 0 {
      SplitNone(s[1..], sep);
      assert s == [s[0]] + s[1..];
    }
  }

  lemma {:induction false} SplitFirst(head: string, sep: char, tail: string)
    requires sep !in head
    ensures Split(head + [sep] + tail, sep) == [head] + Split(tail, sep)
    decreases |head|
  {
    var s := head + [sep] + tail;
    if |head| == 0 {
      assert s[1..] == tail;
    } else {
      SplitFirst(head[1..], sep, tail);
      assert s[1..] == head[1..] + [sep] + tail;
      assert head == [head[0]] + head[1..];
    }
  }

  lemma SplitThree(a: string, b: string, c: string, tail: string, sep: char)
    requires sep !in a && sep !in b && sep !in c
    ensures Split(a + [sep] + (b + [sep] + (c + [sep] + tail)), sep) == [a, b, c] + Split(tail, sep)
  {
    var two := c + [sep] + tail;
    SplitFirst(c, sep, tail);
    var one := b + [sep] + two;
    SplitFirst(b, sep, two);
    SplitFirst(a, sep, one);
  }

  function Join(parts: seq<string>, sep: char): string
    requires |parts| >= 1
  {
    if |parts| == 1 then parts[0] else parts[0] + [sep] + Join(parts[1..], sep)
  }

  // Splitting at a separator undoes joining pieces that do not contain it.
  lemma {:induction false} SplitJoin(parts: seq<string>, sep: char)
    requires |parts| >= 1
    requires forall i :: 0 <= i < |parts| ==> sep !in parts[i]
    ensures Split(Join(parts, sep), sep) == parts
    decreases |parts|
  {
    if |parts| == 1 {
      SplitNone(parts[0], sep);
    } else {
      SplitJoin(parts[1..], sep);
      SplitFirst(parts[0], sep, Join(parts[1..], sep));
    }
  }

  lemma JoinCons(c: char, rest: seq<string>, sep: char)
    requires |rest| >= 1
    ensures Join([[c] + rest[0]] + rest[1..], sep) == [c] + Join(rest, sep)
  {
    var parts := [[c] + rest[0]] + rest[1..];
    if |rest| == 1 {
      assert parts == [[c] + rest[0]];
    } else {
      assert parts[1..] == rest[1..];
      Associate([c], rest[0] + [sep], Join(rest[1..], sep));
      Associate([c], rest[0], [sep]);
    }
  }

  lemma JoinEmpty(rest: seq<string>, sep: char)
    requires |rest| >= 1
    ensures Join([""] + rest, sep) == [sep] + Join(rest, sep)
  {
    assert ([""] + rest)[1..] == rest;
  }

  lemma Associate(a: string, b: string, c: string)
    ensures a + (b + c) == a + b + c
  {}

  // Joining the pieces again gives the text.
  lemma {:induction false} JoinSplit(s: string, sep: char)
    ensures Join(Split(s, sep), sep) == s
    decreases |s|
  {
    if |s| > 0 {
      JoinSplit(s[1..], sep);
      var rest := Split(s[1..], sep);
      assert s == [s[0]] + s[1..];
      if s[0] == sep {
        JoinEmpty(rest, sep);
      } else {
        JoinCons(s[0], rest, sep);
      }
    }
  }

  predicate HasPrefix(s: string, prefix: string) {
    prefix <= s
  }

  function TrimPrefix(s: string, prefix: string): string {
    if HasPrefix(s, prefix) then s[|prefix|..] else s
  }

  function TrimLeft(s: string, cut: char -> bool): (r: string)
    ensures |r| <= |s|
  {
    if |s| > 0 && cut(s[0]) then TrimLeft(s[1..], cut) else s
  }

  function TrimRight(s: string, cut: char -> bool): (r: string)
    ensures |r| <= |s|
  {
    if |s| > 0 && cut(s[|s| - 1]) then TrimRight(s[..|s| - 1], cut) else s
  }

  function Trim(s: string, cut: char -> bool): string {
    TrimRight(TrimLeft(s, cut), cut)
  }

  predicate AllCut(s: string, cut: char -> bool) {
    forall i :: 0 <= i < |s| ==> cut(s[i])
  }

  // A text that neither starts nor ends with a character to cut.
  predicate Bare(s: string, cut: char -> bool) {
    |s| > 0 && !cut(s[0]) && !cut(s[|s| - 1])
  }

  lemma {:induction false} TrimLeftAll(left: string, s: string, cut: char -> bool)
    requires AllCut(left, cut) && |s| > 0 && !cut(s[0])
    ensures TrimLeft(left + s, cut) == s
    decreases |left|
  {
    if |left| == 0 {
      assert left + s == s;
    } else {
      assert (left + s)[1..] == left[1..] + s;
      TrimLeftAll(left[1..], s, cut);
    }
  }

  lemma {:induction false} TrimRightAll(s: string, right: string, cut: char -> bool)
    requires AllCut(right, cut) && |s| > 0 && !cut(s[|s| - 1])
    ensures TrimRight(s + right, cut) == s
    decreases |right|
  {
    var n := |s + right| - 1;
    if |right| == 0 {
      assert s + right == s;
    } else {
      assert (s + right)[..n] == s + right[..|right| - 1];
      TrimRightAll(s, right[..|right| - 1], cut);
    }
  }

  // What is to be cut at both ends goes, and nothing else.
  lemma {:induction false} TrimAround(left: string, s: string, right: string, cut: char -> bool)
    requires AllCut(left, cut) && AllCut(right, cut) && Bare(s, cut)
    ensures Trim(left + s + right, cut) == s
  {
    assert left + s + right == left + (s + right);
    assert (s + right)[0] == s[0];
    TrimLeftAll(left, s + right, cut);
    TrimRightAll(s, right, cut);
  }

  lemma {:induction false} TrimAway(s: string, cut: char -> bool)
    requires AllCut(s, cut)
    ensures Trim(s, cut) == ""
    decreases |s|
  {
    if |s| > 0 {
      TrimAway(s[1..], cut);
    }
  }

  lemma TrimNothing(s: string, cut: char -> bool)
    requires |s| > 0 && !cut(s[0]) && !cut(s[|s| - 1])
    ensures Trim(s, cut) == s
  {}

  // Unicode white space.
  predicate IsSpace(c: char) {
    '\t' <= c <= '\r' || c == ' ' || c == '\U{85}' || c == '\U{A0}' || c == '\U{1680}'
    || '\U{2000}' <= c <= '\U{200A}' || c == '\U{2028}' || c == '\U{2029}' || c == '\U{202F}'
    || c == '\U{205F}' || c == '\U{3000}'
  }

  predicate IsQuote(c: char) {
    c == '\'' || c == '"'
  }

  function TrimSpace(s: string): string {
    Trim(s, IsSpace)
  }

  // ----- Decimal numbers

  predicate IsDigit(c: char) {
    '0' <= c <= '9'
  }

  predicate IsNumber(s: string) {
    |s| > 0 && forall i :: 0 <= i < |s| ==> IsDigit(s[i])
  }

  function Value(s: string): nat
    requires forall i :: 0 <= i < |s| ==> IsDigit(s[i])
  {
    if |s| == 0 then 0
    else
      assert IsDigit(s[|s| - 1]);
      Value(s[..|s| - 1]) * 10 + (s[|s| - 1] as int - '0' as int)
  }

  lemma NumberLacks(s: string, c: char)
    requires IsNumber(s) && !IsDigit(c)
    ensures c !in s
  {}

  // Decimal digits without a redundant leading zero.
  predicate IsCanonical(s: string) {
    IsNumber(s) && (|s| > 1 ==> s[0] != '0')
  }

  function Digit(d: nat): char
    requires d < 10
  {
    ('0' as int + d) as char
  }

  function Itoa(n: nat): (s: string)
    ensures |s| > 0
  {
    if n < 10 then [Digit(n)] else Itoa(n / 10) + [Digit(n % 10)]
  }

  // Printing a number and reading it back gives the number, in canonical form.
  lemma {:induction false} ItoaValue(n: nat)
    ensures IsCanonical(Itoa(n)) && Value(Itoa(n)) == n
    ensures n > 0 ==> Itoa(n)[0] != '0'
    decreases n
  {
    if n < 10 {
      assert [Digit(n)][..0] == [];
    } else {
      ItoaValue(n / 10);
      assert Itoa(n)[..|Itoa(n)| - 1] == Itoa(n / 10);
    }
  }

  // Every number in canonical form is the printed form of its value.
  lemma {:induction false} ItoaOfValue(s: string)
    requires IsCanonical(s)
    ensures Itoa(Value(s)) == s
    decreases |s|
  {
    var n := |s| - 1;
    var head, last := s[..n], s[n];
    assert IsDigit(last) && s == head + [last];
    if n == 0 {
      assert Value(head) == 0;
    } else {
      ItoaOfValue(head);
      LeadingDigit(head);
      assert Value(s) / 10 == Value(head) && Value(s) % 10 == last as int - '0' as int;
    }
  }

  lemma {:induction false} LeadingDigit(s: string)
    requires IsNumber(s) && s[0] != '0'
    ensures Value(s) > 0
    decreases |s|
  {
    if |s| > 1 {
      LeadingDigit(s[..|s| - 1]);
    }
  }

  lemma {:induction false} ItoaLength(n: nat)
    ensures n < 1000 ==> |Itoa(n)| <= 3
  {
    if 10 <= n < 1000 {
      assert n / 10 < 100;
      assert |Itoa(n / 10)| <= 2 by {
        if n / 10 >= 10 {
          assert n / 10 / 10 < 10;
        }
      }
    }
  }
}
