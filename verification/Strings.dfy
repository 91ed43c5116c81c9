/** Searching, splitting, joining and trimming strings. */
module Strings {

  // --- Searching ----------------------------------------------------------------------

  function First<T(==)>(s: seq<T>, c: T): (i: nat)
    requires c in s
    ensures i < |s| && s[i] == c && forall k | 0 <= k < i :: s[k] != c
  {
    if s[0] == c then 0
    else
      assert s == [s[0]] + s[1..];
      1 + First(s[1..], c)
  }

  lemma FirstAfter<T>(a: seq<T>, c: T, b: seq<T>)
    requires c !in a
    ensures First(a + [c] + b, c) == |a|
  {
    var s := a + [c] + b;
    assert s[|a|] == c;
    assert forall k | 0 <= k < |a| :: s[k] == a[k];
  }

  // What follows the last c, or the whole string.
  function AfterLast(s: string, c: char): string {
    if c !in s then s else AfterLast(s[First(s, c) + 1..], c)
  }

  lemma {:induction false} AfterLastOf(a: string, c: char, b: string)
    requires c !in b
    ensures AfterLast(a + [c] + b, c) == b
    decreases |a|
  {
    var s := a + [c] + b;
    assert s[|a|] == c;
    if c in a {
      var i := First(a, c);
      FirstAfter(a[..i], c, a[i + 1..] + [c] + b);
      assert a == a[..i] + [c] + a[i + 1..];
      assert s == a[..i] + [c] + (a[i + 1..] + [c] + b);
      assert s[i + 1..] == a[i + 1..] + [c] + b;
      AfterLastOf(a[i + 1..], c, b);
    } else {
      FirstAfter(a, c, b);
      assert s[|a| + 1..] == b;
    }
  }

  function TakeUntil(s: string, stop: char -> bool): string {
    if s == "" || stop(s[0]) then "" else [s[0]] + TakeUntil(s[1..], stop)
  }

  lemma {:induction false} TakeUntilAt(a: string, b: string, stop: char -> bool)
    requires forall i | 0 <= i < |a| :: !stop(a[i])
    requires b == "" || stop(b[0])
    ensures TakeUntil(a + b, stop) == a
  {
    if a == "" {
      assert a + b == b;
    } else {
      TakeUntilAt(a[1..], b, stop);
      assert (a + b)[1..] == a[1..] + b;
      assert a == [a[0]] + a[1..];
    }
  }

  // --- Trimming --------------------------------------------------------------------------

  function TrimStart(s: string, drop: char -> bool): string {
    if s != "" && drop(s[0]) then TrimStart(s[1..], drop) else s
  }

  function TrimEnd(s: string, drop: char -> bool): string {
    if s != "" && drop(s[|s| - 1]) then TrimEnd(s[..|s| - 1], drop) else s
  }

  lemma {:induction false} TrimEndOf(a: string, b: string, drop: char -> bool)
    requires forall i | 0 <= i < |b| :: drop(b[i])
    requires a == "" || !drop(a[|a| - 1])
    ensures TrimEnd(a + b, drop) == a
  {
    if b == "" {
      assert a + b == a;
    } else {
      TrimEndOf(a, b[..|b| - 1], drop);
      assert (a + b)[..|a + b| - 1] == a + b[..|b| - 1];
    }
  }

  // The White_Space property of the Unicode Character Database.
  predicate IsWhitespace(c: char) {
    var n := c as int;
    || 0x9 <= n <= 0xd || n == 0x20 || n == 0x85 || n == 0xa0 || n == 0x1680
    || 0x2000 <= n <= 0x200a || n == 0x2028 || n == 0x2029 || n == 0x202f || n == 0x205f || n == 0x3000
  }

  function Trim(s: string): string {
    TrimEnd(TrimStart(s, IsWhitespace), IsWhitespace)
  }

  // --- Letters and digits -----------------------------------------------------------------

  predicate IsDigit(c: char) {
    '0' <= c <= '9'
  }

  predicate IsAlpha(c: char) {
    'a' <= c <= 'z' || 'A' <= c <= 'Z'
  }

  function LowerChar(c: char): char {
    if 'A' <= c <= 'Z' then c - 'A' + 'a' else c
  }

  function Lower(s: string): (t: string)
    ensures |t| == |s| && forall i | 0 <= i < |s| :: t[i] == LowerChar(s[i])
  {
    seq(|s|, i requires 0 <= i < |s| => LowerChar(s[i]))
  }

  // --- Splitting and joining ------------------------------------------------------------------

  function Split<T(==)>(s: seq<T>, sep: T): (parts: seq<seq<T>>)
    ensures |parts| >= 1
    decreases |s|
  {
    if sep !in s then [s] else [s[..First(s, sep)]] + Split(s[First(s, sep) + 1..], sep)
  }

  function Join<T>(parts: seq<seq<T>>, sep: T): seq<T> {
    if |parts| == 0 then [] else if |parts| == 1 then parts[0] else parts[0] + [sep] + Join(parts[1..], sep)
  }

  predicate Free<T(==)>(parts: seq<seq<T>>, sep: T) {
    forall i | 0 <= i < |parts| :: sep !in parts[i]
  }

  lemma SplitHead<T>(a: seq<T>, sep: T, b: seq<T>)
    requires sep !in a
    ensures Split(a + [sep] + b, sep) == [a] + Split(b, sep)
  {
    var s := a + [sep] + b;
    FirstAfter(a, sep, b);
    assert s[|a|] == sep;
    assert s[..|a|] == a && s[|a| + 1..] == b;
  }

  lemma {:induction false} SplitOfJoin<T>(parts: seq<seq<T>>, sep: T)
    requires parts != [] && Free(parts, sep)
    ensures Split(Join(parts, sep), sep) == parts
  {
    if |parts| == 1 {
      assert parts == [parts[0]];
    } else {
      SplitOfJoin(parts[1..], sep);
      SplitHead(parts[0], sep, Join(parts[1..], sep));
      assert parts == [parts[0]] + parts[1..];
    }
  }

  lemma JoinInjective<T>(a: seq<seq<T>>, b: seq<seq<T>>, sep: T)
    requires a != [] && b != [] && Free(a, sep) && Free(b, sep) && Join(a, sep) == Join(b, sep)
    ensures a == b
  {
    SplitOfJoin(a, sep);
    SplitOfJoin(b, sep);
  }

  lemma {:induction false} JoinOfSplit<T>(s: seq<T>, sep: T)
    ensures Join(Split(s, sep), sep) == s && Free(Split(s, sep), sep)
    decreases |s|
  {
    if sep in s {
      var i := First(s, sep);
      JoinOfSplit(s[i + 1..], sep);
      var rest := Split(s[i + 1..], sep);
      assert Split(s, sep) == [s[..i]] + rest && ([s[..i]] + rest)[1..] == rest;
      assert s == s[..i] + [sep] + s[i + 1..];
    }
  }

  // One part more than there are separators.
  lemma {:induction false} SplitCounts<T>(s: seq<T>, sep: T)
    ensures |Split(s, sep)| == multiset(s)[sep] + 1
    decreases |s|
  {
    if sep in s {
      var i := First(s, sep);
      SplitCounts(s[i + 1..], sep);
      assert s == s[..i] + [sep] + s[i + 1..];
      assert sep !in s[..i];
    }
  }
}
