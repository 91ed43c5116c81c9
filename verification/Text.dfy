/** Strings mapped character by character. */
module Text {

  function FlatMap(f: char -> string, s: string): string {
    if s == "" then "" else f(s[0]) + FlatMap(f, s[1..])
  }

  lemma {:induction false} FlatMapConcat(f: char -> string, a: string, b: string)
    ensures FlatMap(f, a + b) == FlatMap(f, a) + FlatMap(f, b)
  {
    if a == "" {
      assert a + b == b;
    } else {
      FlatMapConcat(f, a[1..], b);
      assert (a + b)[1..] == a[1..] + b;
      Associative(f(a[0]), FlatMap(f, a[1..]), FlatMap(f, b));
    }
  }

  lemma Associative(x: string, y: string, z: string)
    ensures x + (y + z) == (x + y) + z
  {
  }

  lemma FlatMapOne(f: char -> string, c: char)
    ensures FlatMap(f, [c]) == f(c)
  {
    assert [c][1..] == "";
  }

  lemma {:induction false} FlatMapFixed(f: char -> string, s: string)
    requires forall i | 0 <= i < |s| :: f(s[i]) == [s[i]]
    ensures FlatMap(f, s) == s
  {
    if s != "" {
      FlatMapFixed(f, s[1..]);
      assert s == [s[0]] + s[1..];
    }
  }

  lemma {:induction false} FlatMapSame(f: char -> string, s: string, t: string)
    requires |s| == |t| && forall i | 0 <= i < |s| :: f(s[i]) == f(t[i])
    ensures FlatMap(f, s) == FlatMap(f, t)
  {
    if s != "" {
      FlatMapSame(f, s[1..], t[1..]);
    }
  }

  lemma {:induction false} FlatMapElements(f: char -> string, s: string, ok: char -> bool)
    requires forall c, k | c in s && 0 <= k < |f(c)| :: ok(f(c)[k])
    ensures forall k | 0 <= k < |FlatMap(f, s)| :: ok(FlatMap(f, s)[k])
  {
    if s != "" {
      FlatMapElements(f, s[1..], ok);
    }
  }
}
