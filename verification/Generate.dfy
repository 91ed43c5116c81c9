/**
 Password generation by rejection sampling, over the words that the system's random
 source delivers one after the other.
 */
module Generate {
  import opened Wrappers
  import opened Strings

  const UPPERCASE := "ABCDEFGHIJKLMNOPQRSTUVWXYZ"
  const LOWERCASE := "abcdefghijklmnopqrstuvwxyz"
  const DIGITS := "0123456789"
  const ALNUM := UPPERCASE + LOWERCASE + DIGITS
  const SYMBOLS := "!@#$%^&*()-_=+[]{};:,.?"

  const MAX := 0xFFFF_FFFF

  type Word = x: int | 0 <= x <= MAX

  function Charset(symbols: bool): string {
    if symbols then ALNUM + SYMBOLS else ALNUM
  }

  // The largest multiple of n below the largest word.
  function Zone(n: nat): int
    requires 0 < n <= MAX
  {
    MAX - MAX % n
  }

  // --- Drawing ----------------------------------------------------------------------------

  // The accepted words, in order.
  function Accepted(words: seq<Word>, zone: int): seq<Word> {
    if words == [] then []
    else (if words[0] < zone then [words[0]] else []) + Accepted(words[1..], zone)
  }

  lemma Regrouped<T>(a: seq<T>, b: seq<T>, c: seq<T>)
    ensures a + (b + c) == (a + b) + c
  {
  }

  lemma {:induction false} AcceptedAfter(before: seq<Word>, rest: seq<Word>, zone: int)
    ensures Accepted(before + rest, zone) == Accepted(before, zone) + Accepted(rest, zone)
  {
    if before == [] {
      assert before + rest == rest;
    } else {
      var words, first := before + rest, if before[0] < zone then [before[0]] else [];
      assert words[0] == before[0] && words[1..] == before[1..] + rest;
      assert Accepted(words, zone) == first + Accepted(before[1..] + rest, zone);
      assert Accepted(before, zone) == first + Accepted(before[1..], zone);
      hide Accepted;
      AcceptedAfter(before[1..], rest, zone);
      Regrouped(first, Accepted(before[1..], zone), Accepted(rest, zone));
    }
  }

  // A word anywhere among others is accepted in its turn exactly if it is below the zone,
  // whatever comes before and after it.
  lemma AcceptedInTurn(before: seq<Word>, v: Word, after: seq<Word>, zone: int)
    ensures Accepted(before + ([v] + after), zone) ==
              Accepted(before, zone) + ((if v < zone then [v] else []) + Accepted(after, zone))
  {
    AcceptedAfter(before, [v] + after, zone);
    assert ([v] + after)[1..] == after;
  }

  // One uniform draw from `words`, which are used up as far as `left`; none when the
  // source fails first.
  method UniformBelow(n: nat, words: seq<Word>) returns (r: Option<nat>, left: seq<Word>)
    requires 0 < n <= MAX
    ensures var accepted := Accepted(words, Zone(n));
            if accepted == [] then r == None && left == []
            else r == Some(accepted[0] % n) && r.value < n && Accepted(left, Zone(n)) == accepted[1..]
  {
    var zone := MAX - MAX % n;
    left := words;
    while left != []
      invariant Accepted(left, zone) == Accepted(words, zone)
      decreases |left|
    {
      var v := left[0];
      left := left[1..];
      if v < zone {
        return Some(v % n), left;
      }
    }
    r := None;
  }

  // The characters that accepted words select.
  function Selected(charset: string, accepted: seq<Word>): (s: string)
    requires charset != ""
    ensures |s| == |accepted| && forall i | 0 <= i < |s| :: s[i] == charset[accepted[i] % |charset|]
  {
    seq(|accepted|, i requires 0 <= i < |accepted| => charset[accepted[i] % |charset|])
  }

  datatype Error = EmptyPassword | NoRandomness

  method Password(length: nat, symbols: bool, words: seq<Word>) returns (r: Result<string, Error>)
    ensures length == 0 ==> r == Err(EmptyPassword)
    ensures var charset := Charset(symbols); var accepted := Accepted(words, Zone(|charset|));
            length > 0 ==>
              r == if |accepted| < length then Err(NoRandomness) else Ok(Selected(charset, accepted[..length]))
  {
    if length == 0 {
      return Err(EmptyPassword);
    }
    var charset := ALNUM;
    if symbols {
      charset := charset + SYMBOLS;
    }
    var out, left := "", words;
    ghost var accepted := Accepted(words, Zone(|charset|));
    for i := 0 to length
      invariant i <= |accepted| && Accepted(left, Zone(|charset|)) == accepted[i..]
      invariant out == Selected(charset, accepted[..i])
    {
      var idx;
      idx, left := UniformBelow(|charset|, left);
      if idx.None? {
        return Err(NoRandomness);
      }
      out := out + [charset[idx.value]];
    }
    r := Ok(out);
  }

  // --- No residue is favoured ------------------------------------------------------------------

  lemma AtLeastOnce(k: nat, n: nat)
    requires k > 0
    ensures k * n >= n
  {
  }

  lemma DivisionIsUnique(x: int, n: nat, q: int, r: int)
    requires x == q * n + r && 0 <= r < n
    ensures x % n == r && x / n == q
  {
    var q2, r2 := x / n, x % n;
    assert x == q2 * n + r2;
    assert (q - q2) * n == r2 - r;
    if q2 < q {
      AtLeastOnce(q - q2, n);
    } else if q < q2 {
      assert (q2 - q) * n == r - r2;
      AtLeastOnce(q2 - q, n);
    }
  }

  // At most half the words are rejected, and the accepted ones are whole rounds of n.
  lemma ZoneIsWholeRounds(n: nat)
    requires 0 < n <= MAX
    ensures Zone(n) == MAX / n * n && Zone(n) % n == 0 && Zone(n) / n == MAX / n >= 1
    ensures 0x8000_0000 <= Zone(n) <= MAX
  {
    var q := MAX / n;
    assert MAX == q * n + MAX % n;
    if q == 0 {
      DivisionIsUnique(MAX, n, 0, MAX);
    }
    AtLeastOnce(q, n);
    DivisionIsUnique(q * n, n, q, 0);
  }

  // The accepted words that fall on residue r.
  function Preimage(n: nat, zone: int, r: int): set<int>
    requires n > 0
  {
    set v | 0 <= v < zone && v % n == r
  }

  // One more round adds one word for each residue.
  lemma NextRound(n: nat, round: nat, r: int)
    requires 0 <= r < n
    ensures Preimage(n, round * n + n, r) == Preimage(n, round * n, r) + {round * n + r}
  {
    forall v | round * n <= v < round * n + n ensures v % n == v - round * n {
      DivisionIsUnique(v, n, round, v - round * n);
    }
  }

  lemma {:induction false} RoundsCover(n: nat, rounds: nat, r: int)
    requires 0 <= r < n
    ensures |Preimage(n, rounds * n, r)| == rounds
  {
    if rounds == 0 {
      assert Preimage(n, 0, r) == {};
    } else {
      RoundsCover(n, rounds - 1, r);
      NextRound(n, rounds - 1, r);
      assert (rounds - 1) * n + n == rounds * n;
    }
  }

  // Every residue comes from the same number of accepted words.
  lemma ResiduesAreEquallyLikely(n: nat, r: int)
    requires 0 < n <= MAX && 0 <= r < n
    ensures |Preimage(n, Zone(n), r)| == Zone(n) / n
  {
    ZoneIsWholeRounds(n);
    RoundsCover(n, MAX / n, r);
  }

  // --- No password is favoured ---------------------------------------------------------------------

  predicate Distinct(s: string) {
    forall i, j | 0 <= i < j < |s| :: s[i] != s[j]
  }

  lemma UppercaseInOrder()
    ensures |UPPERCASE| == 26 && forall i | 0 <= i < 26 :: UPPERCASE[i] as int == 65 + i
  {
  }

  lemma LowercaseInOrder()
    ensures |LOWERCASE| == 26 && forall i | 0 <= i < 26 :: LOWERCASE[i] as int == 97 + i
  {
  }

  lemma DigitsInOrder()
    ensures |DIGITS| == 10 && forall i | 0 <= i < 10 :: DIGITS[i] as int == 48 + i
  {
  }

  lemma SymbolsDiffer()
    ensures |SYMBOLS| == 23 && Distinct(SYMBOLS)
  {
  }

  lemma SymbolsAreNoLetters()
    ensures forall i | 0 <= i < |SYMBOLS| :: !IsAlpha(SYMBOLS[i]) && !IsDigit(SYMBOLS[i])
  {
  }

  lemma DistinctConcat(a: string, b: string)
    requires Distinct(a) && Distinct(b) && forall i, j | 0 <= i < |a| && 0 <= j < |b| :: a[i] != b[j]
    ensures Distinct(a + b)
  {
  }

  lemma CharsetIsDistinct(symbols: bool)
    ensures Distinct(Charset(symbols)) && |Charset(symbols)| == if symbols then 85 else 62
  {
    UppercaseInOrder();
    LowercaseInOrder();
    DigitsInOrder();
    SymbolsDiffer();
    SymbolsAreNoLetters();
    DistinctConcat(UPPERCASE, LOWERCASE);
    DistinctConcat(UPPERCASE + LOWERCASE, DIGITS);
    DistinctConcat(ALNUM, SYMBOLS);
  }

  // The sequences of accepted words that give the password, built character by character.
  function Draws(charset: string, zone: int, password: string): set<seq<int>>
    requires charset != ""
  {
    if password == "" then {[]}
    else
      set v, rest |
        0 <= v < zone && charset[v % |charset|] == password[0] && rest in Draws(charset, zone, password[1..])
        :: [v] + rest
  }

  ghost predicate Gives(charset: string, zone: int, words: seq<int>, password: string)
    requires charset != ""
  {
    && |words| == |password|
    && forall i | 0 <= i < |words| :: 0 <= words[i] < zone && charset[words[i] % |charset|] == password[i]
  }

  lemma {:induction false} DrawsAreExact(charset: string, zone: int, password: string, words: seq<int>)
    requires charset != ""
    ensures words in Draws(charset, zone, password) <==> Gives(charset, zone, words, password)
    decreases |password|
  {
    if password != "" && words != [] {
      assert words == [words[0]] + words[1..];
      DrawsAreExact(charset, zone, password[1..], words[1..]);
      if words in Draws(charset, zone, password) {
        var v, rest :| 0 <= v < zone && charset[v % |charset|] == password[0]
                       && rest in Draws(charset, zone, password[1..]) && words == [v] + rest;
        assert rest == words[1..];
        assert forall i | 1 <= i < |words| :: words[i] == words[1..][i - 1] && password[i] == password[1..][i - 1];
      }
      if Gives(charset, zone, words, password) {
        assert forall i | 0 <= i < |words[1..]| :: words[1..][i] == words[i + 1] && password[1..][i] == password[i + 1];
      }
    }
  }

  function Pairs(heads: set<int>, tails: set<seq<int>>): set<seq<int>> {
    set v, rest | v in heads && rest in tails :: [v] + rest
  }

  lemma PairsDiffer(v: int, s: seq<int>, w: int, t: seq<int>)
    ensures [v] + s == [w] + t <==> v == w && s == t
  {
    assert ([v] + s)[1..] == s && ([w] + t)[1..] == t;
    assert ([v] + s)[0] == v && ([w] + t)[0] == w;
  }

  lemma {:induction false} OneHead(v: int, tails: set<seq<int>>)
    ensures |Pairs({v}, tails)| == |tails|
  {
    if tails == {} {
      assert Pairs({v}, tails) == {};
    } else {
      var t :| t in tails;
      OneHead(v, tails - {t});
      forall rest | rest in tails - {t} ensures [v] + rest != [v] + t {
        PairsDiffer(v, rest, v, t);
      }
      MoreTails(v, t, tails);
    }
  }

  lemma MoreTails(v: int, t: seq<int>, tails: set<seq<int>>)
    requires t in tails
    ensures Pairs({v}, tails) == Pairs({v}, tails - {t}) + {[v] + t}
  {
    forall x | x in Pairs({v}, tails) ensures x in Pairs({v}, tails - {t}) + {[v] + t} {
      var rest :| rest in tails && x == [v] + rest;
      assert rest != t ==> rest in tails - {t};
    }
    assert v in {v};
  }

  lemma Pick<A>(s: set<A>) returns (x: A)
    requires s != {}
    ensures x in s
  {
    x :| x in s;
  }

  lemma SplitHeads(heads: set<int>, v: int, tails: set<seq<int>>)
    requires v in heads
    ensures |Pairs(heads, tails)| == |Pairs(heads - {v}, tails)| + |Pairs({v}, tails)|
    ensures |heads| == |heads - {v}| + 1
  {
    forall w, s, t | w in heads - {v} && s in tails && t in tails ensures [w] + s != [v] + t {
      PairsDiffer(w, s, v, t);
    }
    assert Pairs(heads - {v}, tails) !! Pairs({v}, tails);
    assert Pairs(heads, tails) == Pairs(heads - {v}, tails) + Pairs({v}, tails);
  }

  lemma {:induction false} PairsCount(heads: set<int>, tails: set<seq<int>>)
    ensures |Pairs(heads, tails)| == |heads| * |tails|
    decreases |heads|
  {
    if heads == {} {
      assert Pairs(heads, tails) == {};
    } else {
      var v := Pick(heads);
      PairsCount(heads - {v}, tails);
      OneHead(v, tails);
      SplitHeads(heads, v, tails);
      var fewer := |heads - {v}|;
      Product(fewer, |tails|);
      assert |Pairs(heads, tails)| == fewer * |tails| + |tails|;
    }
  }

  lemma Product(a: nat, b: nat)
    ensures a * b + b == (a + 1) * b
  {
  }

  function Power(base: int, exponent: nat): int {
    if exponent == 0 then 1 else base * Power(base, exponent - 1)
  }

  lemma HeadsOf(charset: string, zone: int, r: int, password: string)
    requires Distinct(charset) && password != "" && 0 <= r < |charset| && charset[r] == password[0]
    ensures Draws(charset, zone, password) == Pairs(Preimage(|charset|, zone, r), Draws(charset, zone, password[1..]))
  {
    forall v: int ensures charset[v % |charset|] == password[0] <==> v % |charset| == r {
      var m := v % |charset|;
      assert 0 <= m < |charset|;
    }
  }

  // Over any set of distinct characters, every password comes from the same number of
  // sequences of accepted words.
  lemma {:induction false} PasswordsAreEquallyLikely(charset: string, password: string)
    requires Distinct(charset) && 0 < |charset| <= MAX && forall i | 0 <= i < |password| :: password[i] in charset
    ensures |Draws(charset, Zone(|charset|), password)| == Power(Zone(|charset|) / |charset|, |password|)
    decreases |password|
  {
    var zone := Zone(|charset|);
    if password != "" {
      PasswordsAreEquallyLikely(charset, password[1..]);
      var r :| 0 <= r < |charset| && charset[r] == password[0];
      ResiduesAreEquallyLikely(|charset|, r);
      HeadsOf(charset, zone, r, password);
      PairsCount(Preimage(|charset|, zone, r), Draws(charset, zone, password[1..]));
    }
  }
}
