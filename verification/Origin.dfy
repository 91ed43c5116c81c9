/**
 The registrable domain of an origin, and whether a saved login's URL matches it.
 */
module Origin {
  import opened Wrappers
  import opened Strings
  import Suffixes

  // --- Known suffixes -------------------------------------------------------------------

  // Ends with the suffix on a label boundary.
  predicate EndsOn(host: string, suffix: string) {
    host == suffix || (|suffix| < |host| && host[|host| - |suffix| - 1..] == "." + suffix)
  }

  // The longest listed suffix of the host.
  function KnownSuffix(host: string, listed: seq<string>): (known: Option<string>)
    ensures known.Some? ==> known.value in listed && EndsOn(host, known.value)
    ensures known.Some? ==> forall s :: s in listed && EndsOn(host, s) ==> |s| <= |known.value|
    ensures known.None? ==> forall s :: s in listed ==> !EndsOn(host, s)
  {
    if listed == [] then None else
    var s, longest := listed[|listed| - 1], KnownSuffix(host, listed[..|listed| - 1]);
    assert listed == listed[..|listed| - 1] + [s];
    if EndsOn(host, s) && (longest.None? || |longest.value| <= |s|) then Some(s) else longest
  }

  // --- Registrable domain of a host ---------------------------------------------------------

  predicate AllDigits(s: string) {
    forall i | 0 <= i < |s| :: IsDigit(s[i])
  }

  function Decimal(s: string): nat
    requires AllDigits(s)
  {
    if s == "" then 0 else Decimal(s[..|s| - 1]) * 10 + (s[|s| - 1] - '0') as int
  }

  // What the standard library accepts for an eight-bit number: a plus sign and
  // leading zeros are allowed.
  predicate ParsesAsU8(part: string) {
    var digits := if part != "" && part[0] == '+' then part[1..] else part;
    digits != "" && AllDigits(digits) && Decimal(digits) <= 255
  }

  predicate IsDottedQuad(labels: seq<string>) {
    |labels| == 4 && forall i | 0 <= i < 4 :: ParsesAsU8(labels[i])
  }

  predicate IsIpOrLocalhost(host: string) {
    host == "localhost" || ':' in host || IsDottedQuad(Split(host, '.'))
  }

  function DomainOfHost(host: string, listed: seq<string>): Option<string> {
    DomainOfParts(host, Split(host, '.'), KnownSuffix(host, listed))
  }

  function DomainOfParts(host: string, labels: seq<string>, known: Option<string>): Option<string> {
    if IsIpOrLocalhost(host) then None
    else if '.' !in host || known == Some(host) then None
    else
      var take := (if known.Some? then |Split(known.value, '.')| else 1) + 1;
      if |labels| < take then None else Some(Join(labels[|labels| - take..], '.'))
  }

  // --- Numbers in a dotted address -----------------------------------------------------------

  // The digits of a number.
  function Numeral(n: nat): (s: string)
    ensures s != "" && AllDigits(s)
  {
    if n < 10 then ['0' + n as char] else Numeral(n / 10) + ['0' + (n % 10) as char]
  }

  function Zeros(k: nat): (s: string)
    ensures |s| == k && forall i | 0 <= i < k :: s[i] == '0'
  {
    seq(k, _ => '0')
  }

  // The text is a number up to 255, perhaps behind a plus sign and zeros.
  ghost predicate SpellsOctet(part: string, plus: string, zeros: nat, n: nat) {
    (plus == "" || plus == "+") && n <= 255 && part == plus + (Zeros(zeros) + Numeral(n))
  }

  ghost predicate IsOctet(part: string) {
    exists plus, zeros: nat, n: nat :: SpellsOctet(part, plus, zeros, n)
  }

  // Four such numbers: an IPv4 address.
  ghost predicate IsAddress(labels: seq<string>) {
    |labels| == 4 && forall i | 0 <= i < 4 :: IsOctet(labels[i])
  }

  lemma {:induction false} DecimalOfNumeral(zeros: nat, n: nat)
    ensures AllDigits(Zeros(zeros) + Numeral(n)) && Decimal(Zeros(zeros) + Numeral(n)) == n
    decreases n
  {
    var s := Zeros(zeros) + Numeral(n);
    if n < 10 {
      DecimalOfZeros(zeros);
      assert s[..|s| - 1] == Zeros(zeros);
    } else {
      DecimalOfNumeral(zeros, n / 10);
      assert s[..|s| - 1] == Zeros(zeros) + Numeral(n / 10);
    }
  }

  lemma {:induction false} DecimalOfZeros(zeros: nat)
    ensures AllDigits(Zeros(zeros)) && Decimal(Zeros(zeros)) == 0
  {
    if zeros > 0 {
      DecimalOfZeros(zeros - 1);
      assert Zeros(zeros)[..zeros - 1] == Zeros(zeros - 1);
    }
  }

  lemma {:induction false} DigitsSpell(s: string) returns (zeros: nat)
    requires s != "" && AllDigits(s)
    ensures s == Zeros(zeros) + Numeral(Decimal(s))
  {
    var front, d := s[..|s| - 1], (s[|s| - 1] - '0') as int;
    assert s == front + ['0' + d as char];
    if front == "" {
      zeros := 0;
      assert Zeros(0) + Numeral(d) == s;
    } else {
      zeros := DigitsSpell(front);
      var v := Decimal(front);
      if v == 0 {
        assert Numeral(0) == "0" && Zeros(zeros) + "0" == Zeros(zeros + 1);
        zeros := zeros + 1;
      } else {
        assert (v * 10 + d) / 10 == v && (v * 10 + d) % 10 == d;
        assert Numeral(Decimal(s)) == Numeral(v) + ['0' + d as char];
      }
    }
  }

  lemma PlusSkipped(digits: string)
    requires digits != "" && AllDigits(digits)
    ensures ParsesAsU8(digits) <==> Decimal(digits) <= 255
    ensures ParsesAsU8("+" + digits) <==> Decimal(digits) <= 255
  {
    assert IsDigit(digits[0]) && ("+" + digits)[1..] == digits;
    hide Decimal;
  }

  lemma OctetParses(part: string, plus: string, zeros: nat, n: nat)
    requires SpellsOctet(part, plus, zeros, n)
    ensures ParsesAsU8(part)
  {
    DecimalOfNumeral(zeros, n);
    var digits := Zeros(zeros) + Numeral(n);
    assert plus == "" ==> part == digits;
    hide Numeral, Zeros, Decimal, ParsesAsU8;
    PlusSkipped(digits);
  }

  lemma OctetSpelled(part: string)
    requires ParsesAsU8(part)
    ensures IsOctet(part)
  {
    var plus := if part[0] == '+' then "+" else "";
    var digits := part[|plus|..];
    var zeros := DigitsSpell(digits);
    assert part == plus + digits;
    assert SpellsOctet(part, plus, zeros, Decimal(digits));
  }

  // The parse accepts exactly the numbers up to 255.
  lemma OctetExactly(part: string)
    ensures ParsesAsU8(part) <==> IsOctet(part)
  {
    if ParsesAsU8(part) {
      OctetSpelled(part);
    }
    if IsOctet(part) {
      var plus, zeros: nat, n: nat :| SpellsOctet(part, plus, zeros, n);
      OctetParses(part, plus, zeros, n);
    }
    hide ParsesAsU8, SpellsOctet;
  }

  lemma AddressExactly(labels: seq<string>)
    ensures IsDottedQuad(labels) <==> IsAddress(labels)
  {
    if |labels| == 4 {
      forall i | 0 <= i < 4 ensures ParsesAsU8(labels[i]) <==> IsOctet(labels[i]) {
        OctetExactly(labels[i]);
      }
    }
    hide ParsesAsU8, IsOctet;
  }

  // --- What the registrable domain is --------------------------------------------------------

  predicate IsLabel(s: string) {
    s != "" && forall i | 0 <= i < |s| :: 'a' <= s[i] <= 'z' || IsDigit(s[i]) || s[i] == '-'
  }

  predicate AreLabels(labels: seq<string>) {
    labels != [] && forall i | 0 <= i < |labels| :: IsLabel(labels[i])
  }

  // Where the public suffix starts: labels are stripped until what is left is listed or
  // a top-level domain.
  function SuffixStart(labels: seq<string>, listed: seq<string>): (k: nat)
    requires labels != []
    ensures k < |labels|
  {
    if |labels| == 1 || Join(labels, '.') in listed then 0 else 1 + SuffixStart(labels[1..], listed)
  }

  lemma LabelsFree(labels: seq<string>)
    requires AreLabels(labels)
    ensures Free(labels, '.') && Free(labels, ':')
  {
  }

  lemma {:induction false} SuffixStartIsFirst(labels: seq<string>, listed: seq<string>)
    requires labels != []
    ensures var k := SuffixStart(labels, listed);
            && (k == |labels| - 1 || Join(labels[k..], '.') in listed)
            && forall j | 0 <= j < k :: Join(labels[j..], '.') !in listed
  {
    assert labels[0..] == labels;
    if |labels| > 1 && Join(labels, '.') !in listed {
      SuffixStartIsFirst(labels[1..], listed);
      var k := SuffixStart(labels, listed);
      assert labels[1..][k - 1..] == labels[k..];
      forall j | 0 < j < k ensures Join(labels[j..], '.') !in listed {
        assert labels[1..][j - 1..] == labels[j..];
      }
    }
  }

  lemma EndsOnWhole(part: string, suffix: string)
    requires '.' !in part
    ensures EndsOn(part, suffix) <==> part == suffix
  {
    assert |suffix| < |part| ==> part[|part| - |suffix| - 1..][0] == part[|part| - |suffix| - 1];
  }

  lemma EndsOnRest(head: string, rest: string, suffix: string)
    requires '.' !in head && EndsOn(head + "." + rest, suffix) && suffix != head + "." + rest
    ensures EndsOn(rest, suffix)
  {
    var host := head + "." + rest;
    var p := |host| - |suffix| - 1;
    assert host[p..][0] == '.' && forall q | 0 <= q < |head| :: host[q] == head[q];
    if p == |head| {
      assert host[p..] == "." + rest;
      assert suffix == ("." + suffix)[1..];
    } else {
      assert rest[|rest| - |suffix| - 1..] == host[p..];
    }
  }

  // A suffix on a label boundary is a tail of the labels.
  lemma {:induction false} EndsOnTail(labels: seq<string>, suffix: string) returns (j: nat)
    requires AreLabels(labels) && EndsOn(Join(labels, '.'), suffix) && suffix != ""
    ensures j < |labels| && suffix == Join(labels[j..], '.')
  {
    LabelsFree(labels);
    if Join(labels, '.') == suffix {
      assert labels[0..] == labels;
      j := 0;
    } else {
      EndsOnWhole(labels[0], suffix);
      EndsOnRest(labels[0], Join(labels[1..], '.'), suffix);
      var i := EndsOnTail(labels[1..], suffix);
      assert labels[1..][i..] == labels[i + 1..];
      j := i + 1;
    }
  }

  lemma EndsOnLonger(head: string, rest: string, suffix: string)
    requires EndsOn(rest, suffix)
    ensures EndsOn(head + "." + rest, suffix)
  {
    var host := head + "." + rest;
    if rest == suffix {
      assert host[|head|..] == "." + suffix;
    } else {
      assert host[|host| - |suffix| - 1..] == rest[|rest| - |suffix| - 1..];
    }
  }

  lemma {:induction false} TailEndsOn(labels: seq<string>, j: nat)
    requires AreLabels(labels) && j < |labels|
    ensures EndsOn(Join(labels, '.'), Join(labels[j..], '.'))
    ensures |Join(labels[j..], '.')| <= |Join(labels, '.')| - j
  {
    if j == 0 {
      assert labels[0..] == labels;
    } else {
      TailEndsOn(labels[1..], j - 1);
      assert labels[1..][j - 1..] == labels[j..];
      EndsOnLonger(labels[0], Join(labels[1..], '.'), Join(labels[j..], '.'));
    }
  }

  function TailFrom(labels: seq<string>, j: nat): string
    requires j <= |labels|
  {
    Join(labels[j..], '.')
  }

  lemma TailsShrink(labels: seq<string>, i: nat, j: nat)
    requires AreLabels(labels) && i <= j < |labels|
    ensures |TailFrom(labels, j)| <= |TailFrom(labels, i)| - (j - i)
  {
    TailEndsOn(labels[i..], j - i);
    assert labels[i..][j - i..] == labels[j..];
  }

  // No listed suffix is longer than the tail at which stripping labels stops.
  lemma ListedIsNoLonger(labels: seq<string>, listed: seq<string>, suffix: string)
    requires AreLabels(labels) && suffix in listed && suffix != "" && EndsOn(Join(labels, '.'), suffix)
    ensures var tail := TailFrom(labels, SuffixStart(labels, listed));
            tail in listed && |suffix| <= |tail| && (|suffix| == |tail| ==> suffix == tail)
  {
    var k := SuffixStart(labels, listed);
    SuffixStartIsFirst(labels, listed);
    var j := EndsOnTail(labels, suffix);
    TailsShrink(labels, k, j);
  }

  // The longest listed suffix begins where stripping labels stops.
  lemma KnownSuffixIsTail(labels: seq<string>, listed: seq<string>)
    requires AreLabels(labels) && "" !in listed
    ensures var tail := TailFrom(labels, SuffixStart(labels, listed));
            KnownSuffix(Join(labels, '.'), listed) == if tail in listed then Some(tail) else None
  {
    var host, k := Join(labels, '.'), SuffixStart(labels, listed);
    TailEndsOn(labels, k);
    var known := KnownSuffix(host, listed);
    if known.Some? {
      ListedIsNoLonger(labels, listed, known.value);
    }
  }

  lemma PartsOfTail(labels: seq<string>, j: nat)
    requires AreLabels(labels) && j < |labels|
    ensures Split(TailFrom(labels, j), '.') == labels[j..]
  {
    LabelsFree(labels);
    SplitOfJoin(labels[j..], '.');
  }

  lemma AddressesAmongHosts(labels: seq<string>)
    requires AreLabels(labels)
    ensures IsIpOrLocalhost(Join(labels, '.')) <==> Join(labels, '.') == "localhost" || IsAddress(labels)
    ensures Split(Join(labels, '.'), '.') == labels
  {
    LabelsFree(labels);
    SplitOfJoin(labels, '.');
    NoColon(labels);
    AddressExactly(labels);
    hide IsAddress, IsDottedQuad;
  }

  // Whether the host is a public suffix, and how many labels its suffix has.
  lemma SuffixOfHost(labels: seq<string>, listed: seq<string>)
    requires AreLabels(labels) && "" !in listed
    ensures var host, k := Join(labels, '.'), SuffixStart(labels, listed);
            var known := KnownSuffix(host, listed);
            && ('.' !in host || known == Some(host) <==> k == 0)
            && (if known.Some? then |Split(known.value, '.')| else 1) == |labels| - k
  {
    var k := SuffixStart(labels, listed);
    KnownSuffixIsTail(labels, listed);
    SuffixStartIsFirst(labels, listed);
    PartsOfTail(labels, k);
    DotsBetween(labels);
    assert labels[0..] == labels;
    TailsShrink(labels, 0, k);
  }

  // The registrable domain is one label longer than the public suffix, which is the
  // longest listed one or else the top-level domain; there is none exactly for an
  // address, `localhost` and a host that is a public suffix itself.
  lemma DomainIsSuffixAndOneLabel(labels: seq<string>, listed: seq<string>)
    requires AreLabels(labels) && "" !in listed
    ensures var host, k := Join(labels, '.'), SuffixStart(labels, listed);
            DomainOfHost(host, listed) ==
              if host == "localhost" || IsAddress(labels) || k == 0 then None else Some(TailFrom(labels, k - 1))
  {
    var host := Join(labels, '.');
    AddressesAmongHosts(labels);
    SuffixOfHost(labels, listed);
    PartsFromSuffix(host, labels, KnownSuffix(host, listed), SuffixStart(labels, listed));
  }

  lemma PartsFromSuffix(host: string, labels: seq<string>, known: Option<string>, k: nat)
    requires k < |labels| && ('.' !in host || known == Some(host) <==> k == 0)
    requires (if known.Some? then |Split(known.value, '.')| else 1) == |labels| - k
    ensures DomainOfParts(host, labels, known) ==
              if IsIpOrLocalhost(host) || k == 0 then None else Some(TailFrom(labels, k - 1))
  {
  }

  lemma {:induction false} NoColon(labels: seq<string>)
    requires AreLabels(labels)
    ensures ':' !in Join(labels, '.')
  {
    if |labels| > 1 {
      NoColon(labels[1..]);
      var host, rest := Join(labels, '.'), Join(labels[1..], '.');
      assert host == labels[0] + "." + rest;
    }
  }

  lemma DotsBetween(labels: seq<string>)
    requires AreLabels(labels)
    ensures '.' in Join(labels, '.') <==> |labels| > 1
  {
    if |labels| > 1 {
      assert Join(labels, '.')[|labels[0]|] == '.';
    }
  }

  lemma {:induction false} JoinEnds(labels: seq<string>)
    requires AreLabels(labels)
    ensures var host, last := Join(labels, '.'), labels[|labels| - 1];
            host != "" && host[|host| - 1] == last[|last| - 1]
  {
    if |labels| > 1 {
      JoinEnds(labels[1..]);
    }
  }

  lemma LetterIsNoU8(part: string)
    requires Suffixes.EndsInLetter(part)
    ensures !ParsesAsU8(part)
  {
    var digits := if part[0] == '+' then part[1..] else part;
    if digits != "" {
      assert digits[|digits| - 1] == part[|part| - 1];
    }
  }

  lemma DomainStart(labels: seq<string>, listed: seq<string>)
    requires AreLabels(labels) && SuffixStart(labels, listed) > 0
    ensures var domain := labels[SuffixStart(labels, listed) - 1..];
            Join(domain, '.') !in listed && SuffixStart(domain, listed) == 1
  {
    var k := SuffixStart(labels, listed);
    SuffixStartIsFirst(labels, listed);
    var domain := labels[k - 1..];
    assert domain[1..] == labels[k..];
    assert SuffixStart(domain[1..], listed) == 0;
  }

  lemma LetterEndsNoQuad(parts: seq<string>)
    requires |parts| > 0 && Suffixes.EndsInLetter(parts[|parts| - 1])
    ensures !IsAddress(parts)
  {
    LetterIsNoU8(parts[|parts| - 1]);
    AddressExactly(parts);
  }

  lemma ListedTailEndsInLetter(labels: seq<string>, k: nat, listed: seq<string>)
    requires AreLabels(labels) && k < |labels| && Join(labels[k..], '.') in listed
    requires forall s :: s in listed ==> Suffixes.EndsInLetter(s)
    ensures Suffixes.EndsInLetter(labels[|labels| - 1])
  {
    JoinEnds(labels[k..]);
    assert labels[k..][|labels| - k - 1] == labels[|labels| - 1];
  }

  lemma DomainIsNoQuad(labels: seq<string>, listed: seq<string>)
    requires AreLabels(labels) && SuffixStart(labels, listed) > 0
    requires forall s :: s in listed ==> Suffixes.EndsInLetter(s)
    ensures !IsAddress(labels[SuffixStart(labels, listed) - 1..])
  {
    var k := SuffixStart(labels, listed);
    SuffixStartIsFirst(labels, listed);
    if k < |labels| - 1 {
      ListedTailEndsInLetter(labels, k, listed);
      LetterEndsNoQuad(labels[k - 1..]);
    }
  }

  lemma LocalhostHasNoDot()
    ensures '.' !in "localhost"
  {
  }

  lemma DomainOfDomain(domain: seq<string>, listed: seq<string>)
    requires AreLabels(domain) && "" !in listed && SuffixStart(domain, listed) == 1 && !IsAddress(domain)
    ensures DomainOfHost(Join(domain, '.'), listed) == Some(Join(domain, '.'))
  {
    LocalhostHasNoDot();
    DotsBetween(domain);
    assert domain[0..] == domain;
    DomainIsSuffixAndOneLabel(domain, listed);
  }

  // --- From an origin to its host ---------------------------------------------------------------

  // Where the first "://" begins.
  function SchemeEnd(s: string): (end: Option<nat>)
    ensures end.Some? ==> end.value + 3 <= |s|
  {
    if |s| < 3 then None
    else if s[..3] == "://" then Some(0)
    else
      var rest := SchemeEnd(s[1..]);
      if rest.Some? then Some(rest.value + 1) else None
  }

  function AfterScheme(s: string): string {
    var end := SchemeEnd(s);
    if end.Some? then s[end.value + 3..]
    else if |s| >= 2 && s[..2] == "//" then s[2..]
    else s
  }

  predicate EndsAuthority(c: char) {
    c == '/' || c == '?' || c == '#'
  }

  // The host part of an authority whose user information is gone: a bracketed address,
  // or all of it up to a port of digits.
  function WithoutPort(s: string): string {
    if s != "" && s[0] == '[' then Split(s[1..], ']')[0]
    else if ':' in s then
      var port := AfterLast(s, ':');
      if port != "" && AllDigits(port) && |port| < |s| then s[..|s| - |port| - 1] else s
    else s
  }

  predicate IsDot(c: char) {
    c == '.'
  }

  // The host of the authority at the start of `s`.
  function HostIn(s: string): string {
    var authority := TakeUntil(s, EndsAuthority);
    Lower(Trim(TrimEnd(WithoutPort(AfterLast(authority, '@')), IsDot)))
  }

  function NonEmpty(s: string): Option<string> {
    if s == "" then None else Some(s)
  }

  function HostOf(origin: string): Option<string> {
    var s := Trim(origin);
    if s == "" then None else NonEmpty(HostIn(AfterScheme(s)))
  }

  function RegistrableDomain(origin: string, listed: seq<string>): Option<string> {
    var host := HostOf(origin);
    if host.None? then None else DomainOfHost(host.value, listed)
  }

  predicate IsScheme(scheme: string) {
    && scheme != "" && IsAlpha(scheme[0])
    && forall i | 0 <= i < |scheme| ::
         IsAlpha(scheme[i]) || IsDigit(scheme[i]) || scheme[i] == '+' || scheme[i] == '-' || scheme[i] == '.'
  }

  function SchemeOf(origin: string): Option<string> {
    var s := Trim(origin);
    var end := SchemeEnd(s);
    if end.Some? && IsScheme(s[..end.value]) then Some(Lower(s[..end.value])) else None
  }

  // Whether a saved login may be filled at the origin.
  predicate UrlMatchesOrigin(url: string, origin: string, listed: seq<string>) {
    Compatible(SchemeOf(url), SchemeOf(origin), RegistrableDomain(url, listed), RegistrableDomain(origin, listed))
  }

  predicate Compatible(
      scheme: Option<string>, pageScheme: Option<string>, domain: Option<string>, page: Option<string>) {
    !(scheme == Some("https") && pageScheme == Some("http")) && domain.Some? && domain == page
  }

  // --- Reading a URL ------------------------------------------------------------------------------

  // What stands before the authority.
  datatype Prefix = Bare | Slashes | Scheme(name: string) {
    function Before(rest: string): string {
      match this
      case Bare => rest
      case Slashes => "//" + rest
      case Scheme(name) => name + "://" + rest
    }

    function Read(): Option<string> {
      if Scheme? then Some(Lower(name)) else None
    }
  }

  // The parts of a URL, a scheme-relative one or a bare host; the host is written in
  // any case, perhaps with dots behind it.
  datatype Url = Url(prefix: Prefix, user: Option<string>, labels: seq<string>, host: string, dots: nat,
                     port: Option<string>, tail: string)
  {
    predicate WellFormed() {
      && (prefix.Scheme? ==> IsScheme(prefix.name))
      && (user.Some? ==> forall i | 0 <= i < |user.value| :: !EndsAuthority(user.value[i]))
      && AreLabels(labels) && Lower(host) == Join(labels, '.')
      && (port.Some? ==> port.value != "" && AllDigits(port.value))
      && (tail == "" || EndsAuthority(tail[0]))
      && IsTrimmed(Text())
    }

    // Without a scheme of its own, the text holds no other "://".
    predicate Valid() {
      WellFormed() && (prefix.Scheme? || SchemeEnd(Rest()).None?)
    }

    function HostPort(): string {
      host + Dots(dots) + if port.Some? then ":" + port.value else ""
    }

    function Authority(): string {
      (if user.Some? then user.value + "@" else "") + HostPort()
    }

    function Rest(): string {
      Authority() + tail
    }

    function Text(): string {
      prefix.Before(Rest())
    }
  }

  function Dots(n: nat): (s: string)
    ensures |s| == n && forall i | 0 <= i < n :: s[i] == '.'
  {
    seq(n, _ => '.')
  }

  // No whitespace at either end.
  predicate IsTrimmed(s: string) {
    s == "" || (!IsWhitespace(s[0]) && !IsWhitespace(s[|s| - 1]))
  }

  lemma TrimNothing(s: string)
    requires IsTrimmed(s)
    ensures Trim(s) == s
  {
  }

  lemma {:induction false} TrimStartOf(a: string, b: string)
    requires forall i | 0 <= i < |a| :: IsWhitespace(a[i])
    requires b == "" || !IsWhitespace(b[0])
    ensures TrimStart(a + b, IsWhitespace) == b
  {
    if a == "" {
      assert a + b == b;
    } else {
      TrimStartOf(a[1..], b);
      assert (a + b)[1..] == a[1..] + b;
    }
  }

  // Whitespace around a text is not read.
  lemma SpaceAroundIsIgnored(before: string, text: string, after: string)
    requires text != "" && IsTrimmed(text)
    requires forall i | 0 <= i < |before| :: IsWhitespace(before[i])
    requires forall i | 0 <= i < |after| :: IsWhitespace(after[i])
    ensures HostOf(before + (text + after)) == HostOf(text) && SchemeOf(before + (text + after)) == SchemeOf(text)
  {
    TrimStartOf(before, text + after);
    TrimEndOf(text, after, IsWhitespace);
    TrimNothing(text);
  }

  lemma {:induction false} SchemeEndAt(scheme: string, rest: string)
    requires SchemeEnd(scheme).None?
    ensures SchemeEnd(scheme + "://" + rest) == Some(|scheme|)
  {
    var s := scheme + "://" + rest;
    if scheme == "" {
      assert s[..3] == "://";
    } else {
      assert s[..3] != "://" by {
        if |scheme| >= 3 {
          assert s[..3] == scheme[..3];
        } else {
          assert s[..3][|scheme|] == ':' && "://"[|scheme|] == '/';
        }
      }
      assert s[1..] == scheme[1..] + "://" + rest;
      SchemeEndAt(scheme[1..], rest);
    }
  }

  // A character of a host, in either letter case.
  predicate InHost(c: char) {
    IsAlpha(c) || IsDigit(c) || c == '-' || c == '.'
  }

  lemma {:induction false} JoinInHost(labels: seq<string>)
    requires AreLabels(labels)
    ensures Join(labels, '.') != "" && forall i | 0 <= i < |Join(labels, '.')| :: InHost(Join(labels, '.')[i])
  {
    if |labels| > 1 {
      JoinInHost(labels[1..]);
    }
  }

  lemma HostChars(u: Url)
    requires u.WellFormed()
    ensures u.host != "" && forall i | 0 <= i < |u.host| :: InHost(u.host[i])
    ensures u.host[|u.host| - 1] != '.'
  {
    JoinInHost(u.labels);
    JoinEnds(u.labels);
    var lower := Lower(u.host);
    forall i | 0 <= i < |u.host| ensures InHost(u.host[i]) {
      assert InHost(lower[i]) && lower[i] == LowerChar(u.host[i]);
    }
    assert lower[|lower| - 1] != '.';
  }

  lemma HostPortChars(u: Url)
    requires u.WellFormed()
    ensures forall i | 0 <= i < |u.HostPort()| :: InHost(u.HostPort()[i]) || u.HostPort()[i] == ':'
  {
    HostChars(u);
  }

  lemma NoEndWithUser(user: string, hostPort: string)
    requires forall i | 0 <= i < |user| :: !EndsAuthority(user[i])
    requires forall i | 0 <= i < |hostPort| :: InHost(hostPort[i]) || hostPort[i] == ':'
    ensures forall i | 0 <= i < |user + "@" + hostPort| :: !EndsAuthority((user + "@" + hostPort)[i])
  {
  }

  lemma UserStripped(user: string, hostPort: string)
    requires forall i | 0 <= i < |hostPort| :: InHost(hostPort[i]) || hostPort[i] == ':'
    ensures AfterLast(user + "@" + hostPort, '@') == hostPort
  {
    AfterLastOf(user, '@', hostPort);
  }

  lemma UserRemoved(user: string, hostPort: string, tail: string)
    requires forall i | 0 <= i < |user| :: !EndsAuthority(user[i])
    requires forall i | 0 <= i < |hostPort| :: InHost(hostPort[i]) || hostPort[i] == ':'
    requires tail == "" || EndsAuthority(tail[0])
    ensures AfterLast(TakeUntil(user + "@" + hostPort + tail, EndsAuthority), '@') == hostPort
  {
    var authority := user + "@" + hostPort;
    NoEndWithUser(user, hostPort);
    UserStripped(user, hostPort);
    TakeUntilAt(authority, tail, EndsAuthority);
  }

  lemma NoUserToRemove(hostPort: string, tail: string)
    requires forall i | 0 <= i < |hostPort| :: InHost(hostPort[i]) || hostPort[i] == ':'
    requires tail == "" || EndsAuthority(tail[0])
    ensures AfterLast(TakeUntil(hostPort + tail, EndsAuthority), '@') == hostPort
  {
    TakeUntilAt(hostPort, tail, EndsAuthority);
  }

  lemma PortRemoved(name: string, port: Option<string>)
    requires name != "" && name[0] != '[' && ':' !in name
    requires port.Some? ==> port.value != "" && AllDigits(port.value)
    ensures WithoutPort(name + if port.Some? then ":" + port.value else "") == name
  {
    if port.Some? {
      var s := name + ":" + port.value;
      AfterLastOf(name, ':', port.value);
      assert s == name + (":" + port.value) && s[|name|] == ':' && s[0] == name[0];
      assert s[..|name|] == name;
    } else {
      assert name + "" == name;
    }
  }

  lemma DotsRemoved(host: string, dots: nat)
    requires host != "" && (forall i | 0 <= i < |host| :: InHost(host[i])) && host[|host| - 1] != '.'
    ensures Trim(TrimEnd(host + Dots(dots), IsDot)) == host
    ensures ':' !in host + Dots(dots) && (host + Dots(dots))[0] != '['
  {
    TrimEndOf(host, Dots(dots), IsDot);
    TrimNothing(host);
  }

  lemma HostPortIsIn(u: Url)
    requires u.WellFormed()
    ensures AfterLast(TakeUntil(u.Rest(), EndsAuthority), '@') == u.HostPort()
  {
    HostPortChars(u);
    if u.user.Some? {
      UserRemoved(u.user.value, u.HostPort(), u.tail);
    } else {
      assert u.Authority() == u.HostPort();
      NoUserToRemove(u.HostPort(), u.tail);
    }
  }

  lemma HostIsIn(u: Url)
    requires u.WellFormed()
    ensures HostIn(u.Rest()) == Join(u.labels, '.')
  {
    HostPortIsIn(u);
    HostChars(u);
    DotsRemoved(u.host, u.dots);
    PortRemoved(u.host + Dots(u.dots), u.port);
  }

  lemma SchemeIsRead(scheme: string, rest: string)
    requires IsScheme(scheme)
    ensures var s := scheme + "://" + rest;
            SchemeEnd(s) == Some(|scheme|) && s[..|scheme|] == scheme && AfterScheme(s) == rest
  {
    NoColonNoScheme(scheme);
    SchemeEndAt(scheme, rest);
    var s := scheme + "://" + rest;
    assert s[|scheme| + 3..] == rest;
  }

  lemma SchemeEndBehind(c: char, rest: string)
    requires c != ':'
    ensures SchemeEnd([c] + rest) == if SchemeEnd(rest).Some? then Some(SchemeEnd(rest).value + 1) else None
  {
    var s := [c] + rest;
    assert s[1..] == rest;
    assert |s| >= 3 ==> s[..3][0] == c;
  }

  lemma SchemeEndBehindSlashes(rest: string)
    ensures SchemeEnd("//" + rest) == if SchemeEnd(rest).Some? then Some(SchemeEnd(rest).value + 2) else None
  {
    hide SchemeEnd;
    var behindOne := ['/'] + rest;
    SchemeEndBehind('/', rest);
    SchemeEndBehind('/', behindOne);
    assert "//" + rest == ['/'] + behindOne;
  }

  lemma PrefixIsRead(prefix: Prefix, rest: string)
    requires rest != "" && rest[0] != '/'
    requires if prefix.Scheme? then IsScheme(prefix.name) else SchemeEnd(rest).None?
    ensures var text := prefix.Before(rest);
            && AfterScheme(text) == rest
            && if prefix.Scheme? then SchemeEnd(text) == Some(|prefix.name|) && text[..|prefix.name|] == prefix.name
               else SchemeEnd(text).None?
  {
    match prefix
    case Bare => assert |rest| >= 2 ==> rest[..2][0] == rest[0];
    case Slashes =>
      SchemeEndBehindSlashes(rest);
      assert ("//" + rest)[2..] == rest;
    case Scheme(name) => SchemeIsRead(name, rest);
  }

  // What is read behind a prefix.
  lemma RestIsRead(prefix: Prefix, rest: string)
    requires rest != "" && rest[0] != '/' && IsTrimmed(prefix.Before(rest))
    requires if prefix.Scheme? then IsScheme(prefix.name) else SchemeEnd(rest).None?
    ensures HostOf(prefix.Before(rest)) == NonEmpty(HostIn(rest)) && SchemeOf(prefix.Before(rest)) == prefix.Read()
  {
    TrimNothing(prefix.Before(rest));
    PrefixIsRead(prefix, rest);
  }

  lemma RestBegins(u: Url)
    requires u.WellFormed()
    ensures u.Rest() != "" && u.Rest()[0] != '/'
  {
    HostChars(u);
    if u.user.Some? && u.user.value != "" {
      assert u.Rest()[0] == u.user.value[0];
    }
  }

  // Whatever surrounds it, the host is what is read.
  lemma HostIsRead(u: Url)
    requires u.Valid()
    ensures HostOf(u.Text()) == Some(Join(u.labels, '.')) && SchemeOf(u.Text()) == u.prefix.Read()
  {
    RestBegins(u);
    RestIsRead(u.prefix, u.Rest());
    HostIsIn(u);
    JoinEnds(u.labels);
  }

  lemma HostBehindScheme(text: string, rest: string)
    requires text != "" && IsTrimmed(text) && AfterScheme(text) == rest
    ensures HostOf(text) == NonEmpty(HostIn(rest))
  {
    TrimNothing(text);
  }

  lemma SchemeInside(prefix: Prefix, rest: string, end: nat)
    requires !prefix.Scheme? && SchemeEnd(rest) == Some(end)
    ensures AfterScheme(prefix.Before(rest)) == rest[end + 3..]
  {
    if prefix.Slashes? {
      SchemeEndBehindSlashes(rest);
      assert ("//" + rest)[end + 5..] == rest[end + 3..];
    }
  }

  // Where the host of a text without a scheme of its own is read.
  function ReadFrom(rest: string): string {
    if SchemeEnd(rest).None? then rest else rest[SchemeEnd(rest).value + 3..]
  }

  lemma BareTextIsRead(prefix: Prefix, rest: string)
    requires !prefix.Scheme? && rest != "" && rest[0] != '/' && IsTrimmed(prefix.Before(rest))
    ensures HostOf(prefix.Before(rest)) == NonEmpty(HostIn(ReadFrom(rest)))
  {
    if SchemeEnd(rest).None? {
      PrefixIsRead(prefix, rest);
    } else {
      SchemeInside(prefix, rest, SchemeEnd(rest).value);
    }
    HostBehindScheme(prefix.Before(rest), ReadFrom(rest));
  }

  lemma BareHostIsReadFrom(u: Url)
    requires u.WellFormed() && !u.prefix.Scheme?
    ensures HostOf(u.Text()) == NonEmpty(HostIn(ReadFrom(u.Rest())))
  {
    RestBegins(u);
    BareTextIsRead(u.prefix, u.Rest());
  }

  lemma ReadHereOrBehind(read: Option<string>, here: bool, host: string, behind: string)
    requires host != "" && read == NonEmpty(if here then host else behind)
    ensures here ==> read == Some(host)
    ensures !here ==> read == NonEmpty(behind)
    ensures read == Some(host) <==> here || behind == host
  {
  }

  lemma HostInReadFrom(u: Url, behind: string)
    requires u.WellFormed() && behind == HostIn(ReadFrom(u.Rest()))
    ensures SchemeEnd(u.Rest()).None? ==> behind == Join(u.labels, '.')
    ensures Join(u.labels, '.') != ""
  {
    HostIsIn(u);
    JoinEnds(u.labels);
  }

  // A text without a scheme of its own is read as its host if it holds no "://" farther
  // on; otherwise what is read is the host behind the first one, which is right only if
  // it is the same.
  lemma BareHostIsRead(u: Url)
    requires u.WellFormed() && !u.prefix.Scheme?
    ensures SchemeEnd(u.Rest()).None? ==> HostOf(u.Text()) == Some(Join(u.labels, '.'))
    ensures SchemeEnd(u.Rest()).Some? ==> HostOf(u.Text()) == NonEmpty(HostIn(ReadFrom(u.Rest())))
    ensures HostOf(u.Text()) == Some(Join(u.labels, '.')) <==>
              SchemeEnd(u.Rest()).None? || HostIn(ReadFrom(u.Rest())) == Join(u.labels, '.')
  {
    var behind := HostIn(ReadFrom(u.Rest()));
    BareHostIsReadFrom(u);
    HostInReadFrom(u, behind);
    ReadHereOrBehind(HostOf(u.Text()), SchemeEnd(u.Rest()).None?, Join(u.labels, '.'), behind);
  }

  // What comes before the first "://" is not read at all, even where it is a host with
  // a path or query of its own.
  lemma HostBeforeSchemeIsIgnored(before: string, u: Url)
    requires u.WellFormed() && SchemeEnd(before).None? && IsTrimmed(before + "://" + u.Rest())
    ensures var text := before + "://" + u.Rest();
            && HostOf(text) == Some(Join(u.labels, '.'))
            && SchemeOf(text) == if IsScheme(before) then Some(Lower(before)) else None
  {
    var text := before + "://" + u.Rest();
    TrimNothing(text);
    SchemeEndAt(before, u.Rest());
    assert text[|before| + 3..] == u.Rest() && text[..|before|] == before;
    HostIsIn(u);
    JoinEnds(u.labels);
  }

  lemma {:induction false} NoColonNoScheme(s: string)
    requires ':' !in s
    ensures SchemeEnd(s).None?
  {
    if |s| >= 3 {
      NoColonNoScheme(s[1..]);
      assert s[..3][0] == s[0];
    }
  }

  // A host by itself, in lower case.
  function BareUrl(labels: seq<string>): Url {
    Url(Bare, None, labels, Join(labels, '.'), 0, None, "")
  }

  lemma BareUrlText(labels: seq<string>)
    ensures BareUrl(labels).Rest() == BareUrl(labels).Text() == Join(labels, '.')
  {
    assert Dots(0) == "";
  }

  lemma HostIsPlain(labels: seq<string>)
    requires AreLabels(labels)
    ensures var host := Join(labels, '.');
            host != "" && IsTrimmed(host) && Lower(host) == host && SchemeEnd(host).None?
  {
    JoinInHost(labels);
    JoinLower(labels);
    NoColon(labels);
    NoColonNoScheme(Join(labels, '.'));
  }

  lemma BareUrlIsValid(labels: seq<string>)
    requires AreLabels(labels)
    ensures BareUrl(labels).Valid() && BareUrl(labels).Text() == Join(labels, '.')
  {
    BareUrlText(labels);
    HostIsPlain(labels);
  }

  lemma {:induction false} JoinLower(labels: seq<string>)
    requires AreLabels(labels)
    ensures Lower(Join(labels, '.')) == Join(labels, '.')
  {
    if |labels| > 1 {
      JoinLower(labels[1..]);
      var host, rest := Join(labels, '.'), Join(labels[1..], '.');
      assert host == labels[0] + "." + rest;
      assert forall i | 0 <= i < |rest| :: LowerChar(rest[i]) == Lower(rest)[i] == rest[i];
    }
  }

  lemma {:induction false} ColonStays(s: string)
    ensures ':' in s ==> ':' in TrimEnd(s, IsDot)
  {
    if s != "" && IsDot(s[|s| - 1]) {
      ColonStays(s[..|s| - 1]);
      assert s == s[..|s| - 1] + [s[|s| - 1]];
    }
  }

  lemma {:induction false} TrimEndPrefix(s: string, drop: char -> bool)
    ensures TrimEnd(s, drop) <= s
  {
    if s != "" && drop(s[|s| - 1]) {
      TrimEndPrefix(s[..|s| - 1], drop);
    }
  }

  // What may stand between the brackets: an IPv6 address, perhaps with a zone.
  predicate IsBracketed(address: string) {
    && ':' in address
    && forall i | 0 <= i < |address| ::
         !IsWhitespace(address[i]) && !EndsAuthority(address[i]) && address[i] != ']' && address[i] != '@'
  }

  lemma BracketsRead(address: string, port: string)
    requires IsBracketed(address)
    ensures WithoutPort("[" + address + "]" + port) == address
  {
    var s := "[" + address + "]" + port;
    assert s[1..] == address + "]" + port;
    FirstAfter(address, ']', port);
    assert s[1..][|address|] == ']' && s[1..][..|address|] == address;
  }

  lemma AddressIsIn(address: string, port: string, tail: string)
    requires IsBracketed(address) && forall i | 0 <= i < |port| :: IsDigit(port[i]) || port[i] == ':'
    requires tail == "" || EndsAuthority(tail[0])
    ensures var host := HostIn("[" + address + "]" + port + tail); host != "" && ':' in host
  {
    var s := "[" + address + "]" + port;
    assert forall i | 0 <= i < |s| :: !EndsAuthority(s[i]) && s[i] != '@';
    TakeUntilAt(s, tail, EndsAuthority);
    BracketsRead(address, port);
    ColonStays(address);
    TrimEndPrefix(address, IsDot);
    var kept := TrimEnd(address, IsDot);
    TrimNothing(kept);
    var i :| 0 <= i < |kept| && kept[i] == ':';
    assert Lower(kept)[i] == ':';
  }

  // A URL of a bracketed address has no registrable domain, whatever follows it.
  lemma AddressHasNoDomain(prefix: Prefix, address: string, port: string, tail: string, listed: seq<string>)
    requires IsBracketed(address) && forall i | 0 <= i < |port| :: IsDigit(port[i]) || port[i] == ':'
    requires tail == "" || EndsAuthority(tail[0])
    requires var rest := "[" + address + "]" + port + tail;
             && IsTrimmed(prefix.Before(rest))
             && if prefix.Scheme? then IsScheme(prefix.name) else SchemeEnd(rest).None?
    ensures RegistrableDomain(prefix.Before("[" + address + "]" + port + tail), listed) == None
  {
    RestIsRead(prefix, "[" + address + "]" + port + tail);
    AddressIsIn(address, port, tail);
  }

  // What may stand behind a host's colon without ending the authority.
  predicate InPort(c: char) {
    !IsWhitespace(c) && !EndsAuthority(c) && c != '@' && c != ':'
  }

  lemma StrangePortIsKept(host: string, port: string)
    requires host != "" && host[0] != '[' && forall i | 0 <= i < |host| :: InHost(host[i])
    requires forall i | 0 <= i < |port| :: InPort(port[i])
    requires port == "" || !AllDigits(port)
    ensures WithoutPort(host + ":" + port) == host + ":" + port
  {
    AfterLastOf(host, ':', port);
    assert (host + ":" + port)[|host|] == ':';
  }

  // A colon that no port of digits follows stays in the host, which then counts as an
  // address: there is no registrable domain.
  lemma StrangePortHasNoDomain(prefix: Prefix, host: string, port: string, tail: string, listed: seq<string>)
    requires host != "" && forall i | 0 <= i < |host| :: InHost(host[i])
    requires (forall i | 0 <= i < |port| :: InPort(port[i])) && (port == "" || !AllDigits(port))
    requires tail == "" || EndsAuthority(tail[0])
    requires var rest := host + ":" + port + tail;
             && IsTrimmed(prefix.Before(rest))
             && if prefix.Scheme? then IsScheme(prefix.name) else SchemeEnd(rest).None?
    ensures RegistrableDomain(prefix.Before(host + ":" + port + tail), listed) == None
  {
    var s := host + ":" + port;
    assert host[0] != '/';
    StrangeHost(host, port, tail);
    hide HostIn, IsTrimmed, SchemeEnd, IsScheme, EndsAuthority, InPort, InHost, AllDigits;
    RestIsRead(prefix, s + tail);
  }

  lemma StrangeHost(host: string, port: string, tail: string)
    requires host != "" && forall i | 0 <= i < |host| :: InHost(host[i])
    requires (forall i | 0 <= i < |port| :: InPort(port[i])) && (port == "" || !AllDigits(port))
    requires tail == "" || EndsAuthority(tail[0])
    ensures ':' in HostIn(host + ":" + port + tail)
  {
    var s := host + ":" + port;
    assert forall i | 0 <= i < |s| :: !EndsAuthority(s[i]) && s[i] != '@' && !IsWhitespace(s[i]);
    TakeUntilAt(s, tail, EndsAuthority);
    StrangePortIsKept(host, port);
    KeptColon(s, |host|);
  }

  lemma KeptColon(s: string, colon: nat)
    requires colon < |s| && s[colon] == ':' && forall i | 0 <= i < |s| :: !IsWhitespace(s[i])
    ensures ':' in Lower(Trim(TrimEnd(s, IsDot)))
  {
    ColonStays(s);
    TrimEndPrefix(s, IsDot);
    var kept := TrimEnd(s, IsDot);
    TrimNothing(kept);
    var i :| 0 <= i < |kept| && kept[i] == ':';
    assert Lower(kept)[i] == ':';
  }

  // A host that was read is never empty.
  lemma HostIsNotEmpty(text: string)
    ensures HostOf(text) != Some("") && (Trim(text) == "" ==> HostOf(text).None?)
  {
    hide HostIn, AfterScheme;
  }

  // --- The grammar ---------------------------------------------------------------------------------

  const SMALL := "abcdefghijklmnopqrstuvwxyz"
  const CAPITAL := "ABCDEFGHIJKLMNOPQRSTUVWXYZ"
  const DIGITS := "0123456789"

  lemma LettersInOrder()
    ensures |SMALL| == 26 && forall i | 0 <= i < 26 :: SMALL[i] as int == 'a' as int + i
    ensures |CAPITAL| == 26 && forall i | 0 <= i < 26 :: CAPITAL[i] as int == 'A' as int + i
  {
  }

  lemma DigitsInOrder()
    ensures |DIGITS| == 10 && forall i | 0 <= i < 10 :: DIGITS[i] as int == '0' as int + i
  {
  }

  lemma LetterExactly(c: char)
    ensures IsAlpha(c) <==> c in SMALL || c in CAPITAL
  {
    LettersInOrder();
    hide SMALL, CAPITAL;
    if 'a' <= c <= 'z' {
      assert SMALL[c as int - 'a' as int] == c;
    }
    if 'A' <= c <= 'Z' {
      assert CAPITAL[c as int - 'A' as int] == c;
    }
  }

  // Small letters stand for the capitals, and every other character for itself.
  lemma LowerExactly(c: char, i: nat)
    ensures i < 26 ==> LowerChar(CAPITAL[i]) == SMALL[i]
    ensures c !in CAPITAL ==> LowerChar(c) == c
  {
    LetterExactly(c);
    LettersInOrder();
    hide SMALL, CAPITAL;
    if 'A' <= c <= 'Z' {
      assert CAPITAL[c as int - 'A' as int] == c;
    }
  }

  lemma DigitExactly(c: char)
    ensures IsDigit(c) <==> c in DIGITS
  {
    DigitsInOrder();
    hide DIGITS;
    if IsDigit(c) {
      assert DIGITS[c as int - '0' as int] == c;
    }
  }

  predicate InScheme(c: char) {
    c in SMALL || c in CAPITAL || c in DIGITS || c in "+-."
  }

  lemma InSchemeExactly(c: char)
    ensures InScheme(c) <==> IsAlpha(c) || IsDigit(c) || c == '+' || c == '-' || c == '.'
  {
    LetterExactly(c);
    DigitExactly(c);
    hide SMALL, CAPITAL, DIGITS, IsAlpha, IsDigit;
  }

  // A scheme is a letter followed by letters, digits, plus signs, hyphens and dots
  // (section 3.1 of RFC 3986).
  lemma SchemeExactly(s: string)
    ensures IsScheme(s) <==>
              s != "" && (s[0] in SMALL || s[0] in CAPITAL) && forall i | 0 <= i < |s| :: InScheme(s[i])
  {
    if s != "" {
      LetterExactly(s[0]);
    }
    forall i | 0 <= i < |s|
      ensures InScheme(s[i]) <==> IsAlpha(s[i]) || IsDigit(s[i]) || s[i] == '+' || s[i] == '-' || s[i] == '.'
    {
      InSchemeExactly(s[i]);
    }
    hide InScheme, IsAlpha, IsDigit, SMALL, CAPITAL;
  }

  // An authority ends at the next slash, question mark or number sign (section 3.2 of
  // RFC 3986).
  lemma AuthorityEndsExactly(c: char)
    ensures EndsAuthority(c) <==> c in "/?#"
  {
  }

  // --- Matching ------------------------------------------------------------------------------------

  // The labels of the registrable domain.
  ghost function Domain(labels: seq<string>, listed: seq<string>): (domain: Option<seq<string>>)
    requires labels != []
    ensures domain.Some? && AreLabels(labels) ==> AreLabels(domain.value)
  {
    var k := SuffixStart(labels, listed);
    if Join(labels, '.') == "localhost" || IsAddress(labels) || k == 0 then None else Some(labels[k - 1..])
  }

  function Joined(labels: Option<seq<string>>): Option<string> {
    if labels.Some? then Some(Join(labels.value, '.')) else None
  }

  // The domain of any text whose host is known.
  lemma DomainOfText(text: string, labels: seq<string>, listed: seq<string>)
    requires AreLabels(labels) && HostOf(text) == Some(Join(labels, '.')) && "" !in listed
    ensures RegistrableDomain(text, listed) == Joined(Domain(labels, listed))
  {
    DomainIsSuffixAndOneLabel(labels, listed);
  }

  // What is read of a URL is its public suffix and one label more.
  lemma DomainIsRead(u: Url, listed: seq<string>)
    requires u.Valid() && "" !in listed
    ensures RegistrableDomain(u.Text(), listed) == Joined(Domain(u.labels, listed))
  {
    HostIsRead(u);
    DomainOfText(u.Text(), u.labels, listed);
  }

  // A host by itself is read as itself, and its registrable domain is that of the host.
  lemma HostIsItself(labels: seq<string>, listed: seq<string>)
    requires AreLabels(labels)
    ensures HostOf(Join(labels, '.')) == Some(Join(labels, '.'))
    ensures RegistrableDomain(Join(labels, '.'), listed) == DomainOfHost(Join(labels, '.'), listed)
  {
    BareUrlIsValid(labels);
    HostIsRead(BareUrl(labels));
  }

  // A registrable domain is not itself a listed suffix, and is its own registrable
  // domain.
  lemma DomainIsStable(u: Url, listed: seq<string>)
    requires u.Valid() && forall s :: s in listed ==> Suffixes.EndsInLetter(s)
    requires RegistrableDomain(u.Text(), listed).Some?
    ensures var domain := RegistrableDomain(u.Text(), listed).value;
            domain !in listed && RegistrableDomain(domain, listed) == Some(domain)
  {
    DomainIsRead(u, listed);
    var domain := Domain(u.labels, listed).value;
    DomainStart(u.labels, listed);
    DomainIsNoQuad(u.labels, listed);
    DomainOfDomain(domain, listed);
    HostIsItself(domain, listed);
  }

  lemma CompatibleIffSame(
      scheme: Option<string>, pageScheme: Option<string>, a: Option<seq<string>>, b: Option<seq<string>>)
    requires a.Some? ==> AreLabels(a.value)
    requires b.Some? ==> AreLabels(b.value)
    ensures Compatible(scheme, pageScheme, Joined(a), Joined(b)) <==>
              a.Some? && a == b && !(scheme == Some("https") && pageScheme == Some("http"))
  {
    if a.Some? && b.Some? && Joined(a) == Joined(b) {
      LabelsFree(a.value);
      LabelsFree(b.value);
      JoinInjective(a.value, b.value, '.');
    }
  }

  // Two texts whose hosts and schemes are known match exactly when both hosts have a
  // registrable domain, it is the same, and it is not https down to http.
  lemma TextsMatch(text: string, labels: seq<string>, page: string, pageLabels: seq<string>, listed: seq<string>)
    requires AreLabels(labels) && HostOf(text) == Some(Join(labels, '.'))
    requires AreLabels(pageLabels) && HostOf(page) == Some(Join(pageLabels, '.')) && "" !in listed
    ensures UrlMatchesOrigin(text, page, listed) <==>
              && Domain(labels, listed).Some? && Domain(labels, listed) == Domain(pageLabels, listed)
              && !(SchemeOf(text) == Some("https") && SchemeOf(page) == Some("http"))
  {
    DomainOfText(text, labels, listed);
    DomainOfText(page, pageLabels, listed);
    CompatibleIffSame(SchemeOf(text), SchemeOf(page), Domain(labels, listed), Domain(pageLabels, listed));
  }

  // Two URLs, bare hosts among them, match exactly when both hosts have a registrable
  // domain and it is the same, label by label, and the match is not from https down to
  // http; whatever the users, ports, paths and letter case.
  lemma MatchIffSameDomain(u: Url, o: Url, listed: seq<string>)
    requires u.Valid() && o.Valid() && "" !in listed
    ensures UrlMatchesOrigin(u.Text(), o.Text(), listed) <==>
              && Domain(u.labels, listed).Some? && Domain(u.labels, listed) == Domain(o.labels, listed)
              && !(u.prefix.Read() == Some("https") && o.prefix.Read() == Some("http"))
  {
    HostIsRead(u);
    HostIsRead(o);
    TextsMatch(u.Text(), u.labels, o.Text(), o.labels, listed);
  }

  // A stored text with "://" behind a host, path or query of its own matches the pages
  // of the domain behind it, from either scheme: what stands before plays no part.
  lemma TextMatchesHostBehindScheme(before: string, u: Url, o: Url, listed: seq<string>)
    requires u.WellFormed() && SchemeEnd(before).None? && !IsScheme(before) && IsTrimmed(before + "://" + u.Rest())
    requires o.Valid() && "" !in listed
    ensures UrlMatchesOrigin(before + "://" + u.Rest(), o.Text(), listed) <==>
              Domain(u.labels, listed).Some? && Domain(u.labels, listed) == Domain(o.labels, listed)
  {
    HostBeforeSchemeIsIgnored(before, u);
    HostIsRead(o);
    TextsMatch(before + "://" + u.Rest(), u.labels, o.Text(), o.labels, listed);
  }

  lemma NeighbourDomain(name: string, suffix: seq<string>, listed: seq<string>)
    requires suffix != [] && Join(suffix, '.') in listed
    ensures var domain := Domain([name] + suffix, listed); domain.Some? ==> domain.value == [name] + suffix
  {
    var labels := [name] + suffix;
    assert labels[1..] == suffix && labels[0..] == labels;
    assert SuffixStart(suffix, listed) == 0;
  }

  // Two names right under one listed suffix never match each other.
  lemma NeighboursNeverMatch(a: string, b: string, suffix: seq<string>, u: Url, o: Url, listed: seq<string>)
    requires u.Valid() && o.Valid() && "" !in listed && suffix != [] && Join(suffix, '.') in listed
    requires u.labels == [a] + suffix && o.labels == [b] + suffix && a != b
    ensures !UrlMatchesOrigin(u.Text(), o.Text(), listed)
  {
    MatchIffSameDomain(u, o, listed);
    NeighbourDomain(a, suffix, listed);
    NeighbourDomain(b, suffix, listed);
    assert ([a] + suffix)[0] == a && ([b] + suffix)[0] == b;
  }

  // --- The built-in table --------------------------------------------------------------------------

  lemma BuiltInTableQualifies()
    ensures forall s :: s in Suffixes.SUFFIXES ==> Suffixes.EndsInLetter(s)
    ensures "" !in Suffixes.SUFFIXES
  {
    Suffixes.SuffixesEndInLetters();
  }

  lemma BuiltInDomainIsStable(u: Url)
    requires u.Valid() && RegistrableDomain(u.Text(), Suffixes.SUFFIXES).Some?
    ensures var domain := RegistrableDomain(u.Text(), Suffixes.SUFFIXES).value;
            domain !in Suffixes.SUFFIXES && RegistrableDomain(domain, Suffixes.SUFFIXES) == Some(domain)
  {
    BuiltInTableQualifies();
    DomainIsStable(u, Suffixes.SUFFIXES);
  }

  lemma BuiltInMatchIffSameDomain(u: Url, o: Url)
    requires u.Valid() && o.Valid()
    ensures UrlMatchesOrigin(u.Text(), o.Text(), Suffixes.SUFFIXES) <==>
              && Domain(u.labels, Suffixes.SUFFIXES).Some?
              && Domain(u.labels, Suffixes.SUFFIXES) == Domain(o.labels, Suffixes.SUFFIXES)
              && !(u.prefix.Read() == Some("https") && o.prefix.Read() == Some("http"))
  {
    BuiltInTableQualifies();
    MatchIffSameDomain(u, o, Suffixes.SUFFIXES);
  }

  // Both labels of a name right under a top-level domain, if no name is listed there.
  lemma TwoLabels(name: string, top: string, listed: seq<string>)
    requires IsLabel(name) && IsLabel(top) && Join([name, top], '.') !in listed
    requires Join([name, top], '.') != "localhost"
    ensures AreLabels([name, top]) && Domain([name, top], listed) == Some([name, top])
  {
    assert [name, top][1..] == [top];
  }

  // The page of a host, behind a scheme.
  function Page(scheme: string, labels: seq<string>): Url {
    BareUrl(labels).(prefix := Scheme(scheme))
  }

  lemma SchemeNotSpace(scheme: string, rest: string)
    requires IsScheme(scheme) && rest != "" && IsTrimmed(rest)
    ensures IsTrimmed(scheme + "://" + rest)
  {
  }

  lemma PageIsValid(scheme: string, labels: seq<string>)
    requires IsScheme(scheme) && AreLabels(labels)
    ensures Page(scheme, labels).Valid() && Page(scheme, labels).Text() == scheme + "://" + Join(labels, '.')
  {
    HostIsPlain(labels);
    BareUrlText(labels);
    assert Page(scheme, labels).Rest() == BareUrl(labels).Rest();
    SchemeNotSpace(scheme, Join(labels, '.'));
  }

  lemma MatchesHostBehind(before: string, labels: seq<string>, o: Url, listed: seq<string>)
    requires AreLabels(labels) && SchemeEnd(before).None? && !IsScheme(before)
    requires IsTrimmed(before + "://" + Join(labels, '.')) && o.Valid() && "" !in listed
    ensures UrlMatchesOrigin(before + "://" + Join(labels, '.'), o.Text(), listed) <==>
              Domain(labels, listed).Some? && Domain(labels, listed) == Domain(o.labels, listed)
  {
    BareUrlIsValid(labels);
    BareUrlText(labels);
    TextMatchesHostBehindScheme(before, BareUrl(labels), o, listed);
  }

  lemma MatchesPage(before: string, labels: seq<string>, scheme: string, page: seq<string>, listed: seq<string>)
    requires AreLabels(labels) && SchemeEnd(before).None? && !IsScheme(before) && "" !in listed
    requires IsTrimmed(before + "://" + Join(labels, '.')) && IsScheme(scheme) && AreLabels(page)
    ensures UrlMatchesOrigin(before + "://" + Join(labels, '.'), scheme + "://" + Join(page, '.'), listed) <==>
              Domain(labels, listed).Some? && Domain(labels, listed) == Domain(page, listed)
  {
    PageIsValid(scheme, page);
    MatchesHostBehind(before, labels, Page(scheme, page), listed);
  }

  lemma WebSchemes()
    ensures IsScheme("http") && IsScheme("https")
  {
  }

  // A login saved for one site, with the address of another in its query, is offered on
  // that other site, even over http, and not on the pages it was saved for.
  lemma SavedForAnotherSite(saved: string, other: seq<string>, own: seq<string>, listed: seq<string>)
    requires AreLabels(own) && AreLabels(other) && "" !in listed && saved == Join(own, '.') + "/?next=https"
    requires Domain(other, listed).Some? && Domain(own, listed) != Domain(other, listed)
    ensures UrlMatchesOrigin(saved + "://" + Join(other, '.'), "http" + "://" + Join(other, '.'), listed)
    ensures !UrlMatchesOrigin(saved + "://" + Join(other, '.'), "https" + "://" + Join(own, '.'), listed)
  {
    WebSchemes();
    SavedText(saved, own, other);
    MatchesPage(saved, other, "http", other, listed);
    MatchesPage(saved, other, "https", own, listed);
  }

  lemma SavedText(saved: string, own: seq<string>, other: seq<string>)
    requires AreLabels(own) && AreLabels(other) && saved == Join(own, '.') + "/?next=https"
    ensures SchemeEnd(saved).None? && !IsScheme(saved) && IsTrimmed(saved + "://" + Join(other, '.'))
  {
    HostIsPlain(own);
    HostIsPlain(other);
    NoColon(own);
    NoColonNoScheme(saved);
    assert saved[|Join(own, '.')|] == '/';
  }

  lemma BankAndEvil(listed: seq<string>)
    requires forall s :: s in listed ==> !Suffixes.FourLetterCom(s)
    ensures Domain(["bank", "com"], listed) == Some(["bank", "com"])
    ensures Domain(["evil", "com"], listed) == Some(["evil", "com"])
  {
    BankAndEvilJoined();
    assert Suffixes.FourLetterCom("bank.com") && Suffixes.FourLetterCom("evil.com");
    TwoLabels("bank", "com", listed);
    TwoLabels("evil", "com", listed);
  }

  lemma SavedForBank()
    ensures UrlMatchesOrigin("bank.com/?next=https://evil.com", "http://evil.com", Suffixes.SUFFIXES)
    ensures !UrlMatchesOrigin("bank.com/?next=https://evil.com", "https://bank.com", Suffixes.SUFFIXES)
  {
    Suffixes.NoFourLetterCom();
    BankAndEvil(Suffixes.SUFFIXES);
    BuiltInTableQualifies();
    BankAndEvilJoined();
    SavedSpelled();
    PagesSpelled();
    SavedForAnotherSite("bank.com/?next=https", ["evil", "com"], ["bank", "com"], Suffixes.SUFFIXES);
  }

  lemma BankAndEvilJoined()
    ensures AreLabels(["bank", "com"]) && AreLabels(["evil", "com"])
    ensures Join(["bank", "com"], '.') == "bank.com" && Join(["evil", "com"], '.') == "evil.com"
  {
    assert ["bank", "com"][1..] == ["com"] && ["evil", "com"][1..] == ["com"];
  }

  lemma SavedSpelled()
    ensures "bank.com/?next=https" == "bank.com" + "/?next=https"
    ensures "bank.com/?next=https" + "://" + "evil.com" == "bank.com/?next=https://evil.com"
  {
  }

  lemma PagesSpelled()
    ensures "http://" + "evil.com" == "http" + "://" + "evil.com" == "http://evil.com"
    ensures "https://" + "bank.com" == "https" + "://" + "bank.com" == "https://bank.com"
  {
  }
}
