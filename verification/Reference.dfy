/**
 Secret references: percent-decoded path segments behind one of two schemes. Text is
 the bytes of its UTF-8 encoding.
 */
module Reference {
  import opened Wrappers
  import opened Strings
  import Wire

  type Byte = Wire.Byte

  const SLASH: Byte := 0x2f
  const PERCENT: Byte := 0x25

  // --- Percent decoding ------------------------------------------------------------------

  function HexVal(b: Byte): (v: Option<Byte>)
    ensures v.Some? ==> v.value < 16
  {
    if 0x30 <= b <= 0x39 then Some(b - 0x30)
    else if 0x61 <= b <= 0x66 then Some(b - 0x61 + 10)
    else if 0x41 <= b <= 0x46 then Some(b - 0x41 + 10)
    else None
  }

  // The byte that an escape at the front stands for.
  function Escaped(s: seq<Byte>): Option<Byte> {
    if |s| >= 3 && s[0] == PERCENT && HexVal(s[1]).Some? && HexVal(s[2]).Some?
    then Some(HexVal(s[1]).value * 16 + HexVal(s[2]).value)
    else None
  }

  // The first byte decoded, and how many it takes; a percent sign that begins no escape
  // stands for itself.
  function Next(s: seq<Byte>): (next: (Byte, nat))
    requires s != []
    ensures 0 < next.1 <= |s|
  {
    if Escaped(s).Some? then (Escaped(s).value, 3) else (s[0], 1)
  }

  function Decoded(s: seq<Byte>): seq<Byte> {
    if s == [] then [] else [Next(s).0] + Decoded(s[Next(s).1..])
  }

  predicate Continues(b: Byte) {
    0x80 <= b <= 0xbf
  }

  // How many bytes the first scalar value of valid UTF-8 takes (section 4 of RFC 3629).
  function ScalarLength(s: seq<Byte>): Option<nat>
    requires s != []
  {
    var b := s[0];
    if b <= 0x7f then Some(1)
    else if |s| >= 2 && 0xc2 <= b <= 0xdf && Continues(s[1]) then Some(2)
    else if |s| >= 3 && Continues(s[1]) && Continues(s[2])
            && ((b == 0xe0 && s[1] >= 0xa0) || 0xe1 <= b <= 0xec || (b == 0xed && s[1] <= 0x9f) || 0xee <= b <= 0xef)
    then Some(3)
    else if |s| >= 4 && Continues(s[1]) && Continues(s[2]) && Continues(s[3])
            && ((b == 0xf0 && s[1] >= 0x90) || 0xf1 <= b <= 0xf3 || (b == 0xf4 && s[1] <= 0x8f))
    then Some(4)
    else None
  }

  predicate IsUtf8(s: seq<Byte>) {
    s == [] || (ScalarLength(s).Some? && 0 < ScalarLength(s).value <= |s| && IsUtf8(s[ScalarLength(s).value..]))
  }

  // A Unicode scalar value, and its UTF-8 encoding (section 3 of RFC 3629).
  predicate IsScalar(c: nat) {
    c < 0xd800 || 0xdfff < c <= 0x10ffff
  }

  function Utf8(c: nat): (s: seq<Byte>)
    requires IsScalar(c)
    ensures 0 < |s|
  {
    if c < 0x80 then [c]
    else if c < 0x800 then [0xc0 + c / 64, 0x80 + c % 64]
    else if c < 0x1_0000 then [0xe0 + c / 64 / 64, 0x80 + c / 64 % 64, 0x80 + c % 64]
    else [0xf0 + c / 64 / 64 / 64, 0x80 + c / 64 / 64 % 64, 0x80 + c / 64 % 64, 0x80 + c % 64]
  }

  predicate AllScalars(text: seq<nat>) {
    forall i | 0 <= i < |text| :: IsScalar(text[i])
  }

  function Utf8Text(text: seq<nat>): seq<Byte>
    requires AllScalars(text)
  {
    if text == [] then [] else Utf8(text[0]) + Utf8Text(text[1..])
  }

  lemma SixBits(high: nat, b: Byte)
    requires Continues(b)
    ensures (high * 64 + (b - 0x80)) / 64 == high && (high * 64 + (b - 0x80)) % 64 == b - 0x80
  {
  }

  lemma ThreeBytesRead(s: seq<Byte>) returns (c: nat)
    requires s != [] && ScalarLength(s) == Some(3)
    ensures IsScalar(c) && 3 <= |s| && Utf8(c) == s[..3]
  {
    var high := (s[0] - 0xe0) * 64 + (s[1] as int - 0x80);
    c := high * 64 + (s[2] as int - 0x80);
    SixBits(s[0] - 0xe0, s[1]);
    SixBits(high, s[2]);
  }

  lemma FourBytesRead(s: seq<Byte>) returns (c: nat)
    requires s != [] && ScalarLength(s) == Some(4)
    ensures IsScalar(c) && 4 <= |s| && Utf8(c) == s[..4]
  {
    var higher := (s[0] - 0xf0) * 64 + (s[1] as int - 0x80);
    var high := higher * 64 + (s[2] as int - 0x80);
    c := high * 64 + (s[3] as int - 0x80);
    SixBits(s[0] - 0xf0, s[1]);
    SixBits(higher, s[2]);
    SixBits(high, s[3]);
  }

  lemma ScalarRead(s: seq<Byte>) returns (c: nat)
    requires s != [] && ScalarLength(s).Some?
    ensures IsScalar(c) && ScalarLength(s).value <= |s| && Utf8(c) == s[..ScalarLength(s).value]
  {
    var n := ScalarLength(s).value;
    if n == 1 {
      c := s[0];
    } else if n == 2 {
      c := (s[0] - 0xc0) * 64 + (s[1] as int - 0x80);
    } else if n == 3 {
      c := ThreeBytesRead(s);
    } else {
      c := FourBytesRead(s);
    }
  }

  lemma ScalarWritten(c: nat, rest: seq<Byte>)
    requires IsScalar(c)
    ensures Utf8(c) + rest != [] && ScalarLength(Utf8(c) + rest) == Some(|Utf8(c)|)
  {
  }

  // The check accepts exactly the UTF-8 encodings of sequences of scalar values: no
  // overlong form, no surrogate, nothing cut short.
  lemma Utf8Exactly(s: seq<Byte>)
    ensures IsUtf8(s) <==> exists text :: AllScalars(text) && Utf8Text(text) == s
  {
    if IsUtf8(s) {
      var text := TextRead(s);
    }
    if text :| AllScalars(text) && Utf8Text(text) == s {
      TextAccepted(text);
    }
  }

  lemma {:induction false} TextRead(s: seq<Byte>) returns (text: seq<nat>)
    requires IsUtf8(s)
    ensures AllScalars(text) && Utf8Text(text) == s
    decreases |s|
  {
    hide ScalarLength, Utf8, IsScalar;
    text := [];
    if s != [] {
      var c := ScalarRead(s);
      var n := ScalarLength(s).value;
      var rest := TextRead(s[n..]);
      text := [c] + rest;
      OneMoreScalar(c, rest);
      assert s == s[..n] + s[n..];
    }
  }

  lemma OneMoreScalar(c: nat, rest: seq<nat>)
    requires IsScalar(c) && AllScalars(rest)
    ensures AllScalars([c] + rest) && Utf8Text([c] + rest) == Utf8(c) + Utf8Text(rest)
  {
    hide IsScalar, Utf8;
    assert ([c] + rest)[1..] == rest;
  }

  lemma {:induction false} TextAccepted(text: seq<nat>)
    requires AllScalars(text)
    ensures IsUtf8(Utf8Text(text))
  {
    hide ScalarLength, Utf8, IsScalar;
    if text != [] {
      var first, rest := Utf8(text[0]), Utf8Text(text[1..]);
      TextAccepted(text[1..]);
      ScalarWritten(text[0], rest);
      assert (first + rest)[|first|..] == rest;
    }
  }

  lemma Appended(out: seq<Byte>, b: Byte, rest: seq<Byte>)
    ensures out + ([b] + rest) == (out + [b]) + rest
  {
  }

  lemma DecodedFrom(s: seq<Byte>, i: nat)
    requires i < |s|
    ensures var (b, n) := Next(s[i..]); Decoded(s[i..]) == [b] + Decoded(s[i + n..])
  {
    var n := Next(s[i..]).1;
    assert s[i..][n..] == s[i + n..];
  }

  method PercentDecode(bytes: seq<Byte>) returns (decoded: Option<seq<Byte>>)
    ensures decoded == if IsUtf8(Decoded(bytes)) then Some(Decoded(bytes)) else None
  {
    var out: seq<Byte> := [];
    var i := 0;
    while i < |bytes|
      invariant i <= |bytes|
      invariant Decoded(bytes) == out + Decoded(bytes[i..])
    {
      DecodedFrom(bytes, i);
      var b, n := bytes[i], 1;
      if bytes[i] == PERCENT && i + 2 < |bytes| && HexVal(bytes[i + 1]).Some? && HexVal(bytes[i + 2]).Some? {
        b, n := HexVal(bytes[i + 1]).value * 16 + HexVal(bytes[i + 2]).value, 3;
      }
      assert (b, n) == Next(bytes[i..]);
      Appended(out, b, Decoded(bytes[i + n..]));
      out := out + [b];
      i := i + n;
    }
    assert out + [] == out;
    decoded := if IsUtf8(out) then Some(out) else None;
  }

  // --- References -------------------------------------------------------------------------

  function Ascii(s: string): seq<Byte> {
    seq(|s|, i requires 0 <= i < |s| => s[i] as int % 0x100)
  }

  const LOCALPASS_SCHEME := Ascii("localpass://")
  const OP_SCHEME := Ascii("op://")

  datatype Reference = Reference(vault: seq<Byte>, item: seq<Byte>, field: seq<Byte>)

  datatype UsageError =
    | UnknownScheme | EmptyReference | MissingItem | WholeItem | TooManySegments
    | EmptyVaultOrItem | EmptyField | NotUtf8

  function AfterScheme(reference: seq<Byte>): Option<seq<Byte>> {
    if LOCALPASS_SCHEME <= reference then Some(reference[|LOCALPASS_SCHEME|..])
    else if OP_SCHEME <= reference then Some(reference[|OP_SCHEME|..])
    else None
  }

  function ParseSegments(segments: seq<seq<Byte>>): Result<Reference, UsageError>
    requires segments != []
  {
    if |segments| == 2 then Err(WholeItem)
    else if |segments| == 3 then
      if segments[0] == [] || segments[1] == [] then Err(EmptyVaultOrItem)
      else if segments[2] == [] then Err(EmptyField)
      else
        var vault, item, field := Decoded(segments[0]), Decoded(segments[1]), Decoded(segments[2]);
        if IsUtf8(vault) && IsUtf8(item) && IsUtf8(field) then Ok(Reference(vault, item, field)) else Err(NotUtf8)
    else if segments == [[]] then Err(EmptyReference)
    else if |segments| == 1 then Err(MissingItem)
    else Err(TooManySegments)
  }

  function Parse(reference: seq<Byte>): Result<Reference, UsageError> {
    var rest := AfterScheme(reference);
    if rest.None? then Err(UnknownScheme) else ParseSegments(Split(rest.value, SLASH))
  }

  // --- Writing a name into a reference -------------------------------------------------------

  function HexDigit(v: int, capital: bool): Byte
    requires 0 <= v < 16
  {
    if v < 10 then '0' as int + v else (if capital then 'A' else 'a') as int + v - 10
  }

  // A hex digit in either case.
  predicate Digit(b: Byte, v: int) {
    0 <= v < 16 && (b == HexDigit(v, true) || b == HexDigit(v, false))
  }

  predicate Escape(s: seq<Byte>, b: Byte) {
    |s| >= 3 && s[0] == PERCENT && Digit(s[1], b / 16) && Digit(s[2], b % 16)
  }

  ghost predicate BeginsEscape(s: seq<Byte>) {
    exists b :: Escape(s, b)
  }

  lemma DigitExactly(b: Byte, v: int)
    ensures Digit(b, v) <==> HexVal(b).Some? && HexVal(b).value == v
  {
  }

  lemma EscapeExactly(s: seq<Byte>, b: Byte)
    ensures Escape(s, b) <==> Escaped(s) == Some(b)
    ensures BeginsEscape(s) <==> Escaped(s).Some?
  {
    if |s| >= 3 {
      forall c: Byte ensures Escape(s, c) <==> Escaped(s) == Some(c) {
        DigitExactly(s[1], c / 16);
        DigitExactly(s[2], c % 16);
      }
      if Escaped(s).Some? {
        assert Escape(s, Escaped(s).value);
      }
    }
    hide Digit, HexVal;
  }

  // Each byte of the name is written as an escape, in either case of hex digits, or as
  // itself, unless it is a slash or a percent sign that would begin an escape.
  ghost predicate Encodes(written: seq<Byte>, name: seq<Byte>) {
    if name == [] then written == []
    else
      || (written != [] && written[0] == name[0] && name[0] != SLASH && !BeginsEscape(written)
          && Encodes(written[1..], name[1..]))
      || (Escape(written, name[0]) && Encodes(written[3..], name[1..]))
  }

  // A name is what a text decodes to exactly if the text spells it, whichever way each
  // byte is written; stray percent signs stand for themselves.
  lemma {:induction false} DecodedOfEncoded(written: seq<Byte>, name: seq<Byte>)
    ensures Encodes(written, name) <==> Decoded(written) == name && SLASH !in written
    decreases |written|
  {
    if name != [] && written != [] {
      EscapeExactly(written, name[0]);
      var n := Next(written).1;
      DecodedOfEncoded(written[n..], name[1..]);
      assert written == written[..n] + written[n..];
      assert name == [name[0]] + name[1..];
      assert Decoded(written) == [Next(written).0] + Decoded(written[n..]);
      if n == 3 {
        EscapeHasNoSlash(written);
      }
    }
  }

  lemma EscapeHasNoSlash(s: seq<Byte>)
    requires Escaped(s).Some?
    ensures SLASH !in s[..3]
  {
    assert s[..3] == [s[0], s[1], s[2]] && HexVal(SLASH).None?;
  }

  // A text decodes to itself exactly if no escape begins anywhere in it.
  lemma {:induction false} UnescapedIsItself(s: seq<Byte>)
    ensures Decoded(s) == s <==> forall i | 0 <= i < |s| :: !BeginsEscape(s[i..])
    ensures |Decoded(s)| <= |s| && (Decoded(s) != s ==> |Decoded(s)| < |s|)
    decreases |s|
  {
    if s != [] {
      EscapeExactly(s, 0);
      assert s[0..] == s;
      if Escaped(s).Some? {
        UnescapedIsItself(s[3..]);
      } else {
        UnescapedIsItself(s[1..]);
        assert s == [s[0]] + s[1..];
        assert forall i | 0 < i < |s| :: s[i..] == s[1..][i - 1..];
        assert forall i | 0 <= i < |s| - 1 :: s[1..][i..] == s[i + 1..];
      }
    }
    hide Escaped, BeginsEscape;
  }

  lemma SplitInThree(a: seq<Byte>, b: seq<Byte>, c: seq<Byte>)
    requires SLASH !in a && SLASH !in b && SLASH !in c
    ensures Split(a + [SLASH] + (b + [SLASH] + c), SLASH) == [a, b, c]
  {
    SplitHead(a, SLASH, b + [SLASH] + c);
    SplitHead(b, SLASH, c);
  }

  lemma SchemeStripped(scheme: seq<Byte>, rest: seq<Byte>)
    requires scheme == LOCALPASS_SCHEME || scheme == OP_SCHEME
    ensures AfterScheme(scheme + rest) == Some(rest)
  {
    var s := scheme + rest;
    assert s[|scheme|..] == rest;
    assert LOCALPASS_SCHEME[0] == 0x6c && OP_SCHEME[0] == 0x6f;
    assert s[0] == scheme[0];
  }

  lemma ThreeSegments(v: seq<Byte>, i: seq<Byte>, f: seq<Byte>)
    requires v != [] && i != [] && f != []
    requires IsUtf8(Decoded(v)) && IsUtf8(Decoded(i)) && IsUtf8(Decoded(f))
    ensures ParseSegments([v, i, f]) == Ok(Reference(Decoded(v), Decoded(i), Decoded(f)))
  {
  }

  lemma NamesParsed(reference: seq<Byte>, v: seq<Byte>, i: seq<Byte>, f: seq<Byte>)
    requires Names(reference, v, i, f)
    ensures Parse(reference) == Ok(Reference(Decoded(v), Decoded(i), Decoded(f)))
  {
    SplitInThree(v, i, f);
    ThreeSegments(v, i, f);
    assert Parse(reference) == ParseSegments([v, i, f]);
  }

  // The three names come back exactly, whichever way each byte was written and
  // whichever scheme is in front.
  lemma ReferenceRoundTrip(r: Reference, scheme: seq<Byte>, v: seq<Byte>, i: seq<Byte>, f: seq<Byte>)
    requires scheme == LOCALPASS_SCHEME || scheme == OP_SCHEME
    requires IsUtf8(r.vault) && IsUtf8(r.item) && IsUtf8(r.field) && r.vault != [] && r.item != [] && r.field != []
    requires Encodes(v, r.vault) && Encodes(i, r.item) && Encodes(f, r.field)
    ensures Parse(scheme + (v + [SLASH] + (i + [SLASH] + f))) == Ok(r)
  {
    DecodedOfEncoded(v, r.vault);
    DecodedOfEncoded(i, r.item);
    DecodedOfEncoded(f, r.field);
    SchemeStripped(scheme, v + [SLASH] + (i + [SLASH] + f));
    NamesParsed(scheme + (v + [SLASH] + (i + [SLASH] + f)), v, i, f);
  }

  // Every name can be written, by escaping all of it.
  function AllEscaped(name: seq<Byte>): seq<Byte> {
    if name == [] then []
    else [PERCENT, HexDigit(name[0] / 16, true), HexDigit(name[0] % 16, true)] + AllEscaped(name[1..])
  }

  lemma {:induction false} EveryNameCanBeWritten(name: seq<Byte>)
    ensures Encodes(AllEscaped(name), name)
  {
    if name != [] {
      EveryNameCanBeWritten(name[1..]);
      EscapeExactly(AllEscaped(name), name[0]);
      assert AllEscaped(name)[3..] == AllEscaped(name[1..]);
    }
  }

  ghost predicate Names(reference: seq<Byte>, v: seq<Byte>, i: seq<Byte>, f: seq<Byte>) {
    && v != [] && i != [] && f != []
    && SLASH !in v && SLASH !in i && SLASH !in f
    && IsUtf8(Decoded(v)) && IsUtf8(Decoded(i)) && IsUtf8(Decoded(f))
    && AfterScheme(reference) == Some(v + [SLASH] + (i + [SLASH] + f))
  }

  lemma ParsedSegments(segments: seq<seq<Byte>>)
    requires segments != [] && ParseSegments(segments).Ok?
    ensures |segments| == 3 && segments[0] != [] && segments[1] != [] && segments[2] != []
    ensures IsUtf8(Decoded(segments[0])) && IsUtf8(Decoded(segments[1])) && IsUtf8(Decoded(segments[2]))
    ensures ParseSegments(segments).value == Reference(Decoded(segments[0]), Decoded(segments[1]), Decoded(segments[2]))
  {
  }

  lemma ThreeParts(rest: seq<Byte>, segments: seq<seq<Byte>>)
    requires segments == Split(rest, SLASH) && |segments| == 3
    ensures SLASH !in segments[0] && SLASH !in segments[1] && SLASH !in segments[2]
    ensures rest == segments[0] + [SLASH] + (segments[1] + [SLASH] + segments[2])
  {
    JoinOfSplit(rest, SLASH);
    JoinOfThree(segments[0], segments[1], segments[2]);
    assert segments == [segments[0], segments[1], segments[2]];
  }

  lemma ParsedNames(reference: seq<Byte>)
    requires Parse(reference).Ok?
    ensures var segments := Split(AfterScheme(reference).value, SLASH);
            && |segments| == 3 && Names(reference, segments[0], segments[1], segments[2])
            && Parse(reference).value == Reference(Decoded(segments[0]), Decoded(segments[1]), Decoded(segments[2]))
  {
    var rest := AfterScheme(reference).value;
    ParsedSegments(Split(rest, SLASH));
    ThreeParts(rest, Split(rest, SLASH));
  }

  lemma JoinOfThree(a: seq<Byte>, b: seq<Byte>, c: seq<Byte>)
    ensures Join([a, b, c], SLASH) == a + [SLASH] + (b + [SLASH] + c)
  {
    assert [b, c][1..] == [c] && Join([b, c], SLASH) == b + [SLASH] + c;
    assert [a, b, c][1..] == [b, c];
  }

  ghost predicate ReadsAs(reference: seq<Byte>, v: seq<Byte>, i: seq<Byte>, f: seq<Byte>, r: Reference) {
    Names(reference, v, i, f) && r == Reference(Decoded(v), Decoded(i), Decoded(f))
  }

  // Parsing succeeds exactly on a scheme and three non-empty segments that decode to
  // text, and gives what they decode to.
  lemma ParsedExactly(reference: seq<Byte>, r: Reference)
    ensures Parse(reference) == Ok(r) <==> exists v, i, f :: ReadsAs(reference, v, i, f, r)
  {
    if Parse(reference) == Ok(r) {
      ParsedNames(reference);
      var segments := Split(AfterScheme(reference).value, SLASH);
      var v: seq<Byte>, i: seq<Byte>, f: seq<Byte> := segments[0], segments[1], segments[2];
      assert ReadsAs(reference, v, i, f, r);
    }
    if v, i, f :| ReadsAs(reference, v, i, f, r) {
      NamesParsed(reference, v, i, f);
    }
  }

  function Slashes(s: seq<Byte>): nat {
    multiset(s)[SLASH]
  }

  // Which error a reference gets depends on how many slashes follow the scheme: it must
  // be two, and with two only an empty segment or broken text is refused.
  lemma ErrorsBySlashes(reference: seq<Byte>)
    ensures Parse(reference) == Err(UnknownScheme) <==>
              !(LOCALPASS_SCHEME <= reference) && !(OP_SCHEME <= reference)
    ensures Parse(reference) == Err(UnknownScheme) <==> AfterScheme(reference).None?
    ensures AfterScheme(reference).Some? ==>
              var rest, parsed := AfterScheme(reference).value, Parse(reference);
              && (parsed == Err(EmptyReference) <==> rest == [])
              && (parsed == Err(MissingItem) <==> rest != [] && Slashes(rest) == 0)
              && (parsed == Err(WholeItem) <==> Slashes(rest) == 1)
              && (parsed == Err(TooManySegments) <==> Slashes(rest) > 2)
              && (parsed.Ok? || parsed.error in {EmptyVaultOrItem, EmptyField, NotUtf8} <==> Slashes(rest) == 2)
  {
    if AfterScheme(reference).Some? {
      var rest := AfterScheme(reference).value;
      SplitCounts(rest, SLASH);
      assert Slashes(rest) == 0 ==> SLASH !in rest;
    }
  }

  // With two slashes: an empty vault or item comes first, then an empty field, then text
  // that does not decode, and otherwise the reference is read.
  lemma ErrorsOfThree(reference: seq<Byte>, scheme: seq<Byte>, v: seq<Byte>, i: seq<Byte>, f: seq<Byte>)
    requires scheme == LOCALPASS_SCHEME || scheme == OP_SCHEME
    requires SLASH !in v && SLASH !in i && SLASH !in f
    requires reference == scheme + (v + [SLASH] + (i + [SLASH] + f))
    ensures var parsed, texts := Parse(reference), IsUtf8(Decoded(v)) && IsUtf8(Decoded(i)) && IsUtf8(Decoded(f));
            && (parsed == Err(EmptyVaultOrItem) <==> v == [] || i == [])
            && (parsed == Err(EmptyField) <==> v != [] && i != [] && f == [])
            && (parsed == Err(NotUtf8) <==> v != [] && i != [] && f != [] && !texts)
            && (parsed.Ok? <==> v != [] && i != [] && f != [] && texts)
  {
    SchemeStripped(scheme, v + [SLASH] + (i + [SLASH] + f));
    SplitInThree(v, i, f);
    assert Parse(reference) == ParseSegments([v, i, f]);
    hide AfterScheme, Split;
  }
}
