/**
 The display form of the 128-bit Secret Key: a version tag, and thirty-two grouped
 base32 symbols of the key and its CRC-32.
 */
module SecretKey {
  import opened Wrappers
  import opened Base32
  import opened Text
  import Crc32

  const KEY_LEN := 16
  const PAYLOAD_LEN := 20
  const GROUP := 5
  const PREFIX := "LP1-"
  const PREFIX_TAG := "LP1"

  type Key = k: seq<Byte> | |k| == KEY_LEN witness seq(KEY_LEN, _ => 0)

  datatype KeyError = MissingPrefix | BadCharacter | WrongLength | ChecksumMismatch

  // --- Normalisation -----------------------------------------------------------------

  function Upper(c: char): char {
    if 'a' <= c <= 'z' then (c as int - 32) as char else c
  }

  predicate IsLayout(c: char) {
    c == '-' || c == ' '
  }

  function StrippedChar(c: char): string {
    if IsLayout(c) then "" else [Upper(c)]
  }

  // Dashes and spaces dropped, the rest in upper case.
  function Stripped(s: string): string {
    FlatMap(StrippedChar, s)
  }

  function NormalizedChar(c: char): string {
    match Upper(c)
    case '-' => ""
    case ' ' => ""
    case 'O' => "0"
    case 'I' => "1"
    case 'L' => "1"
    case other => [other]
  }

  // As Stripped, with the confusable letters folded to their digits.
  function Normalize(s: string): string {
    FlatMap(NormalizedChar, s)
  }

  function SymbolsOf(text: string): (r: Option<seq<Symbol>>)
    ensures r.Some? ==> |r.value| == |text|
  {
    if forall i | 0 <= i < |text| :: SymbolValue(text[i]).Some?
    then Some(seq(|text|, i requires 0 <= i < |text| => SymbolValue(text[i]).value))
    else None
  }

  function TextOf(s: seq<Symbol>): string {
    seq(|s|, i requires 0 <= i < |s| => SymbolChar(s[i]))
  }

  // --- Encode and decode ------------------------------------------------------------------

  // The checksum of a key, most significant byte first.
  function Checksum(key: seq<Byte>): (c: seq<Byte>)
    ensures |c| == 4
  {
    BigEndian(Crc32.Of(key))
  }

  function BigEndian(c: bv32): (b: seq<Byte>)
    ensures |b| == 4
  {
    [(c >> 24) as Byte, ((c >> 16) & 0xFF) as Byte, ((c >> 8) & 0xFF) as Byte, (c & 0xFF) as Byte]
  }

  function Payload(key: Key): (p: seq<Byte>)
    ensures |p| == PAYLOAD_LEN
  {
    key + Checksum(key)
  }

  // The thirty-two symbols of a key, as text without layout.
  function KeyText(key: Key): string {
    TextOf(Symbols(Payload(key)))
  }

  // Text in groups of five, a dash before every group but the first.
  function Grouped(text: string): string {
    if text == "" then "" else
    var n := |text| - 1;
    Grouped(text[..n]) + (if n != 0 && n % GROUP == 0 then "-" else "") + [text[n]]
  }

  function Display(key: Key): string {
    PREFIX + Grouped(KeyText(key))
  }

  // What decode does with the regrouped bytes.
  function Verified(d: seq<Byte>): Result<Key, KeyError> {
    if |d| != PAYLOAD_LEN then Err(WrongLength) else
    var key: Key := d[..KEY_LEN];
    if Checksum(key) == d[KEY_LEN..] then Ok(key) else Err(ChecksumMismatch)
  }

  function ParsedBody(text: string): Result<Key, KeyError> {
    match SymbolsOf(text)
    case None => Err(BadCharacter)
    case Some(s) =>
      match Bytes(s)
      case None => Err(BadCharacter)
      case Some(d) => Verified(d)
  }

  function Parsed(s: string): Result<Key, KeyError> {
    var stripped := Stripped(s);
    if PREFIX_TAG <= stripped then ParsedBody(Normalize(stripped[|PREFIX_TAG|..])) else Err(MissingPrefix)
  }

  method Encode(key: Key) returns (out: string)
    ensures out == Display(key)
  {
    var crc := Crc32.Compute(key);
    var payload := key + BigEndian(crc);
    var b32 := TextOf(Symbols(payload));
    out := PREFIX;
    for i := 0 to |b32|
      invariant out == PREFIX + Grouped(b32[..i])
    {
      assert b32[..i + 1][..i] == b32[..i];
      if i != 0 && i % GROUP == 0 {
        out := out + "-";
      }
      out := out + [b32[i]];
    }
    assert b32[..|b32|] == b32;
  }

  method Decode(s: string) returns (r: Result<Key, KeyError>)
    ensures r == Parsed(s)
  {
    var stripped := Stripped(s);
    if !(PREFIX_TAG <= stripped) {
      return Err(MissingPrefix);
    }
    var symbols := SymbolsOf(Normalize(stripped[|PREFIX_TAG|..]));
    if symbols.None? {
      return Err(BadCharacter);
    }
    var decoded := Bytes(symbols.value);
    if decoded.None? {
      return Err(BadCharacter);
    }
    if |decoded.value| != PAYLOAD_LEN {
      return Err(WrongLength);
    }
    var key: Key := decoded.value[..KEY_LEN];
    var crc := Crc32.Compute(key);
    if BigEndian(crc) == decoded.value[KEY_LEN..] {
      r := Ok(key);
    } else {
      r := Err(ChecksumMismatch);
    }
  }

  // --- Text lemmas ------------------------------------------------------------------------------

  ghost predicate AllSymbols(text: string) {
    forall i | 0 <= i < |text| :: SymbolValue(text[i]).Some?
  }

  lemma SymbolStays(c: char)
    requires SymbolValue(c).Some?
    ensures StrippedChar(c) == [c] && NormalizedChar(c) == [c]
  {
  }

  // Canonical symbols pass through both normalisations.
  lemma SymbolsStay(text: string)
    requires AllSymbols(text)
    ensures Stripped(text) == text && Normalize(text) == text
  {
    forall i | 0 <= i < |text| ensures StrippedChar(text[i]) == [text[i]] && NormalizedChar(text[i]) == [text[i]] {
      SymbolStays(text[i]);
    }
    FlatMapFixed(StrippedChar, text);
    FlatMapFixed(NormalizedChar, text);
  }

  lemma TextInverts(s: seq<Symbol>)
    ensures AllSymbols(TextOf(s)) && SymbolsOf(TextOf(s)) == Some(s)
  {
    forall i | 0 <= i < |s| ensures SymbolValue(TextOf(s)[i]) == Some(s[i]) {
      SymbolCharInverts(s[i]);
    }
    assert SymbolsOf(TextOf(s)).value == s;
  }

  lemma SymbolsInvert(text: string)
    requires SymbolsOf(text).Some?
    ensures TextOf(SymbolsOf(text).value) == text
  {
    forall i | 0 <= i < |text| ensures TextOf(SymbolsOf(text).value)[i] == text[i] {
      SymbolValueInverts(text[i]);
    }
  }

  // Grouping adds nothing but dashes.
  lemma {:induction false} GroupedStrips(text: string)
    requires AllSymbols(text)
    ensures Stripped(Grouped(text)) == text
    ensures forall i | 0 <= i < |Grouped(text)| :: Grouped(text)[i] == '-' || Grouped(text)[i] in text
  {
    if text != "" {
      var n := |text| - 1;
      GroupedStrips(text[..n]);
      OneMoreStrips(Grouped(text[..n]), n != 0 && n % GROUP == 0, text[n]);
      assert text == text[..n] + [text[n]];
    }
  }

  lemma OneMoreStrips(s: string, dash: bool, c: char)
    requires SymbolValue(c).Some?
    ensures Stripped(s + (if dash then "-" else "") + [c]) == Stripped(s) + [c]
  {
    SymbolStays(c);
    FlatMapOne(StrippedChar, c);
    if dash {
      FlatMapConcat(StrippedChar, s + "-", [c]);
      FlatMapConcat(StrippedChar, s, "-");
      FlatMapOne(StrippedChar, '-');
    } else {
      assert s + "" == s;
      FlatMapConcat(StrippedChar, s, [c]);
    }
  }

  lemma DisplayStrips(key: Key)
    ensures AllSymbols(KeyText(key)) && |KeyText(key)| == 32
    ensures Stripped(Display(key)) == PREFIX_TAG + KeyText(key)
  {
    TextInverts(Symbols(Payload(key)));
    GroupedStrips(KeyText(key));
    PrefixStrips(Grouped(KeyText(key)));
  }

  // --- What decode accepts --------------------------------------------------------------------------

  lemma VerifiedExactly(d: seq<Byte>, key: Key)
    ensures Verified(d) == Ok(key) <==> d == Payload(key)
  {
    if Verified(d) == Ok(key) {
      assert d == d[..KEY_LEN] + d[KEY_LEN..];
    }
  }

  predicate SpellsKey(s: seq<Symbol>, key: Key) {
    Bytes(s).Some? && Verified(Bytes(s).value) == Ok(key)
  }

  lemma SymbolsExactly(s: seq<Symbol>, key: Key)
    ensures SpellsKey(s, key) <==> s == Symbols(Payload(key))
  {
    hide Verified, Payload, Bytes, Symbols;
    BytesOfSymbols(Payload(key));
    VerifiedExactly(Payload(key), key);
    if Bytes(s).Some? && Verified(Bytes(s).value) == Ok(key) {
      VerifiedExactly(Bytes(s).value, key);
      SymbolsOfBytes(s);
    }
  }

  lemma BodyExactly(text: string, key: Key)
    ensures ParsedBody(text) == Ok(key) <==> text == KeyText(key)
  {
    TextInverts(Symbols(Payload(key)));
    SymbolsExactly(Symbols(Payload(key)), key);
    if ParsedBody(text) == Ok(key) {
      SymbolsExactly(SymbolsOf(text).value, key);
      SymbolsInvert(text);
    }
  }

  // The complete account of decode: it yields a key exactly for the spellings of
  // that key's own text behind the tag.
  lemma ParsedExactly(s: string, key: Key)
    ensures Parsed(s) == Ok(key) <==>
              PREFIX_TAG <= Stripped(s) && Normalize(Stripped(s)[|PREFIX_TAG|..]) == KeyText(key)
  {
    if PREFIX_TAG <= Stripped(s) {
      BodyExactly(Normalize(Stripped(s)[|PREFIX_TAG|..]), key);
    }
  }

  lemma RoundTrip(key: Key)
    ensures Parsed(Display(key)) == Ok(key)
  {
    DisplayStrips(key);
    SymbolsStay(KeyText(key));
    ParsedExactly(Display(key), key);
  }

  lemma ParsedByStripped(s: string, t: string)
    requires Stripped(s) == Stripped(t)
    ensures Parsed(s) == Parsed(t)
  {
  }

  // A dash or a space anywhere changes nothing.
  lemma LayoutIgnored(a: string, c: char, b: string)
    requires IsLayout(c)
    ensures Parsed(a + [c] + b) == Parsed(a + b)
  {
    FlatMapConcat(StrippedChar, a + [c], b);
    FlatMapConcat(StrippedChar, a, [c]);
    FlatMapConcat(StrippedChar, a, b);
    FlatMapOne(StrippedChar, c);
    assert Stripped(a) + "" == Stripped(a);
    ParsedByStripped(a + [c] + b, a + b);
  }

  // The same character, or the same letter in either case.
  predicate SameLetter(c: char, d: char) {
    || c == d
    || ('a' <= c <= 'z' && d as int - 'A' as int == c as int - 'a' as int)
    || ('a' <= d <= 'z' && c as int - 'A' as int == d as int - 'a' as int)
  }

  ghost predicate SameButCase(s: string, t: string) {
    |s| == |t| && forall i | 0 <= i < |s| :: SameLetter(s[i], t[i])
  }

  // Neither does the case of any letter.
  lemma CaseIgnored(s: string, t: string)
    requires SameButCase(s, t)
    ensures Parsed(s) == Parsed(t)
  {
    forall i | 0 <= i < |s| ensures StrippedChar(s[i]) == StrippedChar(t[i]) {
      assert SameLetter(s[i], t[i]);
    }
    FlatMapSame(StrippedChar, s, t);
    ParsedByStripped(s, t);
  }

  lemma {:induction false} NormalizeStripped(x: string)
    ensures Normalize(Stripped(x)) == Normalize(x)
  {
    if x != "" {
      NormalizeStripped(x[1..]);
      FlatMapConcat(NormalizedChar, StrippedChar(x[0]), Stripped(x[1..]));
      StrippedNormalizes(x[0]);
    }
  }

  // Behind the tag, any mixture of case, confusable letters and moved layout with
  // the same folded characters reads the same.
  lemma ConfusablesIgnored(x: string, y: string)
    requires Normalize(x) == Normalize(y)
    ensures Parsed(PREFIX + x) == Parsed(PREFIX + y)
  {
    PrefixStrips(x);
    PrefixStrips(y);
    NormalizeStripped(x);
    NormalizeStripped(y);
  }

  // The digits that letters are taken for.
  predicate TakenFor(c: char, digit: char) {
    if digit == '0' then c == 'O' || c == 'o' else digit == '1' && (c == 'I' || c == 'i' || c == 'L' || c == 'l')
  }

  // Behind the tag, an O reads as 0, and an I or an L as 1, anywhere and in either case.
  lemma ConfusedLetterReads(a: string, c: char, digit: char, b: string)
    requires TakenFor(c, digit)
    ensures Parsed(PREFIX + (a + [c] + b)) == Parsed(PREFIX + (a + [digit] + b))
  {
    FlatMapOne(NormalizedChar, c);
    FlatMapOne(NormalizedChar, digit);
    FlatMapConcat(NormalizedChar, a + [c], b);
    FlatMapConcat(NormalizedChar, a, [c]);
    FlatMapConcat(NormalizedChar, a + [digit], b);
    FlatMapConcat(NormalizedChar, a, [digit]);
    ConfusablesIgnored(a + [c] + b, a + [digit] + b);
  }

  // --- The display form ----------------------------------------------------------------------------

  function GroupedLength(n: nat): nat {
    if n == 0 then 0 else n + (n - 1) / GROUP
  }

  lemma OneMoreGrouped(n: nat)
    requires n > 0
    ensures GroupedLength(n) == GroupedLength(n - 1) + 1 + if n > 1 && (n - 1) % GROUP == 0 then 1 else 0
  {
  }

  lemma GroupedGrows(i: nat, n: nat)
    requires i <= n
    ensures i <= GroupedLength(i) <= GroupedLength(n)
    ensures i < n && i % GROUP == 0 && i > 0 ==> GroupedLength(i) < GroupedLength(i + 1) - 1
  {
  }

  lemma Extended(front: string, dash: string, c: char)
    ensures var all := front + dash + [c];
            && |all| == |front| + |dash| + 1 && all[|front| + |dash|] == c
            && (forall k | 0 <= k < |front| :: all[k] == front[k])
            && (dash != "" ==> all[|front|] == dash[0])
  {
  }

  // Symbol i in its place, with a dash before every fifth but the first.
  lemma {:induction false} GroupedAt(text: string, i: nat)
    requires i < |text|
    ensures |Grouped(text)| == GroupedLength(|text|) && i < GroupedLength(i + 1) <= GroupedLength(|text|)
    ensures Grouped(text)[GroupedLength(i + 1) - 1] == text[i]
    ensures i > 0 && i % GROUP == 0 ==> Grouped(text)[GroupedLength(i)] == '-'
  {
    var n: nat := |text| - 1;
    var front := Grouped(text[..n]);
    var dash := if n != 0 && n % GROUP == 0 then "-" else "";
    assert Grouped(text) == front + dash + [text[n]];
    hide Grouped, GroupedLength;
    Extended(front, dash, text[n]);
    OneMoreGrouped(n + 1);
    GroupedGrows(i, n);
    GroupedGrows(i + 1, n + 1);
    if i < n {
      GroupedAt(text[..n], i);
    } else if n > 0 {
      GroupedAt(text[..n], n - 1);
    } else {
      EmptyGrouped(text[..n]);
    }
  }

  lemma EmptyGrouped(text: string)
    requires text == ""
    ensures Grouped(text) == "" && GroupedLength(0) == 0
  {
  }

  // What stands at place j of the groups.
  lemma Place(j: nat) returns (k: nat)
    requires j < 38
    ensures if j % 6 == 5 then 0 < k < 32 && k % GROUP == 0 && GroupedLength(k) == j
            else k == j - j / 6 && k < 32 && GroupedLength(k + 1) - 1 == j
  {
    k := if j % 6 == 5 then (j + 1) / 6 * 5 else j - j / 6;
  }

  lemma GroupsAt(text: string, j: nat)
    requires |text| == 32 && j < 38
    ensures |Grouped(text)| == 38 && Grouped(text)[j] == if j % 6 == 5 then '-' else text[j - j / 6]
  {
    var k := Place(j);
    GroupedAt(text, k);
    assert GroupedLength(32) == 38;
    hide Grouped, GroupedLength;
  }

  lemma TagAndGroups(text: string, i: nat)
    requires |text| == 32 && 3 <= i < 42
    ensures |PREFIX + Grouped(text)| == 42 && (PREFIX + Grouped(text))[..3] == PREFIX_TAG
    ensures (PREFIX + Grouped(text))[i] == if i % 6 == 3 then '-' else text[i - 4 - (i - 4) / 6]
  {
    GroupsAt(text, if i == 3 then 0 else i - 4);
    hide Grouped;
    assert (i - 4) % 6 == 5 <==> i % 6 == 3;
  }

  // The display form is the tag and the thirty-two symbols in groups of five, between
  // single dashes: forty-two characters, of which every sixth from the fourth on is one.
  lemma DisplayShape(key: Key, i: nat)
    requires 3 <= i < 42
    ensures |Display(key)| == 42 && Display(key)[..3] == PREFIX_TAG && |KeyText(key)| == 32
    ensures Display(key)[i] == if i % 6 == 3 then '-' else KeyText(key)[i - 4 - (i - 4) / 6]
  {
    hide KeyText, Grouped, PREFIX, PREFIX_TAG;
    DisplayStrips(key);
    TagAndGroups(KeyText(key), i);
  }

  // --- Errors -------------------------------------------------------------------------------------

  // Canonical symbols that spell whole bytes.
  predicate Decodable(text: string) {
    (forall i | 0 <= i < |text| :: text[i] in ALPHABET) && SymbolsOf(text).Some?
    && SpellWholeBytes(SymbolsOf(text).value)
  }

  lemma InAlphabet(c: char)
    ensures c in ALPHABET <==> SymbolValue(c).Some?
  {
    AlphabetSize();
    hide ALPHABET, SymbolValue;
    if SymbolValue(c).Some? {
      SymbolValueInverts(c);
      assert ALPHABET[SymbolValue(c).value as int] == c;
    }
    if c in ALPHABET {
      var i :| 0 <= i < |ALPHABET| && ALPHABET[i] == c;
      SymbolCharInverts(i as Symbol);
      assert SymbolChar(i as Symbol) == c;
    }
  }

  lemma AlphabetSize()
    ensures |ALPHABET| == 32
  {
  }

  lemma AlphabetOnly(text: string)
    ensures (forall i | 0 <= i < |text| :: text[i] in ALPHABET) <==> SymbolsOf(text).Some?
  {
    forall i | 0 <= i < |text| ensures text[i] in ALPHABET <==> SymbolValue(text[i]).Some? {
      InAlphabet(text[i]);
    }
    hide SymbolValue, ALPHABET;
  }

  // The error of a text behind the tag: a character outside the alphabet or symbols that
  // spell no whole bytes; any other number of symbols than thirty-two; or thirty-two that
  // are no key's.
  lemma BodyErrors(text: string)
    ensures ParsedBody(text) != Err(MissingPrefix)
    ensures ParsedBody(text) == Err(BadCharacter) <==> !Decodable(text)
    ensures ParsedBody(text) == Err(WrongLength) <==> Decodable(text) && |text| != 32
    ensures ParsedBody(text) == Err(ChecksumMismatch) <==>
              Decodable(text) && |text| == 32 && forall key: Key :: KeyText(key) != text
  {
    AlphabetOnly(text);
    if SymbolsOf(text).Some? {
      BytesExactly(SymbolsOf(text).value);
    }
    if ParsedBody(text).Ok? {
      BodyExactly(text, ParsedBody(text).value);
    }
    forall key: Key ensures ParsedBody(text) == Ok(key) <==> text == KeyText(key) {
      BodyExactly(text, key);
    }
    hide KeyText, Bytes, SpellWholeBytes, Checksum, SymbolsOf;
  }

  // Every error of decode, and exactly when it is given.
  lemma ErrorsExactly(s: string)
    ensures Parsed(s) == Err(MissingPrefix) <==> !(PREFIX_TAG <= Stripped(s))
    ensures PREFIX_TAG <= Stripped(s) ==>
              var body := Normalize(Stripped(s)[|PREFIX_TAG|..]);
              && (Parsed(s) == Err(BadCharacter) <==> !Decodable(body))
              && (Parsed(s) == Err(WrongLength) <==> Decodable(body) && |body| != 32)
              && (Parsed(s) == Err(ChecksumMismatch) <==>
                    Decodable(body) && |body| == 32 && forall key: Key :: KeyText(key) != body)
  {
    if PREFIX_TAG <= Stripped(s) {
      BodyErrors(Normalize(Stripped(s)[|PREFIX_TAG|..]));
    }
    hide ParsedBody, Decodable, KeyText;
  }

  lemma PrefixStrips(x: string)
    ensures Stripped(PREFIX + x) == PREFIX_TAG + Stripped(x)
    ensures PREFIX_TAG <= Stripped(PREFIX + x) && Stripped(PREFIX + x)[|PREFIX_TAG|..] == Stripped(x)
  {
    FlatMapConcat(StrippedChar, PREFIX, x);
    FlatMapConcat(StrippedChar, PREFIX_TAG, "-");
    FlatMapOne(StrippedChar, '-');
    FlatMapFixed(StrippedChar, PREFIX_TAG);
  }

  // Stripping first does not change what a character normalises to.
  lemma StrippedNormalizes(c: char)
    ensures Normalize(StrippedChar(c)) == NormalizedChar(c)
  {
    if !IsLayout(c) {
      FlatMapOne(NormalizedChar, Upper(c));
    }
  }

  // --- Checksum bytes -------------------------------------------------------------------------------

  lemma BigEndianInjective(c: bv32, d: bv32)
    requires BigEndian(c) == BigEndian(d)
    ensures c == d
  {
    BigEndianReads(c);
    BigEndianReads(d);
  }

  lemma BigEndianReads(c: bv32)
    ensures ((((BigEndian(c)[0] as bv32) << 24) | ((BigEndian(c)[1] as bv32) << 16))
            | ((BigEndian(c)[2] as bv32) << 8)) | (BigEndian(c)[3] as bv32) == c
  {
  }
}
