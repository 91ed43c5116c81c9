/** What mistyping the display form of a Secret Key can lead to. */
module Typos {
  import opened Wrappers
  import opened Base32
  import opened Text
  import opened SecretKey
  import opened Bursts

  // --- Mistyped symbols ---------------------------------------------------------------------------------

  // Any other symbol in any one of the thirty-two places is caught by the checksum.
  lemma SymbolTypo(key: Key, i: nat, v: Symbol)
    requires i < 32 && v != Symbols(Payload(key))[i]
    ensures var t := Symbols(Payload(key))[i := v];
            Bytes(t).Some? && Verified(Bytes(t).value) == Err(ChecksumMismatch)
  {
    hide Payload, Bytes, Verified;
    var s := Symbols(Payload(key));
    assert s[i := v][i] == v != s[i];
    SixSymbols(key, s[i := v], if i <= 26 then i else 26);
  }

  // A body of thirty-one symbols spells no payload.
  lemma SymbolMissing(text: string)
    requires |text| == 31
    ensures ParsedBody(text).Err?
  {
  }

  // A body that differs from a key's text in one character.
  lemma BodyTypo(key: Key, i: nat, e: char)
    requires i < 32 && e != KeyText(key)[i]
    ensures ParsedBody(KeyText(key)[i := e]) ==
              Err(if SymbolValue(e).Some? then ChecksumMismatch else BadCharacter)
  {
    hide Payload, Bytes, Verified;
    var s := Symbols(Payload(key));
    var text := KeyText(key)[i := e];
    TextInverts(s);
    if SymbolValue(e).Some? {
      var v := SymbolValue(e).value;
      SymbolValueInverts(e);
      SymbolTypo(key, i, v);
      assert text == TextOf(s[i := v]);
      TextInverts(s[i := v]);
    } else {
      assert SymbolValue(text[i]).None?;
    }
  }

  // One character of the display form replaced by any character whatever: decode
  // still yields the key exactly when the new character folds to the old symbol,
  // and otherwise fails.
  lemma OneCharacterChanged(key: Key, p: nat, c: char)
    requires |PREFIX| <= p < |Display(key)| && Display(key)[p] != '-'
    ensures Parsed(Display(key)[p := c]) == Ok(key) <==> NormalizedChar(c) == [Display(key)[p]]
    ensures Parsed(Display(key)[p := c]).Err? <==> NormalizedChar(c) != [Display(key)[p]]
  {
    hide Parsed, NormalizedChar, KeyText, Grouped;
    var before, d, after := Display(key)[|PREFIX|..p], Display(key)[p], Display(key)[p + 1..];
    DisplayStrips(key);
    GroupedStrips(KeyText(key));
    BehindPrefix(PREFIX, Grouped(KeyText(key)), p);
    assert Display(key) == (PREFIX + before) + [d] + after;
    assert Display(key)[p := c] == (PREFIX + before) + [c] + after;
    SplitTypo(key, before, d, after, c);
  }

  lemma BehindPrefix(a: string, b: string, p: nat)
    requires |a| <= p < |a + b|
    ensures (a + b)[p] == b[p - |a|]
  {
  }

  lemma SplitTypo(key: Key, before: string, d: char, after: string, c: char)
    requires Display(key) == (PREFIX + before) + [d] + after && SymbolValue(d).Some?
    ensures var r := Parsed((PREFIX + before) + [c] + after);
            if NormalizedChar(c) == [d] then r == Ok(key) else r.Err?
  {
    var a, b := Stripped(before), Stripped(after);
    var stripped := a + StrippedChar(c) + b;
    DisplayStrips(key);
    SplitStrips(before, d, after);
    SplitStrips(before, c, after);
    SymbolStays(d);
    assert KeyText(key) == a + [d] + b by {
      assert (PREFIX_TAG + KeyText(key))[3..] == (PREFIX_TAG + (a + [d] + b))[3..];
    }
    assert (PREFIX_TAG + stripped)[3..] == stripped;
    BodyTyped(key, a, d, b, c);
  }

  lemma BodyTyped(key: Key, a: string, d: char, b: string, c: char)
    requires KeyText(key) == a + [d] + b
    ensures var r := ParsedBody(Normalize(a + StrippedChar(c) + b));
            if NormalizedChar(c) == [d] then r == Ok(key) else r.Err?
  {
    TextInverts(Symbols(Payload(key)));
    PartsAreSymbols(a, [d], b);
    BodyNormalizes(a, c, b);
    BodyReplaced(key, a, d, b, NormalizedChar(c));
  }

  lemma PartsAreSymbols(a: string, d: string, b: string)
    requires AllSymbols(a + d + b)
    ensures AllSymbols(a) && AllSymbols(b)
  {
    var text := a + d + b;
    forall i | 0 <= i < |a| ensures SymbolValue(a[i]).Some? { assert a[i] == text[i]; }
    forall i | 0 <= i < |b| ensures SymbolValue(b[i]).Some? { assert b[i] == text[|a| + |d| + i]; }
  }

  lemma BodyReplaced(key: Key, a: string, d: char, b: string, n: string)
    requires KeyText(key) == a + [d] + b && |n| <= 1
    ensures if n == [d] then ParsedBody(a + n + b) == Ok(key) else ParsedBody(a + n + b).Err?
  {
    if n == "" {
      SymbolMissing(a + n + b);
    } else if n == [d] {
      BodyExactly(KeyText(key), key);
    } else {
      assert a + n + b == KeyText(key)[|a| := n[0]];
      BodyTypo(key, |a|, n[0]);
    }
  }

  lemma SplitStrips(before: string, c: char, after: string)
    ensures Stripped((PREFIX + before) + [c] + after) ==
              PREFIX_TAG + (Stripped(before) + StrippedChar(c) + Stripped(after))
  {
    FlatMapConcat(StrippedChar, (PREFIX + before) + [c], after);
    FlatMapConcat(StrippedChar, PREFIX + before, [c]);
    FlatMapOne(StrippedChar, c);
    PrefixStrips(before);
  }

  lemma BodyNormalizes(a: string, c: char, b: string)
    requires AllSymbols(a) && AllSymbols(b)
    ensures Normalize(a + StrippedChar(c) + b) == a + NormalizedChar(c) + b
  {
    FlatMapConcat(NormalizedChar, a + StrippedChar(c), b);
    FlatMapConcat(NormalizedChar, a, StrippedChar(c));
    SymbolsStay(a);
    SymbolsStay(b);
    StrippedNormalizes(c);
  }

  // --- One edit anywhere ------------------------------------------------------------------------------------

  predicate HasLayout(s: string) {
    exists i :: 0 <= i < |s| && IsLayout(s[i])
  }

  lemma {:induction false} NormalizeKeepsLength(t: string)
    requires !HasLayout(t)
    ensures |Normalize(t)| == |t|
  {
    if t != "" {
      assert !IsLayout(t[0]);
      assert forall i | 0 <= i < |t[1..]| :: t[1..][i] == t[i + 1];
      NormalizeKeepsLength(t[1..]);
    }
  }

  lemma {:induction false} StrippedHasNoLayout(s: string)
    ensures !HasLayout(Stripped(s))
  {
    if s != "" {
      StrippedHasNoLayout(s[1..]);
      assert Stripped(s) == StrippedChar(s[0]) + Stripped(s[1..]);
      assert forall i | 0 <= i < |Stripped(s[1..])| :: !IsLayout(Stripped(s[1..])[i]);
    }
  }

  lemma StrippedParts(a: string, c: string, b: string)
    requires |c| <= 1
    ensures Stripped(a + c + b) == Stripped(a) + Stripped(c) + Stripped(b)
    ensures Stripped(c) == if c == "" then "" else StrippedChar(c[0])
  {
    FlatMapConcat(StrippedChar, a + c, b);
    FlatMapConcat(StrippedChar, a, c);
    if c != "" {
      FlatMapOne(StrippedChar, c[0]);
      assert c == [c[0]];
    }
  }

  lemma KeyTextIsCanonical(key: Key)
    ensures |KeyText(key)| == 32 && Normalize(KeyText(key)) == KeyText(key)
  {
    TextInverts(Symbols(Payload(key)));
    SymbolsStay(KeyText(key));
  }

  // A text of thirty-two symbols behind the tag, once it is stripped.
  lemma DecodedLength(s: string, key: Key)
    requires Parsed(s) == Ok(key)
    ensures |Stripped(s)| == |PREFIX_TAG| + 32
  {
    ParsedExactly(s, key);
    KeyTextIsCanonical(key);
    StrippedHasNoLayout(s);
    var body := Stripped(s)[|PREFIX_TAG|..];
    assert forall i | 0 <= i < |body| :: body[i] == Stripped(s)[i + |PREFIX_TAG|];
    NormalizeKeepsLength(body);
  }

  ghost predicate KeyOrFailure(s: string, key: Key) {
    Parsed(s) == Ok(key) || Parsed(s).Err?
  }

  // The body is what it was: the edit was in the tag, or left only layout behind.
  lemma SameBody(s: string, key: Key)
    requires |Stripped(s)| >= |PREFIX_TAG| && Stripped(s)[|PREFIX_TAG|..] == KeyText(key)
    ensures KeyOrFailure(s, key)
  {
    if Parsed(s).Ok? {
      var other := Parsed(s).value;
      ParsedExactly(s, other);
      KeyTextIsCanonical(key);
      BodyExactly(KeyText(key), key);
      BodyExactly(KeyText(key), other);
    }
  }

  // One symbol of the body was replaced.
  lemma OtherBody(s: string, key: Key, a: string, d: char, b: string, c: char)
    requires KeyText(key) == a + [d] + b && Stripped(s) == PREFIX_TAG + (a + StrippedChar(c) + b)
    ensures KeyOrFailure(s, key)
  {
    assert Stripped(s)[|PREFIX_TAG|..] == a + StrippedChar(c) + b;
    BodyTyped(key, a, d, b, c);
  }

  // An edit of the stripped text that keeps its length, cut where the tag ends.
  lemma EditedTag(tag: string, text: string, a: string, d: string, b: string, e: string)
    requires a + d + b == tag + text && |d| == |e| && |a| + |d| <= |tag|
    ensures (a + e + b)[|tag|..] == text
  {
    assert (a + e + b)[|tag|..] == (a + d + b)[|tag|..] == (tag + text)[|tag|..] == text;
  }

  lemma EditedBody(tag: string, text: string, a: string, d: string, b: string, e: string)
    requires a + d + b == tag + text && |a| >= |tag|
    ensures text == a[|tag|..] + d + b && a + e + b == tag + (a[|tag|..] + e + b)
  {
    assert a[..|tag|] == (a + d + b)[..|tag|] == (tag + text)[..|tag|] == tag;
    assert text == (tag + text)[|tag|..] == (a + d + b)[|tag|..];
    assert a == tag + a[|tag|..];
  }

  lemma StrippedEdit(s: string, key: Key, a: string, d: string, b: string, e: string, c: char)
    requires Stripped(s) == a + e + b && PREFIX_TAG + KeyText(key) == a + d + b
    requires |d| == |e| <= 1 && (e != "" ==> e == StrippedChar(c))
    ensures KeyOrFailure(s, key)
  {
    if |a| + |d| <= |PREFIX_TAG| {
      EditedTag(PREFIX_TAG, KeyText(key), a, d, b, e);
      SameBody(s, key);
    } else {
      EditedBody(PREFIX_TAG, KeyText(key), a, d, b, e);
      var body := a[|PREFIX_TAG|..];
      if e == "" {
        assert body + e + b == body + d + b;
        SameBody(s, key);
      } else {
        assert d == [d[0]];
        OtherBody(s, key, body, d[0], b, c);
      }
    }
  }

  // One character of the display form replaced, deleted or inserted, anywhere, the tag
  // and the dashes among them: decode gives the same key or fails, never another key.
  lemma OneEdit(key: Key, a: string, d: string, b: string, e: string)
    requires Display(key) == a + d + b && |d| <= 1 && |e| <= 1
    ensures Parsed(a + e + b) == Ok(key) || Parsed(a + e + b).Err?
  {
    var s := a + e + b;
    DisplayStrips(key);
    StrippedParts(a, d, b);
    StrippedParts(a, e, b);
    KeyTextIsCanonical(key);
    if Parsed(s).Ok? {
      DecodedLength(s, Parsed(s).value);
      StrippedEdit(s, key, Stripped(a), Stripped(d), Stripped(b), Stripped(e), if e == "" then '-' else e[0]);
    }
  }
}
