/** The hex form of presence tokens, and the comparison without an early exit. */
module Hex {
  import opened Wrappers

  type Byte = bv8
  type Token = t: seq<Byte> | |t| == 32 witness seq(32, _ => 0)

  function Digit(v: Byte): char
    requires v < 16
  {
    "0123456789abcdef"[v as int]
  }

  function DigitValue(c: char): (v: Option<Byte>)
    ensures v.Some? ==> v.value < 16
  {
    match c
    case '0' => Some(0) case '1' => Some(1) case '2' => Some(2) case '3' => Some(3)
    case '4' => Some(4) case '5' => Some(5) case '6' => Some(6) case '7' => Some(7)
    case '8' => Some(8) case '9' => Some(9)
    case 'a' => Some(10) case 'b' => Some(11) case 'c' => Some(12)
    case 'd' => Some(13) case 'e' => Some(14) case 'f' => Some(15)
    case 'A' => Some(10) case 'B' => Some(11) case 'C' => Some(12)
    case 'D' => Some(13) case 'E' => Some(14) case 'F' => Some(15)
    case _ => None
  }

  function DigitPair(b: Byte): (s: string)
    ensures |s| == 2
  {
    [Digit(b >> 4), Digit(b & 0xF)]
  }

  function HexEncode(bytes: seq<Byte>): (s: string)
    ensures |s| == 2 * |bytes|
  {
    if bytes == [] then "" else HexEncode(bytes[..|bytes| - 1]) + DigitPair(bytes[|bytes| - 1])
  }

  // A pair of hex digits, either case.
  function PairValue(hi: char, lo: char): Option<Byte> {
    if DigitValue(hi).Some? && DigitValue(lo).Some?
    then Some((DigitValue(hi).value << 4) | DigitValue(lo).value)
    else None
  }

  function DecodePairs(s: string): (r: Option<seq<Byte>>)
    requires |s| % 2 == 0
    ensures r.Some? ==> |r.value| == |s| / 2
  {
    if s == "" then Some([]) else
    var n := |s|;
    var front, last := DecodePairs(s[..n - 2]), PairValue(s[n - 2], s[n - 1]);
    if front.Some? && last.Some? then Some(front.value + [last.value]) else None
  }

  // Exactly 64 hex digits.
  function HexDecode(s: string): Option<Token> {
    if |s| != 64 then None else
    match DecodePairs(s)
    case None => None
    case Some(bytes) => Some(bytes)
  }

  lemma NibblesJoin(b: Byte)
    ensures b >> 4 < 16 && b & 0xF < 16 && ((b >> 4) << 4) | (b & 0xF) == b
  {
  }

  function UpperDigit(c: char): char {
    if 'a' <= c <= 'f' then c - 'a' + 'A' else c
  }

  // The same digits, in either letter case each.
  predicate SameDigits(s: string, hex: string) {
    |s| == |hex| && forall i | 0 <= i < |s| :: s[i] == hex[i] || s[i] == UpperDigit(hex[i])
  }

  lemma DigitExactly(c: char, v: Byte)
    requires v < 16
    ensures DigitValue(c) == Some(v) <==> c == Digit(v) || c == UpperDigit(Digit(v))
  {
  }

  lemma NibblesSplit(hi: Byte, lo: Byte)
    requires hi < 16 && lo < 16
    ensures ((hi << 4) | lo) >> 4 == hi && ((hi << 4) | lo) & 0xF == lo
  {
  }

  lemma PairNibbles(hi: char, lo: char, b: Byte)
    ensures PairValue(hi, lo) == Some(b) <==> DigitValue(hi) == Some(b >> 4) && DigitValue(lo) == Some(b & 0xF)
  {
    NibblesJoin(b);
    if PairValue(hi, lo).Some? {
      NibblesSplit(DigitValue(hi).value, DigitValue(lo).value);
    }
  }

  lemma PairSpelled(pair: string, hi: Byte, lo: Byte)
    requires |pair| == 2 && hi < 16 && lo < 16
    ensures SameDigits(pair, [Digit(hi), Digit(lo)]) <==>
              DigitValue(pair[0]) == Some(hi) && DigitValue(pair[1]) == Some(lo)
  {
    DigitExactly(pair[0], hi);
    DigitExactly(pair[1], lo);
    var hex := [Digit(hi), Digit(lo)];
    assert hex[0] == Digit(hi) && hex[1] == Digit(lo);
  }

  lemma PairExactly(pair: string, b: Byte)
    requires |pair| == 2
    ensures PairValue(pair[0], pair[1]) == Some(b) <==> SameDigits(pair, DigitPair(b))
  {
    NibblesJoin(b);
    PairNibbles(pair[0], pair[1], b);
    PairSpelled(pair, b >> 4, b & 0xF);
  }

  lemma SameDigitsConcat(s: string, front: string, last: string)
    requires |s| == |front| + |last|
    ensures SameDigits(s, front + last) <==> SameDigits(s[..|front|], front) && SameDigits(s[|front|..], last)
  {
    var hex := front + last;
    assert forall i | 0 <= i < |front| :: hex[i] == front[i] && s[..|front|][i] == s[i];
    assert forall i | 0 <= i < |last| :: hex[|front| + i] == last[i] && s[|front|..][i] == s[|front| + i];
  }

  lemma LastPair(s: string, bytes: seq<Byte>, value: Option<Byte>)
    requires |s| == 2 * |bytes| && bytes != [] && value == PairValue(s[|s| - 2], s[|s| - 1])
    ensures var n := |bytes| - 1;
            DecodePairs(s) == Some(bytes) <==> DecodePairs(s[..2 * n]) == Some(bytes[..n]) && value == Some(bytes[n])
  {
    var n := |bytes| - 1;
    var front := DecodePairs(s[..2 * n]);
    assert bytes == bytes[..n] + [bytes[n]];
    if front.Some? && value.Some? {
      assert DecodePairs(s) == Some(front.value + [value.value]);
      assert (front.value + [value.value])[..n] == front.value;
    }
  }

  lemma {:induction false} PairsExactly(s: string, bytes: seq<Byte>)
    requires |s| == 2 * |bytes|
    ensures DecodePairs(s) == Some(bytes) <==> SameDigits(s, HexEncode(bytes))
  {
    if bytes == [] {
      assert s == "";
    } else {
      var n := |bytes| - 1;
      PairsExactly(s[..2 * n], bytes[..n]);
      PairExactly(s[2 * n..], bytes[n]);
      SameDigitsConcat(s, HexEncode(bytes[..n]), DigitPair(bytes[n]));
      LastPair(s, bytes, PairValue(s[2 * n], s[2 * n + 1]));
    }
  }

  // A text decodes to a token exactly if it is the token's hex form, in either letter
  // case digit by digit.
  lemma HexRoundTrip(s: string, t: Token)
    ensures HexDecode(s) == Some(t) <==> SameDigits(s, HexEncode(t))
    ensures HexDecode(HexEncode(t)) == Some(t)
  {
    if |s| == 64 {
      PairsExactly(s, t);
    }
    PairsExactly(HexEncode(t), t);
  }

  // Every byte is folded in; the sum is zero exactly for equal tokens.
  method ConstantTimeEqual(a: Token, b: Token) returns (equal: bool)
    ensures equal <==> a == b
  {
    var acc: Byte := 0;
    for i := 0 to 32
      invariant acc == 0 <==> a[..i] == b[..i]
    {
      OrXorZero(acc, a[i], b[i]);
      assert a[..i + 1] == a[..i] + [a[i]] && b[..i + 1] == b[..i] + [b[i]];
      acc := acc | (a[i] ^ b[i]);
    }
    assert a[..32] == a && b[..32] == b;
    equal := acc == 0;
  }

  lemma OrXorZero(acc: Byte, x: Byte, y: Byte)
    ensures acc | (x ^ y) == 0 <==> acc == 0 && x == y
  {
  }
}
