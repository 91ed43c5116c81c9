/** Data regrouped block by block, five elements to eight. */
module Blocks {

  function Encoded<A, B>(f: seq<A> -> seq<B>, b: seq<A>): seq<B> {
    if |b| < 5 then [] else f(b[..5]) + Encoded(f, b[5..])
  }

  function Decoded<A, B>(g: seq<B> -> seq<A>, s: seq<B>): seq<A> {
    if |s| < 8 then [] else g(s[..8]) + Decoded(g, s[8..])
  }

  ghost predicate Encodes<A(!new), B>(f: seq<A> -> seq<B>) {
    forall b: seq<A> :: |b| == 5 ==> |f(b)| == 8
  }

  ghost predicate Decodes<A, B(!new)>(g: seq<B> -> seq<A>) {
    forall s: seq<B> :: |s| == 8 ==> |g(s)| == 5
  }

  lemma {:induction false} EncodedLength<A(!new), B>(f: seq<A> -> seq<B>, b: seq<A>)
    requires Encodes(f) && |b| % 5 == 0
    ensures |Encoded(f, b)| == |b| / 5 * 8
  {
    if |b| >= 5 {
      EncodedLength(f, b[5..]);
      assert |f(b[..5])| == 8;
    }
  }

  lemma {:induction false} DecodedLength<A, B(!new)>(g: seq<B> -> seq<A>, s: seq<B>)
    requires Decodes(g)
    ensures |Decoded(g, s)| == |s| / 8 * 5
  {
    if |s| >= 8 {
      DecodedLength(g, s[8..]);
      assert |g(s[..8])| == 5;
    }
  }

  lemma {:induction false} DecodedOfEncoded<A(!new), B>(f: seq<A> -> seq<B>, g: seq<B> -> seq<A>, b: seq<A>)
    requires Encodes(f) && |b| % 5 == 0 && forall block: seq<A> :: |block| == 5 ==> g(f(block)) == block
    ensures Decoded(g, Encoded(f, b)) == b
  {
    if |b| >= 5 {
      DecodedOfEncoded(f, g, b[5..]);
      var s := Encoded(f, b);
      assert |f(b[..5])| == 8 && g(f(b[..5])) == b[..5];
      assert s[..8] == f(b[..5]) && s[8..] == Encoded(f, b[5..]);
      assert b == b[..5] + b[5..];
    }
  }

  lemma {:induction false} EncodedOfDecoded<A, B(!new)>(f: seq<A> -> seq<B>, g: seq<B> -> seq<A>, s: seq<B>)
    requires Decodes(g) && |s| % 8 == 0 && forall block: seq<B> :: |block| == 8 ==> f(g(block)) == block
    ensures Encoded(f, Decoded(g, s)) == s
  {
    if |s| >= 8 {
      EncodedOfDecoded(f, g, s[8..]);
      var b := Decoded(g, s);
      assert |g(s[..8])| == 5 && f(g(s[..8])) == s[..8];
      assert b[..5] == g(s[..8]) && b[5..] == Decoded(g, s[8..]);
      assert s == s[..8] + s[8..];
    }
  }

  lemma {:induction false} DecodedAt<A, B(!new)>(g: seq<B> -> seq<A>, s: seq<B>, b: nat)
    requires Decodes(g) && |s| % 8 == 0 && 8 * b + 8 <= |s|
    ensures |Decoded(g, s)| >= 5 * b + 5 && Decoded(g, s)[5 * b..5 * b + 5] == g(s[8 * b..8 * b + 8])
  {
    assert |g(s[..8])| == 5;
    if b > 0 {
      DecodedAt(g, s[8..], b - 1);
      assert s[8..][8 * (b - 1)..8 * (b - 1) + 8] == s[8 * b..8 * b + 8];
    }
  }
}

/**
 Unpadded, most-significant-bit-first base32 over the Crockford alphabet, as the
 codec that `secretkey.rs` builds: five bytes regroup into eight symbols.
 */
module Base32 {
  import opened Wrappers
  import opened Blocks

  type Byte = bv8
  type Symbol = bv5

  // --- One block -----------------------------------------------------------------

  function BlockSymbols(b: seq<Byte>): (s: seq<Symbol>)
    requires |b| == 5
    ensures |s| == 8
  {
    [(b[0] >> 3) as Symbol,
     (((b[0] & 7) << 2) | (b[1] >> 6)) as Symbol,
     ((b[1] >> 1) & 31) as Symbol,
     (((b[1] & 1) << 4) | (b[2] >> 4)) as Symbol,
     (((b[2] & 15) << 1) | (b[3] >> 7)) as Symbol,
     ((b[3] >> 2) & 31) as Symbol,
     (((b[3] & 3) << 3) | (b[4] >> 5)) as Symbol,
     (b[4] & 31) as Symbol]
  }

  function Byte0(a: Symbol, b: Symbol): Byte { ((a as Byte) << 3) | ((b as Byte) >> 2) }

  function Byte1(a: Symbol, b: Symbol, c: Symbol): Byte {
    (((a as Byte) & 3) << 6) | (((b as Byte) << 1) | ((c as Byte) >> 4))
  }

  function Byte2(a: Symbol, b: Symbol): Byte { (((a as Byte) & 15) << 4) | ((b as Byte) >> 1) }

  function Byte3(a: Symbol, b: Symbol, c: Symbol): Byte {
    (((a as Byte) & 1) << 7) | (((b as Byte) << 2) | ((c as Byte) >> 3))
  }

  function Byte4(a: Symbol, b: Symbol): Byte { (((a as Byte) & 7) << 5) | (b as Byte) }

  function BlockBytes(s: seq<Symbol>): (b: seq<Byte>)
    requires |s| == 8
    ensures |b| == 5
  {
    Made(Byte0, Byte1, Byte2, Byte3, Byte4, s)
  }

  // Five bytes, each made of the symbols whose bits it takes.
  function Made(
      f0: (Symbol, Symbol) -> Byte, f1: (Symbol, Symbol, Symbol) -> Byte, f2: (Symbol, Symbol) -> Byte,
      f3: (Symbol, Symbol, Symbol) -> Byte, f4: (Symbol, Symbol) -> Byte, s: seq<Symbol>): seq<Byte>
    requires |s| == 8
  {
    [f0(s[0], s[1]), f1(s[1], s[2], s[3]), f2(s[3], s[4]), f3(s[4], s[5], s[6]), f4(s[6], s[7])]
  }

  lemma BlockBytesInverts(b: seq<Byte>)
    requires |b| == 5
    ensures BlockBytes(BlockSymbols(b)) == b
  {
  }

  lemma BlockSymbolsInverts(s: seq<Symbol>)
    requires |s| == 8
    ensures BlockSymbols(BlockBytes(s)) == s
  {
  }

  // The two as total functions.
  function ToSymbols(b: seq<Byte>): seq<Symbol> {
    if |b| == 5 then BlockSymbols(b) else []
  }

  function ToBytes(s: seq<Symbol>): seq<Byte> {
    if |s| == 8 then BlockBytes(s) else []
  }

  // --- Whole payloads --------------------------------------------------------------

  lemma BlocksFit()
    ensures Encodes(ToSymbols) && Decodes(ToBytes)
  {
  }

  function Symbols(b: seq<Byte>): (s: seq<Symbol>)
    requires |b| % 5 == 0
    ensures |s| == |b| / 5 * 8
  {
    BlocksFit();
    EncodedLength(ToSymbols, b);
    Encoded(ToSymbols, b)
  }

  // The number of symbols in a last, partial block that spells whole bytes.
  predicate PartialLength(n: nat) {
    n == 0 || n == 2 || n == 4 || n == 5 || n == 7
  }

  // A partial block: fill it up with zero symbols, and refuse non-zero bits
  // behind the last whole byte.
  function PartialBytes(s: seq<Symbol>): (r: Option<seq<Byte>>)
    requires |s| < 8
    ensures r.Some? ==> |r.value| == |s| * 5 / 8 && PartialLength(|s|)
  {
    var b := BlockBytes(s + seq(8 - |s|, _ => 0 as Symbol));
    var n := |s| * 5 / 8;
    if PartialLength(|s|) && (forall i | n <= i < 5 :: b[i] == 0) then Some(b[..n]) else None
  }

  function WholeBytes(s: seq<Symbol>): (b: seq<Byte>)
    requires |s| % 8 == 0
    ensures |b| == |s| / 8 * 5
  {
    BlocksFit();
    DecodedLength(ToBytes, s);
    Decoded(ToBytes, s)
  }

  // The whole blocks, and what the partial one behind them spells.
  function Bytes(s: seq<Symbol>): (r: Option<seq<Byte>>)
    ensures r.Some? ==> |r.value| == |s| * 5 / 8 && PartialLength(|s| % 8)
  {
    var whole := |s| / 8 * 8;
    var rest := PartialBytes(s[whole..]);
    if rest.None? then None else Some(WholeBytes(s[..whole]) + rest.value)
  }

  // The bits of the last symbol that lie behind the last whole byte, if there are few
  // enough for that symbol to be needed.
  function SpareMask(spare: nat): Symbol {
    if spare == 1 then 1 else if spare == 2 then 3 else if spare == 3 then 7 else 15
  }

  // Symbols spell whole bytes when fewer than five bits are left over, all zero.
  predicate SpellWholeBytes(s: seq<Symbol>) {
    var spare := |s| * 5 % 8;
    spare == 0 || (spare < 5 && s[|s| - 1] & SpareMask(spare) == 0)
  }

  lemma SpareBits(x: Symbol)
    ensures Byte1(x, 0, 0) == 0 <==> x & SpareMask(2) == 0
    ensures Byte2(x, 0) == 0 <==> x & SpareMask(4) == 0
    ensures Byte3(x, 0, 0) == 0 <==> x & SpareMask(1) == 0
    ensures Byte4(x, 0) == 0 <==> x & SpareMask(3) == 0
  {
  }

  lemma NoBits()
    ensures Byte1(0, 0, 0) == 0 && Byte2(0, 0) == 0 && Byte3(0, 0, 0) == 0 && Byte4(0, 0) == 0
  {
  }

  lemma FilledUp(s: seq<Symbol>)
    requires |s| < 8
    ensures var t := s + seq(8 - |s|, _ => 0 as Symbol);
            |t| == 8 && (forall i | 0 <= i < |s| :: t[i] == s[i]) && forall i | |s| <= i < 8 :: t[i] == 0
  {
  }

  lemma BlockAt(t: seq<Symbol>)
    requires |t| == 8
    ensures BlockBytes(t)[1] == Byte1(t[1], t[2], t[3]) && BlockBytes(t)[2] == Byte2(t[3], t[4])
    ensures BlockBytes(t)[3] == Byte3(t[4], t[5], t[6]) && BlockBytes(t)[4] == Byte4(t[6], t[7])
  {
    hide Byte0, Byte1, Byte2, Byte3, Byte4;
  }

  lemma PartialExactly(s: seq<Symbol>)
    requires |s| < 8
    ensures PartialBytes(s).Some? <==> SpellWholeBytes(s)
  {
    var t := s + seq(8 - |s|, _ => 0 as Symbol);
    var b, n := BlockBytes(t), |s| * 5 / 8;
    FilledUp(s);
    BlockAt(t);
    NoBits();
    assert PartialBytes(s).Some? <==> PartialLength(|s|) && forall i | n <= i < 5 :: b[i] == 0;
    hide BlockBytes, PartialBytes, Byte0, Byte1, Byte2, Byte3, Byte4, SpareMask;
    if s != [] {
      SpareBits(s[|s| - 1]);
    }
    if PartialLength(|s|) && s != [] {
      assert (forall i | n <= i < 5 :: b[i] == 0) <==> b[n] == 0;
    }
  }

  lemma SameSpare(n: nat)
    ensures n % 8 * 5 % 8 == n * 5 % 8
  {
    var q, r := n / 8, n % 8;
    assert n * 5 == 8 * (5 * q) + r * 5;
    EightsDropped(5 * q, r * 5);
  }

  lemma EightsDropped(a: nat, b: nat)
    ensures (8 * a + b) % 8 == b % 8
  {
    var all := 8 * a + b;
    assert all == 8 * (a + b / 8) + b % 8;
  }

  // Decoding succeeds exactly on symbols that spell whole bytes.
  lemma BytesExactly(s: seq<Symbol>)
    ensures Bytes(s).Some? <==> SpellWholeBytes(s)
  {
    var tail := s[|s| / 8 * 8..];
    assert |tail| == |s| % 8;
    SameSpare(|s|);
    hide PartialBytes, SpareMask, WholeBytes;
    PartialExactly(tail);
  }

  lemma DecodedSymbols(b: seq<Byte>)
    requires |b| % 5 == 0
    ensures Decoded(ToBytes, Encoded(ToSymbols, b)) == b
  {
    BlocksFit();
    forall block: seq<Byte> | |block| == 5 ensures ToBytes(ToSymbols(block)) == block {
      BlockBytesInverts(block);
    }
    DecodedOfEncoded(ToSymbols, ToBytes, b);
  }

  lemma EncodedBytes(s: seq<Symbol>)
    requires |s| % 8 == 0
    ensures Encoded(ToSymbols, Decoded(ToBytes, s)) == s
  {
    BlocksFit();
    forall block: seq<Symbol> | |block| == 8 ensures ToSymbols(ToBytes(block)) == block {
      BlockSymbolsInverts(block);
    }
    EncodedOfDecoded(ToSymbols, ToBytes, s);
  }

  lemma NothingPartial()
    ensures PartialBytes([]) == Some([])
  {
  }

  // Whole blocks always decode.
  lemma WholeBlocks(s: seq<Symbol>)
    requires |s| % 8 == 0
    ensures Bytes(s) == Some(Decoded(ToBytes, s)) && |Decoded(ToBytes, s)| == |s| / 8 * 5
  {
    hide PartialBytes;
    NothingPartial();
    assert s[..|s| / 8 * 8] == s && s[|s| / 8 * 8..] == [];
    assert WholeBytes(s) + [] == WholeBytes(s);
  }

  lemma BytesOfSymbols(b: seq<Byte>)
    requires |b| % 5 == 0
    ensures Bytes(Symbols(b)) == Some(b)
  {
    WholeBlocks(Symbols(b));
    DecodedSymbols(b);
  }

  lemma SymbolsOfBytes(s: seq<Symbol>)
    requires |s| % 8 == 0
    ensures Bytes(s).Some? && |Bytes(s).value| % 5 == 0 && Symbols(Bytes(s).value) == s
  {
    hide Bytes, ToBytes, ToSymbols;
    WholeBlocks(s);
    EncodedBytes(s);
  }

  // --- The alphabet --------------------------------------------------------------------

  // Digits and upper-case letters, less I, L, O and U.
  function SymbolValue(c: char): Option<Symbol> {
    match c
    case '0' => Some(0) case '1' => Some(1) case '2' => Some(2) case '3' => Some(3)
    case '4' => Some(4) case '5' => Some(5) case '6' => Some(6) case '7' => Some(7)
    case '8' => Some(8) case '9' => Some(9) case 'A' => Some(10) case 'B' => Some(11)
    case 'C' => Some(12) case 'D' => Some(13) case 'E' => Some(14) case 'F' => Some(15)
    case 'G' => Some(16) case 'H' => Some(17) case 'J' => Some(18) case 'K' => Some(19)
    case 'M' => Some(20) case 'N' => Some(21) case 'P' => Some(22) case 'Q' => Some(23)
    case 'R' => Some(24) case 'S' => Some(25) case 'T' => Some(26) case 'V' => Some(27)
    case 'W' => Some(28) case 'X' => Some(29) case 'Y' => Some(30) case 'Z' => Some(31)
    case _ => None
  }

  const ALPHABET := "0123456789ABCDEFGHJKMNPQRSTVWXYZ"

  function SymbolChar(v: Symbol): char {
    ALPHABET[v as int]
  }

  lemma SymbolCharInverts(v: Symbol)
    ensures SymbolValue(SymbolChar(v)) == Some(v)
  {
  }

  lemma SymbolValueInverts(c: char)
    requires SymbolValue(c).Some?
    ensures SymbolChar(SymbolValue(c).value) == c
  {
  }
}
