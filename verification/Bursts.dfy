/**
 Changes of neighbouring bits of a Secret Key's payload, and of neighbouring symbols of
 its text: which of them the checksum catches.
 */
module Bursts {
  import opened Wrappers
  import opened Base32
  import opened Blocks
  import opened Syndromes
  import opened Changes
  import opened SecretKey
  import Crc32

  // --- Neighbouring bits of a payload ------------------------------------------------------------

  lemma PayloadParts(key: Key)
    ensures forall r: nat | r < KEY_LEN :: Payload(key)[r] == key[r]
    ensures forall j: nat | j < 4 :: Payload(key)[KEY_LEN + j] == Checksum(key)[j]
  {
  }

  lemma SameOutside(k: Key, l: Key, p: nat, n: nat)
    requires Within(Payload(k), Payload(l), p, n)
    ensures forall r: nat | r < KEY_LEN && (8 * r + 8 <= p || 8 * r >= p + n) :: k[r] == l[r]
  {
    PayloadParts(k);
    PayloadParts(l);
    forall r: nat | r < KEY_LEN && (8 * r + 8 <= p || 8 * r >= p + n) ensures k[r] == l[r] {
      ByteOutside(Payload(k), Payload(l), p, n, r);
    }
  }

  // Bits of the key alone: the checksum is the same.
  lemma SameChecksum(k: Key, l: Key, p: nat)
    requires Within(Payload(k), Payload(l), p, 30) && p <= 98
    ensures Crc32.Of(k) == Crc32.Of(l)
  {
    PayloadParts(k);
    PayloadParts(l);
    forall j: nat | j < 4 ensures BigEndian(Crc32.Of(k))[j] == BigEndian(Crc32.Of(l))[j] {
      ByteOutside(Payload(k), Payload(l), p, 30, KEY_LEN + j);
    }
    BigEndianInjective(Crc32.Of(k), Crc32.Of(l));
  }

  lemma WithinFourBytes(k: Key, l: Key, q: nat)
    requires q <= 12 && Crc32.Of(k) == Crc32.Of(l)
    requires forall r: nat | r < KEY_LEN && (r < q || r >= q + 4) :: k[r] == l[r]
    ensures k == l
  {
    assert k == k[..q] + k[q..q + 4] + k[q + 4..];
    assert l == k[..q] + l[q..q + 4] + k[q + 4..];
    if k[q..q + 4] != l[q..q + 4] {
      Crc32.BurstDetected(k[..q], k[q..q + 4], l[q..q + 4], k[q + 4..]);
    }
  }

  lemma CleanByte(x: Byte, n: nat)
    requires n <= 8 && x & Below(n) == 0
    ensures (x as bv32) & Low(n) == 0 && (x as bv32) & 0xFF == x as bv32
    ensures (x as bv32) == 0 ==> x == 0
  {
  }

  lemma SyndromeIsByte(w: bv32, d: Byte, b: nat)
    requires 1 <= b <= 5 && InLast(w, 24 + b) && Crc32.Shifts(w, 32) == d as bv32 && d & Below(b + 2) == 0
    ensures w == 0 && d == 0
  {
    CleanByte(d, b + 2);
    WordAndLastByte(b, w, d as bv32);
  }

  lemma FiveBytesAgree(x: seq<Byte>, u: Byte, y: seq<Byte>, v: Byte, b: nat)
    requires |x| == |y| == 4 && 1 <= b <= 5 && Crc32.Shifts(Difference(x, y), 32) == (u ^ v) as bv32
    requires FitsBelow(x[0], y[0], b) && ClearBelow(u, v, b + 2)
    ensures x == y && u == v
  {
    TailFromFirst(x, y, b, 24 + b);
    SyndromeIsByte(Difference(x, y), u ^ v, b);
    NoDifference(x, y);
    XorZero(u, v);
  }

  lemma WithinFiveBytes(k: Key, l: Key, q: nat, b: nat)
    requires q <= 11 && 1 <= b <= 5 && Crc32.Of(k) == Crc32.Of(l)
    requires forall r: nat | r < KEY_LEN && (r < q || r > q + 4) :: k[r] == l[r]
    requires FitsBelow(k[q], l[q], b) && ClearBelow(k[q + 4], l[q + 4], b + 2)
    ensures k == l
  {
    var x, y := k[q..q + 4], l[q..q + 4];
    assert k == (k[..q] + x + [k[q + 4]]) + k[q + 5..];
    assert l == (k[..q] + y + [l[q + 4]]) + k[q + 5..];
    hide FitsBelow, ClearBelow, Crc32.Of, Difference;
    FiveBytes(k[..q], x, k[q + 4], y, l[q + 4], k[q + 5..]);
    FiveBytesAgree(x, k[q + 4], y, l[q + 4], b);
  }

  // A change of thirty bits inside the key is always caught.
  lemma KeyBits(k: Key, l: Key, p: nat)
    requires p <= 98 && Within(Payload(k), Payload(l), p, 30)
    ensures k == l
  {
    var q, o := p / 8, p % 8;
    SameOutside(k, l, p, 30);
    SameChecksum(k, l, p);
    if o <= 2 {
      WithinFourBytes(k, l, q);
    } else {
      PayloadParts(k);
      PayloadParts(l);
      FirstByte(Payload(k), Payload(l), p, 30, q);
      LastByte(Payload(k), Payload(l), p, 30, q + 4);
      WithinFiveBytes(k, l, q, 8 - o);
    }
  }

  // --- Bits of the key and of the checksum behind it -------------------------------------------------

  // The same four bytes as a number, the first byte highest.
  function BigDifference(x: seq<Byte>, y: seq<Byte>): bv32
    requires |x| == |y| == 4
  {
    DifferenceOf(x[3], x[2], x[1], x[0], y[3], y[2], y[1], y[0])
  }

  lemma BigEndianWord(c: bv32)
    ensures var b := BigEndian(c); Word(b[3], b[2], b[1], b[0]) == c
  {
  }

  lemma ChecksumsDiffer(c: bv32, e: bv32)
    ensures BigDifference(BigEndian(c), BigEndian(e)) == Crc32.Xor(c, e)
  {
    hide DifferenceOf, BigEndian;
    var x, y := BigEndian(c), BigEndian(e);
    BigEndianWord(c);
    BigEndianWord(e);
    XorBytesDiffer(0, x[3], x[2], x[1], x[0], y[3], y[2], y[1], y[0]);
  }

  lemma BytesCleanFourth(x0: Byte, x1: Byte, x2: Byte, x3: Byte, y0: Byte, y1: Byte, y2: Byte, y3: Byte,
                   b: nat, t: nat)
    requires b <= 8 && t == b && ClearBelow(x3, y3, b)
    ensures IsClean(DifferenceOf(x3, x2, x1, x0, y3, y2, y1, y0), t)
  {
    hide Low, Below, Word;
    CleanToFourth(x0 ^ y0, x1 ^ y1, x2 ^ y2, x3 ^ y3, b, t);
  }

  lemma CleanFromFourth(x: seq<Byte>, y: seq<Byte>, b: nat, t: nat)
    requires |x| == |y| == 4 && b <= 8 && t == b && ClearBelow(x[3], y[3], b)
    ensures IsClean(BigDifference(x, y), t)
  {
    hide DifferenceOf, IsClean, ClearBelow;
    BytesCleanFourth(x[0], x[1], x[2], x[3], y[0], y[1], y[2], y[3], b, t);
  }

  lemma BytesCleanThird(x0: Byte, x1: Byte, x2: Byte, x3: Byte, y0: Byte, y1: Byte, y2: Byte, y3: Byte,
                   b: nat, t: nat)
    requires b <= 8 && t == 8 + b && ClearBelow(x2, y2, b) && x3 == y3
    ensures IsClean(DifferenceOf(x3, x2, x1, x0, y3, y2, y1, y0), t)
  {
    hide Low, Below, Word;
    XorSame(x3, y3);
    CleanToThird(x0 ^ y0, x1 ^ y1, x2 ^ y2, x3 ^ y3, b, t);
  }

  lemma CleanFromThird(x: seq<Byte>, y: seq<Byte>, b: nat, t: nat)
    requires |x| == |y| == 4 && b <= 8 && t == 8 + b && ClearBelow(x[2], y[2], b) && x[3] == y[3]
    ensures IsClean(BigDifference(x, y), t)
  {
    hide DifferenceOf, IsClean, ClearBelow;
    BytesCleanThird(x[0], x[1], x[2], x[3], y[0], y[1], y[2], y[3], b, t);
  }

  lemma BytesCleanSecond(x0: Byte, x1: Byte, x2: Byte, x3: Byte, y0: Byte, y1: Byte, y2: Byte, y3: Byte,
                   b: nat, t: nat)
    requires b <= 8 && t == 16 + b && ClearBelow(x1, y1, b) && x3 == y3 && x2 == y2
    ensures IsClean(DifferenceOf(x3, x2, x1, x0, y3, y2, y1, y0), t)
  {
    hide Low, Below, Word;
    XorSame(x3, y3);
    XorSame(x2, y2);
    CleanToSecond(x0 ^ y0, x1 ^ y1, x2 ^ y2, x3 ^ y3, b, t);
  }

  lemma CleanFromSecond(x: seq<Byte>, y: seq<Byte>, b: nat, t: nat)
    requires |x| == |y| == 4 && b <= 8 && t == 16 + b && ClearBelow(x[1], y[1], b) && x[3] == y[3] && x[2] == y[2]
    ensures IsClean(BigDifference(x, y), t)
  {
    hide DifferenceOf, IsClean, ClearBelow;
    BytesCleanSecond(x[0], x[1], x[2], x[3], y[0], y[1], y[2], y[3], b, t);
  }

  lemma BytesCleanFirst(x0: Byte, x1: Byte, x2: Byte, x3: Byte, y0: Byte, y1: Byte, y2: Byte, y3: Byte,
                   b: nat, t: nat)
    requires b <= 8 && t == 24 + b && ClearBelow(x0, y0, b) && x3 == y3 && x2 == y2 && x1 == y1
    ensures IsClean(DifferenceOf(x3, x2, x1, x0, y3, y2, y1, y0), t)
  {
    hide Low, Below, Word;
    XorSame(x3, y3);
    XorSame(x2, y2);
    XorSame(x1, y1);
    CleanToFirst(x0 ^ y0, x1 ^ y1, x2 ^ y2, x3 ^ y3, b, t);
  }

  lemma CleanFromFirst(x: seq<Byte>, y: seq<Byte>, b: nat, t: nat)
    requires |x| == |y| == 4 && b <= 8 && t == 24 + b && ClearBelow(x[0], y[0], b)
    requires x[3] == y[3] && x[2] == y[2] && x[1] == y[1]
    ensures IsClean(BigDifference(x, y), t)
  {
    hide DifferenceOf, IsClean, ClearBelow;
    BytesCleanFirst(x[0], x[1], x[2], x[3], y[0], y[1], y[2], y[3], b, t);
  }

  lemma KeyTailBytes(k: Key, l: Key, p: nat, x: seq<Byte>, y: seq<Byte>, r: nat, b: nat)
    requires x == k[12..] && y == l[12..] && Within(Payload(k), Payload(l), p, 30)
    requires r < 4 && b <= 8 && p + b == 104 + 8 * r
    ensures FitsBelow(x[r], y[r], b)
    ensures forall i: nat | i < r :: x[i] == y[i]
  {
    hide FitsBelow;
    SameOutside(k, l, p, 30);
    PayloadParts(k);
    PayloadParts(l);
    FirstByte(Payload(k), Payload(l), p, 30, 12 + r);
    assert forall i: nat | i < r :: x[i] == k[12 + i] && y[i] == l[12 + i];
  }

  // The changed part of the key lies within the last bits of its last four bytes.
  lemma KeyTail(k: Key, l: Key, p: nat, x: seq<Byte>, y: seq<Byte>, t: nat)
    requires x == k[12..] && y == l[12..] && Within(Payload(k), Payload(l), p, 30)
    requires 99 <= p <= 127 && p + t == 128
    ensures InLast(Difference(x, y), t)
  {
    hide InLast, FitsBelow, Difference;
    if p < 104 {
      KeyTailBytes(k, l, p, x, y, 0, 104 - p);
      TailFromFirst(x, y, 104 - p, t);
    } else if p < 112 {
      KeyTailBytes(k, l, p, x, y, 1, 112 - p);
      TailFromSecond(x, y, 112 - p, t);
    } else if p < 120 {
      KeyTailBytes(k, l, p, x, y, 2, 120 - p);
      TailFromThird(x, y, 120 - p, t);
    } else {
      KeyTailBytes(k, l, p, x, y, 3, 128 - p);
      TailFromFourth(x, y, 128 - p, t);
    }
  }

  lemma ChecksumTailBytes(k: Key, l: Key, p: nat, x: seq<Byte>, y: seq<Byte>, j: nat, b: nat)
    requires x == Checksum(k) && y == Checksum(l) && Within(Payload(k), Payload(l), p, 30)
    requires j < 4 && b <= 8 && p + b == 106 + 8 * j
    ensures ClearBelow(x[j], y[j], b)
    ensures forall i: nat | j < i < 4 :: x[i] == y[i]
  {
    hide ClearBelow, Checksum;
    PayloadParts(k);
    PayloadParts(l);
    LastByte(Payload(k), Payload(l), p, 30, KEY_LEN + j);
    forall i: nat | j < i < 4 ensures x[i] == y[i] {
      ByteOutside(Payload(k), Payload(l), p, 30, KEY_LEN + i);
    }
  }

  // The changed part of the checksum leaves its last bits clean.
  lemma ChecksumTail(k: Key, l: Key, p: nat, x: seq<Byte>, y: seq<Byte>, t: nat)
    requires x == Checksum(k) && y == Checksum(l) && Within(Payload(k), Payload(l), p, 30)
    requires 99 <= p <= 127 && p + t == 130
    ensures IsClean(BigDifference(x, y), t)
  {
    hide IsClean, ClearBelow, BigDifference, Checksum;
    if p < 106 {
      ChecksumTailBytes(k, l, p, x, y, 0, 106 - p);
      CleanFromFirst(x, y, 106 - p, t);
    } else if p < 114 {
      ChecksumTailBytes(k, l, p, x, y, 1, 114 - p);
      CleanFromSecond(x, y, 114 - p, t);
    } else if p < 122 {
      ChecksumTailBytes(k, l, p, x, y, 2, 122 - p);
      CleanFromThird(x, y, 122 - p, t);
    } else {
      ChecksumTailBytes(k, l, p, x, y, 3, 130 - p);
      CleanFromFourth(x, y, 130 - p, t);
    }
  }

  lemma SyndromeOfTail(k: Key, l: Key, x: seq<Byte>, y: seq<Byte>)
    requires x == k[12..] && y == l[12..] && k[..12] == l[..12]
    ensures BigDifference(Checksum(k), Checksum(l)) == Crc32.Shifts(Difference(x, y), 32)
  {
    assert k == k[..12] + x && l == k[..12] + y;
    LastFourBytes(k[..12], x, y);
    ChecksumsDiffer(Crc32.Of(k), Crc32.Of(l));
  }

  lemma TailCancelsOnce(x: seq<Byte>, y: seq<Byte>, t: nat, w: bv32, d: bv32)
    requires |x| == |y| == 4 && w == Difference(x, y) && d == Crc32.Shifts(w, 32)
    requires 1 <= t <= 29 && InLast(w, t) && IsClean(d, t + 2)
    ensures x == y || (t == 15 && w == ESCAPE)
  {
    TailAndSyndrome(t, w);
    if w == 0 {
      NoDifference(x, y);
    }
  }

  // A change of thirty bits across the end of the key is caught, save one.
  lemma TailBits(k: Key, l: Key, p: nat, x: seq<Byte>, y: seq<Byte>)
    requires x == k[12..] && y == l[12..] && 99 <= p <= 127 && Within(Payload(k), Payload(l), p, 30)
    ensures k[..12] == l[..12]
    ensures x == y || (p == 113 && Difference(x, y) == ESCAPE)
  {
    hide InLast, IsClean, Difference, BigDifference, Checksum;
    var t := 128 - p;
    SameOutside(k, l, p, 30);
    SyndromeOfTail(k, l, x, y);
    KeyTail(k, l, p, x, y, t);
    ChecksumTail(k, l, p, Checksum(k), Checksum(l), t + 2);
    TailCancelsOnce(x, y, t, Difference(x, y), BigDifference(Checksum(k), Checksum(l)));
  }

  // --- The payload theorem ---------------------------------------------------------------------------

  // The one change of thirty bits, from bit 113 on, that leads to another payload.
  function Escaped(d: seq<Byte>): (f: seq<Byte>)
    requires |d| == PAYLOAD_LEN
    ensures |f| == PAYLOAD_LEN
  {
    d[14 := d[14] ^ 0x61][15 := d[15] ^ 0xD8][16 := d[16] ^ 0xF4][17 := d[17] ^ 0xEE]
  }

  function EscapedKey(k: Key): Key {
    k[14 := k[14] ^ 0x61][15 := k[15] ^ 0xD8]
  }

  lemma XorTo(x: Byte, y: Byte, c: Byte)
    requires x ^ y == c
    ensures y == x ^ c
  {
  }

  lemma XorFrom(x: Byte, y: Byte, c: Byte)
    requires y == x ^ c
    ensures x ^ y == c
  {
  }

  lemma EscapeWord(d0: Byte, d1: Byte, d2: Byte, d3: Byte)
    ensures Word(d0, d1, d2, d3) == ESCAPE <==> d0 == 0 && d1 == 0 && d2 == 0x61 && d3 == 0xD8
  {
    WordReads(d0, d1, d2, d3);
  }

  // Bytes that the one change makes of others.
  ghost predicate EscapesTo(x0: Byte, x1: Byte, x2: Byte, x3: Byte, y0: Byte, y1: Byte, y2: Byte, y3: Byte) {
    y0 == x0 && y1 == x1 && y2 == x2 ^ 0x61 && y3 == x3 ^ 0xD8
  }

  lemma EscapeRead(x0: Byte, x1: Byte, x2: Byte, x3: Byte, y0: Byte, y1: Byte, y2: Byte, y3: Byte)
    requires DifferenceOf(x0, x1, x2, x3, y0, y1, y2, y3) == ESCAPE
    ensures EscapesTo(x0, x1, x2, x3, y0, y1, y2, y3)
  {
    hide Word, ESCAPE;
    EscapeWord(x0 ^ y0, x1 ^ y1, x2 ^ y2, x3 ^ y3);
    XorZero(x0, y0);
    XorZero(x1, y1);
    XorTo(x2, y2, 0x61);
    XorTo(x3, y3, 0xD8);
  }

  lemma EscapeMade(x0: Byte, x1: Byte, x2: Byte, x3: Byte, y0: Byte, y1: Byte, y2: Byte, y3: Byte)
    requires EscapesTo(x0, x1, x2, x3, y0, y1, y2, y3)
    ensures DifferenceOf(x0, x1, x2, x3, y0, y1, y2, y3) == ESCAPE
  {
    hide Word, ESCAPE;
    XorSame(x0, y0);
    XorSame(x1, y1);
    XorFrom(x2, y2, 0x61);
    XorFrom(x3, y3, 0xD8);
    EscapeWord(x0 ^ y0, x1 ^ y1, x2 ^ y2, x3 ^ y3);
  }

  lemma EscapeDifference(x: seq<Byte>, y: seq<Byte>)
    requires |x| == |y| == 4
    ensures Difference(x, y) == ESCAPE <==> EscapesTo(x[0], x[1], x[2], x[3], y[0], y[1], y[2], y[3])
  {
    hide DifferenceOf, EscapesTo, ESCAPE;
    if Difference(x, y) == ESCAPE {
      EscapeRead(x[0], x[1], x[2], x[3], y[0], y[1], y[2], y[3]);
    }
    if EscapesTo(x[0], x[1], x[2], x[3], y[0], y[1], y[2], y[3]) {
      EscapeMade(x[0], x[1], x[2], x[3], y[0], y[1], y[2], y[3]);
    }
  }

  lemma EscapedTail(k: Key, l: Key)
    requires k[..12] == l[..12] && Difference(k[12..], l[12..]) == ESCAPE
    ensures l == EscapedKey(k)
  {
    hide Difference, ESCAPE;
    var x, y := k[12..], l[12..];
    EscapeDifference(x, y);
    assert k == k[..12] + x && l == k[..12] + y;
  }

  // Two keys whose payloads differ within thirty neighbouring bits are the same, save
  // for the one change.
  lemma PayloadBits(k: Key, l: Key, p: nat)
    requires p <= 130 && Within(Payload(k), Payload(l), p, 30)
    ensures k == l || (p == 113 && l == EscapedKey(k))
  {
    hide Difference, ESCAPE, EscapedKey;
    if p <= 98 {
      KeyBits(k, l, p);
    } else if p <= 127 {
      TailBits(k, l, p, k[12..], l[12..]);
      assert k == k[..12] + k[12..] && l == l[..12] + l[12..];
      if k != l {
        EscapedTail(k, l);
      }
    } else {
      SameOutside(k, l, p, 30);
    }
  }

  lemma EscapeSyndrome()
    ensures Crc32.Shifts(ESCAPE, 32) == 0xF4EE_0000
  {
    ShiftsAre(ESCAPE);
  }

  lemma EscapedChecksum(k: Key)
    ensures Crc32.Of(EscapedKey(k)) == Crc32.Xor(Crc32.Of(k), 0xF4EE_0000)
  {
    hide ESCAPE, Difference, Crc32.Of;
    var l := EscapedKey(k);
    var x, y := k[12..], l[12..];
    EscapeDifference(x, y);
    assert k == k[..12] + x && l == k[..12] + y;
    LastFourBytes(k[..12], x, y);
    EscapeSyndrome();
    XorBack(Crc32.Of(k), Crc32.Of(l), 0xF4EE_0000);
  }

  lemma XorBack(a: bv32, b: bv32, c: bv32)
    requires Crc32.Xor(a, b) == c
    ensures b == Crc32.Xor(a, c)
  {
  }

  lemma EscapedBigEndian(c: bv32)
    ensures var b, f := BigEndian(c), BigEndian(Crc32.Xor(c, 0xF4EE_0000));
            f[0] == b[0] ^ 0xF4 && f[1] == b[1] ^ 0xEE && f[2] == b[2] && f[3] == b[3]
  {
  }

  lemma EscapedIsPayload(k: Key)
    ensures Payload(EscapedKey(k)) == Escaped(Payload(k))
  {
    hide Crc32.Of, BigEndian;
    EscapedChecksum(k);
    EscapedBigEndian(Crc32.Of(k));
    PayloadParts(k);
    PayloadParts(EscapedKey(k));
  }

  lemma OtherBitStays(x: Byte, c: Byte, s: Byte)
    requires c & s == 0
    ensures x & s == (x ^ c) & s
  {
  }

  lemma EscapedWithin(d: seq<Byte>)
    requires |d| == PAYLOAD_LEN
    ensures Within(d, Escaped(d), 113, 30) && d[14] != Escaped(d)[14]
  {
    var f := Escaped(d);
    OtherBitStays(d[14], 0x61, 0x80);
    OtherBitStays(d[17], 0xEE, 0x01);
    forall i: nat | i < 8 * |d| && !(113 <= i < 143) ensures SameBit(d, f, i) {
      assert i < 112 ==> i / 8 < 14;
      assert i > 143 ==> i / 8 > 17;
    }
    XorChanges(d[14], 0x61);
  }

  lemma XorChanges(x: Byte, c: Byte)
    requires c != 0
    ensures x ^ c != x
  {
  }

  // A payload changed within any thirty neighbouring bits is accepted in exactly one
  // case, and then as another key; every other such change fails the checksum.
  lemma ThirtyBits(key: Key, d: seq<Byte>, p: nat)
    requires |d| == PAYLOAD_LEN && p <= 130 && Within(Payload(key), d, p, 30) && d != Payload(key)
    ensures Verified(d) == if p == 113 && d == Escaped(Payload(key)) then Ok(EscapedKey(key)) else Err(ChecksumMismatch)
  {
    hide Escaped, EscapedKey;
    EscapedIsPayload(key);
    VerifiedExactly(d, EscapedKey(key));
    if Verified(d).Ok? {
      var l := Verified(d).value;
      VerifiedExactly(d, l);
      PayloadBits(key, l, p);
    }
  }

  // It does happen, to every key.
  lemma EveryKeyEscapes(key: Key)
    ensures Within(Payload(key), Escaped(Payload(key)), 113, 30)
    ensures EscapedKey(key) != key && Verified(Escaped(Payload(key))) == Ok(EscapedKey(key))
  {
    EscapedWithin(Payload(key));
    EscapedIsPayload(key);
    VerifiedExactly(Escaped(Payload(key)), EscapedKey(key));
  }

  lemma WiderWindow(d: seq<Byte>, f: seq<Byte>, p: nat, n: nat, q: nat, m: nat)
    requires Within(d, f, p, n) && q <= p && p + n <= q + m
    ensures Within(d, f, q, m)
  {
    forall i: nat | i < 8 * |d| && !(q <= i < q + m) ensures SameBit(d, f, i) {
      assert !(p <= i < p + n);
    }
  }

  // Every change within twenty-nine neighbouring bits is caught.
  lemma BurstCaught(key: Key, d: seq<Byte>, p: nat)
    requires |d| == PAYLOAD_LEN && p <= 131 && Within(Payload(key), d, p, 29) && d != Payload(key)
    ensures Verified(d) == Err(ChecksumMismatch)
  {
    hide Escaped, EscapedKey;
    var q := if p == 113 || p == 131 then p - 1 else p;
    WiderWindow(Payload(key), d, p, 29, q, 30);
    ThirtyBits(key, d, q);
  }

  // --- Neighbouring symbols ------------------------------------------------------------------------------

  // The bit of a symbol with b bits below it.
  function SymbolSingle(b: nat): Symbol {
    match b
    case 0 => 0x01 case 1 => 0x02 case 2 => 0x04 case 3 => 0x08 case _ => 0x10
  }

  // The bits of some symbols, each symbol's highest first.
  predicate SymbolBitAt(s: seq<Symbol>, i: nat)
    requires i < 5 * |s|
  {
    s[i / 5] & SymbolSingle(4 - i % 5) != 0
  }

  ghost predicate SpelledAlike(s: seq<Symbol>, d: seq<Byte>, i: nat) {
    i < 5 * |s| && i < 8 * |d| && SymbolBitAt(s, i) == BitAt(d, i)
  }

  lemma FirstByteBits(s: seq<Symbol>, i: nat)
    requires |s| == 8 && 0 <= i < 8
    ensures SpelledAlike(s, BlockBytes(s), i)
  {
  }

  lemma SecondByteBits(s: seq<Symbol>, i: nat)
    requires |s| == 8 && 8 <= i < 16
    ensures SpelledAlike(s, BlockBytes(s), i)
  {
  }

  lemma ThirdByteBits(s: seq<Symbol>, i: nat)
    requires |s| == 8 && 16 <= i < 24
    ensures SpelledAlike(s, BlockBytes(s), i)
  {
  }

  lemma FourthByteBits(s: seq<Symbol>, i: nat)
    requires |s| == 8 && 24 <= i < 32
    ensures SpelledAlike(s, BlockBytes(s), i)
  {
  }

  lemma FifthByteBits(s: seq<Symbol>, i: nat)
    requires |s| == 8 && 32 <= i < 40
    ensures SpelledAlike(s, BlockBytes(s), i)
  {
  }

  lemma BlockBits(s: seq<Symbol>, i: nat)
    requires |s| == 8 && i < 40
    ensures SpelledAlike(s, ToBytes(s), i)
  {
    hide SpelledAlike, BlockBytes;
    if i < 8 {
      FirstByteBits(s, i);
    } else if i < 16 {
      SecondByteBits(s, i);
    } else if i < 24 {
      ThirdByteBits(s, i);
    } else if i < 32 {
      FourthByteBits(s, i);
    } else {
      FifthByteBits(s, i);
    }
  }

  lemma BlockOf(s: seq<Symbol>, d: seq<Byte>, b: nat)
    requires |s| == 32 && Bytes(s) == Some(d) && b < 4
    ensures |d| == 20 && d[5 * b..5 * b + 5] == ToBytes(s[8 * b..8 * b + 8])
  {
    hide BlockBytes;
    BlocksFit();
    WholeBlocks(s);
    DecodedAt(ToBytes, s, b);
  }

  lemma BitInBlock(s: seq<Symbol>, d: seq<Byte>, b: nat, i: nat)
    requires |s| == 32 && |d| == 20 && b < 4 && i < 40
    ensures SymbolBitAt(s, 40 * b + i) == SymbolBitAt(s[8 * b..8 * b + 8], i)
    ensures BitAt(d, 40 * b + i) == BitAt(d[5 * b..5 * b + 5], i)
  {
    hide Single, SymbolSingle;
    assert (40 * b + i) / 5 == 8 * b + i / 5 && (40 * b + i) % 5 == i % 5;
    assert (40 * b + i) / 8 == 5 * b + i / 8 && (40 * b + i) % 8 == i % 8;
  }

  // Symbols and the bytes they spell have the same bits.
  lemma SymbolBits(s: seq<Symbol>, d: seq<Byte>, i: nat)
    requires |s| == 32 && Bytes(s) == Some(d) && i < 160
    ensures |d| == 20 && SymbolBitAt(s, i) == BitAt(d, i)
  {
    hide Single, SymbolSingle, ToBytes, Bytes;
    BlockOf(s, d, i / 40);
    BlockBits(s[8 * (i / 40)..8 * (i / 40) + 8], i % 40);
    BitInBlock(s, d, i / 40, i % 40);
  }

  // Symbols equal but for n from the a-th on.
  ghost predicate SymbolsWithin(s: seq<Symbol>, t: seq<Symbol>, a: nat, n: nat) {
    |s| == |t| && forall j: nat | j < |s| && !(a <= j < a + n) :: s[j] == t[j]
  }

  // A change of neighbouring symbols is one of neighbouring bits.
  lemma SymbolsToBits(s: seq<Symbol>, t: seq<Symbol>, d: seq<Byte>, f: seq<Byte>, a: nat, n: nat)
    requires |s| == 32 && Bytes(s) == Some(d) && Bytes(t) == Some(f) && SymbolsWithin(s, t, a, n)
    ensures Within(d, f, 5 * a, 5 * n)
  {
    hide Single, SymbolSingle, Bytes;
    SymbolBits(s, d, 0);
    SymbolBits(t, f, 0);
    forall i: nat | i < 8 * |d| && !(5 * a <= i < 5 * a + 5 * n) ensures SameBit(d, f, i) {
      SymbolBits(s, d, i);
      SymbolBits(t, f, i);
      assert s[i / 5] == t[i / 5];
    }
  }

  lemma SameSymbol(x: Symbol, y: Symbol)
    requires forall b: nat | b < 5 :: SymbolHas(x, b) == SymbolHas(y, b)
    ensures x == y
  {
    assert SymbolHas(x, 0) == SymbolHas(y, 0) && SymbolHas(x, 1) == SymbolHas(y, 1);
    assert SymbolHas(x, 2) == SymbolHas(y, 2) && SymbolHas(x, 3) == SymbolHas(y, 3);
    assert SymbolHas(x, 4) == SymbolHas(y, 4);
  }

  predicate SymbolHas(x: Symbol, b: nat) {
    x & SymbolSingle(b) != 0
  }

  lemma BitsToSymbols(s: seq<Symbol>, t: seq<Symbol>, d: seq<Byte>, f: seq<Byte>, p: nat, n: nat, a: nat, m: nat)
    requires |s| == |t| == 32 && Bytes(s) == Some(d) && Bytes(t) == Some(f)
    requires Within(d, f, p, n) && 5 * a <= p && p + n <= 5 * (a + m)
    ensures SymbolsWithin(s, t, a, m)
  {
    hide Single, SymbolSingle, Bytes;
    forall j: nat | j < 32 && !(a <= j < a + m) ensures s[j] == t[j] {
      forall b: nat | b < 5 ensures SymbolHas(s[j], b) == SymbolHas(t[j], b) {
        var i := 5 * j + 4 - b;
        assert i / 5 == j && 4 - i % 5 == b;
        SymbolBits(s, d, i);
        SymbolBits(t, f, i);
        assert SameBit(d, f, i);
      }
      SameSymbol(s[j], t[j]);
    }
  }

  // Any change of up to six neighbouring symbols fails the checksum.
  lemma SixSymbols(key: Key, t: seq<Symbol>, a: nat)
    requires SymbolsWithin(Symbols(Payload(key)), t, a, 6) && a <= 26 && t != Symbols(Payload(key))
    ensures Bytes(t).Some? && Verified(Bytes(t).value) == Err(ChecksumMismatch)
  {
    hide Escaped, EscapedKey, Verified, Within, Payload;
    var s := Symbols(Payload(key));
    BytesOfSymbols(Payload(key));
    SymbolsOfBytes(t);
    SymbolsToBits(s, t, Payload(key), Bytes(t).value, a, 6);
    ThirtyBits(key, Bytes(t).value, 5 * a);
  }

  // Seven neighbouring symbols are one too many: every key has another key whose text
  // differs from its own in the symbols 22 to 28 alone.
  lemma SevenSymbols(key: Key)
    ensures EscapedKey(key) != key
    ensures SymbolsWithin(Symbols(Payload(key)), Symbols(Payload(EscapedKey(key))), 22, 7)
  {
    hide Escaped, EscapedKey, Payload;
    var d, f := Payload(key), Payload(EscapedKey(key));
    EveryKeyEscapes(key);
    EscapedIsPayload(key);
    BytesOfSymbols(d);
    BytesOfSymbols(f);
    BitsToSymbols(Symbols(d), Symbols(f), d, f, 113, 30, 22, 7);
  }

  // --- Neighbouring characters -----------------------------------------------------------------------

  ghost predicate TextWithin(s: string, t: string, a: nat, n: nat) {
    |s| == |t| && forall j: nat | j < |s| && !(a <= j < a + n) :: s[j] == t[j]
  }

  // Mistyping up to six neighbouring characters of the text, in whatever way, swapping
  // two of them included, gives the same key or fails.
  lemma NeighboursMistyped(key: Key, s: string, a: nat)
    requires PREFIX_TAG <= Stripped(s) && a <= 26
    requires TextWithin(KeyText(key), Normalize(Stripped(s)[|PREFIX_TAG|..]), a, 6)
    ensures Parsed(s) == Ok(key) <==> Normalize(Stripped(s)[|PREFIX_TAG|..]) == KeyText(key)
    ensures Parsed(s) != Ok(key) ==> Parsed(s).Err?
  {
    hide ParsedBody, KeyText, Stripped, Normalize, TextWithin;
    var text := Normalize(Stripped(s)[|PREFIX_TAG|..]);
    ParsedExactly(s, key);
    if text != KeyText(key) {
      BodyMistyped(key, text, a);
    }
  }

  lemma BodyMistyped(key: Key, text: string, a: nat)
    requires TextWithin(KeyText(key), text, a, 6) && a <= 26 && text != KeyText(key)
    ensures ParsedBody(text).Err?
  {
    hide Verified, Payload;
    var s := Symbols(Payload(key));
    TextInverts(s);
    if SymbolsOf(text).Some? {
      var t := SymbolsOf(text).value;
      SymbolsInvert(text);
      assert forall j: nat | j < 32 && !(a <= j < a + 6) :: KeyText(key)[j] == text[j];
      SixSymbols(key, t, a);
    }
  }

  // And with seven, every key can be mistyped as another.
  lemma SevenMistyped(key: Key)
    ensures TextWithin(KeyText(key), KeyText(EscapedKey(key)), 22, 7) && EscapedKey(key) != key
    ensures Parsed(Display(EscapedKey(key))) == Ok(EscapedKey(key))
  {
    hide EscapedKey, Payload;
    SevenSymbols(key);
    RoundTrip(EscapedKey(key));
  }
}
