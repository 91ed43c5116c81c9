/** The bits of byte sequences, and what a change of some of them does to the checksum. */
module Changes {
  import opened Iteration
  import opened Crc32
  import opened Syndromes

  // --- Bits ---------------------------------------------------------------------------------

  // The bit of a byte with b bits below it.
  function Single(b: nat): Byte {
    match b
    case 0 => 0x01 case 1 => 0x02 case 2 => 0x04 case 3 => 0x08
    case 4 => 0x10 case 5 => 0x20 case 6 => 0x40 case _ => 0x80
  }

  // The bits of some bytes, the first byte's highest being the first.
  predicate BitAt(d: seq<Byte>, i: nat)
    requires i < 8 * |d|
  {
    d[i / 8] & Single(7 - i % 8) != 0
  }

  ghost predicate SameBit(d: seq<Byte>, f: seq<Byte>, i: nat)
    requires |d| == |f| && i < 8 * |d|
  {
    BitAt(d, i) == BitAt(f, i)
  }

  // Equal but for the n bits from bit p on.
  ghost predicate Within(d: seq<Byte>, f: seq<Byte>, p: nat, n: nat) {
    |d| == |f| && forall i: nat | i < 8 * |d| && !(p <= i < p + n) :: SameBit(d, f, i)
  }

  lemma AllOrNothing(x: Byte, b: nat)
    requires b < 8
    ensures x & Single(b) == 0 || x & Single(b) == Single(b)
  {
  }

  lemma BothOrNeither(x: Byte, y: Byte, s: Byte)
    requires (x & s == 0 || x & s == s) && (y & s == 0 || y & s == s) && (x & s != 0) == (y & s != 0)
    ensures (x ^ y) & s == 0
  {
  }

  // A bit outside the changed ones, as a bit of its byte.
  lemma SameBitOf(d: seq<Byte>, f: seq<Byte>, p: nat, n: nat, r: nat, b: nat)
    requires Within(d, f, p, n) && r < |d| && b < 8 && !(p <= 8 * r + 7 - b < p + n)
    ensures (d[r] ^ f[r]) & Single(b) == 0
  {
    var i := 8 * r + 7 - b;
    assert SameBit(d, f, i);
    assert i / 8 == r && 7 - i % 8 == b;
    AllOrNothing(d[r], b);
    AllOrNothing(f[r], b);
    BothOrNeither(d[r], f[r], Single(b));
  }

  lemma NoBits(x: Byte)
    requires x & Single(0) == 0 && x & Single(1) == 0 && x & Single(2) == 0 && x & Single(3) == 0
    requires x & Single(4) == 0 && x & Single(5) == 0 && x & Single(6) == 0 && x & Single(7) == 0
    ensures x == 0
  {
  }

  lemma XorZero(x: Byte, y: Byte)
    requires x ^ y == 0
    ensures x == y
  {
  }

  // A byte outside the changed bits is the same.
  lemma ByteOutside(d: seq<Byte>, f: seq<Byte>, p: nat, n: nat, r: nat)
    requires Within(d, f, p, n) && r < |d| && (8 * r + 8 <= p || 8 * r >= p + n)
    ensures d[r] == f[r]
  {
    SameBitOf(d, f, p, n, r, 0);
    SameBitOf(d, f, p, n, r, 1);
    SameBitOf(d, f, p, n, r, 2);
    SameBitOf(d, f, p, n, r, 3);
    SameBitOf(d, f, p, n, r, 4);
    SameBitOf(d, f, p, n, r, 5);
    SameBitOf(d, f, p, n, r, 6);
    SameBitOf(d, f, p, n, r, 7);
    NoBits(d[r] ^ f[r]);
    XorZero(d[r], f[r]);
  }

  // The n lowest bits of a byte.
  function Below(n: nat): Byte {
    match n
    case 0 => 0x00 case 1 => 0x01 case 2 => 0x03 case 3 => 0x07 case 4 => 0x0F
    case 5 => 0x1F case 6 => 0x3F case 7 => 0x7F case _ => 0xFF
  }

  lemma OnlyBelow(x: Byte, n: nat)
    requires n <= 8
    requires (n <= 7 ==> x & Single(7) == 0) && (n <= 6 ==> x & Single(6) == 0) && (n <= 5 ==> x & Single(5) == 0)
    requires (n <= 4 ==> x & Single(4) == 0) && (n <= 3 ==> x & Single(3) == 0) && (n <= 2 ==> x & Single(2) == 0)
    requires (n <= 1 ==> x & Single(1) == 0) && (n == 0 ==> x & Single(0) == 0)
    ensures x & Below(n) == x
  {
  }

  lemma NothingBelow(x: Byte, n: nat)
    requires n <= 8
    requires (n > 7 ==> x & Single(7) == 0) && (n > 6 ==> x & Single(6) == 0) && (n > 5 ==> x & Single(5) == 0)
    requires (n > 4 ==> x & Single(4) == 0) && (n > 3 ==> x & Single(3) == 0) && (n > 2 ==> x & Single(2) == 0)
    requires (n > 1 ==> x & Single(1) == 0) && (n > 0 ==> x & Single(0) == 0)
    ensures x & Below(n) == 0
  {
  }

  // Two bytes that differ in the n lowest bits alone, or in none of them.
  ghost predicate FitsBelow(x: Byte, y: Byte, n: nat) {
    (x ^ y) & Below(n) == x ^ y
  }

  ghost predicate ClearBelow(x: Byte, y: Byte, n: nat) {
    (x ^ y) & Below(n) == 0
  }

  // The byte in which the changed bits begin.
  lemma FirstByte(d: seq<Byte>, f: seq<Byte>, p: nat, n: nat, r: nat)
    requires Within(d, f, p, n) && r < |d| && 8 * r <= p <= 8 * r + 8
    ensures FitsBelow(d[r], f[r], 8 * r + 8 - p)
  {
    var k := 8 * r + 8 - p;
    if k <= 7 { SameBitOf(d, f, p, n, r, 7); }
    if k <= 6 { SameBitOf(d, f, p, n, r, 6); }
    if k <= 5 { SameBitOf(d, f, p, n, r, 5); }
    if k <= 4 { SameBitOf(d, f, p, n, r, 4); }
    if k <= 3 { SameBitOf(d, f, p, n, r, 3); }
    if k <= 2 { SameBitOf(d, f, p, n, r, 2); }
    if k <= 1 { SameBitOf(d, f, p, n, r, 1); }
    if k == 0 { SameBitOf(d, f, p, n, r, 0); }
    OnlyBelow(d[r] ^ f[r], k);
  }

  // The byte in which they end.
  lemma LastByte(d: seq<Byte>, f: seq<Byte>, p: nat, n: nat, r: nat)
    requires Within(d, f, p, n) && r < |d| && 8 * r <= p + n <= 8 * r + 8
    ensures ClearBelow(d[r], f[r], 8 * r + 8 - p - n)
  {
    var k := 8 * r + 8 - p - n;
    if k > 7 { SameBitOf(d, f, p, n, r, 7); }
    if k > 6 { SameBitOf(d, f, p, n, r, 6); }
    if k > 5 { SameBitOf(d, f, p, n, r, 5); }
    if k > 4 { SameBitOf(d, f, p, n, r, 4); }
    if k > 3 { SameBitOf(d, f, p, n, r, 3); }
    if k > 2 { SameBitOf(d, f, p, n, r, 2); }
    if k > 1 { SameBitOf(d, f, p, n, r, 1); }
    if k > 0 { SameBitOf(d, f, p, n, r, 0); }
    NothingBelow(d[r] ^ f[r], k);
  }

  // --- Words of four bytes --------------------------------------------------------------------

  // The word of four bytes, the first byte lowest.
  function Word(d0: Byte, d1: Byte, d2: Byte, d3: Byte): bv32 {
    XorBytes(0, d0, d1, d2, d3)
  }

  ghost predicate InLast(w: bv32, t: nat) {
    w & Last(t) == w
  }

  ghost predicate IsClean(w: bv32, t: nat) {
    w & Low(t) == 0
  }

  lemma WordFromFirst(d0: Byte, d1: Byte, d2: Byte, d3: Byte, b: nat, t: nat)
    requires b <= 8 && t == 24 + b && d0 & Below(b) == d0
    ensures Word(d0, d1, d2, d3) & Last(t) == Word(d0, d1, d2, d3)
  {
  }

  lemma WordFromSecond(d0: Byte, d1: Byte, d2: Byte, d3: Byte, b: nat, t: nat)
    requires b <= 8 && t == 16 + b && d0 == 0 && d1 & Below(b) == d1
    ensures Word(d0, d1, d2, d3) & Last(t) == Word(d0, d1, d2, d3)
  {
  }

  lemma WordFromThird(d0: Byte, d1: Byte, d2: Byte, d3: Byte, b: nat, t: nat)
    requires b <= 8 && t == 8 + b && d0 == 0 && d1 == 0 && d2 & Below(b) == d2
    ensures Word(d0, d1, d2, d3) & Last(t) == Word(d0, d1, d2, d3)
  {
  }

  lemma WordFromFourth(d0: Byte, d1: Byte, d2: Byte, d3: Byte, b: nat, t: nat)
    requires b <= 8 && t == b && d0 == 0 && d1 == 0 && d2 == 0 && d3 & Below(b) == d3
    ensures Word(d0, d1, d2, d3) & Last(t) == Word(d0, d1, d2, d3)
  {
  }

  lemma CleanToFourth(d0: Byte, d1: Byte, d2: Byte, d3: Byte, b: nat, t: nat)
    requires b <= 8 && t == b && d3 & Below(b) == 0
    ensures Word(d3, d2, d1, d0) & Low(t) == 0
  {
  }

  lemma CleanToThird(d0: Byte, d1: Byte, d2: Byte, d3: Byte, b: nat, t: nat)
    requires b <= 8 && t == 8 + b && d3 == 0 && d2 & Below(b) == 0
    ensures Word(d3, d2, d1, d0) & Low(t) == 0
  {
  }

  lemma CleanToSecond(d0: Byte, d1: Byte, d2: Byte, d3: Byte, b: nat, t: nat)
    requires b <= 8 && t == 16 + b && d3 == 0 && d2 == 0 && d1 & Below(b) == 0
    ensures Word(d3, d2, d1, d0) & Low(t) == 0
  {
  }

  lemma CleanToFirst(d0: Byte, d1: Byte, d2: Byte, d3: Byte, b: nat, t: nat)
    requires b <= 8 && t == 24 + b && d3 == 0 && d2 == 0 && d1 == 0 && d0 & Below(b) == 0
    ensures Word(d3, d2, d1, d0) & Low(t) == 0
  {
  }

  // --- What changed bytes do to the checksum -------------------------------------------------------

  // The word of the differences of four bytes.
  function Difference(x: seq<Byte>, y: seq<Byte>): bv32
    requires |x| == |y| == 4
  {
    DifferenceOf(x[0], x[1], x[2], x[3], y[0], y[1], y[2], y[3])
  }

  function DifferenceOf(x0: Byte, x1: Byte, x2: Byte, x3: Byte, y0: Byte, y1: Byte, y2: Byte, y3: Byte): bv32 {
    Word(x0 ^ y0, x1 ^ y1, x2 ^ y2, x3 ^ y3)
  }

  lemma WordsDiffer(c: bv32, x0: bv32, x1: bv32, x2: bv32, x3: bv32, y0: bv32, y1: bv32, y2: bv32, y3: bv32)
    ensures ((((c ^ x0) ^ x1) ^ x2) ^ x3) ^ ((((c ^ y0) ^ y1) ^ y2) ^ y3)
         == ((((0 ^ (x0 ^ y0)) ^ (x1 ^ y1)) ^ (x2 ^ y2)) ^ (x3 ^ y3))
  {
  }

  lemma UpDiffers(x: Byte, y: Byte)
    ensures (x as bv32) ^ (y as bv32) == (x ^ y) as bv32
    ensures ((x as bv32) << 8) ^ ((y as bv32) << 8) == ((x ^ y) as bv32) << 8
    ensures ((x as bv32) << 16) ^ ((y as bv32) << 16) == ((x ^ y) as bv32) << 16
    ensures ((x as bv32) << 24) ^ ((y as bv32) << 24) == ((x ^ y) as bv32) << 24
  {
  }

  lemma XorBytesDiffer(c: bv32, x0: Byte, x1: Byte, x2: Byte, x3: Byte, y0: Byte, y1: Byte, y2: Byte, y3: Byte)
    ensures Xor(XorBytes(c, x0, x1, x2, x3), XorBytes(c, y0, y1, y2, y3)) ==
              DifferenceOf(x0, x1, x2, x3, y0, y1, y2, y3)
  {
    UpDiffers(x0, y0);
    UpDiffers(x1, y1);
    UpDiffers(x2, y2);
    UpDiffers(x3, y3);
    WordsDiffer(c, x0 as bv32, (x1 as bv32) << 8, (x2 as bv32) << 16, (x3 as bv32) << 24,
                y0 as bv32, (y1 as bv32) << 8, (y2 as bv32) << 16, (y3 as bv32) << 24);
  }

  lemma FourDiffer(c: bv32, x: seq<Byte>, y: seq<Byte>)
    requires |x| == |y| == 4
    ensures Xor(Four(XorBytes, c, x), Four(XorBytes, c, y)) == Difference(x, y)
  {
    hide XorBytes, DifferenceOf, Xor;
    XorBytesDiffer(c, x[0], x[1], x[2], x[3], y[0], y[1], y[2], y[3]);
  }

  lemma ShiftsDiffer(p: bv32, q: bv32, a: bv32, b: bv32, d: bv32)
    requires p == Shifts(a, 32) && q == Shifts(b, 32) && Xor(a, b) == d
    ensures Xor(p, q) == Shifts(d, 32)
  {
    ShiftsXor(a, b, 32);
  }

  lemma FourBytes(c: bv32, x: seq<Byte>, y: seq<Byte>)
    requires |x| == |y| == 4
    ensures Xor(FeedAll(c, x), FeedAll(c, y)) == Shifts(Difference(x, y), 32)
  {
    hide XorBytes, Difference, Xor;
    FeedWord(c, x);
    FeedWord(c, y);
    FourDiffer(c, x, y);
    ShiftsDiffer(FeedAll(c, x), FeedAll(c, y), Four(XorBytes, c, x), Four(XorBytes, c, y), Difference(x, y));
  }

  lemma XorTwice(a: bv32, b: bv32, k: bv32)
    ensures Xor(a ^ k, b ^ k) == Xor(a, b)
  {
  }

  // Four last bytes changed: the checksum changes by the syndrome of the change.
  lemma LastFourBytes(a: seq<Byte>, x: seq<Byte>, y: seq<Byte>)
    requires |x| == |y| == 4
    ensures Xor(Of(a + x), Of(a + y)) == Shifts(Difference(x, y), 32)
  {
    FoldConcat(Feed, INIT, a, x);
    FoldConcat(Feed, INIT, a, y);
    FourBytes(FeedAll(INIT, a), x, y);
    XorTwice(FeedAll(INIT, a + x), FeedAll(INIT, a + y), 0xFFFF_FFFF);
  }

  lemma XorMoved(a: bv32, b: bv32, x: bv32, y: bv32)
    requires Xor(a, x) == Xor(b, y)
    ensures Xor(a, b) == x ^ y
  {
  }

  lemma SameRegister(p: bv32, u: Byte, q: bv32, v: Byte)
    requires Feed(p, u) == Feed(q, v)
    ensures Xor(p, q) == (u ^ v) as bv32
  {
    ShiftInjective();
    IterInjective(Shift, Xor(p, u as bv32), Xor(q, v as bv32), 8);
    XorMoved(p, q, u as bv32, v as bv32);
    UpDiffers(u, v);
  }

  lemma FedAlike(a: seq<Byte>, b: seq<Byte>, rest: seq<Byte>)
    requires Of(a + rest) == Of(b + rest)
    ensures FeedAll(INIT, a) == FeedAll(INIT, b)
  {
    XorCancel(FeedAll(INIT, a + rest), FeedAll(INIT, b + rest), 0xFFFF_FFFF);
    FoldConcat(Feed, INIT, a, rest);
    FoldConcat(Feed, INIT, b, rest);
    FeedInjective();
    FoldInjective(Feed, FeedAll(INIT, a), FeedAll(INIT, b), rest);
  }

  lemma FedInTurn(a: seq<Byte>, x: seq<Byte>, u: Byte)
    ensures FeedAll(INIT, a + x + [u]) == Feed(FeedAll(FeedAll(INIT, a), x), u)
  {
    FoldLast(Feed, INIT, a + x, u);
    FoldConcat(Feed, INIT, a, x);
  }

  // Five bytes changed anywhere without changing the checksum: the syndrome of the first
  // four is the change of the fifth.
  lemma FiveBytes(a: seq<Byte>, x: seq<Byte>, u: Byte, y: seq<Byte>, v: Byte, b: seq<Byte>)
    requires |x| == |y| == 4 && Of((a + x + [u]) + b) == Of((a + y + [v]) + b)
    ensures Shifts(Difference(x, y), 32) == (u ^ v) as bv32
  {
    var c := FeedAll(INIT, a);
    FedAlike(a + x + [u], a + y + [v], b);
    FedInTurn(a, x, u);
    FedInTurn(a, y, v);
    SameRegister(FeedAll(c, x), u, FeedAll(c, y), v);
    FourBytes(c, x, y);
  }

  lemma ZeroWord(d0: Byte, d1: Byte, d2: Byte, d3: Byte)
    requires Word(d0, d1, d2, d3) == 0
    ensures d0 == 0 && d1 == 0 && d2 == 0 && d3 == 0
  {
    WordReads(d0, d1, d2, d3);
  }

  lemma WordReads(d0: Byte, d1: Byte, d2: Byte, d3: Byte)
    ensures var w := Word(d0, d1, d2, d3);
            && d0 == (w & 0xFF) as Byte && d1 == ((w >> 8) & 0xFF) as Byte
            && d2 == ((w >> 16) & 0xFF) as Byte && d3 == ((w >> 24) & 0xFF) as Byte
  {
  }

  lemma SameFour(x0: Byte, x1: Byte, x2: Byte, x3: Byte, y0: Byte, y1: Byte, y2: Byte, y3: Byte)
    requires DifferenceOf(x0, x1, x2, x3, y0, y1, y2, y3) == 0
    ensures x0 == y0 && x1 == y1 && x2 == y2 && x3 == y3
  {
    ZeroWord(x0 ^ y0, x1 ^ y1, x2 ^ y2, x3 ^ y3);
    XorZero(x0, y0);
    XorZero(x1, y1);
    XorZero(x2, y2);
    XorZero(x3, y3);
  }

  lemma SameElements<T>(x: seq<T>, y: seq<T>)
    requires |x| == |y| == 4 && x[0] == y[0] && x[1] == y[1] && x[2] == y[2] && x[3] == y[3]
    ensures x == y
  {
  }

  lemma NoDifference(x: seq<Byte>, y: seq<Byte>)
    requires |x| == |y| == 4 && Difference(x, y) == 0
    ensures x == y
  {
    hide DifferenceOf;
    SameFour(x[0], x[1], x[2], x[3], y[0], y[1], y[2], y[3]);
    SameElements(x, y);
  }

  lemma XorSame(x: Byte, y: Byte)
    requires x == y
    ensures x ^ y == 0
  {
  }

  lemma BytesFromFirst(x0: Byte, x1: Byte, x2: Byte, x3: Byte, y0: Byte, y1: Byte, y2: Byte, y3: Byte,
                  b: nat, t: nat)
    requires b <= 8 && t == 24 + b && FitsBelow(x0, y0, b)
    ensures InLast(DifferenceOf(x0, x1, x2, x3, y0, y1, y2, y3), t)
  {
    hide Last, Below, Word;
    WordFromFirst(x0 ^ y0, x1 ^ y1, x2 ^ y2, x3 ^ y3, b, t);
  }

  lemma TailFromFirst(x: seq<Byte>, y: seq<Byte>, b: nat, t: nat)
    requires |x| == |y| == 4 && b <= 8 && t == 24 + b && FitsBelow(x[0], y[0], b)
    ensures InLast(Difference(x, y), t)
  {
    hide DifferenceOf, InLast, FitsBelow;
    BytesFromFirst(x[0], x[1], x[2], x[3], y[0], y[1], y[2], y[3], b, t);
  }

  lemma BytesFromSecond(x0: Byte, x1: Byte, x2: Byte, x3: Byte, y0: Byte, y1: Byte, y2: Byte, y3: Byte,
                  b: nat, t: nat)
    requires b <= 8 && t == 16 + b && FitsBelow(x1, y1, b) && x0 == y0
    ensures InLast(DifferenceOf(x0, x1, x2, x3, y0, y1, y2, y3), t)
  {
    hide Last, Below, Word;
    XorSame(x0, y0);
    WordFromSecond(x0 ^ y0, x1 ^ y1, x2 ^ y2, x3 ^ y3, b, t);
  }

  lemma TailFromSecond(x: seq<Byte>, y: seq<Byte>, b: nat, t: nat)
    requires |x| == |y| == 4 && b <= 8 && t == 16 + b && FitsBelow(x[1], y[1], b) && x[0] == y[0]
    ensures InLast(Difference(x, y), t)
  {
    hide DifferenceOf, InLast, FitsBelow;
    BytesFromSecond(x[0], x[1], x[2], x[3], y[0], y[1], y[2], y[3], b, t);
  }

  lemma BytesFromThird(x0: Byte, x1: Byte, x2: Byte, x3: Byte, y0: Byte, y1: Byte, y2: Byte, y3: Byte,
                  b: nat, t: nat)
    requires b <= 8 && t == 8 + b && FitsBelow(x2, y2, b) && x0 == y0 && x1 == y1
    ensures InLast(DifferenceOf(x0, x1, x2, x3, y0, y1, y2, y3), t)
  {
    hide Last, Below, Word;
    XorSame(x0, y0);
    XorSame(x1, y1);
    WordFromThird(x0 ^ y0, x1 ^ y1, x2 ^ y2, x3 ^ y3, b, t);
  }

  lemma TailFromThird(x: seq<Byte>, y: seq<Byte>, b: nat, t: nat)
    requires |x| == |y| == 4 && b <= 8 && t == 8 + b && FitsBelow(x[2], y[2], b) && x[0] == y[0] && x[1] == y[1]
    ensures InLast(Difference(x, y), t)
  {
    hide DifferenceOf, InLast, FitsBelow;
    BytesFromThird(x[0], x[1], x[2], x[3], y[0], y[1], y[2], y[3], b, t);
  }

  lemma BytesFromFourth(x0: Byte, x1: Byte, x2: Byte, x3: Byte, y0: Byte, y1: Byte, y2: Byte, y3: Byte,
                  b: nat, t: nat)
    requires b <= 8 && t == b && FitsBelow(x3, y3, b) && x0 == y0 && x1 == y1 && x2 == y2
    ensures InLast(DifferenceOf(x0, x1, x2, x3, y0, y1, y2, y3), t)
  {
    hide Last, Below, Word;
    XorSame(x0, y0);
    XorSame(x1, y1);
    XorSame(x2, y2);
    WordFromFourth(x0 ^ y0, x1 ^ y1, x2 ^ y2, x3 ^ y3, b, t);
  }

  lemma TailFromFourth(x: seq<Byte>, y: seq<Byte>, b: nat, t: nat)
    requires |x| == |y| == 4 && b <= 8 && t == b && FitsBelow(x[3], y[3], b)
    requires x[0] == y[0] && x[1] == y[1] && x[2] == y[2]
    ensures InLast(Difference(x, y), t)
  {
    hide DifferenceOf, InLast, FitsBelow;
    BytesFromFourth(x[0], x[1], x[2], x[3], y[0], y[1], y[2], y[3], b, t);
  }
}
