/** Iterating a function and folding one over a sequence, on any type. */
module Iteration {

  function Iter<T>(f: T -> T, c: T, n: nat): T {
    if n == 0 then c else f(Iter(f, c, n - 1))
  }

  function Fold<R, B>(f: (R, B) -> R, r: R, data: seq<B>): R {
    if data == [] then r else f(Fold(f, r, data[..|data| - 1]), data[|data| - 1])
  }

  ghost predicate Additive<T(!new)>(f: T -> T, add: (T, T) -> T) {
    forall a, b :: f(add(a, b)) == add(f(a), f(b))
  }

  ghost predicate Injective<T(!new)>(f: T -> T) {
    forall a, b :: f(a) == f(b) ==> a == b
  }

  ghost predicate RegisterInjective<R(!new), B(!new)>(f: (R, B) -> R) {
    forall p, q, b :: f(p, b) == f(q, b) ==> p == q
  }

  lemma {:induction false} IterAdditive<T(!new)>(f: T -> T, add: (T, T) -> T, a: T, b: T, n: nat)
    requires Additive(f, add)
    ensures Iter(f, add(a, b), n) == add(Iter(f, a, n), Iter(f, b, n))
  {
    if n > 0 {
      IterAdditive(f, add, a, b, n - 1);
    }
  }

  lemma {:induction false} IterInjective<T(!new)>(f: T -> T, a: T, b: T, n: nat)
    requires Injective(f) && Iter(f, a, n) == Iter(f, b, n)
    ensures a == b
  {
    if n > 0 {
      IterInjective(f, a, b, n - 1);
    }
  }

  lemma {:induction false} IterSum<T>(f: T -> T, c: T, m: nat, n: nat)
    ensures Iter(f, c, m + n) == Iter(f, Iter(f, c, m), n)
  {
    if n > 0 {
      IterSum(f, c, m, n - 1);
    }
  }

  // Thirty-two turns, four at a time.
  lemma IterByFours<T(!new)>(f: T -> T, four: T -> T, c: T)
    requires forall x :: four(x) == f(f(f(f(x))))
    ensures Iter(f, c, 32) == four(four(four(four(four(four(four(four(c))))))))
  {
    FourMore(f, c, 28);
    FourMore(f, c, 24);
    FourMore(f, c, 20);
    FourMore(f, c, 16);
    FourMore(f, c, 12);
    FourMore(f, c, 8);
    FourMore(f, c, 4);
    FourMore(f, c, 0);
  }

  lemma FourMore<T>(f: T -> T, c: T, n: nat)
    ensures Iter(f, c, n + 4) == f(f(f(f(Iter(f, c, n)))))
  {
    assert Iter(f, c, n + 2) == f(f(Iter(f, c, n)));
  }

  lemma {:induction false} IterUndone<T(!new)>(f: T -> T, g: T -> T, c: T, n: nat)
    requires forall x :: g(f(x)) == x
    ensures Iter(g, Iter(f, c, n), n) == c
  {
    if n > 0 {
      IterSum(g, Iter(f, c, n), 1, n - 1);
      assert Iter(g, Iter(f, c, n), 1) == g(Iter(g, Iter(f, c, n), 0));
      IterUndone(f, g, c, n - 1);
    }
  }

  lemma {:induction false} FoldConcat<R, B>(f: (R, B) -> R, r: R, a: seq<B>, b: seq<B>)
    ensures Fold(f, r, a + b) == Fold(f, Fold(f, r, a), b)
  {
    if b == [] {
      assert a + b == a;
    } else {
      var n := |b| - 1;
      assert (a + b)[..|a + b| - 1] == a + b[..n];
      FoldConcat(f, r, a, b[..n]);
    }
  }

  lemma {:induction false} FoldInjective<R(!new), B(!new)>(f: (R, B) -> R, p: R, q: R, data: seq<B>)
    requires RegisterInjective(f) && Fold(f, p, data) == Fold(f, q, data)
    ensures p == q
  {
    if data != [] {
      FoldInjective(f, p, q, data[..|data| - 1]);
    }
  }

  lemma FoldLast<R, B>(f: (R, B) -> R, r: R, a: seq<B>, x: B)
    ensures Fold(f, r, a + [x]) == f(Fold(f, r, a), x)
  {
    assert (a + [x])[..|a|] == a;
  }

  // A function of four more arguments, taken from a sequence.
  function Four<R, B>(f: (R, B, B, B, B) -> R, r: R, x: seq<B>): R
    requires |x| == 4
  {
    f(r, x[0], x[1], x[2], x[3])
  }

  lemma FourInjective<R, B(!new)>(f: (R, B, B, B, B) -> R, read: (R, R) -> (B, B, B, B), r: R, x: seq<B>, y: seq<B>)
    requires |x| == |y| == 4
    requires forall b0, b1, b2, b3 :: read(f(r, b0, b1, b2, b3), r) == (b0, b1, b2, b3)
    requires Four(f, r, x) == Four(f, r, y)
    ensures x == y
  {
    assert read(f(r, x[0], x[1], x[2], x[3]), r) == read(f(r, y[0], y[1], y[2], y[3]), r);
  }

  lemma FoldThree<R, B>(f: (R, B) -> R, r: R, b1: B, b2: B, b3: B)
    ensures Fold(f, r, [b1, b2, b3]) == f(f(f(r, b1), b2), b3)
  {
    assert [b1, b2, b3] == [b1, b2] + [b3] && [b1, b2] == [b1] + [b2] && [b1] == [] + [b1];
    FoldLast(f, r, [], b1);
    FoldLast(f, r, [b1], b2);
    FoldLast(f, r, [b1, b2], b3);
  }

  lemma FoldFour<R, B>(f: (R, B) -> R, r: R, x: seq<B>)
    requires |x| == 4
    ensures Fold(f, r, x) == f(f(f(f(r, x[0]), x[1]), x[2]), x[3])
  {
    assert x[..3][..2] == x[..2] && x[..2][..1] == x[..1];
    assert Fold(f, r, x[..1]) == f(r, x[0]) by {
      assert x[..1][..0] == [];
    }
    assert Fold(f, r, x[..2]) == f(Fold(f, r, x[..1]), x[1]);
    assert Fold(f, r, x[..3]) == f(Fold(f, r, x[..2]), x[2]);
  }
}

/**
 The reflected CRC-32 of `secretkey.rs`: the nested loops, the register they
 compute, and why a change confined to four consecutive bytes always shows.
 */
module Crc32 {
  import opened Iteration

  type Byte = bv8

  const POLY: bv32 := 0xEDB8_8320
  const INIT: bv32 := 0xFFFF_FFFF

  // One turn of the inner loop.
  function Shift(c: bv32): bv32 {
    if c & 1 != 0 then (c >> 1) ^ POLY else c >> 1
  }

  function Shifts(c: bv32, n: nat): bv32 {
    Iter(Shift, c, n)
  }

  function Xor(a: bv32, b: bv32): bv32 {
    a ^ b
  }

  // One turn of the outer loop.
  function Feed(c: bv32, b: Byte): bv32 {
    Shifts(Xor(c, b as bv32), 8)
  }

  function FeedAll(c: bv32, data: seq<Byte>): bv32 {
    Fold(Feed, c, data)
  }

  function Of(data: seq<Byte>): bv32 {
    FeedAll(INIT, data) ^ 0xFFFF_FFFF
  }

  method Compute(data: seq<Byte>) returns (crc: bv32)
    ensures crc == Of(data)
  {
    crc := INIT;
    for i := 0 to |data|
      invariant crc == FeedAll(INIT, data[..i])
    {
      assert data[..i + 1][..i] == data[..i];
      crc := Absorb(crc, data[i]);
    }
    assert data[..|data|] == data;
    crc := crc ^ 0xFFFF_FFFF;
  }

  method Absorb(register: bv32, byte: Byte) returns (crc: bv32)
    ensures crc == Feed(register, byte)
  {
    crc := register ^ (byte as bv32);
    ghost var start := crc;
    for j := 0 to 8
      invariant crc == Shifts(start, j)
    {
      crc := if crc & 1 != 0 then (crc >> 1) ^ POLY else crc >> 1;
    }
  }

  // --- The register as a linear, invertible map ------------------------------

  lemma ShiftOddOdd(a: bv32, b: bv32)
    requires a & 1 != 0 && b & 1 != 0
    ensures Shift(a ^ b) == Shift(a) ^ Shift(b)
  {
  }

  lemma ShiftOddEven(a: bv32, b: bv32)
    requires a & 1 != 0 && b & 1 == 0
    ensures Shift(a ^ b) == Shift(a) ^ Shift(b)
  {
  }

  lemma ShiftEvenEven(a: bv32, b: bv32)
    requires a & 1 == 0 && b & 1 == 0
    ensures Shift(a ^ b) == Shift(a) ^ Shift(b)
  {
  }

  lemma ShiftAdditive()
    ensures Additive(Shift, Xor)
  {
    forall a, b ensures Shift(Xor(a, b)) == Xor(Shift(a), Shift(b)) {
      if a & 1 != 0 {
        if b & 1 != 0 { ShiftOddOdd(a, b); } else { ShiftOddEven(a, b); }
      } else {
        if b & 1 != 0 {
          ShiftOddEven(b, a);
          XorCommutes(a, b);
          XorCommutes(Shift(a), Shift(b));
        } else {
          ShiftEvenEven(a, b);
        }
      }
    }
  }

  lemma XorCommutes(a: bv32, b: bv32)
    ensures a ^ b == b ^ a
  {
  }

  lemma XorCancel(a: bv32, b: bv32, c: bv32)
    ensures a ^ c == b ^ c ==> a == b
    ensures c ^ a == c ^ b ==> a == b
  {
  }

  lemma ShiftOneToOne(a: bv32, b: bv32)
    requires Shift(a) == Shift(b)
    ensures a == b
  {
  }

  lemma ShiftInjective()
    ensures Injective(Shift)
  {
    forall a, b | Shift(a) == Shift(b) ensures a == b {
      ShiftOneToOne(a, b);
    }
  }

  lemma ShiftsXor(a: bv32, b: bv32, n: nat)
    ensures Shifts(Xor(a, b), n) == Xor(Shifts(a, n), Shifts(b, n))
  {
    ShiftAdditive();
    IterAdditive(Shift, Xor, a, b, n);
  }

  lemma FeedInjective()
    ensures RegisterInjective(Feed)
  {
    forall p, q, b | Feed(p, b) == Feed(q, b) ensures p == q {
      ShiftInjective();
      IterInjective(Shift, p ^ (b as bv32), q ^ (b as bv32), 8);
      XorCancel(p, q, b as bv32);
    }
  }

  // --- Bursts ------------------------------------------------------------------

  // A shift of an even register only moves it down.
  lemma ShiftEven(c: bv32)
    requires c & 1 == 0
    ensures Shift(c) == c >> 1
  {
  }

  // The low n bits being clean, n shifts only move the register down.
  lemma ShiftsClean(c: bv32)
    requires c & 0xFF == 0
    ensures Shifts(c, 8) == c >> 8
  {
    Chain(c);
    ShiftEven(c);
    ShiftEven(c >> 1);
    ShiftEven(c >> 2);
    ShiftEven(c >> 3);
    ShiftEven(c >> 4);
    ShiftEven(c >> 5);
    ShiftEven(c >> 6);
    ShiftEven(c >> 7);
  }

  lemma Chain(c: bv32)
    ensures Shifts(c, 8) == Shift(Shift(Shift(Shift(Shift(Shift(Shift(Shift(c))))))))
  {
    IterFour(Shift, c);
    IterFour(Shift, Iter(Shift, c, 4));
    IterSum(Shift, c, 4, 4);
  }

  lemma IterFour<T>(f: T -> T, c: T)
    ensures Iter(f, c, 4) == f(f(f(f(c))))
  {
    assert Iter(f, c, 2) == f(f(c));
  }

  // A byte placed one, two or three bytes above the bottom of the register.
  function Up1(b: Byte): bv32 { (b as bv32) << 8 }

  function Up2(b: Byte): bv32 { (b as bv32) << 16 }

  function Up3(b: Byte): bv32 { (b as bv32) << 24 }

  lemma UpDown(b: Byte)
    ensures Up1(b) & 0xFF == 0 && Up1(b) >> 8 == b as bv32
    ensures Up2(b) & 0xFF == 0 && Up2(b) >> 8 == Up1(b)
    ensures Up3(b) & 0xFF == 0 && Up3(b) >> 8 == Up2(b)
  {
  }

  lemma Up1Shifts(b: Byte)
    ensures Shifts(Up1(b), 8) == b as bv32
  {
    UpDown(b);
    ShiftsClean(Up1(b));
  }

  lemma Up2Shifts(b: Byte)
    ensures Shifts(Up2(b), 16) == b as bv32
  {
    UpDown(b);
    ShiftsClean(Up2(b));
    IterSum(Shift, Up2(b), 8, 8);
    Up1Shifts(b);
  }

  lemma Up3Shifts(b: Byte)
    ensures Shifts(Up3(b), 24) == b as bv32
  {
    UpDown(b);
    ShiftsClean(Up3(b));
    IterSum(Shift, Up3(b), 8, 16);
    Up2Shifts(b);
  }

  // A byte fed after n shifts is the same byte placed n bits higher before them.
  lemma FeedDeferred(r: bv32, b: Byte, h: bv32, n: nat)
    requires Shifts(h, n) == b as bv32
    ensures Feed(Shifts(r, n), b) == Shifts(Xor(r, h), n + 8)
  {
    ShiftsXor(r, h, n);
    IterSum(Shift, Xor(r, h), n, 8);
  }

  // The little-endian word of four bytes, added to a register.
  function XorBytes(c: bv32, b0: Byte, b1: Byte, b2: Byte, b3: Byte): bv32 {
    (((c ^ (b0 as bv32)) ^ ((b1 as bv32) << 8)) ^ ((b2 as bv32) << 16)) ^ ((b3 as bv32) << 24)
  }

  // Feeding four bytes is adding their word and shifting 32 times.
  lemma FeedWord(c: bv32, x: seq<Byte>)
    requires |x| == 4
    ensures FeedAll(c, x) == Shifts(Four(XorBytes, c, x), 32)
  {
    FoldFour(Feed, c, x);
    FeedThree(Xor(c, x[0] as bv32), x[1], x[2], x[3]);
  }

  lemma FeedThree(r: bv32, b1: Byte, b2: Byte, b3: Byte)
    ensures Feed(Feed(Feed(Shifts(r, 8), b1), b2), b3)
         == Shifts(Xor(Xor(Xor(r, Up1(b1)), Up2(b2)), Up3(b3)), 32)
  {
    Up1Shifts(b1);
    FeedDeferred(r, b1, Up1(b1), 8);
    Up2Shifts(b2);
    FeedDeferred(Xor(r, Up1(b1)), b2, Up2(b2), 16);
    Up3Shifts(b3);
    FeedDeferred(Xor(Xor(r, Up1(b1)), Up2(b2)), b3, Up3(b3), 24);
  }

  // Reads the four bytes back, given the register they were added to.
  function ReadBytes(w: bv32, c: bv32): (Byte, Byte, Byte, Byte) {
    var d := w ^ c;
    ((d & 0xFF) as Byte, ((d >> 8) & 0xFF) as Byte, ((d >> 16) & 0xFF) as Byte, ((d >> 24) & 0xFF) as Byte)
  }

  lemma ReadXorBytes(c: bv32, b0: Byte, b1: Byte, b2: Byte, b3: Byte)
    ensures ReadBytes(XorBytes(c, b0, b1, b2, b3), c) == (b0, b1, b2, b3)
  {
    XorFour(c, b0 as bv32, (b1 as bv32) << 8, (b2 as bv32) << 16, (b3 as bv32) << 24);
    ReadWord(b0, b1, b2, b3);
  }

  lemma XorFour(c: bv32, w0: bv32, w1: bv32, w2: bv32, w3: bv32)
    ensures ((((c ^ w0) ^ w1) ^ w2) ^ w3) ^ c == ((w0 ^ w1) ^ w2) ^ w3
  {
  }

  lemma ReadWord(b0: Byte, b1: Byte, b2: Byte, b3: Byte)
    ensures var d := (((b0 as bv32) ^ ((b1 as bv32) << 8)) ^ ((b2 as bv32) << 16)) ^ ((b3 as bv32) << 24);
            d & 0xFF == b0 as bv32 && (d >> 8) & 0xFF == b1 as bv32
            && (d >> 16) & 0xFF == b2 as bv32 && (d >> 24) & 0xFF == b3 as bv32
  {
  }

  lemma XorBytesInjective(c: bv32, x: seq<Byte>, y: seq<Byte>)
    requires |x| == |y| == 4 && Four(XorBytes, c, x) == Four(XorBytes, c, y)
    ensures x == y
  {
    forall b0, b1, b2, b3 ensures ReadBytes(XorBytes(c, b0, b1, b2, b3), c) == (b0, b1, b2, b3) {
      ReadXorBytes(c, b0, b1, b2, b3);
    }
    FourInjective(XorBytes, ReadBytes, c, x, y);
  }

  // A change confined to four consecutive bytes always changes the checksum.
  lemma BurstDetected(a: seq<Byte>, x: seq<Byte>, y: seq<Byte>, b: seq<Byte>)
    requires |x| == |y| == 4 && x != y
    ensures Of(a + x + b) != Of(a + y + b)
  {
    if Of(a + x + b) == Of(a + y + b) {
      var r := FeedAll(INIT, a);
      XorCancel(FeedAll(INIT, a + x + b), FeedAll(INIT, a + y + b), 0xFFFF_FFFF);
      FoldConcat(Feed, INIT, a + x, b);
      FoldConcat(Feed, INIT, a + y, b);
      FeedInjective();
      FoldInjective(Feed, FeedAll(INIT, a + x), FeedAll(INIT, a + y), b);
      FoldConcat(Feed, INIT, a, x);
      FoldConcat(Feed, INIT, a, y);
      FeedWord(r, x);
      FeedWord(r, y);
      ShiftInjective();
      IterInjective(Shift, Four(XorBytes, r, x), Four(XorBytes, r, y), 32);
      XorBytesInjective(r, x, y);
    }
  }

  // The check value that pins the polynomial, the initial register and the final
  // complement to CRC-32/IEEE: the digits 1 to 9 give 0xCBF43926.
  lemma CheckValue()
    ensures Of([0x31, 0x32, 0x33, 0x34, 0x35, 0x36, 0x37, 0x38, 0x39]) == 0xCBF4_3926
  {
    Digits123();
    Digits456();
    Digits789();
    var d: seq<Byte> := [0x31, 0x32, 0x33, 0x34, 0x35, 0x36, 0x37, 0x38, 0x39];
    assert d == ([0x31, 0x32, 0x33] + [0x34, 0x35, 0x36]) + [0x37, 0x38, 0x39];
    FoldConcat(Feed, INIT, [0x31, 0x32, 0x33], [0x34, 0x35, 0x36]);
    FoldConcat(Feed, INIT, [0x31, 0x32, 0x33] + [0x34, 0x35, 0x36], [0x37, 0x38, 0x39]);
  }

  lemma Digits123()
    ensures FeedAll(0xFFFF_FFFF, [0x31, 0x32, 0x33]) == 0x77B7_9C2D
  {
    FeedValue(0xFFFF_FFFF, 0x31, 0x7C23_1048);
    FeedValue(0x7C23_1048, 0x32, 0xB0AC_BB32);
    FeedValue(0xB0AC_BB32, 0x33, 0x77B7_9C2D);
    FoldThree(Feed, 0xFFFF_FFFF, 0x31, 0x32, 0x33);
  }

  lemma Digits456()
    ensures FeedAll(0x77B7_9C2D, [0x34, 0x35, 0x36]) == 0xF68D_2C9E
  {
    FeedValue(0x77B7_9C2D, 0x34, 0x641C_1F5C);
    FeedValue(0x641C_1F5C, 0x35, 0x340A_C5E3);
    FeedValue(0x340A_C5E3, 0x36, 0xF68D_2C9E);
    FoldThree(Feed, 0x77B7_9C2D, 0x34, 0x35, 0x36);
  }

  lemma Digits789()
    ensures FeedAll(0xF68D_2C9E, [0x37, 0x38, 0x39]) == 0x340B_C6D9
  {
    FeedValue(0xF68D_2C9E, 0x37, 0xAFFC_9660);
    FeedValue(0xAFFC_9660, 0x38, 0x651F_2550);
    FeedValue(0x651F_2550, 0x39, 0x340B_C6D9);
    FoldThree(Feed, 0xF68D_2C9E, 0x37, 0x38, 0x39);
  }

  lemma FeedValue(r: bv32, b: Byte, after: bv32)
    requires Shift(Shift(Shift(Shift(Shift(Shift(Shift(Shift(r ^ (b as bv32))))))))) == after
    ensures Feed(r, b) == after
  {
    Chain(r ^ (b as bv32));
  }
}
