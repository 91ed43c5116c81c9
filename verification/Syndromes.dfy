/**
 The CRC register's answer to four changed bytes (their syndrome), and the proof that a
 change of at most thirty neighbouring bits, some in the bytes and the rest in the
 checksum behind them, never cancels, save one.
 */
module Syndromes {
  import opened Iteration
  import opened Crc32

  // --- Shifts undone --------------------------------------------------------------------

  // One turn of the inner loop undone: the polynomial's top bit tells whether it was added.
  function Unshift(c: bv32): bv32 {
    if c & 0x8000_0000 != 0 then (c << 1) ^ 0xDB71_0641 else c << 1
  }

  lemma UnshiftOdd(c: bv32)
    requires c & 1 != 0
    ensures Unshift(Shift(c)) == c
  {
  }

  lemma UnshiftEven(c: bv32)
    requires c & 1 == 0
    ensures Unshift(Shift(c)) == c
  {
  }

  lemma UnshiftUndoes()
    ensures forall c :: Unshift(Shift(c)) == c
  {
    forall c ensures Unshift(Shift(c)) == c {
      if c & 1 != 0 { UnshiftOdd(c); } else { UnshiftEven(c); }
    }
  }

  function Unshifts(c: bv32, n: nat): bv32 {
    Iter(Unshift, c, n)
  }

  function Shift4(c: bv32): bv32 { Shift(Shift(Shift(Shift(c)))) }

  function Shift32(c: bv32): bv32 {
    Shift4(Shift4(Shift4(Shift4(Shift4(Shift4(Shift4(Shift4(c))))))))
  }

  function Unshift4(c: bv32): bv32 { Unshift(Unshift(Unshift(Unshift(c)))) }

  function Unshift32(c: bv32): bv32 {
    Unshift4(Unshift4(Unshift4(Unshift4(Unshift4(Unshift4(Unshift4(Unshift4(c))))))))
  }

  lemma ShiftsAre(c: bv32)
    ensures Shifts(c, 32) == Shift32(c)
  {
    IterByFours(Shift, Shift4, c);
  }

  lemma UnshiftsAre(c: bv32)
    ensures Unshifts(c, 32) == Unshift32(c)
  {
    IterByFours(Unshift, Unshift4, c);
  }

  lemma ShiftsUndone(c: bv32)
    ensures Unshifts(Shifts(c, 32), 32) == c
  {
    UnshiftUndoes();
    IterUndone(Shift, Unshift, c, 32);
  }

  // --- The syndrome of a word, and the word of a syndrome -----------------------------------

  // What the bits of a word's last two bytes are shifted to, four at a time; the first
  // byte is the lowest of the word.
  function Shift28(w: bv32): bv32 {
    (((if w & 0x1000_0000 != 0 then 0x1DB7_1064 else 0)
     ^ (if w & 0x2000_0000 != 0 then 0x3B6E_20C8 else 0))
     ^ (if w & 0x4000_0000 != 0 then 0x76DC_4190 else 0))
    ^ (if w & 0x8000_0000 != 0 then 0xEDB8_8320 else 0)
  }

  lemma Shift28Is(w: bv32)
    requires w & 0xF000_0000 == w
    ensures Shift32(w) == Shift28(w)
  {
  }

  lemma Shift28Masked(w: bv32)
    ensures Shift28(w & 0xF000_0000) == Shift28(w)
  {
  }

  function Shift24(w: bv32): bv32 {
    (((if w & 0x0100_0000 != 0 then 0x7707_3096 else 0)
     ^ (if w & 0x0200_0000 != 0 then 0xEE0E_612C else 0))
     ^ (if w & 0x0400_0000 != 0 then 0x076D_C419 else 0))
    ^ (if w & 0x0800_0000 != 0 then 0x0EDB_8832 else 0)
  }

  lemma Shift24Is(w: bv32)
    requires w & 0x0F00_0000 == w
    ensures Shift32(w) == Shift24(w)
  {
  }

  lemma Shift24Masked(w: bv32)
    ensures Shift24(w & 0x0F00_0000) == Shift24(w)
  {
  }

  function Shift20(w: bv32): bv32 {
    (((if w & 0x0010_0000 != 0 then 0x4AC2_1251 else 0)
     ^ (if w & 0x0020_0000 != 0 then 0x9584_24A2 else 0))
     ^ (if w & 0x0040_0000 != 0 then 0xF079_4F05 else 0))
    ^ (if w & 0x0080_0000 != 0 then 0x3B83_984B else 0)
  }

  lemma Shift20Is(w: bv32)
    requires w & 0x00F0_0000 == w
    ensures Shift32(w) == Shift20(w)
  {
  }

  lemma Shift20Masked(w: bv32)
    ensures Shift20(w & 0x00F0_0000) == Shift20(w)
  {
  }

  function Shift16(w: bv32): bv32 {
    (((if w & 0x0001_0000 != 0 then 0x191B_3141 else 0)
     ^ (if w & 0x0002_0000 != 0 then 0x3236_6282 else 0))
     ^ (if w & 0x0004_0000 != 0 then 0x646C_C504 else 0))
    ^ (if w & 0x0008_0000 != 0 then 0xC8D9_8A08 else 0)
  }

  lemma Shift16Is(w: bv32)
    requires w & 0x000F_0000 == w
    ensures Shift32(w) == Shift16(w)
  {
  }

  lemma Shift16Masked(w: bv32)
    ensures Shift16(w & 0x000F_FFFF) == Shift16(w)
  {
  }

  // What the high bits of a syndrome come from.
  function Unshift28(e: bv32): bv32 {
    (((if e & 0x1000_0000 != 0 then 0x46D4_D0A2 else 0)
     ^ (if e & 0x2000_0000 != 0 then 0x8DA9_A144 else 0))
     ^ (if e & 0x4000_0000 != 0 then 0xC022_44C9 else 0))
    ^ (if e & 0x8000_0000 != 0 then 0x5B35_8FD3 else 0)
  }

  lemma Unshift28Is(e: bv32)
    requires e & 0xF000_0000 == e
    ensures Unshift32(e) == Unshift28(e)
  {
  }

  lemma Unshift28Masked(e: bv32)
    ensures Unshift28(e & 0xF000_0000) == Unshift28(e)
  {
  }

  function Unshift24(e: bv32): bv32 {
    (((if e & 0x0100_0000 != 0 then 0x3F03_6DC2 else 0)
     ^ (if e & 0x0200_0000 != 0 then 0x7E06_DB84 else 0))
     ^ (if e & 0x0400_0000 != 0 then 0xFC0D_B708 else 0))
    ^ (if e & 0x0800_0000 != 0 then 0x236A_6851 else 0)
  }

  lemma Unshift24Is(e: bv32)
    requires e & 0x0F00_0000 == e
    ensures Unshift32(e) == Unshift24(e)
  {
  }

  lemma Unshift24Masked(e: bv32)
    ensures Unshift24(e & 0x0F00_0000) == Unshift24(e)
  {
  }

  function Unshift20(e: bv32): bv32 {
    (((if e & 0x0010_0000 != 0 then 0x389E_1614 else 0)
     ^ (if e & 0x0020_0000 != 0 then 0x713C_2C28 else 0))
     ^ (if e & 0x0040_0000 != 0 then 0xE278_5850 else 0))
    ^ (if e & 0x0080_0000 != 0 then 0x1F81_B6E1 else 0)
  }

  lemma Unshift20Is(e: bv32)
    requires e & 0x00F0_0000 == e
    ensures Unshift32(e) == Unshift20(e)
  {
  }

  lemma Unshift20Masked(e: bv32)
    ensures Unshift20(e & 0x00F0_0000) == Unshift20(e)
  {
  }

  function Unshift18(e: bv32): bv32 {
    (if e & 0x0004_0000 != 0 then 0x0E27_8585 else 0)
    ^ (if e & 0x0008_0000 != 0 then 0x1C4F_0B0A else 0)
  }

  lemma Unshift18Is(e: bv32)
    requires e & 0x000C_0000 == e
    ensures Unshift32(e) == Unshift18(e)
  {
  }

  lemma Unshift18Masked(e: bv32)
    ensures Unshift18(e & 0x000F_FFFF) == Unshift18(e)
  {
  }

  function Tail(w: bv32): bv32 {
    Xor(Xor(Xor(Shift28(w), Shift24(w)), Shift20(w)), Shift16(w))
  }

  function Preimage(e: bv32): bv32 {
    Xor(Xor(Xor(Unshift28(e), Unshift24(e)), Unshift20(e)), Unshift18(e))
  }

  lemma Parted(x: bv32)
    ensures x == Xor(Xor(Xor(x & 0xF000_0000, x & 0x0F00_0000), x & 0x00F0_0000), x & 0x000F_FFFF)
  {
  }

  lemma LowPart(x: bv32)
    ensures x & 0x0003_FFFF == 0 ==> x & 0x000F_FFFF & 0x000C_0000 == x & 0x000F_FFFF
    ensures x & 0x0000_FFFF == 0 ==> x & 0x000F_FFFF & 0x000F_0000 == x & 0x000F_FFFF
    ensures x & 0xF000_0000 & 0xF000_0000 == x & 0xF000_0000
    ensures x & 0x0F00_0000 & 0x0F00_0000 == x & 0x0F00_0000
    ensures x & 0x00F0_0000 & 0x00F0_0000 == x & 0x00F0_0000
  {
  }

  // An additive map, part by part.
  lemma AdditiveParts(f: bv32 -> bv32, x: bv32)
    requires Additive(f, Xor)
    ensures f(x) == Xor(Xor(Xor(f(x & 0xF000_0000), f(x & 0x0F00_0000)), f(x & 0x00F0_0000)), f(x & 0x000F_FFFF))
  {
    Parted(x);
  }

  lemma Shift32Additive()
    ensures Additive(Shift32, Xor)
  {
    forall a, b ensures Shift32(Xor(a, b)) == Xor(Shift32(a), Shift32(b)) {
      ShiftsAre(a);
      ShiftsAre(b);
      ShiftsAre(Xor(a, b));
      ShiftsXor(a, b, 32);
    }
  }

  lemma TailParted(w: bv32)
    requires w & 0x0000_FFFF == 0
    ensures Shift32(w) ==
              Xor(Xor(Xor(Shift28(w & 0xF000_0000), Shift24(w & 0x0F00_0000)), Shift20(w & 0x00F0_0000)),
                  Shift16(w & 0x000F_FFFF))
  {
    LowPart(w);
    Shift28Is(w & 0xF000_0000);
    Shift24Is(w & 0x0F00_0000);
    Shift20Is(w & 0x00F0_0000);
    Shift16Is(w & 0x000F_FFFF);
    Shift32Additive();
    AdditiveParts(Shift32, w);
  }

  lemma TailMasked(w: bv32)
    ensures Tail(w) ==
              Xor(Xor(Xor(Shift28(w & 0xF000_0000), Shift24(w & 0x0F00_0000)), Shift20(w & 0x00F0_0000)),
                  Shift16(w & 0x000F_FFFF))
  {
    Shift28Masked(w);
    Shift24Masked(w);
    Shift20Masked(w);
    Shift16Masked(w);
  }

  lemma TailIs(w: bv32)
    requires w & 0x0000_FFFF == 0
    ensures Shifts(w, 32) == Tail(w)
  {
    ShiftsAre(w);
    TailParted(w);
    TailMasked(w);
  }

  lemma UnshiftHighHigh(a: bv32, b: bv32)
    requires a & 0x8000_0000 != 0 && b & 0x8000_0000 != 0
    ensures Unshift(a ^ b) == Unshift(a) ^ Unshift(b)
  {
  }

  lemma UnshiftHighLow(a: bv32, b: bv32)
    requires a & 0x8000_0000 != 0 && b & 0x8000_0000 == 0
    ensures Unshift(a ^ b) == Unshift(a) ^ Unshift(b)
  {
  }

  lemma UnshiftLowLow(a: bv32, b: bv32)
    requires a & 0x8000_0000 == 0 && b & 0x8000_0000 == 0
    ensures Unshift(a ^ b) == Unshift(a) ^ Unshift(b)
  {
  }

  lemma UnshiftAdditive()
    ensures Additive(Unshift, Xor)
  {
    forall a, b ensures Unshift(Xor(a, b)) == Xor(Unshift(a), Unshift(b)) {
      if a & 0x8000_0000 != 0 {
        if b & 0x8000_0000 != 0 { UnshiftHighHigh(a, b); } else { UnshiftHighLow(a, b); }
      } else {
        if b & 0x8000_0000 != 0 {
          UnshiftHighLow(b, a);
          XorCommutes(a, b);
          XorCommutes(Unshift(a), Unshift(b));
        } else {
          UnshiftLowLow(a, b);
        }
      }
    }
  }

  lemma Unshift32Additive()
    ensures Additive(Unshift32, Xor)
  {
    UnshiftAdditive();
    forall a, b ensures Unshift32(Xor(a, b)) == Xor(Unshift32(a), Unshift32(b)) {
      IterAdditive(Unshift, Xor, a, b, 32);
      UnshiftsAre(a);
      UnshiftsAre(b);
      UnshiftsAre(Xor(a, b));
    }
  }

  lemma PreimageParted(e: bv32)
    requires e & 0x0003_FFFF == 0
    ensures Unshift32(e) ==
              Xor(Xor(Xor(Unshift28(e & 0xF000_0000), Unshift24(e & 0x0F00_0000)), Unshift20(e & 0x00F0_0000)),
                  Unshift18(e & 0x000F_FFFF))
  {
    LowPart(e);
    Unshift28Is(e & 0xF000_0000);
    Unshift24Is(e & 0x0F00_0000);
    Unshift20Is(e & 0x00F0_0000);
    Unshift18Is(e & 0x000F_FFFF);
    Unshift32Additive();
    AdditiveParts(Unshift32, e);
  }

  lemma PreimageMasked(e: bv32)
    ensures Preimage(e) ==
              Xor(Xor(Xor(Unshift28(e & 0xF000_0000), Unshift24(e & 0x0F00_0000)), Unshift20(e & 0x00F0_0000)),
                  Unshift18(e & 0x000F_FFFF))
  {
    Unshift28Masked(e);
    Unshift24Masked(e);
    Unshift20Masked(e);
    Unshift18Masked(e);
  }

  lemma PreimageIs(e: bv32)
    requires e & 0x0003_FFFF == 0
    ensures Unshifts(e, 32) == Preimage(e)
  {
    UnshiftsAre(e);
    PreimageParted(e);
    PreimageMasked(e);
  }

  // --- Changes that cancel -------------------------------------------------------------------

  // A word within its last bits whose syndrome is clean below.
  predicate TailCancels(w: bv32, last: bv32, clean: bv32) {
    w & last == w && Tail(w) & clean == 0
  }

  // A syndrome clean below whose word lies within its last bits.
  predicate PreimageCancels(e: bv32, last: bv32, clean: bv32) {
    e & clean == 0 && Preimage(e) & last == Preimage(e)
  }

  // The n lowest bits.
  function Low(n: nat): bv32 {
    match n
    case 0 => 0x0000_0000 case 1 => 0x0000_0001 case 2 => 0x0000_0003 case 3 => 0x0000_0007 case 4 => 0x0000_000F
    case 5 => 0x0000_001F case 6 => 0x0000_003F case 7 => 0x0000_007F case 8 => 0x0000_00FF case 9 => 0x0000_01FF
    case 10 => 0x0000_03FF case 11 => 0x0000_07FF case 12 => 0x0000_0FFF case 13 => 0x0000_1FFF case 14 => 0x0000_3FFF
    case 15 => 0x0000_7FFF case 16 => 0x0000_FFFF case 17 => 0x0001_FFFF case 18 => 0x0003_FFFF case 19 => 0x0007_FFFF
    case 20 => 0x000F_FFFF case 21 => 0x001F_FFFF case 22 => 0x003F_FFFF case 23 => 0x007F_FFFF case 24 => 0x00FF_FFFF
    case 25 => 0x01FF_FFFF case 26 => 0x03FF_FFFF case 27 => 0x07FF_FFFF case 28 => 0x0FFF_FFFF case 29 => 0x1FFF_FFFF
    case 30 => 0x3FFF_FFFF case 31 => 0x7FFF_FFFF
    case _ => 0xFFFF_FFFF
  }

  // The last n bits of four bytes, the first byte being the lowest of the word.
  function Last(n: nat): bv32 {
    match n
    case 0 => 0x0000_0000 case 1 => 0x0100_0000 case 2 => 0x0300_0000 case 3 => 0x0700_0000 case 4 => 0x0F00_0000
    case 5 => 0x1F00_0000 case 6 => 0x3F00_0000 case 7 => 0x7F00_0000 case 8 => 0xFF00_0000 case 9 => 0xFF01_0000
    case 10 => 0xFF03_0000 case 11 => 0xFF07_0000 case 12 => 0xFF0F_0000 case 13 => 0xFF1F_0000 case 14 => 0xFF3F_0000
    case 15 => 0xFF7F_0000 case 16 => 0xFFFF_0000 case 17 => 0xFFFF_0100 case 18 => 0xFFFF_0300 case 19 => 0xFFFF_0700
    case 20 => 0xFFFF_0F00 case 21 => 0xFFFF_1F00 case 22 => 0xFFFF_3F00 case 23 => 0xFFFF_7F00 case 24 => 0xFFFF_FF00
    case 25 => 0xFFFF_FF01 case 26 => 0xFFFF_FF03 case 27 => 0xFFFF_FF07 case 28 => 0xFFFF_FF0F case 29 => 0xFFFF_FF1F
    case 30 => 0xFFFF_FF3F case 31 => 0xFFFF_FF7F
    case _ => 0xFFFF_FFFF
  }

  // The one change that cancels: the bytes 0x61 and 0xD8 behind two that stay.
  const ESCAPE: bv32 := 0xD861_0000

  lemma ShortTails(t: nat, w: bv32)
    requires 1 <= t <= 9 && TailCancels(w, Last(t), Low(t + 2))
    ensures w == 0
  {
  }

  lemma MiddleTails(t: nat, w: bv32)
    requires 10 <= t <= 12 && TailCancels(w, Last(t), Low(t + 2))
    ensures w == 0
  {
  }

  lemma TailsOf13And14(t: nat, w: bv32)
    requires 13 <= t <= 14 && TailCancels(w, Last(t), Low(t + 2))
    ensures w == 0
  {
  }

  lemma TailOf15(w: bv32)
    requires TailCancels(w, Last(15), Low(17))
    ensures w == 0 || w == ESCAPE
  {
  }

  lemma LongTails(t: nat, e: bv32)
    requires 16 <= t <= 17 && PreimageCancels(e, Last(t), Low(t + 2))
    ensures e == 0
  {
  }

  lemma LongerTails(t: nat, e: bv32)
    requires 18 <= t <= 21 && PreimageCancels(e, Last(t), Low(t + 2))
    ensures e == 0
  {
  }

  lemma TailsOf22And23(t: nat, e: bv32)
    requires 22 <= t <= 23 && PreimageCancels(e, Last(t), Low(t + 2))
    ensures e == 0
  {
  }

  lemma TailsOf24And25(t: nat, e: bv32)
    requires 24 <= t <= 25 && PreimageCancels(e, Last(t), Low(t + 2))
    ensures e == 0
  {
  }

  lemma TailsOf26And27(t: nat, e: bv32)
    requires 26 <= t <= 27 && PreimageCancels(e, Last(t), Low(t + 2))
    ensures e == 0
  {
  }

  lemma TailsOf28And29(t: nat, e: bv32)
    requires 28 <= t <= 29 && PreimageCancels(e, Last(t), Low(t + 2))
    ensures e == 0
  {
  }

  lemma MasksFit(t: nat)
    ensures t <= 16 ==> Last(t) & 0x0000_FFFF == 0
    ensures 16 <= t <= 30 ==> Low(t + 2) & 0x0003_FFFF == 0x0003_FFFF
  {
  }

  lemma Submask(x: bv32, mask: bv32, part: bv32)
    requires mask & part == part && x & mask == 0
    ensures x & part == 0
  {
  }

  lemma Disjoint(x: bv32, mask: bv32, part: bv32)
    requires mask & part == 0 && x & mask == x
    ensures x & part == 0
  {
  }

  lemma TailOfHalf(t: nat, w: bv32)
    requires 1 <= t <= 15 && TailCancels(w, Last(t), Low(t + 2))
    ensures w == 0 || (t == 15 && w == ESCAPE)
  {
    if t <= 9 {
      ShortTails(t, w);
    } else if t <= 12 {
      MiddleTails(t, w);
    } else if t <= 14 {
      TailsOf13And14(t, w);
    } else {
      TailOf15(w);
    }
  }

  lemma PreimageOfHalf(t: nat, e: bv32)
    requires 16 <= t <= 29 && PreimageCancels(e, Last(t), Low(t + 2))
    ensures e == 0
  {
    if t <= 17 {
      LongTails(t, e);
    } else if t <= 21 {
      LongerTails(t, e);
    } else if t <= 23 {
      TailsOf22And23(t, e);
    } else if t <= 25 {
      TailsOf24And25(t, e);
    } else if t <= 27 {
      TailsOf26And27(t, e);
    } else {
      TailsOf28And29(t, e);
    }
  }

  lemma ShortTail(t: nat, w: bv32, e: bv32)
    requires 1 <= t <= 15 && w & Last(t) == w && e & Low(t + 2) == 0 && Shifts(w, 32) == e
    ensures w == 0 || (t == 15 && w == ESCAPE)
  {
    MasksFit(t);
    Disjoint(w, Last(t), 0x0000_FFFF);
    TailIs(w);
    TailOfHalf(t, w);
  }

  lemma LongTail(t: nat, w: bv32, e: bv32)
    requires 16 <= t <= 29 && w & Last(t) == w && e & Low(t + 2) == 0 && Unshifts(e, 32) == w
    ensures e == 0
  {
    MasksFit(t);
    Submask(e, Low(t + 2), 0x0003_FFFF);
    PreimageIs(e);
    PreimageOfHalf(t, e);
  }

  lemma CleanSyndrome(w: bv32)
    ensures Shifts(w, 32) == 0 <==> w == 0
  {
    ShiftInjective();
    ShiftsAre(0);
    assert Shift32(0) == 0;
    if Shifts(w, 32) == 0 {
      IterInjective(Shift, w, 0, 32);
    }
  }

  // A word within its last t bits whose syndrome is clean in its last t + 2: there is
  // none but zero, save one.
  lemma TailAndSyndrome(t: nat, w: bv32)
    requires 1 <= t <= 29 && w & Last(t) == w && Shifts(w, 32) & Low(t + 2) == 0
    ensures w == 0 || (t == 15 && w == ESCAPE)
  {
    if t <= 15 {
      ShortTail(t, w, Shifts(w, 32));
    } else {
      ShiftsUndone(w);
      LongTail(t, w, Shifts(w, 32));
      CleanSyndrome(w);
    }
  }

  lemma LastByteOf(b: nat, w: bv32, e: bv32)
    requires 1 <= b <= 5 && w & Last(24 + b) == w && e & 0xFF == e && e & Low(b + 2) == 0 && Unshifts(e, 32) == w
    ensures e == 0
  {
    UnshiftsAre(e);
  }

  // The same for a fifth byte behind the word.
  lemma WordAndLastByte(b: nat, w: bv32, e: bv32)
    requires 1 <= b <= 5 && w & Last(24 + b) == w && e & 0xFF == e && e & Low(b + 2) == 0 && Shifts(w, 32) == e
    ensures w == 0 && e == 0
  {
    ShiftsUndone(w);
    LastByteOf(b, w, e);
    CleanSyndrome(w);
  }
}
