/** Length-prefixed frames as byte sequences. */
module Wire {

  type Byte = x: int | 0 <= x < 256

  // The byte order of the four-byte length prefix.
  datatype Order = Little | Big

  const TWO_TO_THE_32 := 0x1_0000_0000

  function Value(b0: Byte, b1: Byte, b2: Byte, b3: Byte): (n: nat)
    ensures n < TWO_TO_THE_32
  {
    b0 as int + 0x100 * (b1 as int + 0x100 * (b2 as int + 0x100 * b3 as int))
  }

  function Length(order: Order, prefix: seq<Byte>): (n: nat)
    requires |prefix| == 4
    ensures n < TWO_TO_THE_32
  {
    match order
    case Little => Value(prefix[0], prefix[1], prefix[2], prefix[3])
    case Big => Value(prefix[3], prefix[2], prefix[1], prefix[0])
  }

  function Prefix(order: Order, n: nat): (prefix: seq<Byte>)
    requires n < TWO_TO_THE_32
    ensures |prefix| == 4
  {
    var b0, n1 := n % 0x100, n / 0x100;
    var b1, n2 := n1 % 0x100, n1 / 0x100;
    var b2, b3 := n2 % 0x100, n2 / 0x100;
    match order
    case Little => [b0, b1, b2, b3]
    case Big => [b3, b2, b1, b0]
  }

  lemma LengthOfPrefix(order: Order, n: nat)
    requires n < TWO_TO_THE_32
    ensures Length(order, Prefix(order, n)) == n
  {
  }

  lemma LowByte(b: Byte, high: nat)
    ensures (b as int + 0x100 * high) % 0x100 == b && (b as int + 0x100 * high) / 0x100 == high
  {
  }

  lemma PrefixOfValue(b0: Byte, b1: Byte, b2: Byte, b3: Byte)
    ensures Prefix(Little, Value(b0, b1, b2, b3)) == [b0, b1, b2, b3]
    ensures Prefix(Big, Value(b0, b1, b2, b3)) == [b3, b2, b1, b0]
  {
    var n2 := b2 as int + 0x100 * b3 as int;
    var n1 := b1 as int + 0x100 * n2;
    LowByte(b0, n1);
    LowByte(b1, n2);
    LowByte(b2, b3);
  }

  lemma PrefixOfLength(order: Order, prefix: seq<Byte>)
    requires |prefix| == 4
    ensures Prefix(order, Length(order, prefix)) == prefix
  {
    PrefixOfValue(prefix[0], prefix[1], prefix[2], prefix[3]);
    PrefixOfValue(prefix[3], prefix[2], prefix[1], prefix[0]);
  }

  function Framed(order: Order, body: seq<Byte>): seq<Byte>
    requires |body| < TWO_TO_THE_32
  {
    Prefix(order, |body|) + body
  }

  lemma Regroup(a: seq<Byte>, b: seq<Byte>, c: seq<Byte>)
    ensures a + (b + c) == (a + b) + c
  {
  }

  predicate Fits(bodies: seq<seq<Byte>>, cap: nat) {
    forall i | 0 <= i < |bodies| :: |bodies[i]| <= cap
  }

  // The frames of the bodies, one after the other.
  function Joined(order: Order, bodies: seq<seq<Byte>>): seq<Byte>
    requires Fits(bodies, TWO_TO_THE_32 - 1)
  {
    if bodies == [] then [] else Framed(order, bodies[0]) + Joined(order, bodies[1..])
  }

  // The first frame of a stream, what its prefix declares if that is over the cap, or
  // nothing when the stream ends before the frame does.
  datatype Cut = Whole(body: seq<Byte>, rest: seq<Byte>) | Oversized(declared: nat) | Short

  function CutFrame(order: Order, cap: nat, data: seq<Byte>): Cut {
    if |data| < 4 then Short else
    var n := Length(order, data[..4]);
    if n > cap then Oversized(n)
    else if |data| < 4 + n then Short
    else Whole(data[4..4 + n], data[4 + n..])
  }

  lemma CutFramed(order: Order, cap: nat, body: seq<Byte>, rest: seq<Byte>)
    requires |body| <= cap < TWO_TO_THE_32
    ensures CutFrame(order, cap, Framed(order, body) + rest) == Whole(body, rest)
  {
    var data := Framed(order, body) + rest;
    assert data[..4] == Prefix(order, |body|);
    LengthOfPrefix(order, |body|);
    assert data[4..4 + |body|] == body && data[4 + |body|..] == rest;
  }

  lemma CutIsFramed(order: Order, cap: nat, data: seq<Byte>)
    requires CutFrame(order, cap, data).Whole?
    ensures var cut := CutFrame(order, cap, data);
            |cut.body| <= cap && |cut.body| < TWO_TO_THE_32 && data == Framed(order, cut.body) + cut.rest
  {
    PrefixOfLength(order, data[..4]);
    var n := Length(order, data[..4]);
    assert data == data[..4] + data[4..4 + n] + data[4 + n..];
  }

  // A frame that has begun and not ended is not mistaken for anything else.
  lemma CutBroken(order: Order, cap: nat, body: seq<Byte>, k: nat)
    requires |body| <= cap < TWO_TO_THE_32 && k < |Framed(order, body)|
    ensures CutFrame(order, cap, Framed(order, body)[..k]) == Short
  {
    if k >= 4 {
      assert Framed(order, body)[..k][..4] == Prefix(order, |body|);
      LengthOfPrefix(order, |body|);
    }
  }
}
