/** The address policy of sync with a nearby device. */
module Nearby {

  // --- Address policy -----------------------------------------------------------------

  type Octet = x: int | 0 <= x < 0x100

  type Segment = x: int | 0 <= x < 0x1_0000

  // Octets, and segments, from the most significant down; the first segment is masked.
  datatype IpAddr =
    | V4(a: Octet, b: Octet, c: Octet, d: Octet)
    | V6(s0: bv16, s1: Segment, s2: Segment, s3: Segment, s4: Segment, s5: Segment, s6: Segment, s7: Segment)

  predicate IsLocalV4(a: Octet, b: Octet) {
    || a == 127
    || a == 10 || (a == 172 && 16 <= b <= 31) || (a == 192 && b == 168)
    || (a == 169 && b == 254)
    || (a == 100 && b as bv8 & 0xc0 == 64)
  }

  predicate IsMapped(ip: IpAddr) {
    ip.V6? && ip.s0 == 0 && ip.s1 == 0 && ip.s2 == 0 && ip.s3 == 0 && ip.s4 == 0 && ip.s5 == 0xffff
  }

  predicate IsLoopbackV6(ip: IpAddr) {
    && ip.V6? && ip.s0 == 0 && ip.s1 == 0 && ip.s2 == 0 && ip.s3 == 0
    && ip.s4 == 0 && ip.s5 == 0 && ip.s6 == 0 && ip.s7 == 1
  }

  predicate IsUniqueLocal(first: bv16) {
    first & 0xfe00 == 0xfc00
  }

  predicate IsLinkLocal(first: bv16) {
    first & 0xffc0 == 0xfe80
  }

  predicate IsLocalAddress(ip: IpAddr) {
    if ip.V4? then IsLocalV4(ip.a, ip.b)
    else if IsMapped(ip) then IsLocalV4(ip.s6 / 0x100, ip.s6 % 0x100)
    else IsLoopbackV6(ip) || IsUniqueLocal(ip.s0) || IsLinkLocal(ip.s0)
  }

  // A network is the addresses from `base` on that share its prefix.
  datatype Network = Network(base: nat, size: nat)

  predicate In(n: int, network: Network) {
    network.base <= n < network.base + network.size
  }

  predicate Within(n: int, networks: seq<Network>) {
    exists i :: 0 <= i < |networks| && In(n, networks[i])
  }

  const V4_NETWORKS := [
    Network(0x7f00_0000, 0x100_0000),  // 127.0.0.0/8
    Network(0x0a00_0000, 0x100_0000),  // 10.0.0.0/8
    Network(0xac10_0000, 0x10_0000),   // 172.16.0.0/12
    Network(0xc0a8_0000, 0x1_0000),    // 192.168.0.0/16
    Network(0xa9fe_0000, 0x1_0000),    // 169.254.0.0/16
    Network(0x6440_0000, 0x40_0000)    // 100.64.0.0/10
  ]

  const TWO_TO_THE_112 := 0x1_0000_0000_0000_0000_0000_0000_0000

  const V6_NETWORKS := [
    Network(1, 1),                                             // ::1/128
    Network(0xfc00 * TWO_TO_THE_112, 0x200 * TWO_TO_THE_112),  // fc00::/7
    Network(0xfe80 * TWO_TO_THE_112, 0x40 * TWO_TO_THE_112)    // fe80::/10
  ]

  const MAPPED := Network(0xffff_0000_0000, 0x1_0000_0000)  // ::ffff:0.0.0.0/96

  function NumberV4(a: Octet, b: Octet, c: Octet, d: Octet): int {
    a as int * 0x100_0000 + b as int * 0x1_0000 + c as int * 0x100 + d as int
  }

  function Join(high: int, segment: Segment): int {
    high * 0x1_0000 + segment as int
  }

  // The address as one number of 32 or 128 bits.
  function Number(ip: IpAddr): int {
    match ip
    case V4(a, b, c, d) => NumberV4(a, b, c, d)
    case V6(s0, s1, s2, s3, s4, s5, s6, s7) =>
      Join(Join(Join(Join(Join(Join(Join(s0 as int, s1), s2), s3), s4), s5), s6), s7)
  }

  // The networks the policy names, as ranges of address numbers.
  predicate OnLocalNetwork(ip: IpAddr) {
    if ip.V4? then Within(Number(ip), V4_NETWORKS)
    else if In(Number(ip), MAPPED) then Within(Number(ip) - MAPPED.base, V4_NETWORKS)
    else Within(Number(ip), V6_NETWORKS)
  }

  lemma ShareMask(b: Octet)
    ensures b as bv8 & 0xc0 == 64 <==> 64 <= b < 128
  {
    var v := b as bv8;
    assert v & 0xc0 == 64 <==> 64 <= v < 128;
  }

  lemma MaskRanges(first: bv16)
    ensures IsUniqueLocal(first) <==> 0xfc00 <= first as int < 0xfe00
    ensures IsLinkLocal(first) <==> 0xfe80 <= first as int < 0xfec0
  {
  }

  lemma V4Ranges(a: Octet, b: Octet, c: Octet, d: Octet)
    ensures IsLocalV4(a, b) <==> Within(NumberV4(a, b, c, d), V4_NETWORKS)
  {
    ShareMask(b);
    var n := NumberV4(a, b, c, d);
    var i := if a == 127 then 0 else if a == 10 then 1 else if a == 172 then 2
             else if a == 192 then 3 else if a == 169 then 4 else 5;
    if IsLocalV4(a, b) {
      assert In(n, V4_NETWORKS[i]);
    }
  }

  // The first segment's place, and when everything above the last segments is zero.
  lemma Places(ip: IpAddr)
    requires ip.V6?
    ensures ip.s0 as int * TWO_TO_THE_112 <= Number(ip) < (ip.s0 as int + 1) * TWO_TO_THE_112
    ensures IsLoopbackV6(ip) <==> Number(ip) == 1
    ensures IsMapped(ip) <==> In(Number(ip), MAPPED)
    ensures IsMapped(ip) ==> Number(ip) - MAPPED.base == ip.s6 as int * 0x1_0000 + ip.s7 as int
  {
  }

  lemma RangesOfSegment(first: int, n: int)
    requires first * TWO_TO_THE_112 <= n < (first + 1) * TWO_TO_THE_112
    ensures In(n, V6_NETWORKS[1]) <==> 0xfc00 <= first < 0xfe00
    ensures In(n, V6_NETWORKS[2]) <==> 0xfe80 <= first < 0xfec0
  {
  }

  lemma MasksAreRanges(first: bv16, n: int)
    requires first as int * TWO_TO_THE_112 <= n < (first as int + 1) * TWO_TO_THE_112
    ensures IsUniqueLocal(first) <==> In(n, V6_NETWORKS[1])
    ensures IsLinkLocal(first) <==> In(n, V6_NETWORKS[2])
  {
    MaskRanges(first);
    RangesOfSegment(first as int, n);
  }

  lemma WithinV6(n: int)
    ensures Within(n, V6_NETWORKS) <==> n == 1 || In(n, V6_NETWORKS[1]) || In(n, V6_NETWORKS[2])
  {
    if n == 1 {
      assert In(n, V6_NETWORKS[0]);
    }
  }

  lemma V6Ranges(ip: IpAddr)
    requires ip.V6? && !IsMapped(ip)
    ensures IsLocalAddress(ip) <==> Within(Number(ip), V6_NETWORKS)
  {
    Places(ip);
    MasksAreRanges(ip.s0, Number(ip));
    WithinV6(Number(ip));
  }

  lemma OctetsOfSegments(s6: Segment, s7: Segment)
    ensures NumberV4(s6 / 0x100, s6 % 0x100, s7 / 0x100, s7 % 0x100) == s6 as int * 0x1_0000 + s7 as int
  {
  }

  // The masks accept exactly the addresses of the named networks, an IPv4-mapped
  // address being judged by the IPv4 address inside it.
  lemma PolicyIsTheNetworks(ip: IpAddr)
    ensures IsLocalAddress(ip) <==> OnLocalNetwork(ip)
  {
    if ip.V4? {
      V4Ranges(ip.a, ip.b, ip.c, ip.d);
    } else {
      Places(ip);
      if IsMapped(ip) {
        OctetsOfSegments(ip.s6, ip.s7);
        V4Ranges(ip.s6 / 0x100, ip.s6 % 0x100, ip.s7 / 0x100, ip.s7 % 0x100);
      } else {
        V6Ranges(ip);
      }
    }
  }
}
