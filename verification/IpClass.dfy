/**
 * Which addresses the crawler must not reach: IPv4 by a list of internal ranges, IPv6 by allowing
 * global unicast only, with the forms that carry an IPv4 address decided by that address.
 */
module IpClass {
  import opened Numerals
  import opened Options
  import opened Strings
  import opened IpText

  // --- Bitwise and, on non-negative integers --------------------------------------------------------

  function And(x: nat, y: nat): nat {
    if x == 0 || y == 0 then 0 else 2 * And(x / 2, y / 2) + (x % 2) * (y % 2)
  }

  function Pow2(n: nat): (p: nat)
    ensures p >= 1
  {
    if n == 0 then 1 else 2 * Pow2(n - 1)
  }

  /** A mask of `ones` ones over `zeros` zeros. */
  function Mask(ones: nat, zeros: nat): int { (Pow2(ones) - 1) * Pow2(zeros) }

  lemma {:induction false} Pow2Adds(a: nat, b: nat)
    ensures Pow2(a + b) == Pow2(a) * Pow2(b)
  {
    if b > 0 { Pow2Adds(a, b - 1); }
  }

  lemma {:induction false} AndOnes(x: nat, ones: nat)
    requires x < Pow2(ones)
    ensures And(x, Pow2(ones) - 1) == x
  {
    if ones > 0 && x > 0 {
      assert (Pow2(ones) - 1) / 2 == Pow2(ones - 1) - 1 && (Pow2(ones) - 1) % 2 == 1;
      AndOnes(x / 2, ones - 1);
    }
  }

  /** Masking drops the low bits and keeps the rest. */
  lemma {:induction false} AndMask(x: nat, ones: nat, zeros: nat)
    requires x < Pow2(ones + zeros)
    ensures Mask(ones, zeros) >= 0 && And(x, Mask(ones, zeros)) == x / Pow2(zeros) * Pow2(zeros)
    decreases zeros
  {
    if zeros == 0 {
      AndOnes(x, ones);
    } else {
      var m, p := Mask(ones, zeros - 1), Pow2(zeros - 1);
      AndMask(x / 2, ones, zeros - 1);
      MaskDoubles(ones, zeros);
      HalfThenDivide(x, p);
      if x == 0 || m == 0 {
        assert m == 0 ==> And(x / 2, m) == 0;
      }
    }
  }

  lemma MaskDoubles(ones: nat, zeros: nat)
    requires zeros > 0
    ensures Mask(ones, zeros) == 2 * Mask(ones, zeros - 1)
  {
    var a, p := Pow2(ones) - 1, Pow2(zeros - 1);
    assert a * (2 * p) == 2 * (a * p);
  }

  lemma HalfThenDivide(x: nat, p: nat)
    requires p >= 1
    ensures x / (2 * p) == x / 2 / p
    ensures x / (2 * p) * (2 * p) == 2 * (x / 2 / p * p)
  {
    var q := x / 2 / p;
    var r := x / 2 - q * p;
    assert 0 <= r < p;
    DivideIs(x, 2 * p, q, x - q * (2 * p));
  }

  lemma DivideIs(x: int, d: int, q: int, r: int)
    requires d > 0 && x == q * d + r && 0 <= r < d
    ensures x / d == q
  {
    var k := x / d;
    assert k < q ==> (k + 1) * d <= q * d;
    assert k > q ==> (q + 1) * d <= k * d;
  }

  // --- IPv4 --------------------------------------------------------------------------------------------

  /** Shifts and ors of four octets, read as an unsigned number. */
  function Number4(o: seq<int>): (n: nat)
    requires |o| == 4 && Bytes(o)
    ensures n < Pow2(32)
  {
    Pow32();
    o[0] * 0x100_0000 + o[1] * 0x1_0000 + o[2] * 0x100 + o[3]
  }

  lemma Pow32()
    ensures Pow2(32) == 0x1_0000_0000
  {
    assert Pow2(4) == 16;
    Pow2Adds(4, 4);
    Pow2Adds(8, 8);
    Pow2Adds(16, 16);
  }

  function Ipv4Mask(prefix: int): int {
    if prefix <= 0 then 0 else if prefix >= 32 then 0xffff_ffff else 0x1_0000_0000 - Pow2(32 - prefix)
  }

  /** The mask of a prefix is that many ones, from the left. */
  lemma MaskIsLeftOnes(prefix: nat)
    requires prefix <= 32
    ensures Ipv4Mask(prefix) == Mask(prefix, 32 - prefix)
  {
    hide Pow2;
    Pow32();
    Pow2Adds(prefix, 32 - prefix);
    PowOfNone();
    MinusOneTimes(Pow2(prefix), Pow2(32 - prefix));
  }

  lemma PowOfNone()
    ensures Pow2(0) == 1
  {
  }

  lemma MinusOneTimes(a: int, b: int)
    ensures (a - 1) * b == a * b - b
  {
  }

  datatype Cidr4 = Cidr4(base: seq<int>, prefix: nat)

  predicate WellFormed4(c: Cidr4) { |c.base| == 4 && Bytes(c.base) && c.prefix <= 32 }

  type Range4 = c: Cidr4 | WellFormed4(c) witness Cidr4([0, 0, 0, 0], 0)

  /** The first address of a range of addresses that share their first `prefix` bits. */
  function First(base: nat, width: nat, prefix: nat): nat
    requires prefix <= width
  {
    base / Pow2(width - prefix) * Pow2(width - prefix)
  }

  /** Membership in a CIDR block: an interval of addresses. */
  predicate InInterval(x: nat, base: nat, width: nat, prefix: nat)
    requires prefix <= width
  {
    First(base, width, prefix) <= x < First(base, width, prefix) + Pow2(width - prefix)
  }

  predicate Hits(value: nat, c: Range4) {
    Ipv4MaskRange(c.prefix);
    And(value, Ipv4Mask(c.prefix)) == And(Number4(c.base), Ipv4Mask(c.prefix))
  }

  lemma Ipv4MaskRange(prefix: nat)
    requires prefix <= 32
    ensures Ipv4Mask(prefix) >= 0
  {
    MaskIsLeftOnes(prefix);
    AndMask(0, prefix, 32 - prefix);
  }

  /** Two numbers share their quotient exactly when one lies in the other's interval. */
  lemma QuotientIsInterval(x: nat, base: nat, p: nat)
    requires p >= 1
    ensures x / p == base / p <==> base / p * p <= x < base / p * p + p
    ensures x / p * p == base / p * p <==> x / p == base / p
  {
    var q := base / p;
    if q * p <= x < q * p + p { DivideIs(x, p, q, x - q * p); }
    if x / p == q { assert x == q * p + x % p; }
    if x / p * p == q * p && x / p != q { Cancel(x / p, q, p); }
  }

  lemma Cancel(a: int, b: int, p: int)
    requires p >= 1 && a * p == b * p
    ensures a == b
  {
    assert a < b ==> (a + 1) * p <= b * p;
    assert a > b ==> (b + 1) * p <= a * p;
  }

  /** The mask comparison is interval membership, for every prefix. */
  lemma MaskIsInterval(value: nat, c: Range4)
    requires value < Pow2(32)
    ensures Hits(value, c) <==> InInterval(value, Number4(c.base), 32, c.prefix)
  {
    hide And, Mask, Pow2;
    MaskIsLeftOnes(c.prefix);
    AndMask(value, c.prefix, 32 - c.prefix);
    AndMask(Number4(c.base), c.prefix, 32 - c.prefix);
    QuotientIsInterval(value, Number4(c.base), Pow2(32 - c.prefix));
  }

  function Range(a: int, b: int, c: int, d: int, prefix: nat): Range4
    requires 0 <= a < 256 && 0 <= b < 256 && 0 <= c < 256 && 0 <= d < 256 && prefix <= 32
  {
    Cidr4([a, b, c, d], prefix)
  }

  const BLOCKED_V4: seq<Range4> :=
    [Range(0, 0, 0, 0, 8), Range(10, 0, 0, 0, 8), Range(100, 64, 0, 0, 10), Range(127, 0, 0, 0, 8),
     Range(169, 254, 0, 0, 16), Range(172, 16, 0, 0, 12), Range(192, 0, 0, 0, 24), Range(192, 0, 2, 0, 24),
     Range(192, 168, 0, 0, 16), Range(198, 18, 0, 0, 15), Range(198, 51, 100, 0, 24), Range(203, 0, 113, 0, 24),
     Range(224, 0, 0, 0, 4), Range(240, 0, 0, 0, 4)]

  predicate HitsAny(value: nat, cidrs: seq<Range4>) {
    exists i :: 0 <= i < |cidrs| && Hits(value, cidrs[i])
  }

  /** The verdict on four octets. */
  predicate BlockedQuad(o: seq<int>)
    requires |o| == 4 && Bytes(o)
  {
    HitsAny(Number4(o), BLOCKED_V4)
  }

  /** The verdict on text; what does not parse is blocked. */
  predicate BlockedIpv4(ip: string) {
    var octets := Ipv4(ip);
    octets.None? || BlockedQuad(octets.value)
  }

  /** An address is blocked exactly when it lies in one of the internal ranges. */
  lemma BlockedIpv4IsRanges(o: seq<int>)
    requires |o| == 4 && Bytes(o)
    ensures BlockedQuad(o) <==>
              exists i :: 0 <= i < |BLOCKED_V4| && InInterval(Number4(o), Number4(BLOCKED_V4[i].base), 32, BLOCKED_V4[i].prefix)
  {
    hide Hits, InInterval, Number4, Pow2;
    forall i | 0 <= i < |BLOCKED_V4|
      ensures Hits(Number4(o), BLOCKED_V4[i]) <==> InInterval(Number4(o), Number4(BLOCKED_V4[i].base), 32, BLOCKED_V4[i].prefix)
    {
      MaskIsInterval(Number4(o), BLOCKED_V4[i]);
    }
  }

  // --- IPv6 ranges ---------------------------------------------------------------------------------------

  function Number(bytes: seq<int>): (n: nat)
    requires Bytes(bytes)
  {
    if bytes == [] then 0 else Number(bytes[..|bytes| - 1]) * 256 + bytes[|bytes| - 1]
  }

  /** The leading whole bytes agree, and so do the top bits of the byte after them. */
  predicate InCidr(addr: seq<int>, base: seq<int>, prefix: nat)
    requires |addr| == |base| && Bytes(addr) && Bytes(base) && prefix <= 8 * |addr|
  {
    var whole, bits := prefix / 8, prefix % 8;
    && addr[..whole] == base[..whole]
    && (bits == 0 || And(addr[whole], PartialMask(bits)) == And(base[whole], PartialMask(bits)))
  }

  /** The low byte of 0xff shifted left. */
  function PartialMask(bits: nat): nat
    requires bits <= 8
  {
    Pow2Positive(8 - bits);
    0xff * Pow2(8 - bits) % 256
  }

  lemma Pow2Positive(n: nat)
    ensures Pow2(n) >= 1
  {
  }

  method InV6Cidr(addr: seq<int>, base: seq<int>, prefix: nat) returns (inside: bool)
    requires |addr| == |base| && Bytes(addr) && Bytes(base) && prefix <= 8 * |addr|
    ensures inside <==> InCidr(addr, base, prefix)
  {
    var whole := prefix / 8;
    for i := 0 to whole
      invariant addr[..i] == base[..i]
    {
      if addr[i] != base[i] {
        assert addr[..whole][i] != base[..whole][i];
        return false;
      }
    }
    var bits := prefix % 8;
    if bits == 0 { return true; }
    var mask := PartialMask(bits);
    return And(addr[whole], mask) == And(base[whole], mask);
  }

  lemma PartialMaskIsLeftOnes(bits: nat)
    requires bits <= 8
    ensures PartialMask(bits) == Mask(bits, 8 - bits)
  {
    assert Pow2(0) == 1 && Pow2(1) == 2 && Pow2(2) == 4 && Pow2(3) == 8 && Pow2(4) == 16;
    assert Pow2(5) == 32 && Pow2(6) == 64 && Pow2(7) == 128 && Pow2(8) == 256;
  }

  lemma {:induction false} NumberInjective(a: seq<int>, b: seq<int>)
    requires |a| == |b| && Bytes(a) && Bytes(b)
    ensures Number(a) == Number(b) <==> a == b
    decreases |a|
  {
    if a != [] {
      var n := |a| - 1;
      NumberInjective(a[..n], b[..n]);
      assert a == a[..n] + [a[n]] && b == b[..n] + [b[n]];
    }
  }

  lemma ByteTop(a: int, b: int, bits: nat)
    requires 0 <= a < 256 && 0 <= b < 256 && bits <= 8
    ensures And(a, PartialMask(bits)) == And(b, PartialMask(bits)) <==> a / Pow2(8 - bits) == b / Pow2(8 - bits)
  {
    assert Pow2(bits + (8 - bits)) == 256;
    PartialMaskIsLeftOnes(bits);
    AndMask(a, bits, 8 - bits);
    AndMask(b, bits, 8 - bits);
    QuotientIsInterval(a, b, Pow2(8 - bits));
  }

  lemma DivideWide(n: nat, b: int, p: nat)
    requires 0 <= b < 256 && p >= 1
    ensures (n * 256 + b) / (256 * p) == n / p
  {
    var q := n / p;
    var r := n - q * p;
    assert 0 <= r < p;
    assert q * (256 * p) == (q * p) * 256;
    DivideIs(n * 256 + b, 256 * p, q, r * 256 + b);
  }

  lemma DivideNarrow(n: nat, b: int, m: nat, p: nat)
    requires 0 <= b < 256 && p >= 1 && m * p == 256
    ensures (n * 256 + b) / p == n * m + b / p && 0 <= b / p < m
  {
    var q := b / p;
    var r := b - q * p;
    assert 0 <= r < p;
    assert (n * m + q) * p == n * (m * p) + q * p;
    DivideIs(n * 256 + b, p, n * m + q, r);
    assert q >= m ==> q * p >= m * p;
  }

  lemma PairsInjective(n1: int, q1: int, n2: int, q2: int, m: int)
    requires 0 <= q1 < m && 0 <= q2 < m
    ensures n1 * m + q1 == n2 * m + q2 <==> n1 == n2 && q1 == q2
  {
    assert n1 < n2 ==> (n1 + 1) * m <= n2 * m;
    assert n1 > n2 ==> (n2 + 1) * m <= n1 * m;
  }

  /** The byte scan compares exactly the addresses' first `prefix` bits. */
  lemma {:induction false} ScanIsQuotient(addr: seq<int>, base: seq<int>, prefix: nat)
    requires |addr| == |base| && Bytes(addr) && Bytes(base) && prefix <= 8 * |addr|
    ensures InCidr(addr, base, prefix) <==>
              Number(addr) / Pow2(8 * |addr| - prefix) == Number(base) / Pow2(8 * |addr| - prefix)
    decreases |addr|
  {
    hide InCidr, Number, Pow2;
    var n := |addr| - 1;
    if prefix == 8 * |addr| {
      ScanWhole(addr, base);
    } else if prefix <= 8 * n {
      ScanIsQuotient(addr[..n], base[..n], prefix);
      ScanFront(addr, base, prefix);
      NumberWide(addr, 8 * n - prefix);
      NumberWide(base, 8 * n - prefix);
    } else {
      ScanLastByte(addr, base, prefix - 8 * n);
    }
  }

  lemma ScanWhole(addr: seq<int>, base: seq<int>)
    requires |addr| == |base| && Bytes(addr) && Bytes(base)
    ensures InCidr(addr, base, 8 * |addr|) <==> Number(addr) / Pow2(0) == Number(base) / Pow2(0)
  {
    hide And, PartialMask;
    NumberInjective(addr, base);
    assert addr[..|addr|] == addr && base[..|addr|] == base;
  }

  /** Dividing away a whole byte drops the last one. */
  lemma NumberWide(bytes: seq<int>, k: nat)
    requires bytes != [] && Bytes(bytes)
    ensures Number(bytes) / Pow2(k + 8) == Number(bytes[..|bytes| - 1]) / Pow2(k)
  {
    hide Pow2;
    var n := |bytes| - 1;
    PowOfByte();
    Pow2Adds(8, k);
    DivideWide(Number(bytes[..n]), bytes[n], Pow2(k));
  }

  lemma PowOfByte()
    ensures Pow2(8) == 256
  {
    assert Pow2(4) == 16;
    Pow2Adds(4, 4);
  }

  lemma ScanFront(addr: seq<int>, base: seq<int>, prefix: nat)
    requires |addr| == |base| > 0 && Bytes(addr) && Bytes(base) && prefix <= 8 * (|addr| - 1)
    ensures InCidr(addr, base, prefix) <==> InCidr(addr[..|addr| - 1], base[..|addr| - 1], prefix)
  {
    hide And, PartialMask;
    var n, whole := |addr| - 1, prefix / 8;
    assert addr[..n][..whole] == addr[..whole] && base[..n][..whole] == base[..whole];
  }

  lemma ScanLastByte(addr: seq<int>, base: seq<int>, bits: nat)
    requires |addr| == |base| > 0 && Bytes(addr) && Bytes(base) && 0 < bits < 8
    ensures InCidr(addr, base, 8 * (|addr| - 1) + bits) <==>
              Number(addr) / Pow2(8 - bits) == Number(base) / Pow2(8 - bits)
  {
    hide And, PartialMask, Pow2;
    var n, p, m := |addr| - 1, Pow2(8 - bits), Pow2(bits);
    var prefix := 8 * n + bits;
    assert prefix / 8 == n && prefix % 8 == bits;
    PowOfByte();
    Pow2Adds(bits, 8 - bits);
    ByteTop(addr[n], base[n], bits);
    NumberInjective(addr[..n], base[..n]);
    DivideNarrow(Number(addr[..n]), addr[n], m, p);
    DivideNarrow(Number(base[..n]), base[n], m, p);
    PairsInjective(Number(addr[..n]), addr[n] / p, Number(base[..n]), base[n] / p, m);
  }

  /** The byte scan with its partial mask is interval membership, for every width and prefix. */
  lemma CidrIsInterval(addr: seq<int>, base: seq<int>, prefix: nat)
    requires |addr| == |base| && Bytes(addr) && Bytes(base) && prefix <= 8 * |addr|
    ensures InCidr(addr, base, prefix) <==> InInterval(Number(addr), Number(base), 8 * |addr|, prefix)
  {
    hide Pow2, InCidr, Number;
    ScanIsQuotient(addr, base, prefix);
    QuotientIsInterval(Number(addr), Number(base), Pow2(8 * |addr| - prefix));
  }

  // --- IPv6 verdicts -------------------------------------------------------------------------------------

  datatype Cidr6 = Cidr6(base: seq<int>, prefix: nat)

  predicate WellFormed6(c: Cidr6) { |c.base| == 16 && Bytes(c.base) && c.prefix <= 128 }

  type Range6 = c: Cidr6 | WellFormed6(c) witness Cidr6(Zeros(16), 0)

  const BLOCKED_V6: seq<Range6> :=
    [Cidr6([0x20, 0x01] + Zeros(14), 23), Cidr6([0x20, 0x01, 0x0d, 0xb8] + Zeros(12), 32),
     Cidr6([0x3f, 0xff] + Zeros(14), 20), Cidr6([0x5f, 0x00] + Zeros(14), 16),
     Cidr6([0x26, 0x20, 0x00, 0x4f, 0x80, 0x00] + Zeros(10), 48)]

  const GLOBAL_UNICAST: Range6 := Cidr6([0x20] + Zeros(15), 3)

  predicate AllZero(bytes: seq<int>, start: nat, end: nat)
    requires start <= end <= |bytes|
  {
    forall i :: start <= i < end ==> bytes[i] == 0
  }

  /** The dotted quad printed from four of the bytes. */
  function EmbeddedV4(bytes: seq<int>, start: nat): string
    requires Bytes(bytes) && start + 4 <= |bytes|
  {
    PieceText(Quad(bytes[start..start + 4]))
  }

  predicate BlockedIpv6(bytes: seq<int>)
    requires |bytes| == 16 && Bytes(bytes)
  {
    if AllZero(bytes, 0, 10) && bytes[10] == 0xff && bytes[11] == 0xff then BlockedIpv4(EmbeddedV4(bytes, 12))
    else if AllZero(bytes, 0, 8) && bytes[8] == 0xff && bytes[9] == 0xff && AllZero(bytes, 10, 12) then BlockedIpv4(EmbeddedV4(bytes, 12))
    else if AllZero(bytes, 0, 15) && (bytes[15] == 0 || bytes[15] == 1) then true
    else if AllZero(bytes, 0, 12) then BlockedIpv4(EmbeddedV4(bytes, 12))
    else if bytes[0] == 0x00 && bytes[1] == 0x64 && bytes[2] == 0xff && bytes[3] == 0x9b then true
    else if bytes[0] == 0x20 && bytes[1] == 0x02 then BlockedIpv4(EmbeddedV4(bytes, 2))
    else if And(bytes[0], 0xe0) != 0x20 then true
    else InBlockedV6(bytes)
  }

  predicate InBlockedV6(bytes: seq<int>)
    requires |bytes| == 16 && Bytes(bytes)
  {
    exists i :: 0 <= i < |BLOCKED_V6| && InCidr(bytes, BLOCKED_V6[i].base, BLOCKED_V6[i].prefix)
  }

  /**
   * The IPv4 address an IPv6 address carries: mapped ::ffff:0:0/96, translated ::ffff:0:0:0/96,
   * compatible ::/96, or the endpoint of 6to4 2002::/16.
   */
  function Carried(bytes: seq<int>): (quad: Option<seq<int>>)
    requires |bytes| == 16 && Bytes(bytes)
    ensures quad.Some? ==> |quad.value| == 4 && Bytes(quad.value)
  {
    var mapped := AllZero(bytes, 0, 10) && bytes[10] == 0xff && bytes[11] == 0xff;
    var translated := AllZero(bytes, 0, 8) && bytes[8] == 0xff && bytes[9] == 0xff && AllZero(bytes, 10, 12);
    var compatible := AllZero(bytes, 0, 12);
    if mapped || translated || compatible then Some(bytes[12..16])
    else if bytes[0] == 0x20 && bytes[1] == 0x02 then Some(bytes[2..6])
    else None
  }

  /** The printed quad is judged as its four bytes. */
  lemma EmbeddedVerdict(bytes: seq<int>, start: nat)
    requires Bytes(bytes) && start + 4 <= |bytes|
    ensures BlockedIpv4(EmbeddedV4(bytes, start)) <==> BlockedQuad(bytes[start..start + 4])
  {
    hide Octet, Numeral, BlockedQuad, Ipv4, Join;
    var quad := bytes[start..start + 4];
    forall i | 0 <= i < 4 ensures Octet(Numeral(quad[i], 10)) == Some(quad[i]) { DecimalByte(quad[i]); }
    QuadReads(Quad(quad).parts);
    assert quad == [quad[0], quad[1], quad[2], quad[3]];
  }

  /** The unspecified and the loopback address carry addresses of 0.0.0.0/8, so their branch is no exception. */
  lemma LowAddressesBlocked(quad: seq<int>)
    requires |quad| == 4 && quad[..3] == [0, 0, 0] && 0 <= quad[3] <= 1
    ensures BlockedQuad(quad)
  {
    assert quad[0] == quad[..3][0] && quad[1] == quad[..3][1] && quad[2] == quad[..3][2];
    hide And, Ipv4Mask, InInterval, Pow2, HitsAny;
    var zero := BLOCKED_V4[0];
    assert Number4(quad) == quad[3] && Number4(zero.base) == 0;
    LowInterval(quad[3]);
    MaskIsInterval(Number4(quad), zero);
    HitIsBlocked(quad, 0);
  }

  lemma HitIsBlocked(quad: seq<int>, i: nat)
    requires |quad| == 4 && Bytes(quad) && i < |BLOCKED_V4| && Hits(Number4(quad), BLOCKED_V4[i])
    ensures BlockedQuad(quad)
  {
    hide Hits, Number4;
  }

  lemma LowInterval(x: nat)
    requires x <= 1
    ensures InInterval(x, 0, 32, 8)
  {
    hide Pow2;
    Pow2Positive(24);
    assert Pow2(24) == 2 * Pow2(23) by { DoublePow(23); }
    Pow2Positive(23);
  }

  lemma DoublePow(n: nat)
    ensures Pow2(n + 1) == 2 * Pow2(n)
  {
  }

  /** The test on the first byte is membership of 2000::/3. */
  lemma FirstByteIsGlobalUnicast(bytes: seq<int>)
    requires |bytes| == 16 && Bytes(bytes)
    ensures And(bytes[0], 0xe0) == 0x20 <==> InCidr(bytes, GLOBAL_UNICAST.base, GLOBAL_UNICAST.prefix)
  {
    hide And, PartialMask;
    assert bytes[..0] == GLOBAL_UNICAST.base[..0];
    TopThreeBits();
  }

  lemma TopThreeBits()
    ensures PartialMask(3) == 0xe0 && And(0x20, 0xe0) == 0x20
  {
    assert Pow2(3) == 8 && Pow2(5) == 32;
    PartialMaskIsLeftOnes(3);
    assert Pow2(8) == 256 by { PowOfByte(); }
    AndMask(0x20, 3, 5);
  }

  ghost predicate InRange(bytes: seq<int>, c: Range6)
    requires |bytes| == 16 && Bytes(bytes)
  {
    InInterval(Number(bytes), Number(c.base), 128, c.prefix)
  }

  /**
   * The verdict on every IPv6 address. One that carries an IPv4 address gets that address's verdict;
   * any other is blocked exactly when it lies outside 2000::/3 or inside one of the reserved ranges.
   */
  lemma Ipv6Verdict(bytes: seq<int>)
    requires |bytes| == 16 && Bytes(bytes)
    ensures BlockedIpv6(bytes) <==>
              match Carried(bytes)
              case Some(quad) => BlockedQuad(quad)
              case None => !InRange(bytes, GLOBAL_UNICAST) || exists i :: 0 <= i < |BLOCKED_V6| && InRange(bytes, BLOCKED_V6[i])
  {
    hide And, BlockedQuad, BlockedIpv4, EmbeddedV4, InCidr, InRange, InBlockedV6;
    EmbeddedVerdict(bytes, 12);
    EmbeddedVerdict(bytes, 2);
    if Carried(bytes).Some? {
      if AllZero(bytes, 0, 15) && bytes[15] <= 1 {
        assert bytes[12..16][..3] == [0, 0, 0];
        LowAddressesBlocked(bytes[12..16]);
      }
    } else {
      FirstByteIsGlobalUnicast(bytes);
      RangeIsCidr(bytes, GLOBAL_UNICAST);
      InBlockedIsRanges(bytes);
      if bytes[0] == 0 { LowByteNotGlobal(); }
    }
  }

  lemma LowByteNotGlobal()
    ensures And(0, 0xe0) != 0x20
  {
  }

  lemma RangeIsCidr(bytes: seq<int>, c: Range6)
    requires |bytes| == 16 && Bytes(bytes)
    ensures InRange(bytes, c) <==> InCidr(bytes, c.base, c.prefix)
  {
    CidrIsInterval(bytes, c.base, c.prefix);
  }

  lemma InBlockedIsRanges(bytes: seq<int>)
    requires |bytes| == 16 && Bytes(bytes)
    ensures InBlockedV6(bytes) <==> exists i :: 0 <= i < |BLOCKED_V6| && InRange(bytes, BLOCKED_V6[i])
  {
    hide InCidr, InRange;
    forall i | 0 <= i < |BLOCKED_V6| ensures InRange(bytes, BLOCKED_V6[i]) <==> InCidr(bytes, BLOCKED_V6[i].base, BLOCKED_V6[i].prefix) {
      RangeIsCidr(bytes, BLOCKED_V6[i]);
    }
  }

  /** The entry 5f00::/16 can never decide: it lies outside 2000::/3, which is refused before the list is read. */
  lemma OneEntryIsDead(bytes: seq<int>)
    requires |bytes| == 16 && Bytes(bytes) && InCidr(bytes, BLOCKED_V6[3].base, 16)
    ensures And(bytes[0], 0xe0) != 0x20
  {
    assert bytes[0] == bytes[..2][0] && BLOCKED_V6[3].base[..2][0] == 0x5f;
    assert Pow2(3) == 8 && Pow2(5) == 32;
    PowOfByte();
    AndMask(0x5f, 3, 5);
    assert Mask(3, 5) == 0xe0;
  }
}
