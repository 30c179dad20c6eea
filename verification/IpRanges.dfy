/**
 * The internal and reserved address ranges in plain octets, and the verdict on every address by them.
 */
module IpRanges {
  import opened IpClass
  import opened IpText
  import opened Numerals
  import opened Options

  // --- A prefix in octets ------------------------------------------------------------------------------

  /** The scan compares whole octets, and of the one after them the part above the low bits. */
  lemma ScanBytes(addr: seq<int>, base: seq<int>, whole: nat, bits: nat)
    requires |addr| == |base| && Bytes(addr) && Bytes(base) && bits < 8 && 8 * whole + bits <= 8 * |addr|
    ensures InCidr(addr, base, 8 * whole + bits) <==>
              (forall i :: 0 <= i < whole ==> addr[i] == base[i])
              && (bits == 0 || addr[whole] / Pow2(8 - bits) == base[whole] / Pow2(8 - bits))
  {
    hide And, PartialMask, Pow2;
    assert (8 * whole + bits) / 8 == whole && (8 * whole + bits) % 8 == bits;
    if bits > 0 { ByteTop(addr[whole], base[whole], bits); }
    assert addr[..whole] == base[..whole] <==> forall i :: 0 <= i < whole ==> addr[i] == base[i] by {
      assert forall i :: 0 <= i < whole ==> addr[..whole][i] == addr[i] && base[..whole][i] == base[i];
    }
  }

  lemma NumberOfFour(o: seq<int>)
    requires |o| == 4 && Bytes(o)
    ensures Number(o) == Number4(o)
  {
    hide Pow2;
    var three, two, one := o[..3], o[..2], o[..1];
    assert three[..2] == two && two[..1] == one && one[..0] == [];
    assert Number(one) == o[0] && Number(two) == o[0] * 256 + o[1];
    assert Number(three) == (o[0] * 256 + o[1]) * 256 + o[2];
  }

  /** The mask test on packed numbers is the scan of octets. */
  lemma HitIsScan(o: seq<int>, c: Range4)
    requires |o| == 4 && Bytes(o)
    ensures Hits(Number4(o), c) <==> InCidr(o, c.base, c.prefix)
  {
    hide Hits, InCidr, Number, Number4, Pow2, InInterval;
    NumberOfFour(o);
    NumberOfFour(c.base);
    MaskIsInterval(Number4(o), c);
    CidrIsInterval(o, c.base, c.prefix);
  }

  lemma Powers()
    ensures Pow2(1) == 2 && Pow2(4) == 16 && Pow2(5) == 32 && Pow2(6) == 64 && Pow2(7) == 128
  {
    assert Pow2(2) == 4 && Pow2(3) == 8;
  }

  // --- IPv4 --------------------------------------------------------------------------------------------

  /** Internal and reserved IPv4 addresses. */
  predicate Internal(a: int, b: int, c: int, d: int) {
    || a == 0 || a == 10 || a == 127                  // this network, private, loopback
    || (a == 100 && 64 <= b < 128)                    // shared address space
    || (a == 169 && b == 254)                         // link-local
    || (a == 172 && 16 <= b < 32)                     // private
    || (a == 192 && b == 168)                         // private
    || (a == 192 && b == 0 && (c == 0 || c == 2))     // protocol assignments, documentation
    || (a == 198 && 18 <= b < 20)                     // benchmarking
    || (a == 198 && b == 51 && c == 100)              // documentation
    || (a == 203 && b == 0 && c == 113)               // documentation
    || 224 <= a                                       // multicast, reserved
  }

  /** Entry `i` of the list, in octets. */
  predicate Entry(i: nat, a: int, b: int, c: int) {
    match i
    case 0 => a == 0
    case 1 => a == 10
    case 2 => a == 100 && b / 64 == 1
    case 3 => a == 127
    case 4 => a == 169 && b == 254
    case 5 => a == 172 && b / 16 == 1
    case 6 => a == 192 && b == 0 && c == 0
    case 7 => a == 192 && b == 0 && c == 2
    case 8 => a == 192 && b == 168
    case 9 => a == 198 && b / 2 == 9
    case 10 => a == 198 && b == 51 && c == 100
    case 11 => a == 203 && b == 0 && c == 113
    case 12 => a / 16 == 14
    case _ => a / 16 == 15
  }

  /** A scan of up to three octets and a part of the next. */
  lemma ScanOctets(o: seq<int>, base: seq<int>, prefix: nat)
    requires |o| == |base| == 4 && Bytes(o) && Bytes(base) && prefix in {4, 8, 10, 12, 15, 16, 24}
    ensures InCidr(o, base, prefix) <==>
              match prefix
              case 4 => o[0] / 16 == base[0] / 16
              case 8 => o[0] == base[0]
              case 10 => o[0] == base[0] && o[1] / 64 == base[1] / 64
              case 12 => o[0] == base[0] && o[1] / 16 == base[1] / 16
              case 15 => o[0] == base[0] && o[1] / 2 == base[1] / 2
              case 16 => o[0] == base[0] && o[1] == base[1]
              case _ => o[0] == base[0] && o[1] == base[1] && o[2] == base[2]
  {
    hide InCidr, Pow2;
    Powers();
    ScanBytes(o, base, prefix / 8, prefix % 8);
  }

  lemma EntryIsScan(o: seq<int>, i: nat)
    requires |o| == 4 && Bytes(o) && i < |BLOCKED_V4|
    ensures InCidr(o, BLOCKED_V4[i].base, BLOCKED_V4[i].prefix) <==> Entry(i, o[0], o[1], o[2])
  {
    hide InCidr, Bytes;
    EntryPrefix(i);
    ScanOctets(o, BLOCKED_V4[i].base, BLOCKED_V4[i].prefix);
  }

  lemma EntryPrefix(i: nat)
    requires i < |BLOCKED_V4|
    ensures BLOCKED_V4[i].prefix in {4, 8, 10, 12, 15, 16, 24} && Bytes(BLOCKED_V4[i].base)
  {
  }

  lemma EntriesAreInternal(a: int, b: int, c: int, d: int)
    requires 0 <= a < 256 && 0 <= b < 256 && 0 <= c < 256
    ensures Internal(a, b, c, d) <==> exists i: nat :: i < 14 && Entry(i, a, b, c)
  {
    assert Internal(a, b, c, d) ==>
      || Entry(0, a, b, c) || Entry(1, a, b, c) || Entry(2, a, b, c) || Entry(3, a, b, c) || Entry(4, a, b, c)
      || Entry(5, a, b, c) || Entry(6, a, b, c) || Entry(7, a, b, c) || Entry(8, a, b, c) || Entry(9, a, b, c)
      || Entry(10, a, b, c) || Entry(11, a, b, c) || Entry(12, a, b, c) || Entry(13, a, b, c);
  }

  /** An IPv4 address is refused exactly when it is internal or reserved. */
  lemma InternalExactly(o: seq<int>)
    requires |o| == 4 && Bytes(o)
    ensures BlockedQuad(o) <==> Internal(o[0], o[1], o[2], o[3])
  {
    hide Hits, InCidr, Number4, Entry, Internal;
    assert |BLOCKED_V4| == 14;
    forall i: nat | i < |BLOCKED_V4| ensures Hits(Number4(o), BLOCKED_V4[i]) <==> Entry(i, o[0], o[1], o[2]) {
      HitIsScan(o, BLOCKED_V4[i]);
      EntryIsScan(o, i);
    }
    EntriesAreInternal(o[0], o[1], o[2], o[3]);
    if i: nat :| i < 14 && Entry(i, o[0], o[1], o[2]) {
      HitIsBlocked(o, i);
    }
  }

  // --- IPv6 --------------------------------------------------------------------------------------------

  /** Reserved ranges, in bytes. */
  predicate Reserved(b: seq<int>)
    requires |b| == 16
  {
    || (b[0] == 0x20 && b[1] == 0x01 && b[2] < 2)                                       // protocol assignments
    || (b[0] == 0x20 && b[1] == 0x01 && b[2] == 0x0d && b[3] == 0xb8)                   // documentation
    || (b[0] == 0x3f && b[1] == 0xff && b[2] < 0x10)                                    // documentation
    || (b[0] == 0x5f && b[1] == 0x00)                                                   // segment routing
    || (b[0] == 0x26 && b[1] == 0x20 && b[2] == 0 && b[3] == 0x4f && b[4] == 0x80 && b[5] == 0) // direct delegation
  }

  lemma ReservedExactly(b: seq<int>)
    requires |b| == 16 && Bytes(b)
    ensures InBlockedV6(b) <==> Reserved(b)
  {
    hide InCidr, Pow2;
    Powers();
    ScanBytes(b, BLOCKED_V6[0].base, 2, 7);
    ScanBytes(b, BLOCKED_V6[1].base, 4, 0);
    ScanBytes(b, BLOCKED_V6[2].base, 2, 4);
    ScanBytes(b, BLOCKED_V6[3].base, 2, 0);
    ScanBytes(b, BLOCKED_V6[4].base, 6, 0);
    assert |BLOCKED_V6| == 5;
    assert BLOCKED_V6[0].prefix == 23 && BLOCKED_V6[1].prefix == 32 && BLOCKED_V6[2].prefix == 20;
    assert BLOCKED_V6[3].prefix == 16 && BLOCKED_V6[4].prefix == 48;
  }

  predicate Zeroes(b: seq<int>, n: nat)
    requires n <= |b|
  {
    forall i :: 0 <= i < n ==> b[i] == 0
  }

  /**
   * The verdict on every IPv6 address, in bytes: one that is mapped, translated or compatible goes by its
   * last four bytes, a 6to4 one by the four behind its prefix, and of the others those that begin with the
   * bits 001 and are not reserved are let through.
   */
  lemma VerdictInBytes(b: seq<int>)
    requires |b| == 16 && Bytes(b)
    ensures BlockedIpv6(b) <==>
              if (Zeroes(b, 10) && b[10] == 0xff && b[11] == 0xff)
                 || (Zeroes(b, 8) && b[8] == 0xff && b[9] == 0xff && b[10] == 0 && b[11] == 0) || Zeroes(b, 12)
              then Internal(b[12], b[13], b[14], b[15])
              else if b[0] == 0x20 && b[1] == 0x02 then Internal(b[2], b[3], b[4], b[5])
              else !(0x20 <= b[0] < 0x40) || Reserved(b)
  {
    hide BlockedIpv6, InCidr, InRange, Pow2, Internal, Reserved, BlockedQuad, InBlockedV6;
    Ipv6Verdict(b);
    InternalExactly(b[12..16]);
    InternalExactly(b[2..6]);
    ReservedExactly(b);
    InBlockedIsRanges(b);
    RangeIsCidr(b, GLOBAL_UNICAST);
    Powers();
    ScanBytes(b, GLOBAL_UNICAST.base, 0, 3);
    assert GLOBAL_UNICAST.base[0] == 0x20 && GLOBAL_UNICAST.prefix == 3;
  }
}
