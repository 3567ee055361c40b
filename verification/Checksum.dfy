/** The Internet checksum (section 1 of RFC 1071) as the agent computes it, on hosts of either byte order. */
module Checksum {
  import opened Basics

  // The 16-bit number a host reads from two consecutive bytes.
  function Word(a: byte, b: byte, little: bool): nat {
    if little then a + 0x100 * b else 0x100 * a + b
  }

  // Sum of the words of a byte string, padded with a zero byte when its length is odd.
  function WordSum(s: seq<byte>, little: bool): nat {
    if s == [] then 0
    else if |s| == 1 then Word(s[0], 0, little)
    else Word(s[0], s[1], little) + WordSum(s[2..], little)
  }

  // The one's complement sum of 16-bit words adding up to `sum`: 0 for nothing, else in 1 .. 0xFFFF.
  function OnesSum(sum: nat): (r: nat)
    ensures r < 0x1_0000 && (r == 0 <==> sum == 0)
  {
    if sum == 0 then 0 else (sum - 1) % 0xFFFF + 1
  }

  /** `OnesSum` is the only 16-bit number that is congruent to the sum and 0 for 0 alone. */
  lemma OnesSumUnique(sum: nat, r: nat)
    requires r < 0x1_0000 && (r == 0 <==> sum == 0) && r % 0xFFFF == sum % 0xFFFF
    ensures r == OnesSum(sum)
  {
  }

  /** Folding the carries back in keeps the sum modulo 0xFFFF and ends in 16 bits (checksum.c:20-22). */
  method Fold(sum: nat) returns (r: nat)
    ensures r == OnesSum(sum)
  {
    r := sum;
    while r / 0x1_0000 != 0
      invariant r % 0xFFFF == sum % 0xFFFF && (r == 0 <==> sum == 0)
      decreases r
    {
      r := r % 0x1_0000 + r / 0x1_0000;
    }
    OnesSumUnique(sum, r);
  }

  // The low 16 bits of the complement (checksum.c:24-25).
  function Complement(r: nat): nat
    requires r < 0x1_0000
  {
    0xFFFF - r
  }

  /** The word loop (checksum.c:11-18): `init` plus every word, the odd byte read as if a zero followed it. */
  method AddWords(buf: array<byte>, count: nat, init: nat, little: bool) returns (sum: nat)
    requires count <= buf.Length
    ensures sum == init + WordSum(buf[..count], little)
  {
    sum := init;
    var at, left := 0, count;
    assert buf[0..count] == buf[..count];
    while left > 1
      invariant at + left == count
      invariant sum + WordSum(buf[at..count], little) == init + WordSum(buf[..count], little)
    {
      assert buf[at..count][2..] == buf[at + 2..count];
      sum := sum + Word(buf[at], buf[at + 1], little);
      at := at + 2;
      left := left - 2;
    }
    if left > 0 {
      sum := sum + Word(buf[at], 0, little);
    }
  }

  // compute_checksum, checksum.c:9-26
  method ComputeChecksum(buf: array<byte>, count: nat, little: bool) returns (c: nat)
    requires count <= buf.Length
    ensures c == Complement(OnesSum(WordSum(buf[..count], little)))
  {
    var sum := AddWords(buf, count, 0, little);
    var r := Fold(sum);
    c := Complement(r);
  }

  // ---- storing a checksum

  function ByteA(w: nat, little: bool): byte
    requires w < 0x1_0000
  {
    if little then w % 0x100 else w / 0x100
  }

  function ByteB(w: nat, little: bool): byte
    requires w < 0x1_0000
  {
    if little then w / 0x100 else w % 0x100
  }

  // A header with the 16-bit field at `at` set to `w`.
  function WithField(s: seq<byte>, at: nat, w: nat, little: bool): seq<byte>
    requires at + 1 < |s| && w < 0x1_0000
  {
    s[at := ByteA(w, little)][at + 1 := ByteB(w, little)]
  }

  /** Setting an aligned field that was zero adds its value to the sum. */
  lemma {:induction false} FieldAdds(s: seq<byte>, at: nat, w: nat, little: bool)
    requires at + 1 < |s| && at % 2 == 0 && w < 0x1_0000
    ensures WordSum(WithField(s, at, w, little), little) == WordSum(WithField(s, at, 0, little), little) + w
    decreases at
  {
    var a, b := WithField(s, at, w, little), WithField(s, at, 0, little);
    if at == 0 {
      assert a[2..] == b[2..];
    } else {
      FieldAdds(s[2..], at - 2, w, little);
      assert a[2..] == WithField(s[2..], at - 2, w, little);
      assert b[2..] == WithField(s[2..], at - 2, 0, little);
    }
  }

  /** A checksum and the sum it was made from add up to a full word of ones. */
  lemma SumsToOnes(sum: nat)
    ensures OnesSum(sum + Complement(OnesSum(sum))) == 0xFFFF
    ensures OnesSum(sum + 0xFFFF) == 0xFFFF <==> sum % 0xFFFF == 0
  {
    OnesSumUnique(sum, OnesSum(sum));
    OnesSumUnique(sum + Complement(OnesSum(sum)), 0xFFFF);
  }

  method StoreField(buf: array<byte>, at: nat, w: nat, little: bool)
    requires at + 1 < buf.Length && w < 0x1_0000
    modifies buf
    ensures buf[..] == WithField(old(buf[..]), at, w, little)
  {
    buf[at] := ByteA(w, little);
    buf[at + 1] := ByteB(w, little);
  }

  lemma FieldTwice(s: seq<byte>, at: nat, v: nat, w: nat, little: bool)
    requires at + 1 < |s| && v < 0x1_0000 && w < 0x1_0000
    ensures WithField(WithField(s, at, v, little), at, w, little) == WithField(s, at, w, little)
  {
  }

  lemma FieldPrefix(s: seq<byte>, at: nat, w: nat, count: nat, little: bool)
    requires at + 1 < count <= |s| && w < 0x1_0000
    ensures WithField(s, at, w, little)[..count] == WithField(s[..count], at, w, little)
  {
  }

  // ---- IP

  const IP_CHECK: nat := 10   // offset of the Header Checksum, section 3.1 of RFC 791

  // The sum of an IP header with its checksum field cleared.
  function IpSum(s: seq<byte>, ihl: nat, little: bool): nat
    requires 5 <= ihl <= 15 && 4 * ihl <= |s|
  {
    WordSum(WithField(s[..4 * ihl], IP_CHECK, 0, little), little)
  }

  /** compute_ip_checksum (checksum.c:29-32) sets the field, touches nothing else, and the header then validates. */
  method ComputeIpChecksum(hdr: array<byte>, ihl: nat, little: bool)
    requires 5 <= ihl <= 15 && 4 * ihl <= hdr.Length
    modifies hdr
    ensures hdr[..] == WithField(old(hdr[..]), IP_CHECK, Complement(OnesSum(IpSum(old(hdr[..]), ihl, little))), little)
    ensures OnesSum(WordSum(hdr[..4 * ihl], little)) == 0xFFFF
  {
    ghost var s, n := hdr[..], 4 * ihl;
    StoreField(hdr, IP_CHECK, 0, little);
    FieldPrefix(s, IP_CHECK, 0, n, little);
    assert hdr[..n] == hdr[..][..n];
    var c := ComputeChecksum(hdr, ihl * 4, little);
    StoreField(hdr, IP_CHECK, c, little);
    FieldTwice(s, IP_CHECK, 0, c, little);
    FieldPrefix(s, IP_CHECK, c, n, little);
    assert hdr[..n] == hdr[..][..n];
    FieldAdds(s[..n], IP_CHECK, c, little);
    SumsToOnes(IpSum(s, ihl, little));
  }

  /** validate_ip_checksum (checksum.c:35-38) returns 0 for exactly the headers whose words sum to ones. */
  method ValidateIpChecksum(hdr: array<byte>, ihl: nat, little: bool) returns (ret: nat)
    requires 5 <= ihl <= 15 && 4 * ihl <= hdr.Length
    ensures ret == 0 <==> OnesSum(WordSum(hdr[..4 * ihl], little)) == 0xFFFF
  {
    ret := ComputeChecksum(hdr, ihl * 4, little);
  }

  /** Setting the checksum of any header makes it valid. */
  method IpRoundTrip(hdr: array<byte>, ihl: nat, little: bool) returns (ret: nat)
    requires 5 <= ihl <= 15 && 4 * ihl <= hdr.Length
    modifies hdr
    ensures ret == 0
  {
    ComputeIpChecksum(hdr, ihl, little);
    ret := ValidateIpChecksum(hdr, ihl, little);
  }

  /** Changing the checksum field of a valid header by anything but a swap of the two zeros makes it invalid. */
  lemma OnlyTheChecksumValidates(s: seq<byte>, c: nat, d: nat, little: bool)
    requires |s| >= 20 && c < 0x1_0000 && d < 0x1_0000
    requires OnesSum(WordSum(WithField(s, IP_CHECK, c, little), little)) == 0xFFFF
    requires OnesSum(WordSum(WithField(s, IP_CHECK, d, little), little)) == 0xFFFF
    ensures c == d || (c == 0 && d == 0xFFFF) || (c == 0xFFFF && d == 0)
  {
    FieldAdds(s, IP_CHECK, c, little);
    FieldAdds(s, IP_CHECK, d, little);
    SameResidue(WordSum(WithField(s, IP_CHECK, 0, little), little), c, d);
  }

  lemma SameResidue(base: nat, c: nat, d: nat)
    requires c < 0x1_0000 && d < 0x1_0000 && OnesSum(base + c) == 0xFFFF && OnesSum(base + d) == 0xFFFF
    ensures c == d || (c == 0 && d == 0xFFFF) || (c == 0xFFFF && d == 0)
  {
    var p, q := (base + c) / 0xFFFF, (base + d) / 0xFFFF;
    assert base + c == 0xFFFF * p by { OnesMultiple(base + c); }
    assert base + d == 0xFFFF * q by { OnesMultiple(base + d); }
    assert c - d == 0xFFFF * (p - q);
  }

  lemma OnesMultiple(sum: nat)
    requires OnesSum(sum) == 0xFFFF
    ensures sum == 0xFFFF * (sum / 0xFFFF)
  {
    assert (sum - 1) % 0xFFFF == 0xFFFE;
  }

  // ---- fields and pseudo header of UDP and TCP

  const UDP_CHECK: nat := 6    // offset of the Checksum field, RFC 768
  const TCP_CHECK: nat := 16   // offset of the Checksum field in struct tcphdr
  const IPPROTO_TCP: byte := 6
  const IPPROTO_UDP: byte := 17

  // The pseudo header: both addresses, the protocol behind a zero byte, and the length as it is on the wire.
  function PseudoHeader(src: seq<byte>, dst: seq<byte>, protocol: byte, length: seq<byte>): seq<byte>
    requires |src| == 4 && |dst| == 4 && |length| == 2
  {
    src + dst + [0, protocol] + length
  }

  /** The layout of the pseudo header in RFC 768: 12 bytes, with a zero byte before the protocol. */
  lemma PseudoLayout(src: seq<byte>, dst: seq<byte>, protocol: byte, length: seq<byte>)
    requires |src| == 4 && |dst| == 4 && |length| == 2
    ensures var p := PseudoHeader(src, dst, protocol, length);
      && |p| == 12 && p[..4] == src && p[4..8] == dst && p[8] == 0 && p[9] == protocol && p[10..] == length
  {
  }

  // The halves of a 32-bit address as the host sees it (checksum.c:87-91).
  function AddressHalves(a: seq<byte>, little: bool): nat
    requires |a| == 4
  {
    var a0: int, a1: int, a2: int, a3: int := a[0], a[1], a[2], a[3];
    var value := if little then a0 + 0x100 * a1 + 0x1_0000 * a2 + 0x100_0000 * a3
                 else 0x100_0000 * a0 + 0x1_0000 * a1 + 0x100 * a2 + a3;
    (value / 0x1_0000) % 0x1_0000 + value % 0x1_0000
  }

  lemma HalvesAreWords(a: seq<byte>, little: bool)
    requires |a| == 4
    ensures AddressHalves(a, little) == Word(a[0], a[1], little) + Word(a[2], a[3], little)
  {
    var first, second := Word(a[0], a[1], little), Word(a[2], a[3], little);
    if little { Halves(second, first); } else { Halves(first, second); }
  }

  lemma Halves(hi: nat, lo: nat)
    requires hi < 0x1_0000 && lo < 0x1_0000
    ensures var value := 0x1_0000 * hi + lo; value / 0x1_0000 == hi && value % 0x1_0000 == lo && hi % 0x1_0000 == hi
  {
  }

  lemma PseudoSum(src: seq<byte>, dst: seq<byte>, protocol: byte, length: seq<byte>, little: bool)
    requires |src| == 4 && |dst| == 4 && |length| == 2
    ensures WordSum(PseudoHeader(src, dst, protocol, length), little)
         == AddressHalves(src, little) + AddressHalves(dst, little)
            + Word(0, protocol, little) + Word(length[0], length[1], little)
  {
    HalvesAreWords(src, little);
    HalvesAreWords(dst, little);
    var pl := [0, protocol] + length;
    EvenAppend(src, dst + pl, little);
    EvenAppend(dst, pl, little);
    EvenAppend([0, protocol], length, little);
    assert PseudoHeader(src, dst, protocol, length) == src + (dst + pl);
    FourBytes(src, little);
    FourBytes(dst, little);
    TwoBytes([0, protocol], little);
    TwoBytes(length, little);
  }

  lemma TwoBytes(s: seq<byte>, little: bool)
    requires |s| == 2
    ensures WordSum(s, little) == Word(s[0], s[1], little)
  {
    assert s[2..] == [];
  }

  lemma FourBytes(s: seq<byte>, little: bool)
    requires |s| == 4
    ensures WordSum(s, little) == Word(s[0], s[1], little) + Word(s[2], s[3], little)
  {
    TwoBytes(s[2..], little);
  }

  /** The sum of a string that follows an even number of bytes adds to theirs. */
  lemma {:induction false} EvenAppend(a: seq<byte>, b: seq<byte>, little: bool)
    requires |a| % 2 == 0
    ensures WordSum(a + b, little) == WordSum(a, little) + WordSum(b, little)
  {
    if a == [] {
      assert a + b == b;
    } else {
      EvenAppend(a[2..], b, little);
      assert (a + b)[2..] == a[2..] + b;
    }
  }

  // ---- what the sum means

  // The sum of every other byte, from the first on or from the second.
  function Every(s: seq<byte>, thisOne: bool): nat {
    if s == [] then 0 else (if thisOne then s[0] else 0) + Every(s[1..], !thisOne)
  }

  /** Each byte counts once: those at even places as the high half of a word on a host that stores that half first, and
      as the low half on the other kind, the last byte of an odd number included. */
  lemma {:induction false} WordSumIsWeighted(s: seq<byte>)
    ensures WordSum(s, false) == 0x100 * Every(s, true) + Every(s, false)
    ensures WordSum(s, true) == Every(s, true) + 0x100 * Every(s, false)
  {
    if |s| == 1 {
      assert s[1..] == [];
    } else if s != [] {
      WordSumIsWeighted(s[2..]);
      assert s[1..][1..] == s[2..];
    }
  }

  // A string of odd length is followed by a zero byte (section 1 of RFC 1071, and RFC 768).
  function Padded(s: seq<byte>): seq<byte> { if |s| % 2 == 1 then s + [0] else s }

  /** A last single byte counts as if a zero byte followed it. */
  lemma PaddingIsZero(s: seq<byte>, little: bool)
    ensures WordSum(Padded(s), little) == WordSum(s, little)
  {
    if |s| % 2 == 1 {
      WordSumIsWeighted(s);
      WordSumIsWeighted(s + [0]);
      EveryAppendZero(s, true);
      EveryAppendZero(s, false);
    }
  }

  lemma {:induction false} EveryAppendZero(s: seq<byte>, thisOne: bool)
    ensures Every(s + [0], thisOne) == Every(s, thisOne)
    decreases |s|
  {
    if s == [] {
      assert (s + [0])[1..] == [];
    } else {
      EveryAppendZero(s[1..], !thisOne);
      assert (s + [0])[1..] == s[1..] + [0];
    }
  }

  function Swapped(w: nat): nat
    requires w < 0x1_0000
  {
    0x100 * (w % 0x100) + w / 0x100
  }

  /** Byte order independence (section 2 (B) of RFC 1071): hosts of the two kinds get the same sum with its bytes
      swapped, so that the bytes they store are the same. */
  lemma ByteOrderIndependent(s: seq<byte>)
    ensures OnesSum(WordSum(s, false)) == Swapped(OnesSum(WordSum(s, true)))
  {
    WordSumIsWeighted(s);
    SwapsToo(WordSum(s, false), WordSum(s, true), Every(s, false));
  }

  lemma SwapsToo(big: nat, small: nat, odd: nat)
    requires 0x100 * small == big + 0xFFFF * odd && (big == 0 <==> small == 0)
    ensures OnesSum(big) == Swapped(OnesSum(small))
  {
    var r := OnesSum(small);
    var k := if small == 0 then 0 else (small - 1) / 0xFFFF;
    assert small == r + 0xFFFF * k;
    assert 0x100 * r == Swapped(r) + 0xFFFF * (r / 0x100);
    assert Swapped(r) == big + 0xFFFF * (odd - 0x100 * k - r / 0x100);
    SameModOnes(Swapped(r), big, odd - 0x100 * k - r / 0x100);
    OnesSumUnique(big, Swapped(r));
  }

  lemma SameModOnes(a: nat, b: nat, k: int)
    requires a == b + 0xFFFF * k
    ensures a % 0xFFFF == b % 0xFFFF
  {
  }

  /** The example of section 3 of RFC 1071. */
  lemma RfcExample()
    ensures var s: seq<byte> := [0x00, 0x01, 0xF2, 0x03, 0xF4, 0xF5, 0xF6, 0xF7];
      OnesSum(WordSum(s, false)) == 0xDDF2 && OnesSum(WordSum(s, true)) == 0xF2DD
  {
    var s: seq<byte> := [0x00, 0x01, 0xF2, 0x03, 0xF4, 0xF5, 0xF6, 0xF7];
    assert s[2..] == [0xF2, 0x03, 0xF4, 0xF5, 0xF6, 0xF7] && s[2..][2..] == [0xF4, 0xF5, 0xF6, 0xF7];
    assert s[2..][2..][2..] == [0xF6, 0xF7];
    TwoBytes(s[2..][2..][2..], false);
    TwoBytes(s[2..][2..][2..], true);
    assert WordSum(s[2..][2..], false) == 0x1_EBEC;
    assert WordSum(s[2..][2..], true) == 0x1_EDEA;
  }

  // ---- UDP and TCP datagrams

  // A receiver accepts a datagram when the pseudo header and the datagram, padded to whole words, sum to ones
  // (RFC 768).
  ghost predicate Verifies(pseudo: seq<byte>, datagram: seq<byte>, little: bool) {
    OnesSum(WordSum(pseudo + Padded(datagram), little)) == 0xFFFF
  }

  lemma VerifiesSum(pseudo: seq<byte>, datagram: seq<byte>, little: bool)
    requires |pseudo| % 2 == 0
    ensures Verifies(pseudo, datagram, little)
       <==> OnesSum(WordSum(pseudo, little) + WordSum(datagram, little)) == 0xFFFF
  {
    hide WordSum, OnesSum, Padded;
    EvenAppend(pseudo, Padded(datagram), little);
    PaddingIsZero(datagram, little);
  }

  /** A datagram that verifies on one kind of host verifies on the other. */
  lemma VerifiesAnywhere(pseudo: seq<byte>, datagram: seq<byte>)
    ensures Verifies(pseudo, datagram, false) <==> Verifies(pseudo, datagram, true)
  {
    ByteOrderIndependent(pseudo + Padded(datagram));
    OnesSwapped(OnesSum(WordSum(pseudo + Padded(datagram), true)));
  }

  lemma OnesSwapped(w: nat)
    requires w < 0x1_0000
    ensures Swapped(w) == 0xFFFF <==> w == 0xFFFF
  {
  }

  // The two loops shared by the UDP and the TCP form: clear the field, sum, fold, complement.
  method SegmentChecksum(seg: array<byte>, len: nat, pseudo: nat, at: nat, little: bool) returns (c: nat)
    requires at % 2 == 0 && at + 1 < len <= seg.Length
    modifies seg
    ensures seg[..] == WithField(old(seg[..]), at, 0, little)
    ensures c == Complement(OnesSum(pseudo + WordSum(WithField(old(seg[..len]), at, 0, little), little)))
  {
    ghost var s := seg[..];
    StoreField(seg, at, 0, little);
    FieldPrefix(s, at, 0, len, little);
    assert seg[..len] == seg[..][..len] && s[..len] == old(seg[..len]);
    var sum := AddWords(seg, len, pseudo, little);
    var r := Fold(sum);
    c := Complement(r);
  }

  lemma SegmentVerifies(s: seq<byte>, pseudo: seq<byte>, at: nat, c: nat, little: bool)
    requires at % 2 == 0 && at + 1 < |s| && c < 0x1_0000 && |pseudo| % 2 == 0
    requires var x := Complement(OnesSum(WordSum(pseudo, little) + WordSum(WithField(s, at, 0, little), little)));
      c == x || (x == 0 && c == 0xFFFF)
    ensures Verifies(pseudo, WithField(s, at, c, little), false) && Verifies(pseudo, WithField(s, at, c, little), true)
  {
    hide WordSum, Verifies, Padded, OnesSum;
    VerifiesSum(pseudo, WithField(s, at, c, little), little);
    VerifiesAnywhere(pseudo, WithField(s, at, c, little));
    var base := WordSum(pseudo, little) + WordSum(WithField(s, at, 0, little), little);
    FieldAdds(s, at, c, little);
    CompletesToOnes(base, c);
  }

  lemma CompletesToOnes(sum: nat, c: nat)
    requires c == Complement(OnesSum(sum)) || (Complement(OnesSum(sum)) == 0 && c == 0xFFFF)
    ensures OnesSum(sum + c) == 0xFFFF
  {
    SumsToOnes(sum);
    if c == 0xFFFF && Complement(OnesSum(sum)) == 0 { FullIsZero(sum); }
  }

  lemma FullIsZero(sum: nat)
    requires OnesSum(sum) == 0xFFFF
    ensures sum % 0xFFFF == 0
  {
  }

  /** compute_udp_checksum (checksum.c:79-119): the datagram verifies, whatever its length, and its checksum is
      never 0, which would mean that none was computed. */
  method ComputeUdpChecksum(src: seq<byte>, dst: seq<byte>, seg: array<byte>, little: bool)
    requires |src| == 4 && |dst| == 4 && seg.Length >= 8
    requires 8 <= Word(seg[4], seg[5], false) <= seg.Length
    modifies seg
    ensures var len := Word(old(seg[4]), old(seg[5]), false);
      && (forall host :: Verifies(PseudoHeader(src, dst, IPPROTO_UDP, old(seg[4..6])), seg[..len], host))
      && exists c: nat :: 0 < c < 0x1_0000 && seg[..] == WithField(old(seg[..]), UDP_CHECK, c, little)
  {
    hide WordSum, Verifies, OnesSum;
    ghost var s, length := seg[..], seg[4..6];
    var udpLen := Word(seg[4], seg[5], false);
    var sum := AddressHalves(src, little) + AddressHalves(dst, little)
      + Word(0, IPPROTO_UDP, little) + Word(seg[4], seg[5], little);
    PseudoSum(src, dst, IPPROTO_UDP, length, little);
    var c := SegmentChecksum(seg, udpLen, sum, UDP_CHECK, little);
    c := if c == 0 then 0xFFFF else c;
    StoreField(seg, UDP_CHECK, c, little);
    FieldTwice(s, UDP_CHECK, 0, c, little);
    FieldPrefix(s, UDP_CHECK, c, udpLen, little);
    assert seg[..udpLen] == seg[..][..udpLen];
    SegmentVerifies(s[..udpLen], PseudoHeader(src, dst, IPPROTO_UDP, length), UDP_CHECK, c, little);
  }

  /** compute_tcp_checksum (checksum.c:41-76), with no substitution for 0. */
  method ComputeTcpChecksum(src: seq<byte>, dst: seq<byte>, totLen: nat, ihl: nat, seg: array<byte>, little: bool)
    requires |src| == 4 && |dst| == 4 && 5 <= ihl <= 15
    requires 4 * ihl + 20 <= totLen < 0x1_0000 && totLen - 4 * ihl <= seg.Length
    modifies seg
    ensures var len := totLen - 4 * ihl;
      && (forall host :: Verifies(PseudoHeader(src, dst, IPPROTO_TCP, [len / 0x100, len % 0x100]), seg[..len], host))
      && exists c: nat :: c < 0x1_0000 && seg[..] == WithField(old(seg[..]), TCP_CHECK, c, little)
  {
    hide WordSum, Verifies, OnesSum;
    ghost var s := seg[..];
    var tcpLen := totLen - ihl * 4;
    var a: byte, b: byte := tcpLen / 0x100, tcpLen % 0x100;
    var sum := AddressHalves(src, little) + AddressHalves(dst, little)
      + Word(0, IPPROTO_TCP, little) + Word(a, b, little);
    PseudoSum(src, dst, IPPROTO_TCP, [a, b], little);
    var c := SegmentChecksum(seg, tcpLen, sum, TCP_CHECK, little);
    StoreField(seg, TCP_CHECK, c, little);
    FieldTwice(s, TCP_CHECK, 0, c, little);
    FieldPrefix(s, TCP_CHECK, c, tcpLen, little);
    assert seg[..tcpLen] == seg[..][..tcpLen];
    SegmentVerifies(s[..tcpLen], PseudoHeader(src, dst, IPPROTO_TCP, [a, b]), TCP_CHECK, c, little);
  }
}
