/** net/ipv4.c: the Internet checksum as the little-endian machine computes it, against its definition on
    big-endian words (sections 1 and 2 of RFC 1071). */
module Checksum {
  import opened Base

  const ONES: int := 0xFFFF

  type Bytes = seq<byte>

  // ---- one's complement sums

  /** x folded to 16 bits: the same residue, and 0 only for 0. */
  function Fold(x: nat): (r: nat)
    ensures r <= ONES && (r == 0 <==> x == 0)
  {
    if x == 0 then 0 else (x - 1) % ONES + 1
  }

  predicate Cong(a: int, b: int) { a % ONES == b % ONES }

  lemma FoldCong(x: nat)
    ensures Cong(Fold(x), x)
  {
    if x > 0 {
      assert x - 1 == ONES * ((x - 1) / ONES) + (x - 1) % ONES;
      CongPlus((x - 1) % ONES + 1, (x - 1) / ONES);
    }
  }

  /** A folded sum is known by its residue and by whether it is 0. */
  lemma FoldUnique(x: nat, r: nat)
    requires r <= ONES && (r == 0 <==> x == 0) && Cong(r, x)
    ensures r == Fold(x)
  {
    FoldCong(x);
  }

  lemma CongPlus(x: int, q: int)
    ensures Cong(x + ONES * q, x)
  {
    var y := x + ONES * q;
    assert y == ONES * (x / ONES + q) + x % ONES;
    ModUnique(y, x / ONES + q, x % ONES);
  }

  lemma ModUnique(y: int, q: int, r: int)
    requires y == ONES * q + r && 0 <= r < ONES
    ensures y % ONES == r
  {
  }

  lemma CongAdd(a: int, b: int, c: int, d: int)
    requires Cong(a, b) && Cong(c, d)
    ensures Cong(a + c, b + d)
  {
    assert a + c == b + d + ONES * ((a / ONES - b / ONES) + (c / ONES - d / ONES));
    CongPlus(b + d, (a / ONES - b / ONES) + (c / ONES - d / ONES));
  }

  lemma CongScale(a: int, b: int)
    requires Cong(a, b)
    ensures Cong(256 * a, 256 * b)
  {
    assert 256 * a == 256 * b + ONES * (256 * (a / ONES - b / ONES));
    CongPlus(256 * b, 256 * (a / ONES - b / ONES));
  }

  // ---- words

  function LeWord(a: byte, b: byte): nat { a as int + 256 * b as int }

  function BeWord(a: byte, b: byte): nat { 256 * a as int + b as int }

  /** The sum of the 16-bit words, an odd last byte padded with 0, in each byte order. */
  function LeSum(d: Bytes): nat {
    if d == [] then 0 else if |d| == 1 then LeWord(d[0], 0) else LeWord(d[0], d[1]) + LeSum(d[2..])
  }

  function BeSum(d: Bytes): nat {
    if d == [] then 0 else if |d| == 1 then BeWord(d[0], 0) else BeWord(d[0], d[1]) + BeSum(d[2..])
  }

  /** The two bytes of x exchanged, as htons does on a little-endian machine. */
  function Swap(x: nat): nat
    requires x <= ONES
  {
    x % 256 * 256 + x / 256
  }

  lemma {:induction false} LeSumBound(d: Bytes)
    ensures LeSum(d) <= 0xFFFF * ((|d| + 1) / 2)
    decreases |d|
  {
    if |d| >= 2 { LeSumBound(d[2..]); }
  }

  /** The word after a full number of words adds to the sum. */
  lemma {:induction false} LeSumAppend(d: Bytes, e: Bytes)
    requires |d| % 2 == 0
    ensures LeSum(d + e) == LeSum(d) + LeSum(e)
    decreases |d|
  {
    if d == [] {
      assert d + e == e;
    } else {
      assert (d + e)[2..] == d[2..] + e;
      LeSumAppend(d[2..], e);
    }
  }

  /** Both orders give the same sum up to a swap of the bytes (part B of section 2 of RFC 1071). */
  lemma {:induction false} OrdersAgree(d: Bytes)
    ensures Cong(LeSum(d), 256 * BeSum(d)) && (LeSum(d) == 0 <==> BeSum(d) == 0)
    decreases |d|
  {
    if |d| == 1 {
      WordsAgree(d[0], 0);
    } else if |d| >= 2 {
      WordsAgree(d[0], d[1]);
      OrdersAgree(d[2..]);
      CongAdd(LeWord(d[0], d[1]), 256 * BeWord(d[0], d[1]), LeSum(d[2..]), 256 * BeSum(d[2..]));
    }
  }

  lemma WordsAgree(a: byte, b: byte)
    ensures Cong(LeWord(a, b), 256 * BeWord(a, b)) && (LeWord(a, b) == 0 <==> BeWord(a, b) == 0)
  {
    assert 256 * BeWord(a, b) == LeWord(a, b) + ONES * a as int;
    CongPlus(LeWord(a, b), a as int);
  }

  lemma SwapCong(x: nat)
    requires x <= ONES
    ensures Cong(Swap(x), 256 * x) && Swap(x) <= ONES && (Swap(x) == 0 <==> x == 0)
  {
    assert 256 * x == Swap(x) + ONES * (x / 256);
    CongPlus(Swap(x), x / 256);
  }

  /** The checksum of the definition, over big-endian words. */
  function BeChecksum(d: Bytes): nat { ONES - Fold(BeSum(d)) }

  function LeChecksum(d: Bytes): nat { ONES - Fold(LeSum(d)) }

  /** Stored low byte first, the little-endian checksum is the same two bytes as the big-endian one stored
      high byte first. */
  lemma SameBytes(d: Bytes)
    ensures LeChecksum(d) == Swap(BeChecksum(d))
    ensures LeChecksum(d) % 256 == BeChecksum(d) / 256 && LeChecksum(d) / 256 == BeChecksum(d) % 256
  {
    var b := Fold(BeSum(d));
    OrdersAgree(d);
    FoldCong(BeSum(d));
    CongScale(b, BeSum(d));
    SwapCong(b);
    FoldUnique(LeSum(d), Swap(b));
    SwapComplement(b);
  }

  lemma SwapComplement(b: nat)
    requires b <= ONES
    ensures Swap(ONES - b) == ONES - Swap(b)
    ensures Swap(ONES - b) % 256 == (ONES - b) / 256 && Swap(ONES - b) / 256 == (ONES - b) % 256
  {
    assert (ONES - b) / 256 == 255 - b / 256 && (ONES - b) % 256 == 255 - b % 256;
  }

  // ---- the loops

  /** The folding loop ends, on the folded sum. */
  method FoldSum(start: u32) returns (sum: u32)
    ensures sum == Fold(start)
  {
    sum := start;
    while sum / 0x1_0000 != 0
      invariant Fold(sum) == Fold(start)
      decreases sum
    {
      FoldStep(sum);
      sum := sum % 0x1_0000 + sum / 0x1_0000;
    }
    FoldUnique(sum, sum);
  }

  lemma FoldStep(x: nat)
    requires x / 0x1_0000 != 0
    ensures var y := x % 0x1_0000 + x / 0x1_0000; y < x && Fold(y) == Fold(x)
  {
    var y := x % 0x1_0000 + x / 0x1_0000;
    assert x == y + ONES * (x / 0x1_0000);
    CongPlus(y, x / 0x1_0000);
    FoldCong(y);
    FoldUnique(x, Fold(y));
  }

  /** The words of the data from a place on. */
  lemma NextWord(data: Bytes, at: nat)
    requires at <= |data|
    ensures LeSum(data[at..]) == if at == |data| then 0 else if at + 1 == |data| then data[at] as int
                                 else LeWord(data[at], data[at + 1]) + LeSum(data[at + 2..])
  {
    if at + 2 <= |data| { assert data[at..][2..] == data[at + 2..]; }
  }

  /** The accumulating loop, in 32 bits: with a start this small and data this short nothing overflows. */
  method AddWords(data: Bytes, start: u32) returns (sum: u32)
    requires |data| <= 65535 && start <= 6 * 0xFFFF
    ensures sum == start + LeSum(data)
  {
    hide LeSum, LeWord;
    sum := start;
    var length, at := |data|, 0;
    LeSumBound(data);
    assert data[0..] == data;
    while length > 1
      invariant 0 <= length == |data| - at && at % 2 == 0
      invariant sum + LeSum(data[at..]) == start + LeSum(data)
    {
      NextWord(data, at);
      sum := (sum + LeWord(data[at], data[at + 1])) % WORD;
      at := at + 2;
      length := length - 2;
    }
    NextWord(data, at);
    if length == 1 { sum := (sum + data[at] as int) % WORD; }
  }

  /** ip_checksum */
  method IpChecksum(data: Bytes) returns (c: u32)
    requires |data| <= 65535
    ensures c == LeChecksum(data)
  {
    var sum := AddWords(data, 0);
    sum := FoldSum(sum);
    c := 0xFFFF - sum;
  }

  /** The pseudo-header: both addresses, a zero byte, the protocol and the length (section 3.1 of RFC 9293). */
  function Pseudo(src: Bytes, dst: Bytes, protocol: byte, length: nat): (p: Bytes)
    requires |src| == 4 && |dst| == 4 && length <= 65535
    ensures |p| == 12
  {
    src + dst + [0, protocol, length / 256, length % 256]
  }

  lemma PseudoFields(src: Bytes, dst: Bytes, protocol: byte, length: nat)
    requires |src| == 4 && |dst| == 4 && length <= ONES
    ensures var p := Pseudo(src, dst, protocol, length);
      |p| == 12 && p[..4] == src && p[4..8] == dst && p[8] == 0 && p[9] == protocol && FromBe16(p, 10) == length
  {
    assert length / 256 * 256 + length % 256 == length;
  }

  lemma PseudoSum(src: Bytes, dst: Bytes, protocol: byte, length: nat)
    requires |src| == 4 && |dst| == 4 && length <= 65535
    ensures var s, d := FromLe32(src), FromLe32(dst);
      LeSum(Pseudo(src, dst, protocol, length)) ==
      s / 0x1_0000 + s % 0x1_0000 + d / 0x1_0000 + d % 0x1_0000 + Swap(protocol) + Swap(length)
  {
    hide LeSum, FromLe32;
    var l: Bytes := [0, protocol, length / 256, length % 256];
    FourBytes(src);
    FourBytes(dst);
    LastFour(l, protocol, length);
    LeSumAppend(src, dst + l);
    LeSumAppend(dst, l);
    assert src + (dst + l) == Pseudo(src, dst, protocol, length);
  }

  lemma LastFour(l: Bytes, protocol: byte, length: nat)
    requires length <= 65535 && l == [0, protocol, length / 256, length % 256]
    ensures LeSum(l) == Swap(protocol) + Swap(length)
  {
    hide LeSum;
    TwoWords(l);
  }

  lemma FourBytes(d: Bytes)
    requires |d| == 4
    ensures LeSum(d) == FromLe32(d) % 0x1_0000 + FromLe32(d) / 0x1_0000
  {
    var lo, hi := LeWord(d[0], d[1]), LeWord(d[2], d[3]);
    assert LeSum(d) == lo + hi by { TwoWords(d); }
    assert FromLe32(d) == lo + 0x1_0000 * hi by { FourDigits(d[0], d[1], d[2], d[3]); }
    Parts16(lo, hi);
  }

  lemma TwoWords(d: Bytes)
    requires |d| == 4
    ensures LeSum(d) == LeWord(d[0], d[1]) + LeWord(d[2], d[3])
  {
    hide LeWord;
    var e := d[2..];
    var none: Bytes := [];
    assert e[0] == d[2] && e[1] == d[3] && e[2..] == none && LeSum(none) == 0;
    assert LeSum(e) == LeWord(e[0], e[1]) + LeSum(e[2..]);
  }

  lemma FourDigits(a: int, b: int, c: int, e: int)
    ensures a + 256 * (b + 256 * (c + 256 * e)) == (a + 256 * b) + 0x1_0000 * (c + 256 * e)
  {
  }

  lemma Parts16(lo: nat, hi: nat)
    requires lo < 0x1_0000
    ensures (lo + 0x1_0000 * hi) % 0x1_0000 == lo && (lo + 0x1_0000 * hi) / 0x1_0000 == hi
  {
  }

  /** tcp_udp_checksum: the addresses come as words that lie in memory in network order. */
  method TcpUdpChecksum(srcIp: u32, dstIp: u32, protocol: byte, data: Bytes) returns (c: u32)
    requires |data| <= 65535
    ensures c == LeChecksum(Pseudo(Le32(srcIp), Le32(dstIp), protocol, |data|) + data)
  {
    var sum: u32 := 0;
    sum := sum + srcIp / 0x1_0000;
    sum := sum + srcIp % 0x1_0000;
    sum := sum + dstIp / 0x1_0000;
    sum := sum + dstIp % 0x1_0000;
    sum := sum + Swap(protocol);
    sum := sum + Swap(|data|);
    FromLe32OfLe32(srcIp);
    FromLe32OfLe32(dstIp);
    PseudoSum(Le32(srcIp), Le32(dstIp), protocol, |data|);
    LeSumAppend(Pseudo(Le32(srcIp), Le32(dstIp), protocol, |data|), data);
    sum := AddWords(data, sum);
    sum := FoldSum(sum);
    c := 0xFFFF - sum;
  }

  // ---- verifying

  /** The data with a 16-bit value stored at k, low byte first. */
  function Store16(d: Bytes, k: nat, v: nat): (r: Bytes)
    requires k + 2 <= |d| && v <= ONES
    ensures |r| == |d|
  {
    d[k := v % 256][k + 1 := v / 256]
  }

  lemma {:induction false} StoreAdds(d: Bytes, k: nat, v: nat)
    requires k % 2 == 0 && k + 2 <= |d| && v <= ONES && d[k] == 0 && d[k + 1] == 0
    ensures LeSum(Store16(d, k, v)) == LeSum(d) + v
    decreases |d|
  {
    if k == 0 {
      assert Store16(d, k, v)[2..] == d[2..];
    } else {
      assert Store16(d, k, v)[2..] == Store16(d[2..], k - 2, v);
      StoreAdds(d[2..], k - 2, v);
    }
  }

  /** With its checksum put in its zeroed field, any data sums to all ones: it checks to 0, whoever sums it. */
  lemma Verifies(d: Bytes, k: nat)
    requires k % 2 == 0 && k + 2 <= |d| && d[k] == 0 && d[k + 1] == 0
    ensures LeChecksum(Store16(d, k, LeChecksum(d))) == 0 && BeChecksum(Store16(d, k, LeChecksum(d))) == 0
  {
    hide LeSum, BeSum, Fold, Swap, Cong, Store16;
    var r := Store16(d, k, LeChecksum(d));
    StoreAdds(d, k, LeChecksum(d));
    FoldComplement(LeSum(d));
    SameBytes(r);
    SwapCong(BeChecksum(r));
  }

  /** A sum and the complement of its fold make all ones. */
  lemma FoldComplement(s: nat)
    ensures Fold(s + (ONES - Fold(s))) == ONES
  {
    hide Cong;
    var c := ONES - Fold(s);
    FoldCong(s);
    CongAdd(s, Fold(s), c, c) by { CongSelf(c); }
    CongBack(s + c, ONES);
    FoldUnique(s + c, ONES);
  }

  lemma CongSelf(a: int)
    ensures Cong(a, a)
  {
  }

  lemma CongBack(a: int, b: int)
    requires Cong(a, b)
    ensures Cong(b, a)
  {
  }

  /** The same for a segment below its pseudo-header, whose checksum field is zero while it is computed. */
  lemma SegmentVerifies(pseudo: Bytes, segment: Bytes, k: nat)
    requires |pseudo| % 2 == 0 && k % 2 == 0 && k + 2 <= |segment| && segment[k] == 0 && segment[k + 1] == 0
    ensures BeChecksum(pseudo + Store16(segment, k, LeChecksum(pseudo + segment))) == 0
  {
    var d := pseudo + segment;
    Verifies(d, |pseudo| + k);
    assert Store16(d, |pseudo| + k, LeChecksum(d)) == pseudo + Store16(segment, k, LeChecksum(d));
  }

  /** The header ipv4_send builds, its checksum field holding c (section 3.1 of RFC 791). */
  function Header(payloadLen: nat, id: nat, protocol: byte, src: Bytes, dst: Bytes, c: nat): (h: Bytes)
    requires id <= ONES && c <= ONES && |src| == 4 && |dst| == 4
    ensures |h| == 20
  {
    var total := (20 + payloadLen) % 0x1_0000;
    [0x45, 0, total / 256, total % 256, id / 256, id % 256, 0x40, 0, 64, protocol, c % 256, c / 256] + src + dst
  }

  /** What a receiver reads from the header: version 4 and five words, the total length, the identification, don't
      fragment, the time to live, the protocol and both addresses. */
  lemma HeaderFields(payloadLen: nat, id: nat, protocol: byte, src: Bytes, dst: Bytes, c: nat)
    requires payloadLen <= ONES && id <= ONES && c <= ONES && |src| == 4 && |dst| == 4
    ensures var h := Header(payloadLen, id, protocol, src, dst, c);
      && h[0] / 16 == 4 && h[0] % 16 * 4 == |h| == 20 && h[1] == 0
      && (payloadLen + 20 <= ONES ==> FromBe16(h, 2) == 20 + payloadLen) && FromBe16(h, 4) == id && FromBe16(h, 6) == 0x4000
      && h[8] == 64 && h[9] == protocol && h[11] as int * 256 + h[10] as int == c && h[12..16] == src && h[16..20] == dst
  {
    var total := (20 + payloadLen) % 0x1_0000;
    assert total / 256 * 256 + total % 256 == total && id / 256 * 256 + id % 256 == id && c / 256 * 256 + c % 256 == c;
  }

  /** The header fill of ipv4_send. */
  method BuildHeader(payloadLen: nat, id: nat, protocol: byte, src: Bytes, dst: Bytes) returns (h: Bytes)
    requires payloadLen <= ONES && id <= ONES && |src| == 4 && |dst| == 4
    ensures h == Header(payloadLen, id, protocol, src, dst, LeChecksum(Header(payloadLen, id, protocol, src, dst, 0)))
    ensures BeChecksum(h) == 0 && (payloadLen + 20 <= ONES ==> FromBe16(h, 2) == 20 + payloadLen) && FromBe16(h, 4) == id
    ensures h[9] == protocol && h[12..16] == src && h[16..20] == dst
  {
    h := Header(payloadLen, id, protocol, src, dst, 0);
    Verifies(h, 10);
    var c := IpChecksum(h);
    ghost var before := h;
    h := h[10 := c % 256][11 := c / 256];
    assert h == Store16(before, 10, c);
    assert h == Header(payloadLen, id, protocol, src, dst, c);
    HeaderFields(payloadLen, id, protocol, src, dst, c);
  }
}
