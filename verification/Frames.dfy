/** Frame crafting and parsing (internal/packet/packet.go).  The craft methods fill a zeroed
    buffer in place, as the source does; the layout functions say what they leave in it. */
module Frames {
  import opened Arith
  import opened Checksum

  const ETHERTYPE_IPV4 := 0x0800
  const ETHERTYPE_IPV6 := 0x86DD
  const PROTO_UDP := 17
  const PROTO_ICMPV6 := 58

  // ---- layout ----

  function Zeros(n: nat): (r: seq<Byte>)
    ensures |r| == n
  {
    seq(n, _ => 0)
  }

  /** A 16-bit field; larger values are truncated as the source's uint16 conversion does. */
  function Be16(v: nat): (r: seq<Byte>)
    ensures |r| == 2 && Word(r[0], r[1]) == v % 0x1_0000
  {
    TwoDigits(v);
    [(v / 256) % 256, v % 256]
  }

  lemma TwoDigits(v: nat)
    ensures Word((v / 256) % 256, v % 256) == v % 0x1_0000
  {
    var q := v / 256;
    var low := 256 * (q % 256) + v % 256;
    assert v == 0x1_0000 * (q / 256) + low;
    RemainderUnique(v, 0x1_0000, q / 256, low);
  }

  /** Copying a hardware address into a 6-byte field. */
  function Fit6(mac: seq<Byte>): (r: seq<Byte>)
    ensures |r| == 6 && (|mac| == 6 ==> r == mac)
  {
    if |mac| >= 6 then mac[..6] else mac + Zeros(6 - |mac|)
  }

  function Eth(dstMAC: seq<Byte>, srcMAC: seq<Byte>, etherType: nat): (r: seq<Byte>)
    ensures |r| == 14
  {
    Fit6(dstMAC) + Fit6(srcMAC) + Be16(etherType)
  }

  function Ip4(src: seq<Byte>, dst: seq<Byte>, totalLen: nat, csum: nat): (r: seq<Byte>)
    requires |src| == 4 && |dst| == 4
    ensures |r| == 20
  {
    [0x45, 0] + Be16(totalLen) + [0, 0, 0, 0, 64, PROTO_UDP] + Be16(csum) + src + dst
  }

  function Ip6(src: seq<Byte>, dst: seq<Byte>, payloadLen: nat, next: Byte, hop: Byte): (r: seq<Byte>)
    requires |src| == 16 && |dst| == 16
    ensures |r| == 40
  {
    [0x60, 0, 0, 0] + Be16(payloadLen) + [next, hop] + src + dst
  }

  function Udp(srcPort: nat, dstPort: nat, csum: nat, payload: seq<Byte>): (r: seq<Byte>)
    ensures |r| == 8 + |payload|
  {
    Be16(srcPort) + Be16(dstPort) + Be16(8 + |payload|) + Be16(csum) + payload
  }

  function Icmp(body: seq<Byte>, csum: nat): (r: seq<Byte>)
    requires |body| >= 4
    ensures |r| == |body|
  {
    body[..2] + Be16(csum) + body[4..]
  }

  // ---- checksums placed in the frames ----

  function HeaderSum(src: seq<Byte>, dst: seq<Byte>, totalLen: nat): (c: nat)
    requires |src| == 4 && |dst| == 4
  {
    Finish(WordSum(Ip4(src, dst, totalLen, 0)) % WRAP)
  }

  function UdpSum(src: seq<Byte>, dst: seq<Byte>, srcPort: nat, dstPort: nat, payload: seq<Byte>): (c: nat)
    ensures 0 < c < 0x1_0000
  {
    FinishUDP((PseudoSum(src, dst, PROTO_UDP, 8 + |payload|) + WordSum(Udp(srcPort, dstPort, 0, payload))) % WRAP)
  }

  function IcmpSum(src: seq<Byte>, dst: seq<Byte>, body: seq<Byte>): (c: nat)
    requires |body| >= 4
    ensures c < 0x1_0000
  {
    Finish((PseudoSum(src, dst, PROTO_ICMPV6, |body|) + WordSum(Icmp(body, 0))) % WRAP)
  }

  function Udp4Frame(srcMAC: seq<Byte>, dstMAC: seq<Byte>, src: seq<Byte>, dst: seq<Byte>,
                     srcPort: nat, dstPort: nat, payload: seq<Byte>): (r: seq<Byte>)
    requires |src| == 4 && |dst| == 4
  {
    Eth(dstMAC, srcMAC, ETHERTYPE_IPV4)
    + Ip4(src, dst, 28 + |payload|, HeaderSum(src, dst, 28 + |payload|))
    + Udp(srcPort, dstPort, UdpSum(src, dst, srcPort, dstPort, payload), payload)
  }

  function Udp6Frame(srcMAC: seq<Byte>, dstMAC: seq<Byte>, src: seq<Byte>, dst: seq<Byte>,
                     srcPort: nat, dstPort: nat, payload: seq<Byte>): (r: seq<Byte>)
    requires |src| == 16 && |dst| == 16
  {
    Eth(dstMAC, srcMAC, ETHERTYPE_IPV6)
    + Ip6(src, dst, 8 + |payload|, PROTO_UDP, 64)
    + Udp(srcPort, dstPort, UdpSum(src, dst, srcPort, dstPort, payload), payload)
  }

  function Icmp6Frame(srcMAC: seq<Byte>, dstMAC: seq<Byte>, src: seq<Byte>, dst: seq<Byte>,
                      body: seq<Byte>, hop: Byte): (r: seq<Byte>)
    requires |src| == 16 && |dst| == 16 && |body| >= 4
  {
    Eth(dstMAC, srcMAC, ETHERTYPE_IPV6)
    + Ip6(src, dst, |body|, PROTO_ICMPV6, hop)
    + Icmp(body, IcmpSum(src, dst, body))
  }

  // ---- the bytes on the wire ----

  /** A 16-bit number at index i, high byte first and cut to 16 bits. */
  predicate Number16(f: seq<Byte>, i: nat, v: nat) {
    i + 2 <= |f| && 256 * f[i] as int + f[i + 1] as int == v % 0x1_0000
  }

  /** A hardware address at index i, cut or padded with zeros to six bytes. */
  predicate MacAt(f: seq<Byte>, i: nat, mac: seq<Byte>) {
    && i + 6 <= |f| && (forall k | 0 <= k < 6 :: f[i + k] == if k < |mac| then mac[k] else 0)
    && (|mac| == 6 ==> f[i..i + 6] == mac)
  }

  /** Ethernet: the destination first, then the source, then the type. */
  predicate EthernetBytes(f: seq<Byte>, dstMAC: seq<Byte>, srcMAC: seq<Byte>, etherType: seq<Byte>) {
    MacAt(f, 0, dstMAC) && MacAt(f, 6, srcMAC) && |f| >= 14 && f[12..14] == etherType
  }

  /** IPv4 (RFC 791): version 4, a header of five words, no service, identification, flags or
      offset, 64 hops and UDP. */
  predicate Ip4Bytes(f: seq<Byte>, src: seq<Byte>, dst: seq<Byte>) {
    && |f| >= 34 && f[14..16] == [0x45, 0] && Number16(f, 16, |f| - 14)
    && f[18..24] == [0, 0, 0, 0, 64, 17] && f[26..30] == src && f[30..34] == dst
  }

  /** IPv6 (RFC 8200): version 6, no traffic class or flow label. */
  predicate Ip6Bytes(f: seq<Byte>, src: seq<Byte>, dst: seq<Byte>, next: Byte, hop: Byte) {
    && |f| >= 54 && f[14..18] == [0x60, 0, 0, 0] && Number16(f, 18, |f| - 54)
    && f[20..22] == [next, hop] && f[22..38] == src && f[38..54] == dst
  }

  /** UDP (RFC 768) from `off` to the end, with a checksum that is not zero. */
  predicate UdpBytes(f: seq<Byte>, off: nat, srcPort: nat, dstPort: nat, payload: seq<Byte>) {
    && |f| == off + 8 + |payload| && Number16(f, off, srcPort) && Number16(f, off + 2, dstPort)
    && Number16(f, off + 4, 8 + |payload|) && f[off + 6..off + 8] != [0, 0] && f[off + 8..] == payload
  }

  lemma EthernetLaidOut(f: seq<Byte>, dstMAC: seq<Byte>, srcMAC: seq<Byte>, etherType: nat)
    requires |f| >= 14 && f[..14] == Eth(dstMAC, srcMAC, etherType)
    ensures EthernetBytes(f, dstMAC, srcMAC, Be16(etherType))
  {
    EthParts(dstMAC, srcMAC, etherType);
    Slice(f, 0, 14, 0, 6);
    Slice(f, 0, 14, 6, 12);
    Slice(f, 0, 14, 12, 14);
    assert f[0..14] == f[..14];
    MacLaidOut(f, 0, dstMAC);
    MacLaidOut(f, 6, srcMAC);
  }

  lemma EthParts(dstMAC: seq<Byte>, srcMAC: seq<Byte>, etherType: nat)
    ensures var h := Eth(dstMAC, srcMAC, etherType);
      h[0..6] == Fit6(dstMAC) && h[6..12] == Fit6(srcMAC) && h[12..14] == Be16(etherType)
  {
  }

  lemma MacLaidOut(f: seq<Byte>, i: nat, mac: seq<Byte>)
    requires i + 6 <= |f| && f[i..i + 6] == Fit6(mac)
    ensures MacAt(f, i, mac)
  {
    var field := f[i..i + 6];
    assert forall k | 0 <= k < 6 :: field[k] == f[i + k];
  }

  lemma Ip4LaidOut(f: seq<Byte>, src: seq<Byte>, dst: seq<Byte>, csum: nat)
    requires |f| >= 34 && |src| == 4 && |dst| == 4 && f[14..34] == Ip4(src, dst, |f| - 14, csum)
    ensures Ip4Bytes(f, src, dst)
  {
    Ip4Parts(src, dst, |f| - 14, csum);
    Slice(f, 14, 34, 0, 2);
    Slice(f, 14, 34, 2, 4);
    Slice(f, 14, 34, 4, 10);
    Slice(f, 14, 34, 12, 16);
    Slice(f, 14, 34, 16, 20);
    FieldNumber(f, 16, |f| - 14);
  }

  lemma Ip4Parts(src: seq<Byte>, dst: seq<Byte>, totalLen: nat, csum: nat)
    requires |src| == 4 && |dst| == 4
    ensures var h := Ip4(src, dst, totalLen, csum);
      && h[0..2] == [0x45, 0] && h[2..4] == Be16(totalLen) && h[4..10] == [0, 0, 0, 0, 64, 17]
      && h[12..16] == src && h[16..20] == dst
  {
  }

  lemma FieldNumber(f: seq<Byte>, i: nat, v: nat)
    requires i + 2 <= |f| && f[i..i + 2] == Be16(v)
    ensures Number16(f, i, v)
  {
    assert f[i] == f[i..i + 2][0] && f[i + 1] == f[i..i + 2][1];
  }

  lemma Ip6LaidOut(f: seq<Byte>, src: seq<Byte>, dst: seq<Byte>, next: Byte, hop: Byte)
    requires |f| >= 54 && |src| == 16 && |dst| == 16 && f[14..54] == Ip6(src, dst, |f| - 54, next, hop)
    ensures Ip6Bytes(f, src, dst, next, hop)
  {
    Ip6Parts(src, dst, |f| - 54, next, hop);
    Slice(f, 14, 54, 0, 4);
    Slice(f, 14, 54, 4, 6);
    Slice(f, 14, 54, 6, 8);
    Slice(f, 14, 54, 8, 24);
    Slice(f, 14, 54, 24, 40);
    FieldNumber(f, 18, |f| - 54);
  }

  lemma Ip6Parts(src: seq<Byte>, dst: seq<Byte>, payloadLen: nat, next: Byte, hop: Byte)
    requires |src| == 16 && |dst| == 16
    ensures var h := Ip6(src, dst, payloadLen, next, hop);
      && h[0..4] == [0x60, 0, 0, 0] && h[4..6] == Be16(payloadLen) && h[6..8] == [next, hop]
      && h[8..24] == src && h[24..40] == dst
  {
  }

  lemma UdpLaidOut(f: seq<Byte>, off: nat, srcPort: nat, dstPort: nat, csum: nat, payload: seq<Byte>)
    requires off <= |f| && f[off..] == Udp(srcPort, dstPort, csum, payload) && 0 < csum < 0x1_0000
    ensures UdpBytes(f, off, srcPort, dstPort, payload)
  {
    UdpParts(srcPort, dstPort, csum, payload);
    assert f[off..] == f[off..|f|] && f[off + 8..] == f[off + 8..|f|];
    Slice(f, off, |f|, 0, 2);
    Slice(f, off, |f|, 2, 4);
    Slice(f, off, |f|, 4, 6);
    Slice(f, off, |f|, 6, 8);
    Slice(f, off, |f|, 8, 8 + |payload|);
    FieldNumber(f, off, srcPort);
    FieldNumber(f, off + 2, dstPort);
    FieldNumber(f, off + 4, 8 + |payload|);
  }

  lemma UdpParts(srcPort: nat, dstPort: nat, csum: nat, payload: seq<Byte>)
    requires 0 < csum < 0x1_0000
    ensures var u := Udp(srcPort, dstPort, csum, payload);
      && u[0..2] == Be16(srcPort) && u[2..4] == Be16(dstPort) && u[4..6] == Be16(8 + |payload|)
      && u[6..8] == Be16(csum) != [0, 0] && u[8..8 + |payload|] == payload
  {
    assert Word(Be16(csum)[0], Be16(csum)[1]) == csum;
  }

  /** Every byte of a UDP/IPv4 frame outside its checksums. */
  lemma Udp4Bytes(srcMAC: seq<Byte>, dstMAC: seq<Byte>, src: seq<Byte>, dst: seq<Byte>,
                  srcPort: nat, dstPort: nat, payload: seq<Byte>)
    requires |src| == 4 && |dst| == 4
    ensures var f := Udp4Frame(srcMAC, dstMAC, src, dst, srcPort, dstPort, payload);
      && EthernetBytes(f, dstMAC, srcMAC, [0x08, 0x00]) && Ip4Bytes(f, src, dst)
      && UdpBytes(f, 34, srcPort, dstPort, payload)
  {
    var f := Udp4Frame(srcMAC, dstMAC, src, dst, srcPort, dstPort, payload);
    EthernetLaidOut(f, dstMAC, srcMAC, ETHERTYPE_IPV4);
    Ip4LaidOut(f, src, dst, HeaderSum(src, dst, 28 + |payload|));
    UdpLaidOut(f, 34, srcPort, dstPort, UdpSum(src, dst, srcPort, dstPort, payload), payload);
  }

  lemma Udp6Bytes(srcMAC: seq<Byte>, dstMAC: seq<Byte>, src: seq<Byte>, dst: seq<Byte>,
                  srcPort: nat, dstPort: nat, payload: seq<Byte>)
    requires |src| == 16 && |dst| == 16
    ensures var f := Udp6Frame(srcMAC, dstMAC, src, dst, srcPort, dstPort, payload);
      && EthernetBytes(f, dstMAC, srcMAC, [0x86, 0xDD]) && Ip6Bytes(f, src, dst, 17, 64)
      && UdpBytes(f, 54, srcPort, dstPort, payload)
  {
    var f := Udp6Frame(srcMAC, dstMAC, src, dst, srcPort, dstPort, payload);
    EthernetLaidOut(f, dstMAC, srcMAC, ETHERTYPE_IPV6);
    Ip6LaidOut(f, src, dst, PROTO_UDP, 64);
    UdpLaidOut(f, 54, srcPort, dstPort, UdpSum(src, dst, srcPort, dstPort, payload), payload);
  }

  /** In an ICMPv6 frame the message follows, except for its checksum. */
  lemma Icmp6Bytes(srcMAC: seq<Byte>, dstMAC: seq<Byte>, src: seq<Byte>, dst: seq<Byte>, body: seq<Byte>, hop: Byte)
    requires |src| == 16 && |dst| == 16 && |body| >= 4
    ensures var f := Icmp6Frame(srcMAC, dstMAC, src, dst, body, hop);
      && EthernetBytes(f, dstMAC, srcMAC, [0x86, 0xDD]) && Ip6Bytes(f, src, dst, 58, hop)
      && |f| == 54 + |body| && f[54..56] == body[..2] && f[58..] == body[4..]
  {
    var f := Icmp6Frame(srcMAC, dstMAC, src, dst, body, hop);
    EthernetLaidOut(f, dstMAC, srcMAC, ETHERTYPE_IPV6);
    Ip6LaidOut(f, src, dst, PROTO_ICMPV6, hop);
    assert f[54..] == Icmp(body, IcmpSum(src, dst, body));
    assert f[54..56] == f[54..][..2] && f[58..] == f[54..][4..];
  }

  // ---- writing into the buffer ----

  /** copy(frame[off:], data). */
  method Put(frame: array<Byte>, off: nat, data: seq<Byte>)
    requires off + |data| <= frame.Length
    modifies frame
    ensures frame[..] == old(frame[..off]) + data + old(frame[off + |data|..])
  {
    for i := 0 to |data|
      invariant forall k | 0 <= k < frame.Length ::
                  frame[k] == if off <= k < off + i then data[k - off] else old(frame[k])
    {
      frame[off + i] := data[i];
    }
  }

  /** Writing past the part already filled, in a buffer that is zero from there on. */
  method Fill(frame: array<Byte>, ghost done: seq<Byte>, off: nat, data: seq<Byte>) returns (ghost now: seq<Byte>)
    requires |done| <= off && off + |data| <= frame.Length
    requires frame[..] == done + Zeros(frame.Length - |done|)
    modifies frame
    ensures now == done + Zeros(off - |done|) + data
    ensures frame[..] == now + Zeros(frame.Length - |now|)
  {
    now := done + Zeros(off - |done|) + data;
    ghost var before := frame[..];
    Put(frame, off, data);
    assert before[..off] == done + Zeros(off - |done|);
    assert before[off + |data|..] == Zeros(frame.Length - |now|);
  }

  /** Overwriting a field in the middle. */
  method Patch(frame: array<Byte>, ghost left: seq<Byte>, ghost was: seq<Byte>, ghost right: seq<Byte>,
               off: nat, data: seq<Byte>)
    requires frame[..] == left + was + right && off == |left| && |was| == |data|
    modifies frame
    ensures frame[..] == left + data + right
  {
    assert frame.Length == |frame[..]|;
    assert frame[..off] == left && frame[off + |data|..] == right;
    Put(frame, off, data);
  }

  // ---- crafting ----

  /** The Ethernet header that opens every frame. */
  method FillEth(frame: array<Byte>, srcMAC: seq<Byte>, dstMAC: seq<Byte>, etherType: nat)
    returns (ghost done: seq<Byte>)
    requires 14 <= frame.Length && frame[..] == Zeros(frame.Length)
    modifies frame
    ensures done == Eth(dstMAC, srcMAC, etherType)
    ensures frame[..] == done + Zeros(frame.Length - 14)
  {
    done := Fill(frame, [], 0, Fit6(dstMAC));
    done := Fill(frame, done, 6, Fit6(srcMAC));
    done := Fill(frame, done, 12, Be16(etherType));
  }

  /** The IPv4 header after the Ethernet header, its checksum included. */
  method FillIp4(frame: array<Byte>, ghost eth: seq<Byte>, src: seq<Byte>, dst: seq<Byte>, totalLen: nat)
    requires |eth| == 14 && |src| == 4 && |dst| == 4 && 34 <= frame.Length
    requires frame[..] == eth + Zeros(frame.Length - 14)
    modifies frame
    ensures frame[..] == eth + Ip4(src, dst, totalLen, HeaderSum(src, dst, totalLen)) + Zeros(frame.Length - 34)
  {
    ghost var done := Fill(frame, eth, 14, [0x45]);
    done := Fill(frame, done, 16, Be16(totalLen));
    done := Fill(frame, done, 22, [64]);
    done := Fill(frame, done, 23, [PROTO_UDP]);
    assert done == eth + [0x45, 0] + Be16(totalLen) + [0, 0, 0, 0, 64, PROTO_UDP];
    done := Fill(frame, done, 26, src);
    done := Fill(frame, done, 30, dst);
    assert done == eth + Ip4(src, dst, totalLen, 0);
    SealIp4(frame, eth, src, dst, totalLen);
  }

  method SealIp4(frame: array<Byte>, ghost eth: seq<Byte>, src: seq<Byte>, dst: seq<Byte>, totalLen: nat)
    requires |eth| == 14 && |src| == 4 && |dst| == 4 && 34 <= frame.Length
    requires frame[..] == eth + Ip4(src, dst, totalLen, 0) + Zeros(frame.Length - 34)
    modifies frame
    ensures frame[..] == eth + Ip4(src, dst, totalLen, HeaderSum(src, dst, totalLen)) + Zeros(frame.Length - 34)
  {
    assert frame[..][14..34] == Ip4(src, dst, totalLen, 0);
    var sum := ChecksumAdd(0, frame[14..34]);
    var csum := ChecksumFinish(sum);
    ghost var left := eth + [0x45, 0] + Be16(totalLen) + [0, 0, 0, 0, 64, PROTO_UDP];
    ghost var right := src + dst + Zeros(frame.Length - 34);
    assert frame[..] == left + Be16(0) + right;
    Patch(frame, left, Be16(0), right, 24, Be16(csum));
    assert left + Be16(csum) + right == eth + Ip4(src, dst, totalLen, csum) + Zeros(frame.Length - 34);
  }

  method FillIp6(frame: array<Byte>, ghost eth: seq<Byte>, src: seq<Byte>, dst: seq<Byte>,
                 payloadLen: nat, next: Byte, hop: Byte)
    requires |eth| == 14 && |src| == 16 && |dst| == 16 && 54 <= frame.Length
    requires frame[..] == eth + Zeros(frame.Length - 14)
    modifies frame
    ensures frame[..] == eth + Ip6(src, dst, payloadLen, next, hop) + Zeros(frame.Length - 54)
  {
    ghost var done := Fill(frame, eth, 14, [0x60]);
    done := Fill(frame, done, 18, Be16(payloadLen));
    done := Fill(frame, done, 20, [next]);
    done := Fill(frame, done, 21, [hop]);
    assert done == eth + [0x60, 0, 0, 0] + Be16(payloadLen) + [next, hop];
    done := Fill(frame, done, 22, src);
    done := Fill(frame, done, 38, dst);
    assert done == eth + Ip6(src, dst, payloadLen, next, hop);
  }

  /** The UDP segment at the end of a frame whose first part is `head`. */
  method FillUdp(frame: array<Byte>, ghost head: seq<Byte>, off: nat, src: seq<Byte>, dst: seq<Byte>,
                 srcPort: nat, dstPort: nat, payload: seq<Byte>)
    requires off == |head| && frame.Length == off + 8 + |payload|
    requires frame[..] == head + Zeros(8 + |payload|)
    modifies frame
    ensures frame[..] == head + Udp(srcPort, dstPort, UdpSum(src, dst, srcPort, dstPort, payload), payload)
  {
    var udpLen := 8 + |payload|;
    ghost var done := Fill(frame, head, off, Be16(srcPort));
    done := Fill(frame, done, off + 2, Be16(dstPort));
    done := Fill(frame, done, off + 4, Be16(udpLen));
    ghost var left := done;
    done := Fill(frame, done, off + 8, payload);
    assert left == head + (Be16(srcPort) + Be16(dstPort) + Be16(udpLen));
    assert done == left + Be16(0) + payload;
    assert frame[..] == done;
    SealUdp(frame, head, left, off, src, dst, srcPort, dstPort, payload);
  }

  method SealUdp(frame: array<Byte>, ghost head: seq<Byte>, ghost left: seq<Byte>, off: nat,
                 src: seq<Byte>, dst: seq<Byte>, ghost srcPort: nat, ghost dstPort: nat, ghost payload: seq<Byte>)
    requires off == |head| && left == head + (Be16(srcPort) + Be16(dstPort) + Be16(8 + |payload|))
    requires frame[..] == left + Be16(0) + payload
    modifies frame
    ensures frame[..] == head + Udp(srcPort, dstPort, UdpSum(src, dst, srcPort, dstPort, payload), payload)
  {
    assert frame[..] == head + Udp(srcPort, dstPort, 0, payload);
    var csum := SegmentSum(src, dst, PROTO_UDP, frame, off, Udp(srcPort, dstPort, 0, payload));
    if csum == 0 { csum := 0xFFFF; }
    Patch(frame, left, Be16(0), payload, off + 6, Be16(csum));
    assert left + Be16(csum) + payload == head + Udp(srcPort, dstPort, csum, payload);
  }

  /** The checksum over the pseudo-header and the rest of the frame. */
  method SegmentSum(src: seq<Byte>, dst: seq<Byte>, proto: Byte, frame: array<Byte>, off: nat,
                    ghost segment: seq<Byte>) returns (csum: nat)
    requires off <= frame.Length && frame[off..] == segment
    ensures csum == Finish((PseudoSum(src, dst, proto, |segment|) + WordSum(segment)) % WRAP)
  {
    var sum := PseudoHeaderSum(src, dst, proto, frame.Length - off);
    WrapAdd(PseudoSum(src, dst, proto, |segment|), WordSum(segment));
    sum := ChecksumAdd(sum, frame[off..]);
    csum := ChecksumFinish(sum);
  }

  method CraftUDP4(srcMAC: seq<Byte>, dstMAC: seq<Byte>, src: seq<Byte>, dst: seq<Byte>,
                   srcPort: nat, dstPort: nat, payload: seq<Byte>) returns (frame: array<Byte>)
    requires |src| == 4 && |dst| == 4
    ensures fresh(frame) && frame[..] == Udp4Frame(srcMAC, dstMAC, src, dst, srcPort, dstPort, payload)
    ensures EthernetBytes(frame[..], dstMAC, srcMAC, [0x08, 0x00]) && Ip4Bytes(frame[..], src, dst)
    ensures UdpBytes(frame[..], 34, srcPort, dstPort, payload)
  {
    Udp4Bytes(srcMAC, dstMAC, src, dst, srcPort, dstPort, payload);
    var udpLen := 8 + |payload|;
    frame := new Byte[34 + udpLen](_ => 0);
    assert frame[..] == Zeros(34 + udpLen);
    ghost var eth := FillEth(frame, srcMAC, dstMAC, ETHERTYPE_IPV4);
    FillIp4(frame, eth, src, dst, 20 + udpLen);
    ghost var head := eth + Ip4(src, dst, 20 + udpLen, HeaderSum(src, dst, 20 + udpLen));
    FillUdp(frame, head, 34, src, dst, srcPort, dstPort, payload);
  }

  method CraftUDP6(srcMAC: seq<Byte>, dstMAC: seq<Byte>, src: seq<Byte>, dst: seq<Byte>,
                   srcPort: nat, dstPort: nat, payload: seq<Byte>) returns (frame: array<Byte>)
    requires |src| == 16 && |dst| == 16
    ensures fresh(frame) && frame[..] == Udp6Frame(srcMAC, dstMAC, src, dst, srcPort, dstPort, payload)
    ensures EthernetBytes(frame[..], dstMAC, srcMAC, [0x86, 0xDD]) && Ip6Bytes(frame[..], src, dst, 17, 64)
    ensures UdpBytes(frame[..], 54, srcPort, dstPort, payload)
  {
    Udp6Bytes(srcMAC, dstMAC, src, dst, srcPort, dstPort, payload);
    var udpLen := 8 + |payload|;
    frame := new Byte[54 + udpLen](_ => 0);
    assert frame[..] == Zeros(54 + udpLen);
    ghost var eth := FillEth(frame, srcMAC, dstMAC, ETHERTYPE_IPV6);
    FillIp6(frame, eth, src, dst, udpLen, PROTO_UDP, 64);
    FillUdp(frame, eth + Ip6(src, dst, udpLen, PROTO_UDP, 64), 54, src, dst, srcPort, dstPort, payload);
  }

  method CraftICMP6(srcMAC: seq<Byte>, dstMAC: seq<Byte>, src: seq<Byte>, dst: seq<Byte>,
                    body: seq<Byte>, hop: Byte) returns (frame: array<Byte>)
    requires |src| == 16 && |dst| == 16 && |body| >= 4
    ensures fresh(frame) && frame[..] == Icmp6Frame(srcMAC, dstMAC, src, dst, body, hop)
    ensures EthernetBytes(frame[..], dstMAC, srcMAC, [0x86, 0xDD]) && Ip6Bytes(frame[..], src, dst, 58, hop)
    ensures frame.Length == 54 + |body| && frame[54..56] == body[..2] && frame[58..] == body[4..]
  {
    Icmp6Bytes(srcMAC, dstMAC, src, dst, body, hop);
    frame := new Byte[54 + |body|](_ => 0);
    assert frame[..] == Zeros(54 + |body|);
    ghost var eth := FillEth(frame, srcMAC, dstMAC, ETHERTYPE_IPV6);
    FillIp6(frame, eth, src, dst, |body|, PROTO_ICMPV6, hop);
    ghost var head := eth + Ip6(src, dst, |body|, PROTO_ICMPV6, hop);
    ghost var done := Fill(frame, head, 54, body);
    SealIcmp(frame, head, src, dst, body);
  }

  /** Clearing and then computing the checksum field of the message after `head`. */
  method SealIcmp(frame: array<Byte>, ghost head: seq<Byte>, src: seq<Byte>, dst: seq<Byte>, ghost body: seq<Byte>)
    requires |head| == 54 && |body| >= 4 && frame[..] == head + body
    modifies frame
    ensures frame[..] == head + Icmp(body, IcmpSum(src, dst, body))
  {
    ghost var left, right := head + body[..2], body[4..];
    IcmpParts(head, body, 0);
    assert frame[..] == left + body[2..4] + right;
    Patch(frame, left, body[2..4], right, 56, Be16(0));
    assert frame[54..] == Icmp(body, 0);
    var csum := SegmentSum(src, dst, PROTO_ICMPV6, frame, 54, Icmp(body, 0));
    Patch(frame, left, Be16(0), right, 56, Be16(csum));
    IcmpParts(head, body, csum);
  }

  lemma IcmpParts(head: seq<Byte>, body: seq<Byte>, csum: nat)
    requires |body| >= 4
    ensures head + body[..2] + Be16(csum) + body[4..] == head + Icmp(body, csum)
  {
  }
}
