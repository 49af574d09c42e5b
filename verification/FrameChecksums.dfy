/** Every emitted checksum verifies at the receiver: the one's-complement sum over the covered
    bytes, pseudo-header included, is all ones. */
module FrameChecksums {
  import opened Arith
  import opened Checksum
  import opened Frames

  /** The pseudo-header of RFC 768 (IPv4). */
  function Pseudo4(src: seq<Byte>, dst: seq<Byte>, proto: Byte, l4len: nat): (r: seq<Byte>) {
    src + dst + [0, proto] + Be16(l4len)
  }

  /** The pseudo-header of section 8.1 of RFC 8200 (IPv6). */
  function Pseudo6(src: seq<Byte>, dst: seq<Byte>, proto: Byte, l4len: nat): (r: seq<Byte>) {
    src + dst + Be16(l4len / 0x1_0000) + Be16(l4len) + [0, 0] + [0, proto]
  }

  /** What a receiver computes. */
  predicate Verifies(data: seq<Byte>) {
    OnesSum(0, data) == 0xFFFF
  }

  lemma VerifiesIff(data: seq<Byte>)
    ensures Verifies(data) <==> Residue(WordSum(data)) == 0xFFFF
  {
    OnesSumResidue(0, data);
  }

  lemma WordOf(w: seq<Byte>)
    requires |w| == 2
    ensures WordSum(w) == Word(w[0], w[1])
  {
    assert w[2..] == [];
  }

  lemma AppendWord(a: seq<Byte>, w: seq<Byte>)
    requires |a| % 2 == 0 && |w| == 2
    ensures WordSum(a + w) == WordSum(a) + Word(w[0], w[1])
  {
    WordSumAppend(a, w);
    WordOf(w);
  }

  lemma Pseudo4Sum(src: seq<Byte>, dst: seq<Byte>, proto: Byte, l4len: nat)
    requires |src| == 4 && |dst| == 4 && l4len < 0x1_0000
    ensures WordSum(Pseudo4(src, dst, proto, l4len)) == PseudoSum(src, dst, proto, l4len)
  {
    WordSumAppend(src, dst);
    AppendWord(src + dst, [0, proto]);
    AppendWord(src + dst + [0, proto], Be16(l4len));
  }

  lemma Pseudo6Sum(src: seq<Byte>, dst: seq<Byte>, proto: Byte, l4len: nat)
    requires |src| == 16 && |dst| == 16 && l4len < 0x1_0000
    ensures WordSum(Pseudo6(src, dst, proto, l4len)) == PseudoSum(src, dst, proto, l4len)
  {
    var a := src + dst;
    var b := a + Be16(l4len / 0x1_0000);
    var c := b + Be16(l4len);
    WordSumAppend(src, dst);
    AppendWord(a, Be16(l4len / 0x1_0000));
    AppendWord(b, Be16(l4len));
    AppendWord(c, [0, 0]);
    AppendWord(c + [0, 0], [0, proto]);
  }

  /** A field of two bytes at an even offset contributes its value. */
  lemma FieldSum(a: seq<Byte>, v: nat, b: seq<Byte>)
    requires |a| % 2 == 0 && v < 0x1_0000
    ensures WordSum(a + Be16(v) + b) == WordSum(a + Be16(0) + b) + v
  {
    WordSumWord(a, Be16(v)[0], Be16(v)[1], b);
    WordSumWord(a, 0, 0, b);
    assert Be16(v) == [Be16(v)[0], Be16(v)[1]] && Be16(0) == [0, 0];
  }

  /** A checksum computed without wrapping completes its sum. */
  lemma Completes(total: nat)
    requires total < WRAP
    ensures Residue(total + Finish(total % WRAP)) == 0xFFFF
    ensures Residue(total + FinishUDP(total % WRAP)) == 0xFFFF
  {
    assert total % WRAP == total;
    FinishVerifies(total);
  }

  /** The IPv4 header of every frame verifies. */
  lemma Ip4HeaderVerifies(src: seq<Byte>, dst: seq<Byte>, totalLen: nat)
    requires |src| == 4 && |dst| == 4
    ensures Verifies(Ip4(src, dst, totalLen, HeaderSum(src, dst, totalLen)))
  {
    var c := HeaderSum(src, dst, totalLen);
    var left := [0x45, 0] + Be16(totalLen) + [0, 0, 0, 0, 64, PROTO_UDP];
    assert Ip4(src, dst, totalLen, c) == left + Be16(c) + (src + dst);
    assert Ip4(src, dst, totalLen, 0) == left + Be16(0) + (src + dst);
    FieldSum(left, c, src + dst);
    WordSumBound(Ip4(src, dst, totalLen, 0));
    Completes(WordSum(Ip4(src, dst, totalLen, 0)));
    VerifiesIff(Ip4(src, dst, totalLen, c));
  }

  /** The residue of a UDP segment plus pseudo-header sum. */
  lemma UdpResidue(src: seq<Byte>, dst: seq<Byte>, srcPort: nat, dstPort: nat, payload: seq<Byte>)
    requires |src| <= 16 && |dst| <= 16 && |payload| <= 65527
    ensures var c := UdpSum(src, dst, srcPort, dstPort, payload);
      Residue(PseudoSum(src, dst, PROTO_UDP, 8 + |payload|) + WordSum(Udp(srcPort, dstPort, c, payload))) == 0xFFFF
  {
    var c := UdpSum(src, dst, srcPort, dstPort, payload);
    var left := Be16(srcPort) + Be16(dstPort) + Be16(8 + |payload|);
    var seg := Udp(srcPort, dstPort, 0, payload);
    FieldSum(left, c, payload);
    NoWrap(src, dst, PROTO_UDP, seg);
    Completes(PseudoSum(src, dst, PROTO_UDP, |seg|) + WordSum(seg));
  }

  /** UDP over IPv4: the segment verifies and its checksum is not sent as zero. */
  lemma Udp4Verifies(src: seq<Byte>, dst: seq<Byte>, srcPort: nat, dstPort: nat, payload: seq<Byte>)
    requires |src| == 4 && |dst| == 4 && |payload| <= 65507
    ensures var seg := Udp(srcPort, dstPort, UdpSum(src, dst, srcPort, dstPort, payload), payload);
      Verifies(Pseudo4(src, dst, PROTO_UDP, |seg|) + seg) && Word(seg[6], seg[7]) != 0
  {
    var seg := Udp(srcPort, dstPort, UdpSum(src, dst, srcPort, dstPort, payload), payload);
    var pseudo := Pseudo4(src, dst, PROTO_UDP, |seg|);
    UdpResidue(src, dst, srcPort, dstPort, payload);
    Pseudo4Sum(src, dst, PROTO_UDP, |seg|);
    WordSumAppend(pseudo, seg);
    VerifiesIff(pseudo + seg);
    assert seg[6..8] == Be16(UdpSum(src, dst, srcPort, dstPort, payload));
  }

  /** UDP over IPv6: likewise. */
  lemma Udp6Verifies(src: seq<Byte>, dst: seq<Byte>, srcPort: nat, dstPort: nat, payload: seq<Byte>)
    requires |src| == 16 && |dst| == 16 && |payload| <= 65527
    ensures var seg := Udp(srcPort, dstPort, UdpSum(src, dst, srcPort, dstPort, payload), payload);
      Verifies(Pseudo6(src, dst, PROTO_UDP, |seg|) + seg) && Word(seg[6], seg[7]) != 0
  {
    var seg := Udp(srcPort, dstPort, UdpSum(src, dst, srcPort, dstPort, payload), payload);
    var pseudo := Pseudo6(src, dst, PROTO_UDP, |seg|);
    UdpResidue(src, dst, srcPort, dstPort, payload);
    Pseudo6Sum(src, dst, PROTO_UDP, |seg|);
    WordSumAppend(pseudo, seg);
    VerifiesIff(pseudo + seg);
    assert seg[6..8] == Be16(UdpSum(src, dst, srcPort, dstPort, payload));
  }

  /** ICMPv6: the message verifies, whatever the caller left in its checksum field. */
  lemma Icmp6Verifies(src: seq<Byte>, dst: seq<Byte>, body: seq<Byte>)
    requires |src| == 16 && |dst| == 16 && 4 <= |body| <= 65535
    ensures Verifies(Pseudo6(src, dst, PROTO_ICMPV6, |body|) + Icmp(body, IcmpSum(src, dst, body)))
  {
    var msg := Icmp(body, IcmpSum(src, dst, body));
    var pseudo := Pseudo6(src, dst, PROTO_ICMPV6, |body|);
    IcmpResidue(src, dst, body);
    Pseudo6Sum(src, dst, PROTO_ICMPV6, |body|);
    WordSumAppend(pseudo, msg);
    VerifiesIff(pseudo + msg);
  }

  lemma IcmpResidue(src: seq<Byte>, dst: seq<Byte>, body: seq<Byte>)
    requires |src| <= 16 && |dst| <= 16 && 4 <= |body| <= 65535
    ensures Residue(PseudoSum(src, dst, PROTO_ICMPV6, |body|) + WordSum(Icmp(body, IcmpSum(src, dst, body)))) == 0xFFFF
  {
    var zeroed := Icmp(body, 0);
    FieldSum(body[..2], IcmpSum(src, dst, body), body[4..]);
    NoWrap(src, dst, PROTO_ICMPV6, zeroed);
    Completes(PseudoSum(src, dst, PROTO_ICMPV6, |body|) + WordSum(zeroed));
  }

  /** On the wire: the header and the segment of every UDP/IPv4 frame verify, with the addresses
      and the length the frame itself carries. */
  lemma Udp4FrameVerifies(srcMAC: seq<Byte>, dstMAC: seq<Byte>, src: seq<Byte>, dst: seq<Byte>,
                          srcPort: nat, dstPort: nat, payload: seq<Byte>)
    requires |src| == 4 && |dst| == 4 && |payload| <= 65507
    ensures var f := Udp4Frame(srcMAC, dstMAC, src, dst, srcPort, dstPort, payload);
      && |f| >= 42 && Verifies(f[14..34]) && Verifies(Pseudo4(f[26..30], f[30..34], 17, |f| - 34) + f[34..])
  {
    var f := Udp4Frame(srcMAC, dstMAC, src, dst, srcPort, dstPort, payload);
    Udp4Bytes(srcMAC, dstMAC, src, dst, srcPort, dstPort, payload);
    Ip4HeaderVerifies(src, dst, 28 + |payload|);
    Udp4Verifies(src, dst, srcPort, dstPort, payload);
    assert f[14..34] == Ip4(src, dst, 28 + |payload|, HeaderSum(src, dst, 28 + |payload|));
    assert f[34..] == Udp(srcPort, dstPort, UdpSum(src, dst, srcPort, dstPort, payload), payload);
  }

  lemma Udp6FrameVerifies(srcMAC: seq<Byte>, dstMAC: seq<Byte>, src: seq<Byte>, dst: seq<Byte>,
                          srcPort: nat, dstPort: nat, payload: seq<Byte>)
    requires |src| == 16 && |dst| == 16 && |payload| <= 65527
    ensures var f := Udp6Frame(srcMAC, dstMAC, src, dst, srcPort, dstPort, payload);
      |f| >= 62 && Verifies(Pseudo6(f[22..38], f[38..54], 17, |f| - 54) + f[54..])
  {
    var f := Udp6Frame(srcMAC, dstMAC, src, dst, srcPort, dstPort, payload);
    Udp6Bytes(srcMAC, dstMAC, src, dst, srcPort, dstPort, payload);
    Udp6Verifies(src, dst, srcPort, dstPort, payload);
    assert f[54..] == Udp(srcPort, dstPort, UdpSum(src, dst, srcPort, dstPort, payload), payload);
  }

  lemma Icmp6FrameVerifies(srcMAC: seq<Byte>, dstMAC: seq<Byte>, src: seq<Byte>, dst: seq<Byte>,
                           body: seq<Byte>, hop: Byte)
    requires |src| == 16 && |dst| == 16 && 4 <= |body| <= 65535
    ensures var f := Icmp6Frame(srcMAC, dstMAC, src, dst, body, hop);
      |f| >= 58 && Verifies(Pseudo6(f[22..38], f[38..54], 58, |f| - 54) + f[54..])
  {
    var f := Icmp6Frame(srcMAC, dstMAC, src, dst, body, hop);
    Icmp6Bytes(srcMAC, dstMAC, src, dst, body, hop);
    Icmp6Verifies(src, dst, body);
    assert f[54..] == Icmp(body, IcmpSum(src, dst, body));
  }
}
