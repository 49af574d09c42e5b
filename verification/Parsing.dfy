/** Parse (internal/packet/packet.go) and its round trips with the crafted frames. */
module Parsing {
  import opened Arith
  import opened Checksum
  import opened Frames

  /** A parsed inbound frame, dissected far enough to dispatch it. */
  datatype Ingress = Ingress(
    srcMAC: seq<Byte>, isUDP4: bool, isUDP6: bool, isICMP6: bool,
    srcIP: seq<Byte>, dstIP: seq<Byte>, srcPort: nat, dstPort: nat, icmpType: nat, payload: seq<Byte>)

  /** The 16-bit field at index i. */
  function U16(s: seq<Byte>, i: nat): (v: nat)
    requires i + 2 <= |s|
  {
    Word(s[i], s[i + 1])
  }

  function Parse(frame: seq<Byte>): (r: Option<Ingress>) {
    if |frame| < 14 then None
    else
      var body := frame[14..];
      if U16(frame, 12) == ETHERTYPE_IPV4 then ParseIp4(frame[6..12], body)
      else if U16(frame, 12) == ETHERTYPE_IPV6 then ParseIp6(frame[6..12], body)
      else None
  }

  function ParseIp4(mac: seq<Byte>, body: seq<Byte>): (r: Option<Ingress>) {
    if |body| < 20 then None
    else if body[0] / 16 != 4 then None
    else
      var ihl := (body[0] % 16) as int * 4;
      var totalLen := U16(body, 2);
      if ihl < 20 || totalLen < ihl || totalLen > |body| then None
      else if U16(body, 6) % 0x4000 != 0 then None    // fragment
      else if body[9] != PROTO_UDP then None
      else
        var udp := body[ihl..totalLen];
        if |udp| < 8 then None
        else Some(Ingress(mac, true, false, false, body[12..16], body[16..20], U16(udp, 0), U16(udp, 2), 0, udp[8..]))
  }

  function ParseIp6(mac: seq<Byte>, body: seq<Byte>): (r: Option<Ingress>) {
    if |body| < 40 then None
    else if body[0] / 16 != 6 then None
    else
      var payloadLen := U16(body, 4);
      if 40 + payloadLen > |body| then None
      else
        var rest := body[40..40 + payloadLen];
        if body[6] == PROTO_UDP then
          if |rest| < 8 then None
          else Some(Ingress(mac, false, true, false, body[8..24], body[24..40],
                            U16(rest, 0), U16(rest, 2), 0, rest[8..]))
        else if body[6] == PROTO_ICMPV6 then
          if |rest| < 4 then None
          else Some(Ingress(mac, false, false, true, body[8..24], body[24..40], 0, 0, rest[0], rest))
        else None
  }

  // ---- which frames parse ----

  /** The number at index i of a frame, high byte first. */
  function At16(f: seq<Byte>, i: nat): (v: nat)
    requires i + 2 <= |f|
  {
    256 * f[i] as int + f[i + 1] as int
  }

  /** The length of the IPv4 header, in bytes. */
  function HeaderBytes(f: seq<Byte>): (n: nat)
    requires |f| >= 34
  {
    4 * (f[14] as int % 16)
  }

  /** A UDP/IPv4 packet: version 4, at least five header words, a total length that covers the
      header and a UDP header and fits the frame, no more-fragments flag and no offset. */
  predicate SoundUdp4(f: seq<Byte>) {
    && |f| >= 34 && f[12..14] == [0x08, 0x00] && f[14] as int / 16 == 4 && HeaderBytes(f) >= 20
    && HeaderBytes(f) + 8 <= At16(f, 16) <= |f| - 14
    && f[20] as int % 64 == 0 && f[21] == 0 && f[23] == 17
  }

  /** A packet of at least `least` bytes right after the IPv6 header. */
  predicate Sound6(f: seq<Byte>, next: Byte, least: nat) {
    && |f| >= 54 && f[12..14] == [0x86, 0xDD] && f[14] as int / 16 == 6 && f[20] == next
    && least <= At16(f, 18) <= |f| - 54
  }

  /** For every frame: it parses if and only if it is such a packet of UDP/IPv4, UDP/IPv6 or
      ICMPv6.  The fields are those at their places in the frame, and what follows the length in
      the IP header is cut off. */
  lemma ParseIff(f: seq<Byte>)
    ensures Parse(f).Some? <==> SoundUdp4(f) || Sound6(f, 17, 8) || Sound6(f, 58, 4)
    ensures SoundUdp4(f) ==> var at := 14 + HeaderBytes(f);
      Parse(f) == Some(Ingress(f[6..12], true, false, false, f[26..30], f[30..34],
                               At16(f, at), At16(f, at + 2), 0, f[at + 8..14 + At16(f, 16)]))
    ensures Sound6(f, 17, 8) ==>
      Parse(f) == Some(Ingress(f[6..12], false, true, false, f[22..38], f[38..54],
                               At16(f, 54), At16(f, 56), 0, f[62..54 + At16(f, 18)]))
    ensures Sound6(f, 58, 4) ==>
      Parse(f) == Some(Ingress(f[6..12], false, false, true, f[22..38], f[38..54],
                               0, 0, f[54], f[54..54 + At16(f, 18)]))
  {
    if |f| >= 14 {
      assert f[12] == f[12..14][0] && f[13] == f[12..14][1];
      assert f[12..14] == [f[12], f[13]];
      if U16(f, 12) == ETHERTYPE_IPV4 { Parse4Iff(f); }
      if U16(f, 12) == ETHERTYPE_IPV6 { Parse6Iff(f); }
    }
  }

  lemma Parse4Iff(f: seq<Byte>)
    requires |f| >= 14 && U16(f, 12) == ETHERTYPE_IPV4
    ensures Parse(f).Some? <==> SoundUdp4(f)
    ensures SoundUdp4(f) ==> var at := 14 + HeaderBytes(f);
      Parse(f) == Some(Ingress(f[6..12], true, false, false, f[26..30], f[30..34],
                               At16(f, at), At16(f, at + 2), 0, f[at + 8..14 + At16(f, 16)]))
  {
    var body := f[14..];
    assert f[12..14] == [0x08, 0x00];
    if |body| >= 20 {
      NoFragment(body[6], body[7]);
      var ihl, total := HeaderBytes(f), At16(f, 16);
      assert f[14..] == f[14..|f|];
      Slice(f, 14, |f|, 12, 16);
      Slice(f, 14, |f|, 16, 20);
      assert U16(body, 2) == total;
      if 20 <= ihl && ihl + 8 <= total <= |body| {
        Slice(f, 14, |f|, ihl, total);
        Segment(f, 14 + ihl, 14 + total);
      }
    }
  }

  /** The ports and the payload of a segment inside a frame. */
  lemma Segment(f: seq<Byte>, at: nat, end: nat)
    requires at + 8 <= end <= |f|
    ensures var seg := f[at..end];
      U16(seg, 0) == At16(f, at) && U16(seg, 2) == At16(f, at + 2) && seg[8..] == f[at + 8..end]
  {
    var seg := f[at..end];
    assert seg[8..] == seg[8..end - at];
    Slice(f, at, end, 8, end - at);
  }

  /** The lower six bits of the first byte and all of the second are the flag and the offset. */
  lemma NoFragment(hi: Byte, lo: Byte)
    ensures Word(hi, lo) % 0x4000 == 0 <==> hi as int % 64 == 0 && lo == 0
  {
    var h: int, l: int := hi, lo;
    RemainderUnique(Word(hi, lo), 0x4000, h / 64, 256 * (h % 64) + l);
  }

  lemma Parse6Iff(f: seq<Byte>)
    requires |f| >= 14 && U16(f, 12) == ETHERTYPE_IPV6
    ensures Parse(f).Some? <==> Sound6(f, 17, 8) || Sound6(f, 58, 4)
    ensures Sound6(f, 17, 8) ==>
      Parse(f) == Some(Ingress(f[6..12], false, true, false, f[22..38], f[38..54],
                               At16(f, 54), At16(f, 56), 0, f[62..54 + At16(f, 18)]))
    ensures Sound6(f, 58, 4) ==>
      Parse(f) == Some(Ingress(f[6..12], false, false, true, f[22..38], f[38..54],
                               0, 0, f[54], f[54..54 + At16(f, 18)]))
  {
    var body := f[14..];
    assert f[12..14] == [0x86, 0xDD];
    if |body| >= 40 {
      var len := At16(f, 18);
      assert f[14..] == f[14..|f|] && U16(body, 4) == len;
      Slice(f, 14, |f|, 8, 24);
      Slice(f, 14, |f|, 24, 40);
      if 40 + len <= |body| {
        Slice(f, 14, |f|, 40, 40 + len);
        if len >= 8 { Segment(f, 54, 54 + len); }
      }
    }
  }

  // ---- round trips ----

  lemma EthLayout(dstMAC: seq<Byte>, srcMAC: seq<Byte>, etherType: nat, rest: seq<Byte>)
    requires etherType < 0x1_0000
    ensures var f := Eth(dstMAC, srcMAC, etherType) + rest;
      |f| >= 14 && f[14..] == rest && f[6..12] == Fit6(srcMAC) && U16(f, 12) == etherType
  {
  }

  lemma UdpLayout(srcPort: nat, dstPort: nat, csum: nat, payload: seq<Byte>)
    requires srcPort < 0x1_0000 && dstPort < 0x1_0000
    ensures var u := Udp(srcPort, dstPort, csum, payload);
      U16(u, 0) == srcPort && U16(u, 2) == dstPort && u[8..] == payload
  {
  }

  lemma Ip4Layout(src: seq<Byte>, dst: seq<Byte>, totalLen: nat, csum: nat, rest: seq<Byte>)
    requires |src| == 4 && |dst| == 4
    ensures var b := Ip4(src, dst, totalLen, csum) + rest;
      && |b| == 20 + |rest| && b[0] == 0x45 && b[9] == PROTO_UDP
      && U16(b, 2) == totalLen % 0x1_0000 && U16(b, 6) == 0
      && b[12..16] == src && b[16..20] == dst && b[20..] == rest
  {
    var b := Ip4(src, dst, totalLen, csum) + rest;
    assert b[2..4] == Be16(totalLen);
  }

  lemma Ip6Layout(src: seq<Byte>, dst: seq<Byte>, payloadLen: nat, next: Byte, hop: Byte, rest: seq<Byte>)
    requires |src| == 16 && |dst| == 16
    ensures var b := Ip6(src, dst, payloadLen, next, hop) + rest;
      && |b| == 40 + |rest| && b[0] == 0x60 && b[6] == next
      && U16(b, 4) == payloadLen % 0x1_0000
      && b[8..24] == src && b[24..40] == dst && b[40..] == rest
  {
    var b := Ip6(src, dst, payloadLen, next, hop) + rest;
    assert b[4..6] == Be16(payloadLen);
  }

  /** Parsing a crafted UDP/IPv4 frame gives back its fields and payload exactly when the
      payload fits the 16-bit total length. */
  lemma Udp4RoundTrip(srcMAC: seq<Byte>, dstMAC: seq<Byte>, src: seq<Byte>, dst: seq<Byte>,
                      srcPort: nat, dstPort: nat, payload: seq<Byte>)
    requires |src| == 4 && |dst| == 4 && srcPort < 0x1_0000 && dstPort < 0x1_0000
    ensures Parse(Udp4Frame(srcMAC, dstMAC, src, dst, srcPort, dstPort, payload))
            == Some(Ingress(Fit6(srcMAC), true, false, false, src, dst, srcPort, dstPort, 0, payload))
            <==> |payload| <= 65507
  {
    var len := 28 + |payload|;
    var csum := UdpSum(src, dst, srcPort, dstPort, payload);
    var seg := Udp(srcPort, dstPort, csum, payload);
    var body := Ip4(src, dst, len, HeaderSum(src, dst, len)) + seg;
    assert Udp4Frame(srcMAC, dstMAC, src, dst, srcPort, dstPort, payload) == Eth(dstMAC, srcMAC, ETHERTYPE_IPV4) + body;
    EthLayout(dstMAC, srcMAC, ETHERTYPE_IPV4, body);
    Ip4Layout(src, dst, len, HeaderSum(src, dst, len), seg);
    ParseBody4(Fit6(srcMAC), body, src, dst, srcPort, dstPort, csum, payload);
  }

  lemma ParseBody4(mac: seq<Byte>, body: seq<Byte>, src: seq<Byte>, dst: seq<Byte>,
                   srcPort: nat, dstPort: nat, csum: nat, payload: seq<Byte>)
    requires srcPort < 0x1_0000 && dstPort < 0x1_0000
    requires |body| == 28 + |payload| && body[0] == 0x45 && body[9] == PROTO_UDP
    requires U16(body, 2) == |body| % 0x1_0000 && U16(body, 6) == 0
    requires body[12..16] == src && body[16..20] == dst
    requires body[20..] == Udp(srcPort, dstPort, csum, payload)
    ensures ParseIp4(mac, body) == Some(Ingress(mac, true, false, false, src, dst, srcPort, dstPort, 0, payload))
            <==> |payload| <= 65507
  {
    UdpLayout(srcPort, dstPort, csum, payload);
    if |payload| <= 65507 {
      assert body[20..|body|] == body[20..];
    }
  }

  /** The same for UDP/IPv6 and its 16-bit payload length. */
  lemma Udp6RoundTrip(srcMAC: seq<Byte>, dstMAC: seq<Byte>, src: seq<Byte>, dst: seq<Byte>,
                      srcPort: nat, dstPort: nat, payload: seq<Byte>)
    requires |src| == 16 && |dst| == 16 && srcPort < 0x1_0000 && dstPort < 0x1_0000
    ensures Parse(Udp6Frame(srcMAC, dstMAC, src, dst, srcPort, dstPort, payload))
            == Some(Ingress(Fit6(srcMAC), false, true, false, src, dst, srcPort, dstPort, 0, payload))
            <==> |payload| <= 65527
  {
    var csum := UdpSum(src, dst, srcPort, dstPort, payload);
    var seg := Udp(srcPort, dstPort, csum, payload);
    var body := Ip6(src, dst, 8 + |payload|, PROTO_UDP, 64) + seg;
    assert Udp6Frame(srcMAC, dstMAC, src, dst, srcPort, dstPort, payload) == Eth(dstMAC, srcMAC, ETHERTYPE_IPV6) + body;
    EthLayout(dstMAC, srcMAC, ETHERTYPE_IPV6, body);
    Ip6Layout(src, dst, 8 + |payload|, PROTO_UDP, 64, seg);
    ParseBody6(Fit6(srcMAC), body, src, dst, srcPort, dstPort, csum, payload);
  }

  lemma ParseBody6(mac: seq<Byte>, body: seq<Byte>, src: seq<Byte>, dst: seq<Byte>,
                   srcPort: nat, dstPort: nat, csum: nat, payload: seq<Byte>)
    requires srcPort < 0x1_0000 && dstPort < 0x1_0000
    requires |body| == 48 + |payload| && body[0] == 0x60 && body[6] == PROTO_UDP
    requires U16(body, 4) == (8 + |payload|) % 0x1_0000
    requires body[8..24] == src && body[24..40] == dst
    requires body[40..] == Udp(srcPort, dstPort, csum, payload)
    ensures ParseIp6(mac, body) == Some(Ingress(mac, false, true, false, src, dst, srcPort, dstPort, 0, payload))
            <==> |payload| <= 65527
  {
    UdpLayout(srcPort, dstPort, csum, payload);
    if |payload| <= 65527 {
      assert body[40..48 + |payload|] == body[40..];
    }
  }

  /** The same for ICMPv6: the message comes back with its checksum field filled in. */
  lemma Icmp6RoundTrip(srcMAC: seq<Byte>, dstMAC: seq<Byte>, src: seq<Byte>, dst: seq<Byte>,
                       body: seq<Byte>, hop: Byte)
    requires |src| == 16 && |dst| == 16 && |body| >= 4
    ensures Parse(Icmp6Frame(srcMAC, dstMAC, src, dst, body, hop))
            == Some(Ingress(Fit6(srcMAC), false, false, true, src, dst, 0, 0, body[0],
                            Icmp(body, IcmpSum(src, dst, body))))
            <==> |body| <= 65535
  {
    var msg := Icmp(body, IcmpSum(src, dst, body));
    var rest := Ip6(src, dst, |body|, PROTO_ICMPV6, hop) + msg;
    assert Icmp6Frame(srcMAC, dstMAC, src, dst, body, hop) == Eth(dstMAC, srcMAC, ETHERTYPE_IPV6) + rest;
    EthLayout(dstMAC, srcMAC, ETHERTYPE_IPV6, rest);
    Ip6Layout(src, dst, |body|, PROTO_ICMPV6, hop, msg);
    ParseBodyIcmp(Fit6(srcMAC), rest, src, dst, msg);
    assert msg[0] == body[0];
  }

  lemma ParseBodyIcmp(mac: seq<Byte>, rest: seq<Byte>, src: seq<Byte>, dst: seq<Byte>, msg: seq<Byte>)
    requires |msg| >= 4 && |rest| == 40 + |msg| && rest[0] == 0x60 && rest[6] == PROTO_ICMPV6
    requires U16(rest, 4) == |msg| % 0x1_0000
    requires rest[8..24] == src && rest[24..40] == dst && rest[40..] == msg
    ensures ParseIp6(mac, rest) == Some(Ingress(mac, false, false, true, src, dst, 0, 0, msg[0], msg))
            <==> |msg| <= 65535
  {
    if |msg| <= 65535 {
      assert rest[40..40 + |msg|] == rest[40..];
    }
  }
}
