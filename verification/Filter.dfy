/** The socket filter (internal/transport/afpacket.go): its 21 classic BPF instructions, an
    interpreter for the instructions they use, and the proof that what it admits is what the
    reader would hand to a protocol server (internal/server/iface.go). */
module Filter {
  import opened Arith
  import opened Checksum
  import opened Frames
  import opened Parsing

  datatype Instr =
    | LoadVlanTagPresent
    | LoadAbsolute(off: nat, size: nat)
    | LoadIndirect(off: nat, size: nat)
    | LoadMemShift(off: nat)
    | JumpEqual(val: nat, skipTrue: nat, skipFalse: nat)
    | JumpNotEqual(val: nat, skipTrue: nat, skipFalse: nat)
    | JumpBitsSet(mask: nat, skipTrue: nat, skipFalse: nat)
    | RetConstant(val: nat)

  const ACCEPT := 0x40000

  const PROGRAM := [
    /* 0 */ LoadVlanTagPresent,
    /* 1 */ JumpNotEqual(0, 18, 0),           // tagged: drop
    /* 2 */ LoadAbsolute(12, 2),              // ethertype
    /* 3 */ JumpEqual(0x86DD, 0, 7),
    /* 4 */ LoadAbsolute(20, 1),              // next header
    /* 5 */ JumpEqual(17, 0, 2),
    /* 6 */ LoadAbsolute(56, 2),              // UDP destination port
    /* 7 */ JumpEqual(547, 11, 12),
    /* 8 */ JumpEqual(58, 0, 11),
    /* 9 */ LoadAbsolute(54, 1),              // ICMPv6 type
    /* 10 */ JumpEqual(133, 8, 9),
    /* 11 */ JumpEqual(0x0800, 0, 8),
    /* 12 */ LoadAbsolute(23, 1),             // protocol
    /* 13 */ JumpEqual(17, 0, 6),
    /* 14 */ LoadAbsolute(20, 2),             // flags and fragment offset
    /* 15 */ JumpBitsSet(0x1FFF, 4, 0),
    /* 16 */ LoadMemShift(14),                // X = IPv4 header length
    /* 17 */ LoadIndirect(16, 2),             // UDP destination port
    /* 18 */ JumpEqual(67, 0, 1),
    /* 19 */ RetConstant(ACCEPT),
    /* 20 */ RetConstant(0)
  ]

  /** A load of one or two bytes; outside the frame there is nothing to load. */
  function Load(frame: seq<Byte>, at: nat, size: nat): (r: Option<nat>) {
    if at + size > |frame| then None
    else if size == 1 then Some(frame[at])
    else if size == 2 then Some(U16(frame, at))
    else None
  }

  /** a & mask != 0 for the mask 2^n - 1 of the n low bits. */
  predicate LowBitsSet(a: nat, mask: nat) {
    a % (mask + 1) != 0
  }

  /** The interpreter.  Jumps only go forward, so every program terminates; running past the
      end or loading outside the frame drops the frame, as the kernel does. */
  function Exec(prog: seq<Instr>, pc: nat, a: nat, x: nat, frame: seq<Byte>, tagged: bool): (admitted: nat)
    decreases |prog| - pc
  {
    if pc >= |prog| then 0
    else match prog[pc]
      case LoadVlanTagPresent => Exec(prog, pc + 1, if tagged then 1 else 0, x, frame, tagged)
      case LoadAbsolute(off, size) =>
        var v := Load(frame, off, size);
        if v.None? then 0 else Exec(prog, pc + 1, v.value, x, frame, tagged)
      case LoadIndirect(off, size) =>
        var v := Load(frame, x + off, size);
        if v.None? then 0 else Exec(prog, pc + 1, v.value, x, frame, tagged)
      case LoadMemShift(off) =>
        if off >= |frame| then 0 else Exec(prog, pc + 1, a, 4 * (frame[off] % 16) as int, frame, tagged)
      case JumpEqual(val, t, f) => Exec(prog, pc + 1 + (if a == val then t else f), a, x, frame, tagged)
      case JumpNotEqual(val, t, f) => Exec(prog, pc + 1 + (if a != val then t else f), a, x, frame, tagged)
      case JumpBitsSet(mask, t, f) => Exec(prog, pc + 1 + (if LowBitsSet(a, mask) then t else f), a, x, frame, tagged)
      case RetConstant(val) => val
  }

  predicate Admits(frame: seq<Byte>, tagged: bool) {
    Exec(PROGRAM, 0, 0, 0, frame, tagged) != 0
  }

  // ---- what the program means ----

  predicate WantsUdp6(frame: seq<Byte>) {
    |frame| >= 58 && U16(frame, 12) == 0x86DD && frame[20] == 17 && U16(frame, 56) == 547
  }

  predicate WantsSolicit(frame: seq<Byte>) {
    |frame| >= 55 && U16(frame, 12) == 0x86DD && frame[20] == 58 && frame[54] == 133
  }

  function HeaderLen(frame: seq<Byte>): (x: nat)
    requires |frame| > 14
  {
    4 * (frame[14] % 16) as int
  }

  predicate WantsUdp4(frame: seq<Byte>) {
    && |frame| >= 24 && U16(frame, 12) == 0x0800 && frame[23] == 17
    && U16(frame, 20) % 0x2000 == 0
    && HeaderLen(frame) + 18 <= |frame| && U16(frame, HeaderLen(frame) + 16) == 67
  }

  // The program, block by block.

  lemma Tail(a: nat, x: nat, frame: seq<Byte>, tagged: bool)
    ensures Exec(PROGRAM, 19, a, x, frame, tagged) == ACCEPT
    ensures Exec(PROGRAM, 20, a, x, frame, tagged) == 0
  {
  }

  lemma Ipv6Block(a: nat, x: nat, frame: seq<Byte>, tagged: bool)
    ensures Exec(PROGRAM, 4, a, x, frame, tagged) ==
            if |frame| > 20 && frame[20] == 17 then
              if |frame| >= 58 && U16(frame, 56) == 547 then ACCEPT else 0
            else if |frame| > 54 && frame[20] == 58 && frame[54] == 133 then ACCEPT
            else 0
  {
    if |frame| > 20 {
      var n := frame[20];
      assert Exec(PROGRAM, 4, a, x, frame, tagged) == Exec(PROGRAM, 5, n, x, frame, tagged);
      assert Exec(PROGRAM, 5, n, x, frame, tagged) == Exec(PROGRAM, if n == 17 then 6 else 8, n, x, frame, tagged);
      if n == 17 {
        if |frame| >= 58 {
          var port := U16(frame, 56);
          assert Exec(PROGRAM, 6, n, x, frame, tagged) == Exec(PROGRAM, 7, port, x, frame, tagged);
          Tail(port, x, frame, tagged);
        }
      } else {
        Tail(n, x, frame, tagged);
        if n == 58 {
          assert Exec(PROGRAM, 8, n, x, frame, tagged) == Exec(PROGRAM, 9, n, x, frame, tagged);
          if |frame| > 54 {
            assert Exec(PROGRAM, 9, n, x, frame, tagged) == Exec(PROGRAM, 10, frame[54], x, frame, tagged);
            Tail(frame[54], x, frame, tagged);
          }
        }
      }
    }
  }

  lemma Ipv4Block(a: nat, x: nat, frame: seq<Byte>, tagged: bool)
    ensures Exec(PROGRAM, 12, a, x, frame, tagged) ==
            if |frame| >= 24 && frame[23] == 17 && U16(frame, 20) % 0x2000 == 0 &&
               HeaderLen(frame) + 18 <= |frame| && U16(frame, HeaderLen(frame) + 16) == 67
            then ACCEPT else 0
  {
    if |frame| > 23 {
      var proto, frag := frame[23], U16(frame, 20);
      Tail(proto, x, frame, tagged);
      assert Exec(PROGRAM, 12, a, x, frame, tagged) == Exec(PROGRAM, 13, proto, x, frame, tagged);
      if proto == 17 {
        assert Exec(PROGRAM, 13, proto, x, frame, tagged) == Exec(PROGRAM, 14, proto, x, frame, tagged);
        assert Exec(PROGRAM, 14, proto, x, frame, tagged) == Exec(PROGRAM, 15, frag, x, frame, tagged);
        Tail(frag, x, frame, tagged);
        if frag % 0x2000 == 0 {
          PortBlock(frag, x, frame, tagged);
        }
      }
    }
  }

  lemma PortBlock(frag: nat, x: nat, frame: seq<Byte>, tagged: bool)
    requires |frame| > 14 && frag % 0x2000 == 0
    ensures Exec(PROGRAM, 15, frag, x, frame, tagged) ==
            if HeaderLen(frame) + 18 <= |frame| && U16(frame, HeaderLen(frame) + 16) == 67 then ACCEPT else 0
  {
    var h := HeaderLen(frame);
    assert Exec(PROGRAM, 15, frag, x, frame, tagged) == Exec(PROGRAM, 16, frag, x, frame, tagged);
    assert Exec(PROGRAM, 16, frag, x, frame, tagged) == Exec(PROGRAM, 17, frag, h, frame, tagged);
    if h + 18 <= |frame| {
      var port := U16(frame, h + 16);
      assert Exec(PROGRAM, 17, frag, h, frame, tagged) == Exec(PROGRAM, 18, port, h, frame, tagged);
      Tail(port, h, frame, tagged);
    }
  }

  /** The whole program, for every frame of every length: tagged frames are dropped, and an
      untagged one is admitted, with up to 262144 of its bytes, iff it looks like DHCPv4, DHCPv6
      or a router solicitation. */
  lemma FilterMeaning(frame: seq<Byte>, tagged: bool)
    ensures Admits(frame, tagged) <==>
            !tagged && (WantsUdp4(frame) || WantsUdp6(frame) || WantsSolicit(frame))
    ensures Exec(PROGRAM, 0, 0, 0, frame, tagged) == if Admits(frame, tagged) then 0x40000 else 0
  {
    var v := if tagged then 1 else 0;
    assert Exec(PROGRAM, 0, 0, 0, frame, tagged) == Exec(PROGRAM, 1, v, 0, frame, tagged);
    Tail(v, 0, frame, tagged);
    if !tagged {
      assert Exec(PROGRAM, 1, v, 0, frame, tagged) == Exec(PROGRAM, 2, v, 0, frame, tagged);
      if |frame| >= 14 {
        var e := U16(frame, 12);
        assert Exec(PROGRAM, 2, v, 0, frame, tagged) == Exec(PROGRAM, 3, e, 0, frame, tagged);
        Tail(e, 0, frame, tagged);
        if e == 0x86DD {
          assert Exec(PROGRAM, 3, e, 0, frame, tagged) == Exec(PROGRAM, 4, e, 0, frame, tagged);
          Ipv6Block(e, 0, frame, tagged);
        } else {
          assert Exec(PROGRAM, 3, e, 0, frame, tagged) == Exec(PROGRAM, 11, e, 0, frame, tagged);
          if e == 0x0800 {
            assert Exec(PROGRAM, 11, e, 0, frame, tagged) == Exec(PROGRAM, 12, e, 0, frame, tagged);
            Ipv4Block(e, 0, frame, tagged);
          }
        }
      }
    }
  }

  // ---- the dispatch of readLoop ----

  predicate Dhcp4Consumes(p: Ingress) {
    p.isUDP4 && p.dstPort == 67
  }

  predicate Dhcp6Consumes(p: Ingress) {
    p.isUDP6 && p.dstPort == 547
  }

  predicate RaConsumes(p: Ingress) {
    p.isICMP6 && p.icmpType == 133
  }

  datatype Handler = Dhcp4 | Dhcp6 | Ra

  /** The handlers that would consume the packet, in the order they are asked. */
  function Consumers(p: Ingress): (r: seq<Handler>) {
    (if Dhcp4Consumes(p) then [Dhcp4] else [])
    + (if Dhcp6Consumes(p) then [Dhcp6] else [])
    + (if RaConsumes(p) then [Ra] else [])
  }

  /** Filter equals dispatch: for every untagged frame that Parse accepts, the filter admits
      it exactly when one handler would consume it, and never is there more than one. */
  lemma FilterEqualsDispatch(frame: seq<Byte>)
    requires Parse(frame).Some?
    ensures Admits(frame, false) <==> |Consumers(Parse(frame).value)| == 1
    ensures |Consumers(Parse(frame).value)| <= 1
  {
    FilterMeaning(frame, false);
    if U16(frame, 12) == ETHERTYPE_IPV4 {
      Parsed4(frame);
    } else {
      Parsed6(frame);
    }
  }

  /** The frame passes the filter, parses, and this handler consumes it. */
  predicate Delivered(frame: seq<Byte>, tagged: bool, h: Handler) {
    Admits(frame, tagged) && Parse(frame).Some? && h in Consumers(Parse(frame).value)
  }

  /** For every frame, byte by byte: which one reaches which handler. */
  lemma DeliveredIff(frame: seq<Byte>, tagged: bool, h: Handler)
    ensures Delivered(frame, tagged, h) <==> !tagged && match h
      case Dhcp4 => SoundUdp4(frame) && At16(frame, 16 + HeaderBytes(frame)) == 67
      case Dhcp6 => Sound6(frame, 17, 8) && At16(frame, 56) == 547
      case Ra => Sound6(frame, 58, 4) && frame[54] == 133
  {
    FilterMeaning(frame, tagged);
    ParseIff(frame);
    if Parse(frame).Some? && !tagged { FilterEqualsDispatch(frame); }
  }

  /** An admitted frame that is a sound packet is consumed by exactly one handler, and an
      admitted frame that is not is dropped. */
  lemma AdmittedIsConsumed(frame: seq<Byte>)
    requires Admits(frame, false)
    ensures var sound := SoundUdp4(frame) || Sound6(frame, 17, 8) || Sound6(frame, 58, 4);
      && (Parse(frame).Some? <==> sound) && (sound ==> |Consumers(Parse(frame).value)| == 1)
  {
    ParseIff(frame);
    if Parse(frame).Some? { FilterEqualsDispatch(frame); }
  }

  lemma Parsed4(frame: seq<Byte>)
    requires Parse(frame).Some? && U16(frame, 12) == ETHERTYPE_IPV4
    ensures var p := Parse(frame).value;
      && p.isUDP4 && !p.isUDP6 && !p.isICMP6 && (WantsUdp4(frame) <==> p.dstPort == 67)
  {
    ParseIff(frame);
    NotFirst(frame[20], frame[21]);
  }

  /** An unfragmented packet has no offset in particular. */
  lemma NotFirst(hi: Byte, lo: Byte)
    requires hi as int % 64 == 0 && lo == 0
    ensures Word(hi, lo) % 0x2000 == 0
  {
    var h: int := hi;
    assert Word(hi, lo) == 0x4000 * (h / 64);
  }

  lemma Parsed6(frame: seq<Byte>)
    requires Parse(frame).Some? && U16(frame, 12) != ETHERTYPE_IPV4
    ensures var p := Parse(frame).value;
      && !p.isUDP4 && p.isUDP6 == !p.isICMP6
      && (WantsUdp6(frame) <==> p.isUDP6 && p.dstPort == 547)
      && (WantsSolicit(frame) <==> p.isICMP6 && p.icmpType == 133)
  {
    ParseIff(frame);
  }
}
