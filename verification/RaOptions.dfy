/** Router-advertisement encoding (transmitRA in internal/server/ra.go) and a walk of its
    options as a host does it (section 4.6 of RFC 4861, section 5.1 of RFC 8106). */
module RaOptions {
  import opened Arith
  import opened Addressing
  import opened Checksum
  import opened Frames
  import opened Parsing

  /** Lifetimes are in seconds, as they are sent. */
  datatype RaConfig = RaConfig(
    managed: bool, other: bool, autonomous: bool,
    routerLifetime: nat, validLifetime: nat, preferredLifetime: nat, dns: seq<seq<Byte>>)

  predicate ValidConfig(cfg: RaConfig) {
    forall a | a in cfg.dns :: |a| == 16
  }

  function Be32(v: nat): (r: seq<Byte>)
    ensures |r| == 4
  {
    Be16(v / 0x1_0000) + Be16(v)
  }

  function U32(s: seq<Byte>, i: nat): (v: nat)
    requires i + 4 <= |s|
  {
    U16(s, i) * 0x1_0000 + U16(s, i + 2)
  }

  lemma U32OfBe32(v: nat)
    ensures U32(Be32(v), 0) == v % 0x1_0000_0000
    ensures var b := Be32(v);
      0x100_0000 * b[0] as int + 0x1_0000 * b[1] as int + 0x100 * b[2] as int + b[3] as int == v % 0x1_0000_0000
  {
    var hi, lo := Be16(v / 0x1_0000), Be16(v);
    assert U16(Be32(v), 0) == Word(hi[0], hi[1]);
    assert U16(Be32(v), 2) == Word(lo[0], lo[1]);
    Halves(v);
  }

  lemma Halves(v: nat)
    ensures ((v / 0x1_0000) % 0x1_0000) * 0x1_0000 + v % 0x1_0000 == v % 0x1_0000_0000
  {
    var q := v / 0x1_0000;
    var low := (q % 0x1_0000) * 0x1_0000 + v % 0x1_0000;
    assert v == 0x1_0000_0000 * (q / 0x1_0000) + low;
    RemainderUnique(v, 0x1_0000_0000, q / 0x1_0000, low);
  }

  // ---- encoding ----

  function Bit(b: bool, value: Byte): (r: Byte) {
    if b then value else 0
  }

  function Header(cfg: RaConfig, routerLifetime: nat): (r: seq<Byte>)
    ensures |r| == 16
  {
    [134, 0, 0, 0, 64, Bit(cfg.managed, 128) + Bit(cfg.other, 64)] + Be16(routerLifetime) + Zeros(8)
  }

  function SourceOption(mac: seq<Byte>): (r: seq<Byte>)
    ensures |r| == 8
  {
    [1, 1] + Fit6(mac)
  }

  function PrefixOption(cfg: RaConfig, p: Prefix, alive: bool): (r: seq<Byte>)
    requires p.bits < 256
    ensures |r| == 32
  {
    [3, 4, p.bits, 128 + Bit(cfg.autonomous, 64)]
    + Be32(if alive then cfg.validLifetime else 0)
    + Be32(if alive then cfg.preferredLifetime else 0)
    + Zeros(4) + BytesOf(p.addr, 16)
  }

  function Concat(parts: seq<seq<Byte>>): (r: seq<Byte>) {
    if parts == [] then [] else parts[0] + Concat(parts[1..])
  }

  lemma {:induction false} ConcatAppend(parts: seq<seq<Byte>>, x: seq<Byte>)
    ensures Concat(parts + [x]) == Concat(parts) + x
  {
    if parts == [] {
      assert ([x])[1..] == [];
      assert parts + [x] == [x];
    } else {
      assert (parts + [x])[1..] == parts[1..] + [x];
      ConcatAppend(parts[1..], x);
    }
  }

  /** The length byte is truncated as the source's byte conversion does. */
  function RdnssOption(cfg: RaConfig): (r: seq<Byte>)
    ensures |r| >= 8
  {
    [25, (1 + 2 * |cfg.dns|) % 256, 0, 0] + Be32(cfg.routerLifetime) + Concat(cfg.dns)
  }

  predicate ValidOrder(order: seq<Prefix>, prefixes: map<Prefix, bool>) {
    forall p | p in order :: p in prefixes && p.bits < 256
  }

  /** order lists the keys of prefixes, each once: one iteration order of the map. */
  predicate Lists(order: seq<Prefix>, prefixes: map<Prefix, bool>) {
    Elems(order) == prefixes.Keys && forall i, j | 0 <= i < j < |order| :: order[i] != order[j]
  }

  /** The options before the server list. */
  function FrontOptions(cfg: RaConfig, mac: seq<Byte>, order: seq<Prefix>, prefixes: map<Prefix, bool>)
    : (r: seq<seq<Byte>>)
    requires ValidOrder(order, prefixes)
    ensures |r| == 1 + |order|
  {
    [SourceOption(mac)]
    + seq(|order|, i requires 0 <= i < |order| => PrefixOption(cfg, order[i], prefixes[order[i]]))
  }

  function Body(cfg: RaConfig, mac: seq<Byte>, order: seq<Prefix>, prefixes: map<Prefix, bool>,
                routerLifetime: nat): (r: seq<Byte>)
    requires ValidOrder(order, prefixes)
  {
    Header(cfg, routerLifetime) + (Concat(FrontOptions(cfg, mac, order, prefixes))
                                   + (if cfg.dns == [] then [] else RdnssOption(cfg)))
  }

  lemma FrontOptionsAppend(cfg: RaConfig, mac: seq<Byte>, order: seq<Prefix>, p: Prefix, prefixes: map<Prefix, bool>)
    requires ValidOrder(order, prefixes) && p in prefixes && p.bits < 256
    ensures ValidOrder(order + [p], prefixes)
    ensures FrontOptions(cfg, mac, order + [p], prefixes)
            == FrontOptions(cfg, mac, order, prefixes) + [PrefixOption(cfg, p, prefixes[p])]
  {
  }

  /** The fixed 16 bytes, set field by field. */
  method BuildHeader(cfg: RaConfig, routerLifetime: nat) returns (body: seq<Byte>)
    ensures body == Header(cfg, routerLifetime)
  {
    body := Zeros(16);
    body := body[0 := 134][4 := 64];
    if cfg.managed { body := body[5 := body[5] + 128]; }
    if cfg.other { body := body[5 := body[5] + 64]; }
    body := body[6 := Be16(routerLifetime)[0]][7 := Be16(routerLifetime)[1]];
  }

  /** The source address option, then one option for each prefix, in some order. */
  method BuildFront(cfg: RaConfig, mac: seq<Byte>, prefixes: map<Prefix, bool>)
    returns (options: seq<Byte>, ghost order: seq<Prefix>)
    requires forall p | p in prefixes :: p.bits < 256
    ensures Lists(order, prefixes) && ValidOrder(order, prefixes)
    ensures options == Concat(FrontOptions(cfg, mac, order, prefixes))
  {
    order := [];
    options := SourceOption(mac);
    ConcatAppend([], SourceOption(mac));
    assert FrontOptions(cfg, mac, order, prefixes) == [] + [SourceOption(mac)];
    var todo := prefixes.Keys;
    while todo != {}
      invariant todo <= prefixes.Keys
      invariant forall p | p in order :: p in prefixes && p !in todo
      invariant forall p | p in prefixes && p !in todo :: p in order
      invariant forall i, j | 0 <= i < j < |order| :: order[i] != order[j]
      invariant ValidOrder(order, prefixes)
      invariant options == Concat(FrontOptions(cfg, mac, order, prefixes))
      decreases todo
    {
      var p :| p in todo;
      FrontOptionsAppend(cfg, mac, order, p, prefixes);
      ConcatAppend(FrontOptions(cfg, mac, order, prefixes), PrefixOption(cfg, p, prefixes[p]));
      options := options + PrefixOption(cfg, p, prefixes[p]);
      order := order + [p];
      todo := todo - {p};
    }
  }

  /** The message transmitRA hands to CraftICMP6, for some iteration order of the prefixes. */
  method BuildBody(cfg: RaConfig, mac: seq<Byte>, prefixes: map<Prefix, bool>, routerLifetime: nat)
    returns (body: seq<Byte>, ghost order: seq<Prefix>)
    requires forall p | p in prefixes :: p.bits < 256
    ensures Lists(order, prefixes) && ValidOrder(order, prefixes)
    ensures body == Body(cfg, mac, order, prefixes, routerLifetime)
  {
    var header := BuildHeader(cfg, routerLifetime);
    var options;
    options, order := BuildFront(cfg, mac, prefixes);
    var rdnss: seq<Byte> := [];
    if |cfg.dns| > 0 {
      var servers := BuildServers(cfg.dns);
      rdnss := [25, (1 + 2 * |cfg.dns|) % 256, 0, 0] + Be32(cfg.routerLifetime) + servers;
    }
    body := header + (options + rdnss);
  }

  method BuildServers(dns: seq<seq<Byte>>) returns (r: seq<Byte>)
    ensures r == Concat(dns)
  {
    r := [];
    for i := 0 to |dns|
      invariant r == Concat(dns[..i])
    {
      ConcatAppend(dns[..i], dns[i]);
      assert dns[..i + 1] == dns[..i] + [dns[i]];
      r := r + dns[i];
    }
    assert dns[..|dns|] == dns;
  }

  // ---- the host's walk ----

  datatype Opt =
    | Source(mac: seq<Byte>)
    | Information(bits: nat, flags: nat, valid: nat, preferred: nat, addr: seq<Byte>)
    | Servers(lifetime: nat, servers: seq<seq<Byte>>)
    | Unknown(bytes: seq<Byte>)

  /** Splitting a list of 16-byte addresses. */
  function Split16(s: seq<Byte>): (r: seq<seq<Byte>>)
    decreases |s|
  {
    if |s| < 16 then [] else [s[..16]] + Split16(s[16..])
  }

  function Decode(o: seq<Byte>): (r: Opt)
    requires |o| >= 8
  {
    if o[0] == 1 && |o| == 8 then Source(o[2..8])
    else if o[0] == 3 && |o| == 32 then Information(o[2], o[3], U32(o, 4), U32(o, 8), o[16..32])
    else if o[0] == 25 && |o| >= 24 then Servers(U32(o, 4), Split16(o[8..]))
    else Unknown(o)
  }

  /** Options one after another, each with its length in units of eight bytes; None when a
      length is zero or runs past the end. */
  function Walk(s: seq<Byte>): (r: Option<seq<Opt>>)
    decreases |s|
  {
    if s == [] then Some([])
    else if |s| < 8 then None
    else
      var n := 8 * s[1] as int;
      if n == 0 || n > |s| then None
      else
        var rest := Walk(s[n..]);
        if rest.None? then None else Some([Decode(s[..n])] + rest.value)
  }

  predicate WellFormed(o: seq<Byte>) {
    |o| >= 8 && |o| == 8 * o[1] as int
  }

  lemma WalkCons(o: seq<Byte>, rest: seq<Byte>)
    requires WellFormed(o)
    ensures Walk(o + rest) == Then([Decode(o)], Walk(rest))
  {
    var s := o + rest;
    assert s[..|o|] == o && s[|o|..] == rest;
  }

  function Then(front: seq<Opt>, rest: Option<seq<Opt>>): (r: Option<seq<Opt>>) {
    if rest.None? then None else Some(front + rest.value)
  }

  lemma ThenAssoc(a: seq<Opt>, b: seq<Opt>, rest: Option<seq<Opt>>)
    ensures Then(a, Then(b, rest)) == Then(a + b, rest)
  {
    if rest.Some? { assert a + (b + rest.value) == (a + b) + rest.value; }
  }

  function DecodeAll(opts: seq<seq<Byte>>): (r: seq<Opt>)
    requires forall i | 0 <= i < |opts| :: WellFormed(opts[i])
    ensures |r| == |opts|
  {
    seq(|opts|, i requires 0 <= i < |opts| && WellFormed(opts[i]) => Decode(opts[i]))
  }

  /** Walking past well-formed options decodes them one by one. */
  lemma {:induction false} WalkConcat(opts: seq<seq<Byte>>, rest: seq<Byte>)
    requires forall i | 0 <= i < |opts| :: WellFormed(opts[i])
    ensures Walk(Concat(opts) + rest) == Then(DecodeAll(opts), Walk(rest))
    decreases |opts|
  {
    if opts == [] {
      assert Concat(opts) + rest == rest;
      if Walk(rest).Some? { assert DecodeAll(opts) + Walk(rest).value == Walk(rest).value; }
    } else {
      assert Concat(opts) + rest == opts[0] + (Concat(opts[1..]) + rest);
      WalkCons(opts[0], Concat(opts[1..]) + rest);
      WalkConcat(opts[1..], rest);
      assert [Decode(opts[0])] + DecodeAll(opts[1..]) == DecodeAll(opts);
      ThenAssoc([Decode(opts[0])], DecodeAll(opts[1..]), Walk(rest));
    }
  }

  function Sent(cfg: RaConfig, p: Prefix, alive: bool): (o: Opt) {
    Information(p.bits, 128 + Bit(cfg.autonomous, 64),
                if alive then cfg.validLifetime % 0x1_0000_0000 else 0,
                if alive then cfg.preferredLifetime % 0x1_0000_0000 else 0,
                BytesOf(p.addr, 16))
  }

  lemma PrefixOptionDecodes(cfg: RaConfig, p: Prefix, alive: bool)
    requires p.bits < 256
    ensures Decode(PrefixOption(cfg, p, alive)) == Sent(cfg, p, alive)
    ensures PrefixOption(cfg, p, alive)[1] == 4
  {
    var o := PrefixOption(cfg, p, alive);
    var v, l := if alive then cfg.validLifetime else 0, if alive then cfg.preferredLifetime else 0;
    assert o[4..8] == Be32(v) && o[8..12] == Be32(l) && o[16..32] == BytesOf(p.addr, 16);
    U32OfBe32(v);
    U32OfBe32(l);
    assert U32(o, 4) == U32(o[4..8], 0) && U32(o, 8) == U32(o[8..12], 0);
  }

  /** The options before the server list, as a host should see them. */
  function SentFront(cfg: RaConfig, mac: seq<Byte>, order: seq<Prefix>, prefixes: map<Prefix, bool>): (r: seq<Opt>)
    requires ValidOrder(order, prefixes)
    ensures |r| == 1 + |order|
  {
    [Source(Fit6(mac))] + seq(|order|, i requires 0 <= i < |order| => Sent(cfg, order[i], prefixes[order[i]]))
  }

  lemma FrontDecodes(cfg: RaConfig, mac: seq<Byte>, order: seq<Prefix>, prefixes: map<Prefix, bool>)
    requires ValidOrder(order, prefixes)
    ensures forall i | 0 <= i < 1 + |order| :: WellFormed(FrontOptions(cfg, mac, order, prefixes)[i])
    ensures DecodeAll(FrontOptions(cfg, mac, order, prefixes)) == SentFront(cfg, mac, order, prefixes)
  {
    var opts := FrontOptions(cfg, mac, order, prefixes);
    forall i | 0 <= i < |opts|
      ensures WellFormed(opts[i]) && Decode(opts[i]) == SentFront(cfg, mac, order, prefixes)[i]
    {
      if i > 0 {
        PrefixOptionDecodes(cfg, order[i - 1], prefixes[order[i - 1]]);
      } else {
        assert SourceOption(mac)[2..8] == Fit6(mac);
      }
    }
  }

  lemma {:induction false} SplitConcat(dns: seq<seq<Byte>>)
    requires forall a | a in dns :: |a| == 16
    ensures |Concat(dns)| == 16 * |dns| && Split16(Concat(dns)) == dns
  {
    if dns != [] {
      SplitConcat(dns[1..]);
      var s := Concat(dns);
      assert s[..16] == dns[0] && s[16..] == Concat(dns[1..]);
    }
  }

  lemma {:induction false} SplitLength(s: seq<Byte>)
    ensures |Split16(s)| == |s| / 16
    decreases |s|
  {
    if |s| >= 16 { SplitLength(s[16..]); }
  }

  /** The RDNSS option reads back exactly when its one-byte length can hold the list. */
  lemma ServersReadBack(cfg: RaConfig)
    requires ValidConfig(cfg) && cfg.dns != []
    ensures Walk(RdnssOption(cfg)) == Some([Servers(cfg.routerLifetime % 0x1_0000_0000, cfg.dns)])
            <==> |cfg.dns| <= 127
  {
    ServersLayout(cfg);
    SplitConcat(cfg.dns);
    ServersIff(cfg, RdnssOption(cfg));
  }

  lemma ServersIff(cfg: RaConfig, o: seq<Byte>)
    requires cfg.dns != [] && |o| == 8 + 16 * |cfg.dns| && o[0] == 25 && o[1] == (1 + 2 * |cfg.dns|) % 256
    requires U32(o, 4) == cfg.routerLifetime % 0x1_0000_0000 && Split16(o[8..]) == cfg.dns
    ensures Walk(o) == Some([Servers(cfg.routerLifetime % 0x1_0000_0000, cfg.dns)]) <==> |cfg.dns| <= 127
  {
    if |cfg.dns| <= 127 {
      ServersFit(cfg, o);
    } else {
      ServersCut(cfg, o);
    }
  }

  lemma ServersFit(cfg: RaConfig, o: seq<Byte>)
    requires 0 < |cfg.dns| <= 127 && |o| == 8 + 16 * |cfg.dns|
    requires o[0] == 25 && o[1] == 1 + 2 * |cfg.dns| && Split16(o[8..]) == cfg.dns
    ensures Walk(o) == Some([Servers(U32(o, 4), cfg.dns)])
  {
    WalkCons(o, []);
    assert o + [] == o && [Decode(o)] + [] == [Decode(o)];
  }

  /** With more than 127 servers the length byte wraps, and the host reads fewer of them. */
  lemma ServersCut(cfg: RaConfig, o: seq<Byte>)
    requires |cfg.dns| > 127 && |o| == 8 + 16 * |cfg.dns|
    requires o[0] == 25 && o[1] == (1 + 2 * |cfg.dns|) % 256
    ensures Walk(o) != Some([Servers(cfg.routerLifetime % 0x1_0000_0000, cfg.dns)])
  {
    var m := 8 * o[1] as int;
    if m >= 24 { SplitLength(o[..m][8..]); }
  }

  lemma ServersLayout(cfg: RaConfig)
    requires ValidConfig(cfg) && cfg.dns != []
    ensures var o := RdnssOption(cfg);
      && |o| == 8 + 16 * |cfg.dns| && o[0] == 25 && o[1] == (1 + 2 * |cfg.dns|) % 256
      && U32(o, 4) == cfg.routerLifetime % 0x1_0000_0000 && o[8..] == Concat(cfg.dns)
  {
    var o := RdnssOption(cfg);
    SplitConcat(cfg.dns);
    assert o[4..8] == Be32(cfg.routerLifetime);
    U32OfBe32(cfg.routerLifetime);
    assert U32(o, 4) == U32(o[4..8], 0);
  }

  function SentServers(cfg: RaConfig): (r: seq<Opt>) {
    if cfg.dns == [] then [] else [Servers(cfg.routerLifetime % 0x1_0000_0000, cfg.dns)]
  }

  /** RA options read back: the walk ends exactly at the end of the body and recovers the
      source address, each prefix with its flags and lifetimes, and the servers in order, if
      and only if there are at most 127 servers. */
  lemma OptionsReadBack(cfg: RaConfig, mac: seq<Byte>, order: seq<Prefix>, prefixes: map<Prefix, bool>,
                        routerLifetime: nat)
    requires ValidConfig(cfg) && ValidOrder(order, prefixes)
    ensures Walk(Body(cfg, mac, order, prefixes, routerLifetime)[16..])
            == Some(SentFront(cfg, mac, order, prefixes) + SentServers(cfg))
            <==> |cfg.dns| <= 127
  {
    var opts := FrontOptions(cfg, mac, order, prefixes);
    var rd: seq<Byte> := if cfg.dns == [] then [] else RdnssOption(cfg);
    assert Body(cfg, mac, order, prefixes, routerLifetime)[16..] == Concat(opts) + rd;
    FrontDecodes(cfg, mac, order, prefixes);
    WalkConcat(opts, rd);
    if cfg.dns != [] { ServersReadBack(cfg); }
    SameTail(SentFront(cfg, mac, order, prefixes), Walk(rd), SentServers(cfg));
  }

  lemma SameTail(front: seq<Opt>, rest: Option<seq<Opt>>, tail: seq<Opt>)
    ensures Then(front, rest) == Some(front + tail) <==> rest == Some(tail)
  {
    if Then(front, rest) == Some(front + tail) {
      assert (front + rest.value)[|front|..] == rest.value && (front + tail)[|front|..] == tail;
    }
  }

  // ---- end to end ----

  /** A router advertisement (section 4.2 of RFC 4861): type 134, code 0, hop limit 64, the flags
      and the lifetime, and nothing said about reachability and retransmission. */
  predicate AdvertBytes(msg: seq<Byte>, cfg: RaConfig, routerLifetime: nat) {
    && |msg| >= 16 && msg[0] == 134 && msg[1] == 0 && msg[4] == 64
    && msg[5] as int == (if cfg.managed then 128 else 0) + (if cfg.other then 64 else 0)
    && Number16(msg, 6, routerLifetime) && msg[8..16] == [0, 0, 0, 0, 0, 0, 0, 0]
  }

  /** The prefix as a host sees it: on-link, autonomous if configured, and with zero lifetimes if
      it is being withdrawn. */
  predicate SeesPrefix(o: Opt, cfg: RaConfig, p: Prefix, alive: bool) {
    && o.Information? && o.bits == p.bits && o.flags == (if cfg.autonomous then 192 else 128)
    && o.valid == (if alive then cfg.validLifetime % 0x1_0000_0000 else 0)
    && o.preferred == (if alive then cfg.preferredLifetime % 0x1_0000_0000 else 0)
    && |o.addr| == 16 && o.addr[15] as int == p.addr % 256 && (p.addr < Pow2(128) ==> ValueOf(o.addr) == p.addr)
  }

  /** Our hardware address, then every prefix once, then the servers if there are any. */
  predicate SeesOptions(opts: seq<Opt>, cfg: RaConfig, mac: seq<Byte>, order: seq<Prefix>, prefixes: map<Prefix, bool>)
    requires ValidOrder(order, prefixes)
  {
    && |opts| == 1 + |order| + (if cfg.dns == [] then 0 else 1)
    && opts[0].Source? && (|mac| == 6 ==> opts[0].mac == mac)
    && (forall i | 0 <= i < |order| :: SeesPrefix(opts[1 + i], cfg, order[i], prefixes[order[i]]))
    && (cfg.dns != [] ==> opts[|opts| - 1] == Servers(cfg.routerLifetime % 0x1_0000_0000, cfg.dns))
  }

  lemma SentIsSeen(cfg: RaConfig, mac: seq<Byte>, order: seq<Prefix>, prefixes: map<Prefix, bool>)
    requires ValidOrder(order, prefixes)
    ensures SeesOptions(SentFront(cfg, mac, order, prefixes) + SentServers(cfg), cfg, mac, order, prefixes)
  {
    var front := SentFront(cfg, mac, order, prefixes);
    var opts := front + SentServers(cfg);
    assert opts[0] == front[0];
    forall i | 0 <= i < |order| ensures SeesPrefix(opts[1 + i], cfg, order[i], prefixes[order[i]]) {
      assert opts[1 + i] == front[1 + i] == Sent(cfg, order[i], prefixes[order[i]]);
      PrefixSeen(cfg, order[i], prefixes[order[i]]);
    }
  }

  lemma PrefixSeen(cfg: RaConfig, p: Prefix, alive: bool)
    ensures SeesPrefix(Sent(cfg, p, alive), cfg, p, alive)
  {
    assert BytesOf(p.addr, 16) == BytesOf(p.addr / 256, 15) + [p.addr % 256];
    if p.addr < Pow2(128) { ValueOfBytesOf(p.addr, 16); }
  }

  /** End to end: a host that parses the frame we send, with a hop limit of 255 as it must have,
      sees a router advertisement with our lifetime and flags, and walks exactly the options we
      meant. */
  lemma HostReadsAdvertisement(cfg: RaConfig, mac: seq<Byte>, dstMAC: seq<Byte>, src: seq<Byte>, dst: seq<Byte>,
                               order: seq<Prefix>, prefixes: map<Prefix, bool>, routerLifetime: nat)
    requires ValidConfig(cfg) && ValidOrder(order, prefixes) && |src| == 16 && |dst| == 16
    requires |cfg.dns| <= 127
    requires |Body(cfg, mac, order, prefixes, routerLifetime)| <= 65535
    ensures var f := Icmp6Frame(mac, dstMAC, src, dst, Body(cfg, mac, order, prefixes, routerLifetime), 255);
      && Ip6Bytes(f, src, dst, 58, 255) && Parse(f).Some? && Parse(f).value.isICMP6
      && var msg := Parse(f).value.payload;
         && AdvertBytes(msg, cfg, routerLifetime) && Walk(msg[16..]).Some?
         && SeesOptions(Walk(msg[16..]).value, cfg, mac, order, prefixes)
  {
    var body := Body(cfg, mac, order, prefixes, routerLifetime);
    OptionsReadBack(cfg, mac, order, prefixes, routerLifetime);
    SentIsSeen(cfg, mac, order, prefixes);
    assert body[..16] == Header(cfg, routerLifetime);
    Icmp6Bytes(mac, dstMAC, src, dst, body, 255);
    Icmp6RoundTrip(mac, dstMAC, src, dst, body, 255);
    HeaderStays(cfg, body, IcmpSum(src, dst, body), routerLifetime);
  }

  /** The checksum only overwrites its own field. */
  lemma HeaderStays(cfg: RaConfig, body: seq<Byte>, sum: nat, routerLifetime: nat)
    requires |body| >= 16 && body[..16] == Header(cfg, routerLifetime)
    ensures AdvertBytes(Icmp(body, sum), cfg, routerLifetime) && Icmp(body, sum)[16..] == body[16..]
  {
    var msg, h := Icmp(body, sum), body[..16];
    assert forall i | 4 <= i < |body| :: msg[i] == body[i];
    assert forall i | 0 <= i < 16 :: h[i] == body[i];
    assert h[6..8] == Be16(routerLifetime) && h[6] == h[6..8][0] && h[7] == h[6..8][1];
    assert msg[8..16] == h[8..16] == Zeros(8);
  }

  /** Sends one advertisement, unless the interface has no link-local address. */
  method TransmitRA(cfg: RaConfig, mac: seq<Byte>, linkLocal: Option<seq<Byte>>, dstMAC: seq<Byte>, dst: seq<Byte>,
                    prefixes: map<Prefix, bool>, routerLifetime: nat)
    returns (frame: Option<array<Byte>>, ghost order: seq<Prefix>)
    requires (linkLocal.Some? ==> |linkLocal.value| == 16) && |dst| == 16
    requires forall p | p in prefixes :: p.bits < 256
    ensures frame.Some? <==> linkLocal.Some?
    ensures frame.Some? ==>
      && EthernetBytes(frame.value[..], dstMAC, mac, [0x86, 0xDD])
      && Ip6Bytes(frame.value[..], linkLocal.value, dst, 58, 255)
      && Lists(order, prefixes) && ValidOrder(order, prefixes)
      && frame.value[..] ==
           Icmp6Frame(mac, dstMAC, linkLocal.value, dst, Body(cfg, mac, order, prefixes, routerLifetime), 255)
  {
    order := [];
    if linkLocal.None? { return None, order; }
    var body;
    body, order := BuildBody(cfg, mac, prefixes, routerLifetime);
    var f := CraftICMP6(mac, dstMAC, linkLocal.value, dst, body, 255);
    frame := Some(f);
  }
}
