/** Address selection (selectIP in internal/server/dhcp4.go, selectIP6 in dhcp6.go) and the
    message dispatch around it.  A message is handled by one reader while sweeps and the
    control API run beside it, so a selection is a sequence of lock regions; before each one,
    sweeps may have run, leases may have been released and the clock may have moved.  Map
    iteration order shows up as two picks: which best static binding was met first and which
    of the client's leases was found first. */
module Selection {
  import opened Arith
  import opened Addressing
  import opened Statics
  import opened Leases

  /** What stays fixed while the prefix and the static set do. */
  datatype Env = Env(
    prefix: Prefix, poolStart: nat, poolEnd: nat, leaseTime: Time, statics: set<StaticBinding>)

  predicate ValidEnv(e: Env) {
    ValidPrefix(e.prefix) && 0 < e.poolStart <= e.poolEnd && 0 < e.leaseTime
  }

  /** The parts of a client message that selection reads. */
  datatype Req = Req(mac: string, cid: string, hostname: string, requested: Option<Addr>, ciaddr: Addr)

  /** One lock region: the latest reading of the sweeps before it, if any, the addresses the
      control API released before it, and the span of its own readings. */
  datatype Region = Region(swept: Option<Time>, released: set<Addr>, lo: Time, hi: Time)

  datatype Schedule = Schedule(start: Time, first: Region, second: Region, third: Region)

  /** A sweep reads the clock before it takes the lock, so its reading may be an old one. */
  predicate After(r: Region, since: Time) {
    since <= r.lo <= r.hi && (r.swept.Some? ==> r.swept.value <= r.lo)
  }

  predicate Monotone(s: Schedule) {
    After(s.first, s.start) && After(s.second, s.first.hi) && After(s.third, s.second.hi)
  }

  function EndOf(s: Schedule): (t: Time) {
    s.third.hi
  }

  /** The addresses released beside a message. */
  function Released(s: Schedule): (r: set<Addr>) {
    s.first.released + s.second.released + s.third.released
  }

  /** The table a lock region finds. */
  function Found(t: Table, r: Region): (s: Table) {
    (if r.swept.Some? then Sweep(t, r.swept.value) else t) - r.released
  }

  datatype Picks = Picks(best: Option<StaticBinding>, cur: Option<Lease>)

  /** A selection leaves a swept table and, when it succeeds, one booked lease on top. */
  datatype Outcome = Outcome(mid: Table, booked: Option<Lease>)

  function Booked(o: Outcome): (t: Table) {
    if o.booked.Some? then o.mid[o.booked.value.ip := o.booked.value] else o.mid
  }

  function Address(o: Outcome): (r: Option<Addr>) {
    if o.booked.Some? then Some(o.booked.value.ip) else None
  }

  function StaticIPs(e: Env): (r: set<Addr>)
    requires ValidEnv(e)
  {
    set b | b in e.statics && AddrAtOffset(e.prefix, b.offset).Some? :: AddrAtOffset(e.prefix, b.offset).value
  }

  /** The address a matched binding reserves, when it lies in the prefix. */
  function ReservedBy(e: Env, best: Option<StaticBinding>): (r: Option<Addr>)
    requires ValidEnv(e)
  {
    if best.Some? then AddrAtOffset(e.prefix, best.value.offset) else None
  }

  function NewLease(e: Env, req: Req, start: Time): (l: Lease) {
    Lease(0, req.mac, req.cid, req.hostname, start + e.leaseTime, false)
  }

  /** A lease the client may keep: in the prefix and not reserved. */
  predicate Reusable(e: Env, ip: Addr)
    requires ValidEnv(e)
  {
    ip !in StaticIPs(e) && Contains(e.prefix, ip)
  }

  function Select(e: Env, t: Table, req: Req, s: Schedule, p: Picks): (o: Outcome)
    requires ValidEnv(e)
  {
    var reserved := ReservedBy(e, p.best);
    var t1 := Found(t, s.first);
    if reserved.Some? then SelectReserved(e, t1, req, s, reserved.value)
    else SelectDynamic(e, t1, req, s, p.cur)
  }

  /** The reserved address, unless another client holds it. */
  function SelectReserved(e: Env, t1: Table, req: Req, s: Schedule, ip: Addr): (o: Outcome) {
    if HeldByOther(t1, ip, ClientKey(req.mac, req.cid), s.first.hi) then Outcome(t1, None)
    else Outcome(Found(t1, s.second), Some(NewLease(e, req, s.start).(ip := ip, isStatic := true)))
  }

  /** The lease the client already has, when it may keep it, otherwise the pool. */
  function SelectDynamic(e: Env, t1: Table, req: Req, s: Schedule, cur: Option<Lease>): (o: Outcome)
    requires ValidEnv(e)
  {
    if cur.Some? && Reusable(e, cur.value.ip) then
      Outcome(Found(t1, s.second), Some(NewLease(e, req, s.start).(ip := cur.value.ip)))
    else
      var lo, hi := AddrAtOffset(e.prefix, e.poolStart), AddrAtOffset(e.prefix, e.poolEnd);
      if lo.None? || hi.None? then Outcome(t1, None)
      else SelectFromPool(e, t1, req, s, lo.value, hi.value)
  }

  /** The requested address when it is free and in the pool, otherwise the first free one. */
  function SelectFromPool(e: Env, t1: Table, req: Req, s: Schedule, lo: Addr, hi: Addr): (o: Outcome)
    requires ValidEnv(e)
  {
    var lease := NewLease(e, req, s.start);
    var t2 := Found(t1, s.second);
    var t3 := Found(t2, s.third);
    if Honoured(e, t2, req, s, lo, hi) then
      Outcome(t3, Some(lease.(ip := req.requested.value)))
    else
      match FirstFree(t3, s.third.hi, lo, hi, Skipped(e))
      case Some(ip) => Outcome(t3, Some(lease.(ip := ip)))
      case None => Outcome(t3, None)
  }

  /** The client asks for a grantable address that no other client holds. */
  predicate Honoured(e: Env, t2: Table, req: Req, s: Schedule, lo: Addr, hi: Addr)
    requires ValidEnv(e)
  {
    && req.requested.Some? && Grantable(e, req.requested.value, lo, hi)
    && !HeldByOther(t2, req.requested.value, ClientKey(req.mac, req.cid), s.second.hi)
  }

  predicate Grantable(e: Env, ip: Addr, lo: Addr, hi: Addr)
    requires ValidEnv(e)
  {
    lo <= ip <= hi && ip != e.prefix.addr && ip !in StaticIPs(e)
  }

  function Skipped(e: Env): (r: set<Addr>)
    requires ValidEnv(e)
  {
    {e.prefix.addr} + StaticIPs(e)
  }

  /** The picks an iteration order can produce; byClient is asked only without a reservation. */
  predicate ValidPicks(e: Env, t: Table, req: Req, s: Schedule, p: Picks)
    requires ValidEnv(e)
  {
    && BestMatch(e.statics, req.mac, req.cid, p.best)
    && (ReservedBy(e, p.best).None? ==>
          ByClientAnswer(Found(t, s.first), ClientKey(req.mac, req.cid), s.first.lo, s.first.hi, p.cur))
  }

  // ---- messages, steps, runs ----

  datatype Msg =
    | Discover(req: Req)
    | Request(req: Req)
    | Release(ciaddr: Addr)
    | Decline(requested: Option<Addr>)
    | Address6(req: Req)                    // SOLICIT, REQUEST, RENEW, REBIND
    | Release6(mac: string, cid: string)

  datatype Reply = Silent | Offer(ip: Addr) | Ack(ip: Addr) | Nak | Assign(ip: Addr) | Status

  datatype Step =
    | Message(msg: Msg, sched: Schedule, picks: Picks)
    | SweepAt(read: Time, now: Time)        // with its reading
    | ForceRelease(ip: Addr, now: Time)     // the control API

  datatype State = State(table: Table, clock: Time)

  /** Selection reads no requested address in DHCPv6. */
  function Without(req: Req): (r: Req) {
    req.(requested := None)
  }

  /** The address a REQUEST asks for: option 50, else ciaddr; None when both are unspecified. */
  function Wanted(req: Req): (r: Option<Addr>) {
    if req.requested.Some? && req.requested.value != 0 then req.requested
    else if req.ciaddr != 0 then Some(req.ciaddr)
    else None
  }

  const DECLINED := "declined"

  function Placeholder(e: Env, ip: Addr, now: Time): (l: Lease) {
    Lease(ip, DECLINED, "", "", now + e.leaseTime, false)
  }

  function Handle(e: Env, t: Table, msg: Msg, s: Schedule, p: Picks): (r: (Table, Reply))
    requires ValidEnv(e)
  {
    match msg
    case Discover(req) =>
      var o := Select(e, t, req, s, p);
      (Booked(o), if o.booked.Some? then Offer(o.booked.value.ip) else Silent)
    case Request(req) =>
      var want := Wanted(req);
      if want.None? then (t, Nak)
      else
        var o := Select(e, t, req, s, p);
        (Booked(o), if Address(o) == want then Ack(want.value) else Nak)
    case Release(ciaddr) => (Found(t, s.first) - {ciaddr}, Silent)
    case Decline(requested) =>
      if requested.None? then (t, Silent)
      else (Found(t, s.first)[requested.value := Placeholder(e, requested.value, s.start)], Silent)
    case Address6(req) =>
      var o := Select(e, t, Without(req), s, p);
      (Booked(o), if o.booked.Some? then Assign(o.booked.value.ip) else Silent)
    case Release6(_, _) =>
      var t1 := Found(t, s.first);
      if p.cur.Some? then (Found(t1, s.second) - {p.cur.value.ip}, Status) else (t1, Status)
  }

  function Next(e: Env, st: State, step: Step): (r: State)
    requires ValidEnv(e)
  {
    match step
    case Message(msg, s, p) => State(Handle(e, st.table, msg, s, p).0, EndOf(s))
    case SweepAt(read, now) => State(Sweep(st.table, read), now)
    case ForceRelease(ip, now) => State(st.table - {ip}, now)
  }

  function ReplyTo(e: Env, st: State, step: Step): (r: Reply)
    requires ValidEnv(e)
  {
    if step.Message? then Handle(e, st.table, step.msg, step.sched, step.picks).1 else Silent
  }

  /** The client a selection is made for, when the message leads to one. */
  function Selecting(msg: Msg): (r: Option<Req>) {
    match msg
    case Discover(req) => Some(req)
    case Request(req) => if Wanted(req).Some? then Some(req) else None
    case Address6(req) => Some(Without(req))
    case _ => None
  }

  predicate PicksPossible(e: Env, t: Table, msg: Msg, s: Schedule, p: Picks)
    requires ValidEnv(e)
  {
    && (Selecting(msg).Some? ==> ValidPicks(e, t, Selecting(msg).value, s, p))
    && (msg.Release6? ==>
          ByClientAnswer(Found(t, s.first), ClientKey(msg.mac, msg.cid), s.first.lo, s.first.hi, p.cur))
  }

  /** A hardware address as the source prints it: lower-case hex and colons, possibly empty. */
  predicate MacText(s: string) {
    forall c | c in s :: '0' <= c <= '9' || 'a' <= c <= 'f' || c == ':'
  }

  predicate FromClient(msg: Msg) {
    && (Selecting(msg).Some? ==> MacText(Selecting(msg).value.mac))
    && (msg.Release6? ==> MacText(msg.mac))
  }

  /** The step can happen in this state: time moves forward, picks are possible answers. */
  predicate Possible(e: Env, st: State, step: Step)
    requires ValidEnv(e)
  {
    match step
    case Message(msg, s, p) =>
      st.clock <= s.start && Monotone(s) && FromClient(msg) && PicksPossible(e, st.table, msg, s, p)
    case SweepAt(read, now) => read <= now && st.clock <= now
    case ForceRelease(_, now) => st.clock <= now
  }

  /** The state after a run. */
  function Run(e: Env, st: State, steps: seq<Step>): (r: State)
    requires ValidEnv(e)
    decreases |steps|
  {
    if steps == [] then st else Run(e, Next(e, st, steps[0]), steps[1..])
  }

  predicate Feasible(e: Env, st: State, steps: seq<Step>)
    requires ValidEnv(e)
    decreases |steps|
  {
    steps != [] ==> Possible(e, st, steps[0]) && Feasible(e, Next(e, st, steps[0]), steps[1..])
  }

  // ---- the server ----

  class AddressServer {
    const leases: LeaseTable
    var statics: map<string, StaticBinding>
    const prefix: Prefix
    const poolStart: nat
    const poolEnd: nat
    const leaseTime: Time

    ghost function Fixed(): (e: Env)
      reads this
    {
      Env(prefix, poolStart, poolEnd, leaseTime, statics.Values)
    }

    ghost predicate Valid()
      reads this, leases
    {
      leases.Valid() && ValidEnv(Fixed())
    }

    constructor (prefix: Prefix, poolStart: nat, poolEnd: nat, leaseTime: Time)
      requires ValidEnv(Env(prefix, poolStart, poolEnd, leaseTime, {}))
      ensures Valid() && fresh(leases) && leases.leases == map[] && statics == map[]
      ensures Fixed() == Env(prefix, poolStart, poolEnd, leaseTime, {})
    {
      this.prefix, this.poolStart, this.poolEnd, this.leaseTime := prefix, poolStart, poolEnd, leaseTime;
      statics := map[];
      leases := new LeaseTable();
    }

    /** The sweeper and the control API before a lock region. */
    method Yield(r: Region)
      requires leases.Valid()
      modifies leases
      ensures leases.Valid() && leases.leases == Found(old(leases.leases), r)
    {
      if r.swept.Some? {
        var _ := leases.ExpireSweep(r.swept.value);
      }
      ghost var swept := leases.leases;
      var todo := r.released;
      while todo != {}
        invariant leases.Valid() && todo <= r.released
        invariant leases.leases == swept - (r.released - todo)
        decreases todo
      {
        var ip :| ip in todo;
        todo := todo - {ip};
        var _ := leases.Release(ip);
      }
    }

    /** The statics map as a slice, in some order, and the addresses it reserves. */
    method ListBindings() returns (bindings: seq<StaticBinding>, staticIPs: set<Addr>)
      requires Valid()
      ensures Elems(bindings) == statics.Values
      ensures staticIPs == StaticIPs(Fixed())
    {
      bindings, staticIPs := [], {};
      var todo := statics.Keys;
      while todo != {}
        invariant todo <= statics.Keys
        invariant forall b | b in bindings :: b in statics.Values
        invariant forall id | id in statics && id !in todo :: statics[id] in bindings
        decreases todo
      {
        var id :| id in todo;
        todo := todo - {id};
        bindings := bindings + [statics[id]];
      }
      for i := 0 to |bindings|
        invariant staticIPs == StaticIPs(Fixed().(statics := Elems(bindings[..i])))
      {
        assert bindings[..i + 1] == bindings[..i] + [bindings[i]];
        var ip := AddrAtOffset(prefix, bindings[i].offset);
        if ip.Some? {
          staticIPs := staticIPs + {ip.value};
        }
      }
      assert bindings[..|bindings|] == bindings;
    }

    /** The first part of selectIP. */
    method TakeReserved(req: Req, s: Schedule, ip: Addr) returns (r: Option<Addr>)
      requires Valid()
      modifies leases
      ensures Valid()
      ensures var o := SelectReserved(Fixed(), old(leases.leases), req, s, ip);
              leases.leases == Booked(o) && r == Address(o)
    {
      var used := leases.InUse(ip, req.mac, req.cid, s.first.hi);
      if used { return None; }
      Yield(s.second);
      leases.Set(Lease(ip, req.mac, req.cid, req.hostname, s.start + leaseTime, true));
      r := Some(ip);
    }

    /** The last part of selectIP: the requested address, then the pool. */
    method SelectPool(req: Req, s: Schedule, lo: Addr, hi: Addr, staticIPs: set<Addr>) returns (r: Option<Addr>)
      requires Valid() && staticIPs == StaticIPs(Fixed()) && hi < Pow2(prefix.width)
      modifies leases
      ensures Valid()
      ensures var o := SelectFromPool(Fixed(), old(leases.leases), req, s, lo, hi);
              leases.leases == Booked(o) && r == Address(o)
    {
      var lease := Lease(0, req.mac, req.cid, req.hostname, s.start + leaseTime, false);
      Yield(s.second);
      var honoured := HonourRequest(req, s, lo, hi, staticIPs);
      Yield(s.third);
      if honoured {
        leases.Set(lease.(ip := req.requested.value));
        return req.requested;
      }
      var top := Pow2(prefix.width) - 1;
      r := leases.Allocate(lo, hi, top, {prefix.addr} + staticIPs, lease, s.third.hi);
    }

    /** Whether the requested address can be given. */
    method HonourRequest(req: Req, s: Schedule, lo: Addr, hi: Addr, staticIPs: set<Addr>) returns (ok: bool)
      requires Valid() && staticIPs == StaticIPs(Fixed())
      ensures ok <==> Honoured(Fixed(), leases.leases, req, s, lo, hi)
    {
      if req.requested.None? { return false; }
      var ip := req.requested.value;
      if hi < ip || ip < lo || ip == prefix.addr || ip in staticIPs { return false; }
      var used := leases.InUse(ip, req.mac, req.cid, s.second.hi);
      ok := !used;
    }

    /** The middle part of selectIP: keep the current lease. */
    method KeepOrPool(req: Req, s: Schedule, staticIPs: set<Addr>) returns (r: Option<Addr>, ghost cur: Option<Lease>)
      requires Valid() && Monotone(s) && staticIPs == StaticIPs(Fixed())
      modifies leases
      ensures Valid()
      ensures ByClientAnswer(old(leases.leases), ClientKey(req.mac, req.cid), s.first.lo, s.first.hi, cur)
      ensures var o := SelectDynamic(Fixed(), old(leases.leases), req, s, cur);
              leases.leases == Booked(o) && r == Address(o)
    {
      var mine := leases.ByClient(req.mac, req.cid, s.first.lo, s.first.hi);
      cur := mine;
      if mine.Some? && mine.value.ip !in staticIPs && Contains(prefix, mine.value.ip) {
        Yield(s.second);
        leases.Set(Lease(mine.value.ip, req.mac, req.cid, req.hostname, s.start + leaseTime, false));
        return Some(mine.value.ip), cur;
      }
      var lo, hi := AddrAtOffset(prefix, poolStart), AddrAtOffset(prefix, poolEnd);
      if lo.None? || hi.None? { return None, cur; }
      r := SelectPool(req, s, lo.value, hi.value, staticIPs);
    }

    method SelectIP(req: Req, s: Schedule) returns (r: Option<Addr>, ghost p: Picks)
      requires Valid() && Monotone(s)
      modifies leases
      ensures Valid() && ValidPicks(Fixed(), old(leases.leases), req, s, p)
      ensures var o := Select(Fixed(), old(leases.leases), req, s, p);
              leases.leases == Booked(o) && r == Address(o)
    {
      var bindings, staticIPs := ListBindings();
      var best := MatchBinding(bindings, req.mac, req.cid);
      p := Picks(best, None);
      Yield(s.first);
      if best.Some? {
        var ip := AddrAtOffset(prefix, best.value.offset);
        if ip.Some? {
          r := TakeReserved(req, s, ip.value);
          return r, p;
        }
      }
      ghost var cur;
      r, cur := KeepOrPool(req, s, staticIPs);
      p := Picks(best, cur);
    }

    /** The dispatch of handleFrame, once the message is decoded and a prefix is served. */
    method HandleMessage(msg: Msg, s: Schedule) returns (reply: Reply, ghost p: Picks)
      requires Valid() && Monotone(s)
      modifies leases
      ensures Valid() && PicksPossible(Fixed(), old(leases.leases), msg, s, p)
      ensures (leases.leases, reply) == Handle(Fixed(), old(leases.leases), msg, s, p)
    {
      p := Picks(None, None);
      reply := Silent;
      match msg
      case Discover(req) =>
        var ip;
        ip, p := SelectIP(req, s);
        if ip.Some? { reply := Offer(ip.value); }
      case Request(req) =>
        var want := req.requested;
        if want.None? || want.value == 0 {
          want := Some(req.ciaddr);
          if req.ciaddr == 0 { return Nak, p; }
        }
        var got;
        got, p := SelectIP(req, s);
        reply := if got.None? || got != want then Nak else Ack(want.value);
      case Release(ciaddr) =>
        Yield(s.first);
        var _ := leases.Release(ciaddr);
      case Decline(requested) =>
        if requested.Some? {
          Yield(s.first);
          leases.Set(Lease(requested.value, DECLINED, "", "", s.start + leaseTime, false));
        }
      case Address6(req) =>
        var ip;
        ip, p := SelectIP(Without(req), s);
        if ip.Some? { reply := Assign(ip.value); }
      case Release6(mac, cid) =>
        Yield(s.first);
        var cur := leases.ByClient(mac, cid, s.first.lo, s.first.hi);
        p := Picks(None, cur);
        if cur.Some? {
          Yield(s.second);
          var _ := leases.Release(cur.value.ip);
        }
        reply := Status;
    }

    // ---- statics ----

    method PutStatic(b: StaticBinding) returns (ok: bool)
      modifies this
      ensures ok <==> b.id != "" && (b.mac.Some? || b.clientID.Some?) && b.offset > 0
      ensures statics == if ok then old(statics)[b.id := b] else old(statics)
    {
      if b.id == "" || !ValidBinding(b) { return false; }
      statics := statics[b.id := b];
      ok := true;
    }

    /** All or nothing. */
    method ReplaceStatics(bs: seq<StaticBinding>) returns (ok: bool)
      modifies this
      ensures ok <==> ValidSet(bs)
      ensures ok ==> statics.Values == Elems(bs) && forall id | id in statics :: statics[id].id == id
      ensures !ok ==> statics == old(statics)
    {
      var m := BuildStaticSet(bs);
      ok := m.Some?;
      if ok { statics := m.value; }
    }

    method DeleteStatic(id: string) returns (ok: bool)
      modifies this
      ensures ok <==> id in old(statics)
      ensures statics == old(statics) - {id}
    {
      ok := id in statics;
      if ok { statics := statics - {id}; }
    }
  }
}
