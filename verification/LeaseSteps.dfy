/** What each message does to the lease table, address by address, and what it is answered:
    released and declined addresses, sweeps, and when an address is free again for others. */
module LeaseSteps {
  import opened Arith
  import opened Addressing
  import opened Statics
  import opened Leases
  import opened Selection
  import opened LeaseRuns

  /** Every address of t outside `but` is in t' as it was, unless it has expired by `now` or was
      released beside the step, and nothing else is there. */
  predicate KeptBut(t: Table, t': Table, but: set<Addr>, now: Time, released: set<Addr>) {
    && (forall a | a in t' && a !in but :: a in t && t'[a] == t[a])
    && (forall a | a in t && a !in but && a !in t' :: t[a].expiry < now || a in released)
  }

  /** A DHCPv4 RELEASE takes the lease at its address, whoever holds it, and no other. */
  lemma ReleaseFrees(e: Env, st: State, step: Step, ip: Addr)
    requires ValidEnv(e) && Possible(e, st, step) && step.Message? && step.msg == Release(ip)
    ensures ip !in Next(e, st, step).table && ReplyTo(e, st, step) == Silent
    ensures KeptBut(st.table, Next(e, st, step).table, {ip}, EndOf(step.sched), Released(step.sched))
  {
    FoundDwindled(st.table, step.sched.first, step.sched.start);
  }

  /** A DHCPv6 RELEASE takes the lease that was found for its client and no other; a client that
      had one unexpired lease is left with none. */
  lemma Release6Frees(e: Env, st: State, step: Step)
    requires ValidEnv(e) && Possible(e, st, step) && step.Message? && step.msg.Release6?
    ensures ReplyTo(e, st, step) == Status
    ensures var cur, t' := step.picks.cur, Next(e, st, step).table;
      && (cur.Some? ==> cur.value.ip !in t' && cur.value.ip in st.table &&
                        Key(st.table[cur.value.ip]) == ClientKey(step.msg.mac, step.msg.cid))
      && KeptBut(st.table, t', if cur.Some? then {cur.value.ip} else {}, EndOf(step.sched), Released(step.sched))
    ensures OneLease(st.table, st.clock, ClientKey(step.msg.mac, step.msg.cid)) ==>
              LeasesOf(Next(e, st, step).table, EndOf(step.sched), ClientKey(step.msg.mac, step.msg.cid)) == {}
  {
    var s, cur, key := step.sched, step.picks.cur, ClientKey(step.msg.mac, step.msg.cid);
    var t1, t' := Found(st.table, s.first), Next(e, st, step).table;
    FoundDwindled(st.table, s.first, s.start);
    FoundDwindled(t1, s.second, s.first.hi);
    if OneLease(st.table, st.clock, key) {
      forall a | Active(t', a, EndOf(s)) && Key(t'[a]) == key ensures false {
        assert Active(st.table, a, st.clock) && a in t1;
        assert cur.Some? && Active(st.table, cur.value.ip, st.clock);
      }
    }
  }

  /** The addresses of the client's unexpired leases. */
  function LeasesOf(t: Table, now: Time, key: string): (r: set<Addr>) {
    set a | a in t && now <= t[a].expiry && Key(t[a]) == key
  }

  /** A DECLINE puts a placeholder on its address, for as long as a lease would last and whoever
      held it; one that names no address does nothing. */
  lemma DeclineBlocks(e: Env, st: State, step: Step)
    requires ValidEnv(e) && Possible(e, st, step) && step.Message? && step.msg.Decline?
    ensures ReplyTo(e, st, step) == Silent
    ensures var t' := Next(e, st, step).table;
      match step.msg.requested
      case None => t' == st.table
      case Some(ip) =>
        && ip in t' && t'[ip].mac == "declined" && t'[ip].clientID == "" && t'[ip].ip == ip
        && t'[ip].expiry == step.sched.start + e.leaseTime
        && KeptBut(st.table, t', {ip}, EndOf(step.sched), Released(step.sched))
  {
    FoundDwindled(st.table, step.sched.first, step.sched.start);
  }

  /** A sweep drops exactly the leases that had expired at its reading, and the control API
      exactly the lease at its address. */
  lemma OthersDrop(e: Env, st: State, step: Step, a: Addr)
    requires ValidEnv(e) && !step.Message?
    ensures var t' := Next(e, st, step).table;
      && (a in t' <==> a in st.table && if step.SweepAt? then step.read <= st.table[a].expiry else a != step.ip)
      && (a in t' ==> t'[a] == st.table[a])
    ensures ReplyTo(e, st, step) == Silent
  {
  }

  /** A REQUEST that names no address is refused and changes nothing. */
  lemma NamelessRefused(e: Env, st: State, step: Step)
    requires ValidEnv(e) && step.Message? && step.msg.Request?
    requires step.msg.req.ciaddr == 0 && (step.msg.req.requested == None || step.msg.req.requested == Some(0))
    ensures ReplyTo(e, st, step) == Nak && Next(e, st, step).table == st.table
  {
  }

  /** DHCPv6 never looks at a requested address. */
  lemma NoRequest6(e: Env, st: State, req: Req, other: Option<Addr>, s: Schedule, p: Picks)
    requires ValidEnv(e)
    ensures Next(e, st, Message(Address6(req), s, p)) == Next(e, st, Message(Address6(req.(requested := other)), s, p))
    ensures ReplyTo(e, st, Message(Address6(req), s, p)) ==
            ReplyTo(e, st, Message(Address6(req.(requested := other)), s, p))
  {
    assert Without(req) == Without(req.(requested := other));
  }

  // ---- when an address can be had ----

  /** The reply that gives ip in answer to a message for it. */
  predicate Answered(msg: Msg, reply: Reply, ip: Addr) {
    match msg
    case Discover(_) => reply == Offer(ip)
    case Request(_) => reply == Ack(ip)
    case Address6(_) => reply == Assign(ip)
    case _ => false
  }

  /** The client asks for ip, in DHCPv4. */
  predicate AsksFor(step: Step, mac: string, cid: string, ip: Addr) {
    && ip != 0 && step.Message? && (step.msg.Discover? || step.msg.Request?)
    && step.msg.req.mac == mac && step.msg.req.cid == cid && step.msg.req.requested == Some(ip)
  }

  /** A pool address that is neither the gateway nor reserved. */
  predicate Assignable(e: Env, ip: Addr)
    requires ValidEnv(e)
  {
    && e.poolEnd < HostSize(e.prefix) && Base(e.prefix) + e.poolStart <= ip <= Base(e.prefix) + e.poolEnd
    && ip != e.prefix.addr && ip !in StaticIPs(e)
  }

  lemma FoundLease(t: Table, s: Schedule, key: string, cur: Option<Lease>)
    requires Monotone(s) && ByClientAnswer(Found(t, s.first), key, s.first.lo, s.first.hi, cur)
    ensures cur.Some? ==> cur.value.ip in LeasesOf(t, s.start, key)
  {
    FoundShrinks(t, s.first);
  }

  /** A client without a reservation and without a lease asks for a pool address and gets it,
      unless somebody else holds it. */
  lemma FreeIsGranted(e: Env, st: State, step: Step, mac: string, cid: string, ip: Addr)
    requires ValidEnv(e) && Possible(e, st, step) && AsksFor(step, mac, cid, ip) && Assignable(e, ip)
    requires ReservedBy(e, step.picks.best).None? && LeasesOf(st.table, step.sched.start, ClientKey(mac, cid)) == {}
    requires !HeldByOther(st.table, ip, ClientKey(mac, cid), step.sched.start)
    ensures Answered(step.msg, ReplyTo(e, st, step), ip)
  {
    FoundLease(st.table, step.sched, ClientKey(mac, cid), step.picks.cur);
    RequestedHonoured(e, st.table, step.msg.req, step.sched, step.picks, ip);
    HandledBySelect(e, st, step);
  }

  /** A released address can be had by others right away: by RELEASE or by the control API. */
  lemma ReleasedIsGranted(e: Env, st: State, release: Step, step: Step, mac: string, cid: string, ip: Addr)
    requires ValidEnv(e) && Possible(e, st, release)
    requires (release.Message? && release.msg == Release(ip)) || (release.ForceRelease? && release.ip == ip)
    requires Possible(e, Next(e, st, release), step) && AsksFor(step, mac, cid, ip) && Assignable(e, ip)
    requires ReservedBy(e, step.picks.best).None?
    requires LeasesOf(Next(e, st, release).table, step.sched.start, ClientKey(mac, cid)) == {}
    ensures Answered(step.msg, ReplyTo(e, Next(e, st, release), step), ip)
  {
    if release.Message? { ReleaseFrees(e, st, release, ip); }
    FreeIsGranted(e, Next(e, st, release), step, mac, cid, ip);
  }

  /** A DHCPv6 client that releases its one lease frees the address for others. */
  lemma Released6IsGranted(e: Env, st: State, release: Step, step: Step, mac: string, cid: string, ip: Addr)
    requires ValidEnv(e) && Possible(e, st, release) && release.Message? && release.msg.Release6?
    requires OneLease(st.table, st.clock, ClientKey(release.msg.mac, release.msg.cid))
    requires ip in st.table && Key(st.table[ip]) == ClientKey(release.msg.mac, release.msg.cid)
    requires Possible(e, Next(e, st, release), step) && AsksFor(step, mac, cid, ip) && Assignable(e, ip)
    requires ReservedBy(e, step.picks.best).None?
    requires LeasesOf(Next(e, st, release).table, step.sched.start, ClientKey(mac, cid)) == {}
    ensures Answered(step.msg, ReplyTo(e, Next(e, st, release), step), ip)
  {
    var st1, key := Next(e, st, release), ClientKey(release.msg.mac, release.msg.cid);
    Release6Frees(e, st, release);
    assert ip !in LeasesOf(st1.table, EndOf(release.sched), key);
    FreeIsGranted(e, st1, step, mac, cid, ip);
  }

  /** A declined address can be had again once the placeholder has expired. */
  lemma DeclinedIsGrantedLater(e: Env, st: State, decline: Step, step: Step, mac: string, cid: string, ip: Addr)
    requires ValidEnv(e) && Possible(e, st, decline) && decline.Message? && decline.msg == Decline(Some(ip))
    requires Possible(e, Next(e, st, decline), step) && AsksFor(step, mac, cid, ip) && Assignable(e, ip)
    requires ReservedBy(e, step.picks.best).None?
    requires LeasesOf(Next(e, st, decline).table, step.sched.start, ClientKey(mac, cid)) == {}
    requires decline.sched.start + e.leaseTime < step.sched.start
    ensures Answered(step.msg, ReplyTo(e, Next(e, st, decline), step), ip)
  {
    DeclineBlocks(e, st, decline);
    FreeIsGranted(e, Next(e, st, decline), step, mac, cid, ip);
  }

  /** A client whose best match reserves an address is given exactly that address: if nobody
      else holds it, and not if somebody does throughout. */
  lemma ReservedIsGranted(e: Env, st: State, step: Step, ip: Addr)
    requires ValidEnv(e) && Possible(e, st, step) && step.Message? && (step.msg.Discover? || step.msg.Address6?)
    requires ReservedBy(e, step.picks.best) == Some(ip)
    ensures var key := ClientKey(step.msg.req.mac, step.msg.req.cid);
      && (!HeldByOther(st.table, ip, key, step.sched.start) ==> Answered(step.msg, ReplyTo(e, st, step), ip))
      && (HeldByOther(st.table, ip, key, EndOf(step.sched)) && ip !in Released(step.sched) ==>
            ReplyTo(e, st, step) == Silent)
  {
    FoundDwindled(st.table, step.sched.first, step.sched.start);
    HandledBySelect(e, st, step);
  }
}
