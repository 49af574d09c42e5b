/** Where the run theorems end: exactly when a granted address stands, and what having at most
    one lease per client is not enough for. */
module LeaseLimits {
  import opened Arith
  import opened Addressing
  import opened Statics
  import opened Leases
  import opened Selection
  import opened LeaseRuns

  // ---- exactly when a grant stands ----

  /** Everything happens at one instant, with nothing beside it. */
  function At(now: Time): (s: Schedule)
    ensures Monotone(s) && EndOf(s) == now && Released(s) == {}
  {
    var r := Region(None, {}, now, now);
    Schedule(now, r, r, r)
  }

  lemma FoundAt(t: Table, now: Time)
    ensures Found(t, At(now).first) == Found(t, At(now).second) == Found(t, At(now).third) == t
  {
    assert t - {} == t;
  }

  /** However the client comes back, it gets ip again. */
  ghost predicate Stands(e: Env, st: State, first: Step, mac: string, cid: string, ip: Addr)
    requires ValidEnv(e) && first.Message?
  {
    forall between, second | ComesBack(e, st, first, between, second, mac, cid, ip) ::
      Gets(ReplyTo(e, Run(e, Next(e, st, first), between), second), second.msg, ip)
  }

  /** The selection took longer than the lease it gave. */
  predicate Lapsed(e: Env, first: Step)
    requires first.Message?
  {
    first.sched.start + e.leaseTime < EndOf(first.sched)
  }

  /** The exact condition, for every table.  A granted address stands, whatever happens until
      its client comes back, if and only if the client's best matches agree and either reserve
      an address or leave it with no other unexpired lease. */
  lemma HandshakeIff(e: Env, st: State, first: Step, mac: string, cid: string, ip: Addr)
    requires ValidEnv(e) && Keyed(st.table) && Grants(e, st, first, mac, cid, ip)
    ensures Stands(e, st, first, mac, cid, ip) <==>
            Lapsed(e, first) || Steady(e, Next(e, st, first).table, Next(e, st, first).clock, mac, cid, ip)
  {
    var st1 := Next(e, st, first);
    if Lapsed(e, first) {
      LapsedStands(e, st, first, mac, cid, ip);
    } else if Steady(e, st1.table, st1.clock, mac, cid, ip) {
      forall between, second | ComesBack(e, st, first, between, second, mac, cid, ip)
        ensures Gets(ReplyTo(e, Run(e, st1, between), second), second.msg, ip)
      {
        Handshake(e, st, first, between, second, mac, cid, ip);
      }
    } else {
      var second := Refusal(e, st, first, mac, cid, ip);
      assert Run(e, st1, []) == st1;
    }
  }

  lemma LapsedStands(e: Env, st: State, first: Step, mac: string, cid: string, ip: Addr)
    requires ValidEnv(e) && Grants(e, st, first, mac, cid, ip) && Lapsed(e, first)
    ensures Stands(e, st, first, mac, cid, ip)
  {
    forall between, second ensures !ComesBack(e, st, first, between, second, mac, cid, ip) {
      if ComesBack(e, st, first, between, second, mac, cid, ip) {
        ComesLater(e, st, first, between, second, mac, cid, ip);
      }
    }
  }

  lemma ComesLater(e: Env, st: State, first: Step, between: seq<Step>, second: Step,
                   mac: string, cid: string, ip: Addr)
    requires ValidEnv(e) && first.Message? && ComesBack(e, st, first, between, second, mac, cid, ip)
    ensures EndOf(first.sched) <= EndOf(second.sched)
  {
    ClockRuns(e, Next(e, st, first), between);
    ClockMoves(e, Run(e, Next(e, st, first), between), second);
  }

  /** The client asks for ip by its current address, without naming it in option 50.  The
      unspecified address cannot be asked for, only discovered. */
  function Back(mac: string, cid: string, ip: Addr): (m: Msg)
    ensures Selecting(m) == Some(Req(mac, cid, "", None, ip))
  {
    var req := Req(mac, cid, "", None, ip);
    if ip == 0 then Discover(req) else Request(req)
  }

  /** Without that condition the client is refused right away: its request gets a NAK. */
  lemma Refusal(e: Env, st: State, first: Step, mac: string, cid: string, ip: Addr) returns (second: Step)
    requires ValidEnv(e) && Keyed(st.table) && Grants(e, st, first, mac, cid, ip) && !Lapsed(e, first)
    requires !Steady(e, Next(e, st, first).table, Next(e, st, first).clock, mac, cid, ip)
    ensures ComesBack(e, st, first, [], second, mac, cid, ip) && second.msg == Back(mac, cid, ip)
    ensures !Gets(ReplyTo(e, Next(e, st, first), second), second.msg, ip)
    ensures ip != 0 ==> ReplyTo(e, Next(e, st, first), second) == Nak
  {
    var st1 := Next(e, st, first);
    GrantBooks(e, st, first, mac, cid, ip);
    StaysKeyed(e, st, first);
    var p: Picks;
    if !Unambiguous(e, mac, cid) {
      p := MisfitPicks(e, st1, mac, cid, ip);
    } else {
      p := StrayPicks(e, st1, mac, cid, ip);
    }
    second := Message(Back(mac, cid, ip), At(st1.clock), p);
    assert Feasible(e, st1, []) && Run(e, st1, []) == st1;
  }

  lemma StaysKeyed(e: Env, st: State, first: Step)
    requires ValidEnv(e) && Keyed(st.table) && Possible(e, st, first)
    requires first.Message? && Selecting(first.msg).Some?
    ensures Keyed(Next(e, st, first).table)
  {
    HandledBySelect(e, st, first);
    SelectSound(e, st.table, Selecting(first.msg).value, first.sched, first.picks);
  }

  /** Possible picks for the client at st under which it is not given ip. */
  predicate Misses(e: Env, st: State, mac: string, cid: string, ip: Addr, p: Picks)
    requires ValidEnv(e)
  {
    var req := Req(mac, cid, "", None, ip);
    && ValidPicks(e, st.table, req, At(st.clock), p)
    && Address(Select(e, st.table, req, At(st.clock), p)) != Some(ip)
  }

  /** Tied best matches that disagree: one of them does not want ip. */
  lemma MisfitPicks(e: Env, st: State, mac: string, cid: string, ip: Addr) returns (p: Picks)
    requires ValidEnv(e) && Keyed(st.table) && !Unambiguous(e, mac, cid)
    requires Holds(st.table, ClientKey(mac, cid), ip, st.clock)
    ensures Misses(e, st, mac, cid, ip, p)
  {
    var d := Misfit(e, mac, cid, ip);
    p := Picks(d, Some(st.table[ip]));
    FoundAt(st.table, st.clock);
    MisfitMisses(e, st, Req(mac, cid, "", None, ip), ip, p);
  }

  lemma Misfit(e: Env, mac: string, cid: string, ip: Addr) returns (d: Option<StaticBinding>)
    requires ValidEnv(e) && !Unambiguous(e, mac, cid)
    ensures BestMatch(e.statics, mac, cid, d) && !Fits(e, d, ip)
  {
    var b, c :| BestMatch(e.statics, mac, cid, b) && BestMatch(e.statics, mac, cid, c) &&
                ReservedBy(e, b) != ReservedBy(e, c);
    NotBothFit(e, b, c, ip);
    d := if Fits(e, b, ip) then c else b;
  }

  lemma NotBothFit(e: Env, b: Option<StaticBinding>, c: Option<StaticBinding>, ip: Addr)
    requires ValidEnv(e) && ReservedBy(e, b) != ReservedBy(e, c)
    requires b.Some? ==> b.value in e.statics
    requires c.Some? ==> c.value in e.statics
    ensures !Fits(e, b, ip) || !Fits(e, c, ip)
  {
    assert ReservedBy(e, b).Some? ==> ReservedBy(e, b).value in StaticIPs(e);
    assert ReservedBy(e, c).Some? ==> ReservedBy(e, c).value in StaticIPs(e);
  }

  lemma MisfitMisses(e: Env, st: State, req: Req, ip: Addr, p: Picks)
    requires ValidEnv(e) && ValidPicks(e, st.table, req, At(st.clock), p) && !Fits(e, p.best, ip)
    ensures Address(Select(e, st.table, req, At(st.clock), p)) != Some(ip)
  {
    SelectSound(e, st.table, req, At(st.clock), p);
  }

  /** A second unexpired lease: it is found first, and either kept or passed over for an
      address nobody holds. */
  lemma StrayPicks(e: Env, st: State, mac: string, cid: string, ip: Addr) returns (p: Picks)
    requires ValidEnv(e) && Keyed(st.table) && Unambiguous(e, mac, cid)
    requires Holds(st.table, ClientKey(mac, cid), ip, st.clock)
    requires !Reserved(e, mac, cid) && !OnlyAt(st.table, st.clock, ClientKey(mac, cid), ip)
    ensures Misses(e, st, mac, cid, ip, p)
  {
    var best :| BestMatch(e.statics, mac, cid, best) && ReservedBy(e, best).None?;
    var a :| Active(st.table, a, st.clock) && Key(st.table[a]) == ClientKey(mac, cid) && a != ip;
    p := Picks(best, Some(st.table[a]));
    FoundAt(st.table, st.clock);
    StrayMisses(e, st, Req(mac, cid, "", None, ip), ip, p);
  }

  lemma StrayMisses(e: Env, st: State, req: Req, ip: Addr, p: Picks)
    requires ValidEnv(e) && ValidPicks(e, st.table, req, At(st.clock), p) && req.requested.None?
    requires ReservedBy(e, p.best).None? && p.cur.Some? && p.cur.value.ip != ip && Active(st.table, ip, st.clock)
    ensures Address(Select(e, st.table, req, At(st.clock), p)) != Some(ip)
  {
    if Reusable(e, p.cur.value.ip) {
      SelectSound(e, st.table, req, At(st.clock), p);
    } else {
      FreshIsFree(e, st.table, req, st.clock, p, ip);
    }
  }

  lemma FreshIsFree(e: Env, t: Table, req: Req, now: Time, p: Picks, ip: Addr)
    requires ValidEnv(e) && req.requested.None? && ReservedBy(e, p.best).None?
    requires !(p.cur.Some? && Reusable(e, p.cur.value.ip)) && Active(t, ip, now)
    ensures Address(Select(e, t, req, At(now), p)) != Some(ip)
  {
    var lo, hi := AddrAtOffset(e.prefix, e.poolStart), AddrAtOffset(e.prefix, e.poolEnd);
    FoundAt(t, now);
    if lo.Some? && hi.Some? {
      FirstFreeIsLeast(t, now, lo.value, hi.value, Skipped(e));
      assert Address(SelectFromPool(e, t, req, At(now), lo.value, hi.value)) != Some(ip);
    }
  }

  /** For a client with at most one lease the condition can be read off the table: it has a
      reservation, or the unexpired lease it has when the address is booked is one it may
      keep. */
  lemma HandshakeIffInPlace(e: Env, st: State, first: Step, mac: string, cid: string, ip: Addr)
    requires ValidEnv(e) && Keyed(st.table) && Grants(e, st, first, mac, cid, ip) && !Lapsed(e, first)
    requires OneLease(st.table, st.clock, ClientKey(mac, cid))
    ensures var mid := Select(e, st.table, Selecting(first.msg).value, first.sched, first.picks).mid;
      Stands(e, st, first, mac, cid, ip) <==>
      && Unambiguous(e, mac, cid)
      && (Reserved(e, mac, cid) ||
          forall a | Active(mid, a, EndOf(first.sched)) && Key(mid[a]) == ClientKey(mac, cid) :: Reusable(e, a))
  {
    var req, s, p := Selecting(first.msg).value, first.sched, first.picks;
    var o := Select(e, st.table, req, s, p);
    HandshakeIff(e, st, first, mac, cid, ip);
    HandledBySelect(e, st, first);
    GrantBooks(e, st, first, mac, cid, ip);
    OneLeaseIffInPlace(e, st, req, s, p);
    OnlyThere(Booked(o), EndOf(s), ClientKey(mac, cid), ip);
    if Unambiguous(e, mac, cid) && !Reserved(e, mac, cid) {
      UnreservedFits(e, mac, cid, p.best);
    }
  }

  /** And with no release meanwhile, off the table before the message. */
  lemma HandshakeIffInTable(e: Env, st: State, first: Step, mac: string, cid: string, ip: Addr)
    requires ValidEnv(e) && Keyed(st.table) && Grants(e, st, first, mac, cid, ip) && !Lapsed(e, first)
    requires OneLease(st.table, st.clock, ClientKey(mac, cid)) && Released(first.sched) == {}
    ensures Stands(e, st, first, mac, cid, ip) <==>
            && Unambiguous(e, mac, cid)
            && (Reserved(e, mac, cid) ||
                forall a | Active(st.table, a, EndOf(first.sched)) && Key(st.table[a]) == ClientKey(mac, cid) ::
                  Reusable(e, a))
  {
    var req, s, p := Selecting(first.msg).value, first.sched, first.picks;
    HandshakeIffInPlace(e, st, first, mac, cid, ip);
    SelectSound(e, st.table, req, s, p);
    SameUnexpired(st.table, Select(e, st.table, req, s, p).mid, EndOf(s));
  }

  lemma OnlyThere(t: Table, now: Time, key: string, ip: Addr)
    requires Active(t, ip, now) && Key(t[ip]) == key
    ensures OneLease(t, now, key) <==> OnlyAt(t, now, key, ip)
  {
  }

  lemma UnreservedFits(e: Env, mac: string, cid: string, best: Option<StaticBinding>)
    requires ValidEnv(e) && Unambiguous(e, mac, cid) && !Reserved(e, mac, cid)
    requires BestMatch(e.statics, mac, cid, best)
    ensures ReservedBy(e, best).None? && forall a :: Fits(e, best, a) == Reusable(e, a)
  {
  }

  // ---- the handshake by option 50 ----

  /** The client comes back with a REQUEST that names ip in option 50, having sent nothing
      else in between. */
  ghost predicate Accepts(e: Env, st: State, first: Step, between: seq<Step>, second: Step,
                          mac: string, cid: string, ip: Addr)
    requires ValidEnv(e) && first.Message?
  {
    && ComesBack(e, st, first, between, second, mac, cid, ip)
    && (forall i | 0 <= i < |between| :: !Speaks(between[i], ClientKey(mac, cid)))
    && second.msg.Request? && second.msg.req.requested == Some(ip) && Wanted(second.msg.req) == Some(ip)
  }

  predicate Speaks(step: Step, key: string) {
    step.Message? && SenderKey(step.msg) == Some(key)
  }

  /** Whatever the others do in between, the request is acknowledged. */
  ghost predicate Completes(e: Env, st: State, first: Step, mac: string, cid: string, ip: Addr)
    requires ValidEnv(e) && first.Message?
  {
    forall between, second | Accepts(e, st, first, between, second, mac, cid, ip) ::
      ReplyTo(e, Run(e, Next(e, st, first), between), second) == Ack(ip)
  }

  /** ip can be taken from the pool on request. */
  predicate InPool(e: Env, ip: Addr)
    requires ValidEnv(e)
  {
    var lo, hi := AddrAtOffset(e.prefix, e.poolStart), AddrAtOffset(e.prefix, e.poolEnd);
    lo.Some? && hi.Some? && Grantable(e, ip, lo.value, hi.value)
  }

  /** What this form needs: a reservation, or no second lease that could be kept; one that may
      not be kept does no harm if ip can be taken from the pool. */
  ghost predicate Ready(e: Env, t: Table, now: Time, mac: string, cid: string, ip: Addr)
    requires ValidEnv(e)
  {
    && Unambiguous(e, mac, cid)
    && (Reserved(e, mac, cid) ||
        forall a | Active(t, a, now) && Key(t[a]) == ClientKey(mac, cid) && a != ip :: Harmless(e, a, ip))
  }

  predicate Harmless(e: Env, a: Addr, ip: Addr)
    requires ValidEnv(e)
  {
    !Reusable(e, a) && InPool(e, ip)
  }

  /** The exact condition for the two-phase handshake proper, for every table.  The unspecified
      address cannot be asked for. */
  lemma TwoPhaseIff(e: Env, st: State, first: Step, mac: string, cid: string, ip: Addr)
    requires ValidEnv(e) && Keyed(st.table) && Grants(e, st, first, mac, cid, ip)
    ensures Completes(e, st, first, mac, cid, ip) <==>
            ip == 0 || Lapsed(e, first) ||
            Ready(e, Next(e, st, first).table, Next(e, st, first).clock, mac, cid, ip)
  {
    var st1 := Next(e, st, first);
    if ip != 0 {
      if Lapsed(e, first) {
        LapsedCompletes(e, st, first, mac, cid, ip);
      } else if Ready(e, st1.table, st1.clock, mac, cid, ip) {
        forall between, second | Accepts(e, st, first, between, second, mac, cid, ip)
          ensures ReplyTo(e, Run(e, st1, between), second) == Ack(ip)
        {
          TwoPhase(e, st, first, between, second, mac, cid, ip);
        }
      } else {
        var second := TwoPhaseRefusal(e, st, first, mac, cid, ip);
        assert Run(e, st1, []) == st1;
      }
    }
  }

  lemma LapsedCompletes(e: Env, st: State, first: Step, mac: string, cid: string, ip: Addr)
    requires ValidEnv(e) && Grants(e, st, first, mac, cid, ip) && Lapsed(e, first)
    ensures Completes(e, st, first, mac, cid, ip)
  {
    forall between, second ensures !Accepts(e, st, first, between, second, mac, cid, ip) {
      if ComesBack(e, st, first, between, second, mac, cid, ip) {
        ComesLater(e, st, first, between, second, mac, cid, ip);
      }
    }
  }

  lemma TwoPhase(e: Env, st: State, first: Step, between: seq<Step>, second: Step, mac: string, cid: string, ip: Addr)
    requires ValidEnv(e) && Grants(e, st, first, mac, cid, ip) && ip != 0
    requires Accepts(e, st, first, between, second, mac, cid, ip)
    requires Ready(e, Next(e, st, first).table, Next(e, st, first).clock, mac, cid, ip)
    ensures ReplyTo(e, Run(e, Next(e, st, first), between), second) == Ack(ip)
  {
    var st1, until, key := Next(e, st, first), first.sched.start + e.leaseTime, ClientKey(mac, cid);
    var st2, req := Run(e, st1, between), second.msg.req;
    GrantBooks(e, st, first, mac, cid, ip);
    ClockMoves(e, st2, second);
    HoldRun(e, st1, between, key, ip, until);
    FitsAgain(e, mac, cid, first.picks.best, second.picks.best, ip);
    var p := second.picks;
    if ReservedBy(e, p.best).None? {
      NotReserved(e, mac, cid, p.best);
      OthersLeave(e, st1, between, mac, cid);
      CurIsOld(e, st2, req, second.sched, p, ip);
      if p.cur.value.ip != ip {
        ClockRuns(e, st1, between);
        assert Active(st1.table, p.cur.value.ip, st1.clock);
        PoolGives(e, st2.table, req, second.sched, p, ip);
      } else {
        SelectSound(e, st2.table, req, second.sched, p);
      }
    } else {
      SelectsHeld(e, st2, req, second.sched, p, ip);
    }
  }

  /** byClient finds one of the client's unexpired leases. */
  lemma CurIsOld(e: Env, st: State, req: Req, s: Schedule, p: Picks, ip: Addr)
    requires ValidEnv(e) && Monotone(s) && st.clock <= s.start && ValidPicks(e, st.table, req, s, p)
    requires ReservedBy(e, p.best).None? && ip !in Released(s)
    requires Holds(st.table, ClientKey(req.mac, req.cid), ip, EndOf(s))
    ensures p.cur.Some? && Active(st.table, p.cur.value.ip, st.clock)
    ensures Key(st.table[p.cur.value.ip]) == ClientKey(req.mac, req.cid)
  {
    FoundDwindled(st.table, s.first, s.start);
    assert ip in Found(st.table, s.first);
  }

  /** A held pool address is given on request when the lease found may not be kept. */
  lemma PoolGives(e: Env, t: Table, req: Req, s: Schedule, p: Picks, ip: Addr)
    requires ValidEnv(e) && Monotone(s) && ReservedBy(e, p.best).None?
    requires !(p.cur.Some? && Reusable(e, p.cur.value.ip)) && InPool(e, ip) && req.requested == Some(ip)
    requires Holds(t, ClientKey(req.mac, req.cid), ip, EndOf(s)) && ip !in Released(s)
    ensures Address(Select(e, t, req, s, p)) == Some(ip)
  {
    var t1 := Found(t, s.first);
    FoundShrinks(t, s.first);
    FoundShrinks(t1, s.second);
    var lo, hi := AddrAtOffset(e.prefix, e.poolStart).value, AddrAtOffset(e.prefix, e.poolEnd).value;
    assert Honoured(e, Found(t1, s.second), req, s, lo, hi);
    assert Address(SelectFromPool(e, t1, req, s, lo, hi)) == Some(ip);
  }

  /** While a client is silent it gets no new leases. */
  lemma {:induction false} OthersLeave(e: Env, st: State, steps: seq<Step>, mac: string, cid: string)
    requires ValidEnv(e) && Feasible(e, st, steps) && MacText(mac)
    requires forall i | 0 <= i < |steps| :: !Speaks(steps[i], ClientKey(mac, cid))
    ensures var t := Run(e, st, steps).table;
      forall a | a in t && Key(t[a]) == ClientKey(mac, cid) :: a in st.table && st.table[a] == t[a]
    decreases |steps|
  {
    if steps != [] {
      OtherLeaves(e, st, steps[0], mac, cid);
      assert forall i | 0 <= i < |steps| - 1 :: steps[1..][i] == steps[i + 1];
      OthersLeave(e, Next(e, st, steps[0]), steps[1..], mac, cid);
    }
  }

  lemma OtherLeaves(e: Env, st: State, step: Step, mac: string, cid: string)
    requires ValidEnv(e) && Possible(e, st, step) && MacText(mac) && !Speaks(step, ClientKey(mac, cid))
    ensures var t := Next(e, st, step).table;
      forall a | a in t && Key(t[a]) == ClientKey(mac, cid) :: a in st.table && st.table[a] == t[a]
  {
    if step.Message? && Selecting(step.msg).Some? {
      HandledBySelect(e, st, step);
      SelectSound(e, st.table, Selecting(step.msg).value, step.sched, step.picks);
    } else {
      PlaceholderIsNoClient(mac, cid);
      OthersOnlyShrink(e, st, step);
    }
  }

  /** Without that condition a request by option 50 right after the grant can get a NAK. */
  lemma TwoPhaseRefusal(e: Env, st: State, first: Step, mac: string, cid: string, ip: Addr) returns (second: Step)
    requires ValidEnv(e) && Keyed(st.table) && Grants(e, st, first, mac, cid, ip) && !Lapsed(e, first) && ip != 0
    requires !Ready(e, Next(e, st, first).table, Next(e, st, first).clock, mac, cid, ip)
    ensures Accepts(e, st, first, [], second, mac, cid, ip)
    ensures ReplyTo(e, Next(e, st, first), second) == Nak
  {
    var st1 := Next(e, st, first);
    GrantBooks(e, st, first, mac, cid, ip);
    StaysKeyed(e, st, first);
    var p := MissingPicks(e, st1, mac, cid, ip);
    second := Message(Request(Naming(mac, cid, ip)), At(st1.clock), p);
    Refuses(e, st1, Naming(mac, cid, ip), p, ip);
    BackAtOnce(e, st, first, second, mac, cid, ip);
  }

  lemma Refuses(e: Env, st: State, req: Req, p: Picks, ip: Addr)
    requires ValidEnv(e) && MacText(req.mac) && req.requested == Some(ip) && ip != 0
    requires ValidPicks(e, st.table, req, At(st.clock), p)
    requires Address(Select(e, st.table, req, At(st.clock), p)) != Some(ip)
    ensures var step := Message(Request(req), At(st.clock), p);
      Possible(e, st, step) && ReplyTo(e, st, step) == Nak && !Gives(step, ip, ClientKey(req.mac, req.cid))
  {
  }

  lemma BackAtOnce(e: Env, st: State, first: Step, second: Step, mac: string, cid: string, ip: Addr)
    requires ValidEnv(e) && first.Message? && Possible(e, Next(e, st, first), second) && Asks(second, mac, cid)
    requires !Gives(second, ip, ClientKey(mac, cid)) && EndOf(second.sched) <= first.sched.start + e.leaseTime
    ensures ComesBack(e, st, first, [], second, mac, cid, ip)
  {
    assert Run(e, Next(e, st, first), []) == Next(e, st, first);
  }

  function Naming(mac: string, cid: string, ip: Addr): (req: Req) {
    Req(mac, cid, "", Some(ip), 0)
  }

  /** Possible picks under which the request misses ip. */
  lemma MissingPicks(e: Env, st: State, mac: string, cid: string, ip: Addr) returns (p: Picks)
    requires ValidEnv(e) && Keyed(st.table) && Holds(st.table, ClientKey(mac, cid), ip, st.clock)
    requires !Ready(e, st.table, st.clock, mac, cid, ip)
    ensures ValidPicks(e, st.table, Naming(mac, cid, ip), At(st.clock), p)
    ensures Address(Select(e, st.table, Naming(mac, cid, ip), At(st.clock), p)) != Some(ip)
  {
    FoundAt(st.table, st.clock);
    if !Unambiguous(e, mac, cid) {
      var d := Misfit(e, mac, cid, ip);
      p := Picks(d, Some(st.table[ip]));
      MisfitMisses(e, st, Naming(mac, cid, ip), ip, p);
    } else {
      var best :| BestMatch(e.statics, mac, cid, best) && ReservedBy(e, best).None?;
      var a :| Active(st.table, a, st.clock) && Key(st.table[a]) == ClientKey(mac, cid) && a != ip &&
               !Harmless(e, a, ip);
      p := Picks(best, Some(st.table[a]));
      HarmfulMisses(e, st, Naming(mac, cid, ip), ip, p);
    }
  }

  lemma HarmfulMisses(e: Env, st: State, req: Req, ip: Addr, p: Picks)
    requires ValidEnv(e) && ValidPicks(e, st.table, req, At(st.clock), p) && req.requested == Some(ip)
    requires ReservedBy(e, p.best).None? && p.cur.Some? && p.cur.value.ip != ip && !Harmless(e, p.cur.value.ip, ip)
    requires Active(st.table, ip, st.clock)
    ensures Address(Select(e, st.table, req, At(st.clock), p)) != Some(ip)
  {
    if Reusable(e, p.cur.value.ip) {
      SelectSound(e, st.table, req, At(st.clock), p);
    } else {
      OutOfPool(e, st.table, req, st.clock, p, ip);
    }
  }

  lemma OutOfPool(e: Env, t: Table, req: Req, now: Time, p: Picks, ip: Addr)
    requires ValidEnv(e) && req.requested == Some(ip) && ReservedBy(e, p.best).None? && !InPool(e, ip)
    requires !(p.cur.Some? && Reusable(e, p.cur.value.ip)) && Active(t, ip, now)
    ensures Address(Select(e, t, req, At(now), p)) != Some(ip)
  {
    var lo, hi := AddrAtOffset(e.prefix, e.poolStart), AddrAtOffset(e.prefix, e.poolEnd);
    FoundAt(t, now);
    if lo.Some? && hi.Some? {
      FirstFreeIsLeast(t, now, lo.value, hi.value, Skipped(e));
      assert Address(SelectFromPool(e, t, req, At(now), lo.value, hi.value)) != Some(ip);
    }
  }

  // ---- ambiguous reservations ----

  /** A moment from which on nothing in the table is unexpired. */
  lemma LateEnough(t: Table, since: Time) returns (now: Time)
    ensures since <= now && forall a | a in t :: t[a].expiry < now
  {
    now := since;
    var todo := t.Keys;
    while todo != {}
      invariant since <= now && todo <= t.Keys
      invariant forall a | a in t && a !in todo :: t[a].expiry < now
    {
      var a :| a in todo;
      todo := todo - {a};
      if now <= t[a].expiry { now := t[a].expiry + 1; }
    }
  }

  /** Ties matter, from every state: whenever two best matches of a client disagree on the
      address, one that reserves an address gets it offered, and that offer does not stand. */
  lemma AmbiguityBreaksHandshake(e: Env, st: State, mac: string, cid: string,
                                 b: Option<StaticBinding>, c: Option<StaticBinding>)
    requires ValidEnv(e) && Keyed(st.table) && MacText(mac)
    requires BestMatch(e.statics, mac, cid, b) && BestMatch(e.statics, mac, cid, c)
    requires ReservedBy(e, b).Some? && ReservedBy(e, c) != ReservedBy(e, b)
    ensures exists first :: Grants(e, st, first, mac, cid, ReservedBy(e, b).value) &&
              !Stands(e, st, first, mac, cid, ReservedBy(e, b).value)
  {
    var ip, req := ReservedBy(e, b).value, Req(mac, cid, "", None, 0);
    var now := LateEnough(st.table, st.clock);
    var first := Message(Discover(req), At(now), Picks(b, None));
    var lease := NewLease(e, req, now).(ip := ip, isStatic := true);
    ReservedTaken(e, st.table, req, b, now, lease);
    assert Grants(e, st, first, mac, cid, ip);
    HandshakeIff(e, st, first, mac, cid, ip);
  }

  // ---- concrete clients ----

  const MAC := "02:00"
  const VM := StaticBinding("vm", 0, Some(MAC), None, 5)

  function Scope(statics: set<StaticBinding>): (e: Env) {
    Env(Prefix(32, 1, 24), 100, 110, 3600, statics)
  }

  function Held(ip: Addr): (l: Lease) {
    Lease(ip, MAC, "", "", 3600, false)
  }

  function Ask(): (r: Req) {
    Req(MAC, "", "", None, 0)
  }

  lemma ScopeFacts(statics: set<StaticBinding>, offset: nat)
    ensures ValidEnv(Scope(statics))
    ensures Contains(Scope(statics).prefix, offset) <==> offset < 256
    ensures AddrAtOffset(Scope(statics).prefix, offset) == if offset < 256 then Some(offset) else None
  {
    var p := Scope(statics).prefix;
    Pow2Of32();
    ClearLowBounds(1, 8);
    ClearLowOffset(0, 1, 8) by { assert ClearLow(0, 8) == 0 by { ClearLowBounds(0, 8); } }
    assert Base(p) == 0;
    ContainsIffInBlock(p, offset);
    OffsetExact(p, offset);
  }

  /** A client whose only lease is elsewhere gets a second one as soon as its reserved address
      is free, for every configuration and table. */
  lemma StrandedLease(e: Env, req: Req, b: Option<StaticBinding>, t: Table, a: Addr)
    requires ValidEnv(e) && MacText(req.mac) && BestMatch(e.statics, req.mac, req.cid, b)
    requires ReservedBy(e, b).Some? && !Active(t, ReservedBy(e, b).value, 0) && a != ReservedBy(e, b).value
    requires Active(t, a, 0) && Key(t[a]) == ClientKey(req.mac, req.cid)
    ensures exists step :: SecondLease(e, State(t, 0), step, ClientKey(req.mac, req.cid))
  {
    var step := Message(Discover(req), At(0), Picks(b, None));
    var lease := NewLease(e, req, 0).(ip := ReservedBy(e, b).value, isStatic := true);
    ReservedTaken(e, t, req, b, 0, lease);
    HandledBySelect(e, State(t, 0), step);
    TwoLeases(t[lease.ip := lease], a, lease.ip, ClientKey(req.mac, req.cid));
    assert SecondLease(e, State(t, 0), step, ClientKey(req.mac, req.cid));
  }

  ghost predicate SecondLease(e: Env, st: State, step: Step, key: string) {
    && ValidEnv(e) && Possible(e, st, step)
    && !OneLease(Next(e, st, step).table, Next(e, st, step).clock, key)
  }

  lemma ReservedTaken(e: Env, t: Table, req: Req, b: Option<StaticBinding>, now: Time, lease: Lease)
    requires ValidEnv(e) && ReservedBy(e, b).Some? && !Active(t, ReservedBy(e, b).value, now)
    requires lease == NewLease(e, req, now).(ip := ReservedBy(e, b).value, isStatic := true)
    ensures Select(e, t, req, At(now), Picks(b, None)) == Outcome(t, Some(lease))
  {
    FoundAt(t, now);
  }

  lemma TwoLeases(t: Table, a: Addr, b: Addr, key: string)
    requires Active(t, a, 0) && Active(t, b, 0) && Key(t[a]) == Key(t[b]) == key && a != b
    ensures !OneLease(t, 0, key)
  {
  }

  /** Such a client exists: one lease, and a reservation added after it was given. */
  lemma ReservationStrandsLease()
    ensures exists e: Env, st: State, step: Step :: Stranding(e, st, step)
  {
    var e := VmReserved();
    var t: Table := map[100 := Held(100)];
    OneLeaseOf(t, 100);
    StrandedLease(e, Ask(), Some(VM), t, 100);
    var step :| SecondLease(e, State(t, 0), step, ClientKey(MAC, ""));
    assert Stranding(e, State(t, 0), step);
  }

  ghost predicate Stranding(e: Env, st: State, step: Step) {
    OneLease(st.table, st.clock, ClientKey(MAC, "")) && SecondLease(e, st, step, ClientKey(MAC, ""))
  }

  lemma VmReserved() returns (e: Env)
    ensures ValidEnv(e) && BestMatch(e.statics, MAC, "", Some(VM)) && ReservedBy(e, Some(VM)) == Some(5)
  {
    e := Scope({VM});
    ScopeFacts({VM}, 5);
  }

  lemma OneLeaseOf(t: Table, ip: Addr)
    requires t.Keys == {ip}
    ensures OneLease(t, 0, ClientKey(MAC, ""))
  {
  }

  /** A client with one lease is granted ip, and that grant does not stand. */
  ghost predicate Broken(e: Env, st: State, first: Step, ip: Addr) {
    && ValidEnv(e) && OneLease(st.table, st.clock, ClientKey(MAC, "")) && Grants(e, st, first, MAC, "", ip)
    && !Stands(e, st, first, MAC, "", ip)
  }

  /** One lease is not enough: with its only lease outside the prefix a client is offered an
      address whose request is then refused. */
  lemma HandshakeNeedsLeaseInPlace()
    ensures exists e, st, first, ip :: Broken(e, st, first, ip)
  {
    var e, t := Scope({}), map[1000 := Held(1000)];
    var st, st1 := State(t, 0), State(t[100 := Held(100)], 0);
    ScopeFacts({}, 0);
    DiscoverTakes(t, 100);
    OneLeaseOf(t, 1000);
    assert Active(st1.table, 1000, 0);
    assert !OnlyAt(st1.table, 0, ClientKey(MAC, ""), 100);
    NotReserved(e, MAC, "", None);
    HandshakeIff(e, st, DISCOVER, MAC, "", 100);
    assert Broken(e, st, DISCOVER, 100);
  }

  const DISCOVER := Message(Discover(Ask()), At(0), Picks(None, Some(Held(1000))))

  /** The stray lease at 1000 is found first, may not be kept, and the pool answers. */
  lemma DiscoverTakes(t: Table, ip: Addr)
    requires 1000 in t && t[1000] == Held(1000)
    requires FirstFree(t, 0, 100, 110, {1}) == Some(ip)
    ensures ValidEnv(Scope({})) && Possible(Scope({}), State(t, 0), DISCOVER)
    ensures Next(Scope({}), State(t, 0), DISCOVER) == State(t[ip := Held(ip)], 0)
    ensures ReplyTo(Scope({}), State(t, 0), DISCOVER) == Offer(ip)
  {
    ScopeFacts({}, 0);
    assert BestMatch({}, MAC, "", None);
    FoundAt(t, 0);
    SelectTakes(t, ip);
  }

  lemma SelectTakes(t: Table, ip: Addr)
    requires FirstFree(t, 0, 100, 110, {1}) == Some(ip)
    ensures ValidEnv(Scope({}))
    ensures Select(Scope({}), t, Ask(), At(0), Picks(None, Some(Held(1000)))) == Outcome(t, Some(Held(ip)))
  {
    ScopeFacts({}, 100);
    ScopeFacts({}, 110);
    ScopeFacts({}, 1000);
    FoundAt(t, 0);
    assert Skipped(Scope({})) == {1};
    assert SelectFromPool(Scope({}), t, Ask(), At(0), 100, 110) == Outcome(t, Some(Held(ip)));
  }
}
