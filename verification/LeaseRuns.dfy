/** Whole-run properties of the lease engine: no takeover, one lease per client, the two-phase
    handshake, reservations, quarantine and the gateway, for every interleaving of clients,
    sweeps and clock readings. */
module LeaseRuns {
  import opened Arith
  import opened Addressing
  import opened Statics
  import opened Leases
  import opened Selection

  // ---- what a selection does to the table ----

  lemma FoundDwindled(t: Table, r: Region, since: Time)
    requires After(r, since)
    ensures Dwindled(t, Found(t, r), r.lo, r.released) && Dwindled(t, Found(t, r), r.hi, r.released)
  {
  }

  /** ip answers the question "what does the best match of this client ask for". */
  predicate Fits(e: Env, best: Option<StaticBinding>, ip: Addr)
    requires ValidEnv(e)
  {
    var r := ReservedBy(e, best);
    if r.Some? then ip == r.value else Reusable(e, ip)
  }

  /** What every selection guarantees: only expired and released leases go, at most one
      address is booked, which no other client holds and which fits the client's reservation or,
      without one, lies in the prefix and is reserved for nobody; a lease the client may
      keep is kept; and the gateway is only ever booked by a reservation or an old lease. */
  predicate OutcomeOk(e: Env, t: Table, req: Req, s: Schedule, p: Picks, o: Outcome)
    requires ValidEnv(e)
  {
    && Dwindled(t, o.mid, EndOf(s), Released(s)) && o.mid.Keys <= Found(t, s.first).Keys
    && (o.booked.Some? ==> BookingOk(e, req, s, p, o.mid, o.booked.value))
    && (ReservedBy(e, p.best).None? && p.cur.Some? && Reusable(e, p.cur.value.ip) ==>
          Address(o) == Some(p.cur.value.ip))
  }

  predicate BookingOk(e: Env, req: Req, s: Schedule, p: Picks, mid: Table, l: Lease)
    requires ValidEnv(e)
  {
    && l.mac == req.mac && l.clientID == req.cid && l.hostname == req.hostname
    && l.expiry == s.start + e.leaseTime && (l.isStatic <==> ReservedBy(e, p.best).Some?)
    && !HeldByOther(mid, l.ip, Key(l), EndOf(s))
    && Fits(e, p.best, l.ip)
    && (l.ip == e.prefix.addr ==> ReservedBy(e, p.best) == Some(l.ip) || (p.cur.Some? && p.cur.value.ip == l.ip))
  }

  lemma SelectSound(e: Env, t: Table, req: Req, s: Schedule, p: Picks)
    requires ValidEnv(e) && Monotone(s) && ValidPicks(e, t, req, s, p)
    ensures OutcomeOk(e, t, req, s, p, Select(e, t, req, s, p))
  {
    if ReservedBy(e, p.best).Some? {
      ReservedSound(e, t, req, s, p);
    } else if p.cur.Some? && Reusable(e, p.cur.value.ip) {
      ReuseSound(e, t, req, s, p);
    } else {
      NewSound(e, t, req, s, p);
    }
  }

  lemma NewSound(e: Env, t: Table, req: Req, s: Schedule, p: Picks)
    requires ValidEnv(e) && Monotone(s)
    requires ReservedBy(e, p.best).None? && !(p.cur.Some? && Reusable(e, p.cur.value.ip))
    ensures OutcomeOk(e, t, req, s, p, SelectDynamic(e, Found(t, s.first), req, s, p.cur))
  {
    var t1, lo, hi := Found(t, s.first), AddrAtOffset(e.prefix, e.poolStart), AddrAtOffset(e.prefix, e.poolEnd);
    if lo.Some? && hi.Some? {
      PoolAddress(e.prefix, e.poolStart);
      PoolAddress(e.prefix, e.poolEnd);
      PoolPicks(e, t1, req, s, lo.value, hi.value);
      PoolSound(e, t, req, s, p, lo.value, hi.value, SelectFromPool(e, t1, req, s, lo.value, hi.value));
    } else {
      NothingSound(e, t, req, s, p);
    }
  }

  lemma PoolAddress(p: Prefix, offset: nat)
    requires ValidPrefix(p) && AddrAtOffset(p, offset).Some?
    ensures Contains(p, AddrAtOffset(p, offset).value)
  {
  }

  lemma NothingSound(e: Env, t: Table, req: Req, s: Schedule, p: Picks)
    requires ValidEnv(e) && Monotone(s)
    requires ReservedBy(e, p.best).None? && !(p.cur.Some? && Reusable(e, p.cur.value.ip))
    ensures OutcomeOk(e, t, req, s, p, Outcome(Found(t, s.first), None))
  {
    FoundDwindled(t, s.first, s.start);
  }

  lemma ReservedSound(e: Env, t: Table, req: Req, s: Schedule, p: Picks)
    requires ValidEnv(e) && Monotone(s) && ReservedBy(e, p.best).Some?
    ensures OutcomeOk(e, t, req, s, p,
                      SelectReserved(e, Found(t, s.first), req, s, ReservedBy(e, p.best).value))
  {
    FoundDwindled(t, s.first, s.start);
    FoundDwindled(Found(t, s.first), s.second, s.first.hi);
  }

  lemma ReuseSound(e: Env, t: Table, req: Req, s: Schedule, p: Picks)
    requires ValidEnv(e) && Monotone(s) && ValidPicks(e, t, req, s, p)
    requires ReservedBy(e, p.best).None? && p.cur.Some? && Reusable(e, p.cur.value.ip)
    ensures OutcomeOk(e, t, req, s, p, SelectDynamic(e, Found(t, s.first), req, s, p.cur))
  {
    FoundDwindled(t, s.first, s.start);
    FoundDwindled(Found(t, s.first), s.second, s.first.hi);
  }

  /** What the pool part of a selection yields, in terms of the table it ends with. */
  predicate PoolPick(e: Env, req: Req, s: Schedule, lo: Addr, hi: Addr, o: Outcome)
    requires ValidEnv(e)
  {
    match o.booked
    case Some(l) =>
      && Grantable(e, l.ip, lo, hi) && l == NewLease(e, req, s.start).(ip := l.ip)
      && !HeldByOther(o.mid, l.ip, ClientKey(req.mac, req.cid), EndOf(s))
    case None => forall a | lo <= a <= hi :: a in Skipped(e) || Active(o.mid, a, EndOf(s))
  }

  lemma PoolPicks(e: Env, t1: Table, req: Req, s: Schedule, lo: Addr, hi: Addr)
    requires ValidEnv(e) && Monotone(s)
    ensures PoolPick(e, req, s, lo, hi, SelectFromPool(e, t1, req, s, lo, hi))
    ensures SelectFromPool(e, t1, req, s, lo, hi).mid == Found(Found(t1, s.second), s.third)
  {
    var t2 := Found(t1, s.second);
    FoundDwindled(t2, s.third, s.second.hi);
    FirstFreeIsLeast(Found(t2, s.third), s.third.hi, lo, hi, Skipped(e));
  }

  lemma PoolSound(e: Env, t: Table, req: Req, s: Schedule, p: Picks, lo: Addr, hi: Addr, o: Outcome)
    requires ValidEnv(e) && Monotone(s)
    requires ReservedBy(e, p.best).None? && !(p.cur.Some? && Reusable(e, p.cur.value.ip))
    requires Contains(e.prefix, lo) && Contains(e.prefix, hi)
    requires PoolPick(e, req, s, lo, hi, o)
    requires o.mid == Found(Found(Found(t, s.first), s.second), s.third)
    ensures OutcomeOk(e, t, req, s, p, o)
  {
    var t1 := Found(t, s.first);
    FoundDwindled(t, s.first, s.start);
    FoundDwindled(t1, s.second, s.first.hi);
    FoundDwindled(Found(t1, s.second), s.third, s.second.hi);
    if o.booked.Some? {
      RangeInPrefix(e.prefix, lo, o.booked.value.ip, hi);
    }
  }

  // ---- no takeover ----

  function SenderKey(msg: Msg): (r: Option<string>) {
    if Selecting(msg).Some? then Some(ClientKey(Selecting(msg).value.mac, Selecting(msg).value.cid))
    else if msg.Release6? then Some(ClientKey(msg.mac, msg.cid))
    else None
  }

  /** Whether the step names ip in a release or decline, whoever holds it, comes with its
      release by the control API, or is the release of its own lease by the client with this
      key. */
  predicate Gives(step: Step, ip: Addr, key: string) {
    match step
    case Message(msg, s, _) => ip in Released(s) || GivesUp(msg, ip, key)
    case ForceRelease(a, _) => a == ip
    case SweepAt(_, _) => false
  }

  predicate GivesUp(msg: Msg, ip: Addr, key: string) {
    match msg
    case Release(ciaddr) => ciaddr == ip
    case Decline(requested) => requested == Some(ip)
    case Release6(mac, cid) => ClientKey(mac, cid) == key
    case _ => false
  }

  /** In every state: a lease that is unexpired when a step ends is unchanged by it, unless
      the step is a release or decline naming its address, or comes from its own client. */
  lemma NoTakeover(e: Env, st: State, step: Step, ip: Addr)
    requires ValidEnv(e) && Possible(e, st, step)
    requires Active(st.table, ip, Next(e, st, step).clock)
    requires !Gives(step, ip, Key(st.table[ip]))
    requires step.Message? ==> SenderKey(step.msg) != Some(Key(st.table[ip]))
    ensures ip in Next(e, st, step).table && Next(e, st, step).table[ip] == st.table[ip]
  {
    if step.Message? && Selecting(step.msg).Some? {
      HandledBySelect(e, st, step);
      SelectSound(e, st.table, Selecting(step.msg).value, step.sched, step.picks);
    } else if step.Message? {
      var s := step.sched;
      FoundDwindled(st.table, s.first, s.start);
      FoundDwindled(Found(st.table, s.first), s.second, s.first.hi);
    }
  }

  /** Steps never move the clock back. */
  lemma ClockMoves(e: Env, st: State, step: Step)
    requires ValidEnv(e) && Possible(e, st, step)
    ensures st.clock <= Next(e, st, step).clock
    ensures step.Message? ==> st.clock <= step.sched.start <= Next(e, st, step).clock
  {
  }

  /** Key `key` holds ip at least until `until`. */
  predicate Holds(t: Table, key: string, ip: Addr, until: Time) {
    ip in t && Key(t[ip]) == key && until <= t[ip].expiry
  }

  /** A holding survives every step that ends before it runs out, except those that give it
      up: other clients cannot take it, and the holder can only renew it. */
  lemma HoldStep(e: Env, st: State, step: Step, key: string, ip: Addr, until: Time)
    requires ValidEnv(e) && Possible(e, st, step)
    requires Holds(st.table, key, ip, until) && until <= st.clock + e.leaseTime
    requires Next(e, st, step).clock <= until && !Gives(step, ip, key)
    ensures Holds(Next(e, st, step).table, key, ip, until)
  {
    ClockMoves(e, st, step);
    if step.Message? && SenderKey(step.msg) == Some(key) {
      assert Selecting(step.msg).Some?;
      HandledBySelect(e, st, step);
      SelectSound(e, st.table, Selecting(step.msg).value, step.sched, step.picks);
      HoldSelect(e, st, Selecting(step.msg).value, step.sched, step.picks,
                 Select(e, st.table, Selecting(step.msg).value, step.sched, step.picks), key, ip, until);
    } else {
      NoTakeover(e, st, step, ip);
    }
  }

  lemma HoldSelect(e: Env, st: State, req: Req, s: Schedule, p: Picks, o: Outcome, key: string, ip: Addr, until: Time)
    requires ValidEnv(e) && OutcomeOk(e, st.table, req, s, p, o) && ClientKey(req.mac, req.cid) == key
    requires Holds(st.table, key, ip, until) && until <= s.start + e.leaseTime
    requires EndOf(s) <= until && ip !in Released(s)
    ensures Holds(Booked(o), key, ip, until)
  {
  }

  predicate GivesAny(steps: seq<Step>, ip: Addr, key: string) {
    exists i :: 0 <= i < |steps| && Gives(steps[i], ip, key)
  }

  lemma {:induction false} HoldRun(e: Env, st: State, steps: seq<Step>, key: string, ip: Addr, until: Time)
    requires ValidEnv(e) && Feasible(e, st, steps)
    requires Holds(st.table, key, ip, until) && until <= st.clock + e.leaseTime
    requires Run(e, st, steps).clock <= until && !GivesAny(steps, ip, key)
    ensures Holds(Run(e, st, steps).table, key, ip, until)
    ensures st.clock <= Run(e, st, steps).clock
    decreases |steps|
  {
    if steps != [] {
      var st1 := Next(e, st, steps[0]);
      ClockMoves(e, st, steps[0]);
      ClockRuns(e, st1, steps[1..]);
      assert !Gives(steps[0], ip, key);
      assert forall i | 0 <= i < |steps| - 1 :: steps[1..][i] == steps[i + 1];
      HoldStep(e, st, steps[0], key, ip, until);
      HoldRun(e, st1, steps[1..], key, ip, until);
    }
  }

  lemma {:induction false} ClockRuns(e: Env, st: State, steps: seq<Step>)
    requires ValidEnv(e) && Feasible(e, st, steps)
    ensures st.clock <= Run(e, st, steps).clock
    decreases |steps|
  {
    if steps != [] {
      ClockMoves(e, st, steps[0]);
      ClockRuns(e, Next(e, st, steps[0]), steps[1..]);
    }
  }

  // ---- one lease per client ----

  /** The client has at most one unexpired lease. */
  ghost predicate OneLease(t: Table, now: Time, key: string) {
    forall a, b | Active(t, a, now) && Active(t, b, now) && Key(t[a]) == key && Key(t[b]) == key :: a == b
  }

  /** Every unexpired lease of the client is where its best match puts it. */
  ghost predicate InPlace(e: Env, t: Table, now: Time, mac: string, cid: string)
    requires ValidEnv(e)
  {
    forall a, best | Active(t, a, now) && Key(t[a]) == ClientKey(mac, cid) &&
      BestMatch(e.statics, mac, cid, best) :: Fits(e, best, a)
  }

  ghost predicate Settled(e: Env, t: Table, now: Time, mac: string, cid: string)
    requires ValidEnv(e)
  {
    OneLease(t, now, ClientKey(mac, cid)) && InPlace(e, t, now, mac, cid)
  }

  /** Tied best matches of the client reserve the same address. */
  ghost predicate Unambiguous(e: Env, mac: string, cid: string)
    requires ValidEnv(e)
  {
    forall b, c | BestMatch(e.statics, mac, cid, b) && BestMatch(e.statics, mac, cid, c) ::
      ReservedBy(e, b) == ReservedBy(e, c)
  }

  lemma MacTextNoSlash(s: string)
    requires MacText(s)
    ensures '/' !in s
  {
  }

  /** Clients with the same key have the same matches. */
  lemma KeyDecidesMatch(bs: set<StaticBinding>, mac: string, cid: string, mac': string, cid': string,
                        best: Option<StaticBinding>)
    requires MacText(mac) && MacText(mac') && ClientKey(mac, cid) == ClientKey(mac', cid')
    requires BestMatch(bs, mac, cid, best)
    ensures BestMatch(bs, mac', cid', best)
  {
    MacTextNoSlash(mac);
    MacTextNoSlash(mac');
    ClientKeyInjective(mac, cid, mac', cid');
    assert forall b :: Matches(b, mac, cid) == Matches(b, mac', cid');
  }

  /** The exact condition.  A booking leaves its client with one unexpired lease if and only
      if the leases it still had were where its best match puts them: an old lease elsewhere
      (a reservation added later, a prefix that changed) is never dropped. */
  lemma OneLeaseIffInPlace(e: Env, st: State, req: Req, s: Schedule, p: Picks)
    requires ValidEnv(e) && Monotone(s) && st.clock <= s.start
    requires ValidPicks(e, st.table, req, s, p)
    requires OneLease(st.table, st.clock, ClientKey(req.mac, req.cid))
    requires Select(e, st.table, req, s, p).booked.Some?
    requires EndOf(s) <= s.start + e.leaseTime
    ensures var o := Select(e, st.table, req, s, p);
      OneLease(Booked(o), EndOf(s), ClientKey(req.mac, req.cid)) <==>
      forall a | Active(o.mid, a, EndOf(s)) && Key(o.mid[a]) == ClientKey(req.mac, req.cid) :: Fits(e, p.best, a)
  {
    SelectSound(e, st.table, req, s, p);
    BookingIff(e, st, req, s, p, Select(e, st.table, req, s, p));
  }

  /** Unless a lease is released meanwhile, the condition can be read off the table before the
      selection. */
  lemma OneLeaseIffInTable(e: Env, st: State, req: Req, s: Schedule, p: Picks)
    requires ValidEnv(e) && Monotone(s) && st.clock <= s.start && Released(s) == {}
    requires ValidPicks(e, st.table, req, s, p)
    requires OneLease(st.table, st.clock, ClientKey(req.mac, req.cid))
    requires Select(e, st.table, req, s, p).booked.Some?
    requires EndOf(s) <= s.start + e.leaseTime
    ensures OneLease(Booked(Select(e, st.table, req, s, p)), EndOf(s), ClientKey(req.mac, req.cid)) <==>
            forall a | Active(st.table, a, EndOf(s)) && Key(st.table[a]) == ClientKey(req.mac, req.cid) ::
              Fits(e, p.best, a)
  {
    OneLeaseIffInPlace(e, st, req, s, p);
    SelectSound(e, st.table, req, s, p);
    SameUnexpired(st.table, Select(e, st.table, req, s, p).mid, EndOf(s));
  }

  lemma SameUnexpired(t: Table, s: Table, now: Time)
    requires Dwindled(t, s, now, {})
    ensures forall a :: Active(t, a, now) <==> Active(s, a, now)
    ensures forall a | Active(t, a, now) :: t[a] == s[a]
  {
  }

  lemma BookingIff(e: Env, st: State, req: Req, s: Schedule, p: Picks, o: Outcome)
    requires ValidEnv(e) && Monotone(s) && st.clock <= s.start
    requires ValidPicks(e, st.table, req, s, p) && OutcomeOk(e, st.table, req, s, p, o)
    requires OneLease(st.table, st.clock, ClientKey(req.mac, req.cid))
    requires o.booked.Some? && EndOf(s) <= s.start + e.leaseTime
    ensures OneLease(Booked(o), EndOf(s), ClientKey(req.mac, req.cid)) <==>
            forall a | Active(o.mid, a, EndOf(s)) && Key(o.mid[a]) == ClientKey(req.mac, req.cid) ::
              Fits(e, p.best, a)
  {
    var key, t', now, ip := ClientKey(req.mac, req.cid), Booked(o), EndOf(s), o.booked.value.ip;
    assert Active(t', ip, now) && Key(t'[ip]) == key;
    forall a | Active(o.mid, a, now) && Key(o.mid[a]) == key
      ensures Active(t', a, now) && Key(t'[a]) == key
      ensures Fits(e, p.best, a) <==> a == ip
    {
      if Fits(e, p.best, a) { KeptLease(e, st, req, s, p, o, a); }
    }
    assert forall a | Active(t', a, now) && Key(t'[a]) == key && a != ip ::
        Active(o.mid, a, now) && Key(o.mid[a]) == key;
  }

  /** A client with one unexpired lease, in place and not released, is booked exactly there. */
  lemma KeptLease(e: Env, st: State, req: Req, s: Schedule, p: Picks, o: Outcome, a: Addr)
    requires ValidEnv(e) && Monotone(s) && st.clock <= s.start
    requires ValidPicks(e, st.table, req, s, p) && OutcomeOk(e, st.table, req, s, p, o)
    requires OneLease(st.table, st.clock, ClientKey(req.mac, req.cid))
    requires Active(o.mid, a, EndOf(s)) && Key(o.mid[a]) == ClientKey(req.mac, req.cid)
    requires Fits(e, p.best, a)
    ensures o.booked.Some? ==> o.booked.value.ip == a
    ensures ReservedBy(e, p.best).None? ==> Address(o) == Some(a)
  {
    if ReservedBy(e, p.best).None? {
      var t1 := Found(st.table, s.first);
      FoundDwindled(st.table, s.first, s.start);
      assert Active(st.table, a, st.clock);
      assert a in t1 && Key(t1[a]) == ClientKey(req.mac, req.cid);
      assert Active(st.table, p.cur.value.ip, st.clock);
    }
  }

  /** A step leaves a client settled: whoever acts, at whatever times, sweeps included. */
  lemma SettledStep(e: Env, st: State, step: Step, mac: string, cid: string)
    requires ValidEnv(e) && Possible(e, st, step) && MacText(mac)
    requires Unambiguous(e, mac, cid) && Settled(e, st.table, st.clock, mac, cid)
    ensures Settled(e, Next(e, st, step).table, Next(e, st, step).clock, mac, cid)
  {
    ClockMoves(e, st, step);
    if step.Message? && Selecting(step.msg).Some? {
      var req := Selecting(step.msg).value;
      var o := Select(e, st.table, req, step.sched, step.picks);
      SelectSound(e, st.table, req, step.sched, step.picks);
      SettledSelect(e, st, req, step.sched, step.picks, o, mac, cid);
    } else {
      PlaceholderIsNoClient(mac, cid);
      OthersOnlyShrink(e, st, step);
      SettledShrink(e, st, Next(e, st, step), mac, cid);
    }
  }

  /** t' has no lease that t does not have, placeholders apart. */
  predicate Shrinks(t: Table, t': Table) {
    forall a | a in t' && Key(t'[a]) != ClientKey(DECLINED, "") :: a in t && t[a] == t'[a]
  }

  lemma OthersOnlyShrink(e: Env, st: State, step: Step)
    requires ValidEnv(e) && Possible(e, st, step)
    requires step.Message? ==> Selecting(step.msg).None?
    ensures Shrinks(st.table, Next(e, st, step).table)
  {
    if step.Message? {
      MessageShrinks(e, st.table, step.msg, step.sched, step.picks);
    }
  }

  lemma MessageShrinks(e: Env, t: Table, msg: Msg, s: Schedule, p: Picks)
    requires ValidEnv(e) && Selecting(msg).None?
    ensures Shrinks(t, Handle(e, t, msg, s, p).0)
  {
    FoundShrinks(t, s.first);
    match msg
    case Release6(_, _) => FoundShrinks(Found(t, s.first), s.second);
    case Decline(requested) =>
      if requested.Some? { assert Key(Placeholder(e, requested.value, s.start)) == ClientKey(DECLINED, ""); }
    case _ =>
  }

  lemma FoundShrinks(t: Table, r: Region)
    ensures forall a | a in Found(t, r) :: a in t && t[a] == Found(t, r)[a]
  {
  }

  lemma SettledShrink(e: Env, st: State, st': State, mac: string, cid: string)
    requires ValidEnv(e) && Settled(e, st.table, st.clock, mac, cid)
    requires st.clock <= st'.clock && Shrinks(st.table, st'.table)
    requires ClientKey(mac, cid) != ClientKey(DECLINED, "")
    ensures Settled(e, st'.table, st'.clock, mac, cid)
  {
    SettledSubset(e, st.table, st.clock, st'.table, st'.clock, mac, cid);
  }

  lemma SettledSelect(e: Env, st: State, req: Req, s: Schedule, p: Picks, o: Outcome, mac: string, cid: string)
    requires ValidEnv(e) && Monotone(s) && st.clock <= s.start && MacText(mac) && MacText(req.mac)
    requires ValidPicks(e, st.table, req, s, p) && OutcomeOk(e, st.table, req, s, p, o)
    requires Unambiguous(e, mac, cid) && Settled(e, st.table, st.clock, mac, cid)
    ensures Settled(e, Booked(o), EndOf(s), mac, cid)
  {
    var key, t', now := ClientKey(mac, cid), Booked(o), EndOf(s);
    if ClientKey(req.mac, req.cid) == key && o.booked.Some? {
      KeyDecidesMatch(e.statics, req.mac, req.cid, mac, cid, p.best);
      forall a | Active(t', a, now) && Key(t'[a]) == key
        ensures a == o.booked.value.ip
      {
        if a != o.booked.value.ip {
          assert Active(st.table, a, st.clock) && Fits(e, p.best, a);
          KeptLease(e, st, req, s, p, o, a);
        }
      }
      SettledAt(e, t', now, mac, cid, o.booked.value.ip, p.best);
    } else {
      SettledSubset(e, st.table, st.clock, t', now, mac, cid);
    }
  }

  /** All leases of the client at one fitting address. */
  lemma SettledAt(e: Env, t: Table, now: Time, mac: string, cid: string, ip: Addr, best: Option<StaticBinding>)
    requires ValidEnv(e) && Unambiguous(e, mac, cid)
    requires BestMatch(e.statics, mac, cid, best) && Fits(e, best, ip)
    requires forall a | Active(t, a, now) && Key(t[a]) == ClientKey(mac, cid) :: a == ip
    ensures Settled(e, t, now, mac, cid)
  {
  }

  /** No new leases for the client. */
  lemma SettledSubset(e: Env, t: Table, at: Time, t': Table, now: Time, mac: string, cid: string)
    requires ValidEnv(e) && Settled(e, t, at, mac, cid) && at <= now
    requires forall a | Active(t', a, now) && Key(t'[a]) == ClientKey(mac, cid) :: a in t && t[a] == t'[a]
    ensures Settled(e, t', now, mac, cid)
  {
    assert forall a | Active(t', a, now) && Key(t'[a]) == ClientKey(mac, cid) :: Active(t, a, at);
  }

  lemma PlaceholderIsNoClient(mac: string, cid: string)
    requires MacText(mac)
    ensures ClientKey(mac, cid) != ClientKey(DECLINED, "")
  {
    var k := ClientKey(mac, cid);
    var d := ClientKey(DECLINED, "");
    assert d[3] == 'l' && d[0] == 'd' && d[1] == 'e' && d[2] == 'c';
    if |mac| > 3 {
      assert mac[3] in mac && k[3] == LowerChar(mac[3]);
    } else {
      assert k[|mac|] == '/';
    }
  }

  lemma {:induction false} SettledRun(e: Env, st: State, steps: seq<Step>, mac: string, cid: string)
    requires ValidEnv(e) && Feasible(e, st, steps) && MacText(mac)
    requires Unambiguous(e, mac, cid) && Settled(e, st.table, st.clock, mac, cid)
    ensures Settled(e, Run(e, st, steps).table, Run(e, st, steps).clock, mac, cid)
    decreases |steps|
  {
    if steps != [] {
      SettledStep(e, st, steps[0], mac, cid);
      SettledRun(e, Next(e, st, steps[0]), steps[1..], mac, cid);
    }
  }

  /** From an empty table, in every reachable state every client has at most one lease. */
  lemma OneLeaseAlways(e: Env, clock: Time, steps: seq<Step>, mac: string, cid: string)
    requires ValidEnv(e) && Feasible(e, State(map[], clock), steps) && MacText(mac)
    requires Unambiguous(e, mac, cid)
    ensures var st := Run(e, State(map[], clock), steps);
      OneLease(st.table, st.clock, ClientKey(mac, cid))
  {
    SettledRun(e, State(map[], clock), steps, mac, cid);
  }

  // ---- the handshake ----

  /** The address a reply grants, if any. */
  function Granted(r: Reply): (ip: Option<Addr>) {
    match r
    case Offer(ip) => Some(ip)
    case Ack(ip) => Some(ip)
    case Assign(ip) => Some(ip)
    case _ => None
  }

  /** Every best match of the client reserves an address in the prefix. */
  ghost predicate Reserved(e: Env, mac: string, cid: string)
    requires ValidEnv(e)
  {
    forall best | BestMatch(e.statics, mac, cid, best) :: ReservedBy(e, best).Some?
  }

  /** The client has no unexpired lease at another address. */
  ghost predicate OnlyAt(t: Table, now: Time, key: string, ip: Addr) {
    forall a | Active(t, a, now) && Key(t[a]) == key :: a == ip
  }

  /** A client that holds the address its best match asks for selects it again: a reserved
      address always, another one if the client holds nothing else. */
  lemma SelectsHeld(e: Env, st: State, req: Req, s: Schedule, p: Picks, ip: Addr)
    requires ValidEnv(e) && Monotone(s) && st.clock <= s.start
    requires ValidPicks(e, st.table, req, s, p) && Fits(e, p.best, ip)
    requires ReservedBy(e, p.best).None? ==> OnlyAt(st.table, st.clock, ClientKey(req.mac, req.cid), ip)
    requires Holds(st.table, ClientKey(req.mac, req.cid), ip, EndOf(s)) && ip !in Released(s)
    ensures Address(Select(e, st.table, req, s, p)) == Some(ip)
  {
    var t1 := Found(st.table, s.first);
    FoundDwindled(st.table, s.first, s.start);
    assert ip in t1 && t1[ip] == st.table[ip];
    if ReservedBy(e, p.best).None? {
      assert p.cur.Some? && Active(st.table, p.cur.value.ip, st.clock);
      SelectSound(e, st.table, req, s, p);
    }
  }

  /** A request names ip in option 50, or in ciaddr without that option. */
  predicate Names(req: Req, ip: Addr) {
    if req.requested.Some? && req.requested.value != 0 then req.requested.value == ip else req.ciaddr == ip
  }

  /** The reply gives ip (again): an ACK of a request for it, an OFFER or a DHCPv6 address. */
  predicate Gets(reply: Reply, msg: Msg, ip: Addr) {
    match msg
    case Request(req) => Names(req, ip) ==> reply == Ack(ip)
    case Discover(_) => reply == Offer(ip)
    case Address6(_) => reply == Assign(ip)
    case _ => true
  }

  /** The message of the step leads to a selection, for this client. */
  predicate Asks(step: Step, mac: string, cid: string) {
    && step.Message? && Selecting(step.msg).Some?
    && Selecting(step.msg).value.mac == mac && Selecting(step.msg).value.cid == cid
  }

  /** The step `first` grants ip to the client. */
  predicate Grants(e: Env, st: State, first: Step, mac: string, cid: string, ip: Addr)
    requires ValidEnv(e)
  {
    Possible(e, st, first) && Asks(first, mac, cid) && Granted(ReplyTo(e, st, first)) == Some(ip)
  }

  /** After the grant, anything happens except that ip is given up, and then the same client
      comes back before the lease runs out. */
  ghost predicate ComesBack(e: Env, st: State, first: Step, between: seq<Step>, second: Step,
                            mac: string, cid: string, ip: Addr)
    requires ValidEnv(e) && first.Message?
  {
    && Feasible(e, Next(e, st, first), between) && !GivesAny(between, ip, ClientKey(mac, cid))
    && Possible(e, Run(e, Next(e, st, first), between), second)
    && Asks(second, mac, cid) && !Gives(second, ip, ClientKey(mac, cid))
    && EndOf(second.sched) <= first.sched.start + e.leaseTime
  }

  /** What a client needs for its grant to stand: agreement between its best matches, and
      either a reservation or no second unexpired lease. */
  ghost predicate Steady(e: Env, t: Table, now: Time, mac: string, cid: string, ip: Addr)
    requires ValidEnv(e)
  {
    Unambiguous(e, mac, cid) && (Reserved(e, mac, cid) || OnlyAt(t, now, ClientKey(mac, cid), ip))
  }

  /** Handshake safety.  An address granted to a steady client is granted again whenever the
      client comes back before the lease runs out: a request for it is acknowledged, another
      DISCOVER gets the same offer, and DHCPv6 assigns it again. */
  lemma Handshake(e: Env, st: State, first: Step, between: seq<Step>, second: Step,
                  mac: string, cid: string, ip: Addr)
    requires ValidEnv(e) && Grants(e, st, first, mac, cid, ip)
    requires ComesBack(e, st, first, between, second, mac, cid, ip)
    requires Steady(e, Next(e, st, first).table, Next(e, st, first).clock, mac, cid, ip)
    ensures Gets(ReplyTo(e, Run(e, Next(e, st, first), between), second), second.msg, ip)
  {
    var st1, until := Next(e, st, first), first.sched.start + e.leaseTime;
    var st2 := Run(e, st1, between);
    GrantBooks(e, st, first, mac, cid, ip);
    ClockMoves(e, st2, second);
    HoldRun(e, st1, between, ClientKey(mac, cid), ip, until);
    FitsAgain(e, mac, cid, first.picks.best, second.picks.best, ip);
    if ReservedBy(e, second.picks.best).None? {
      NotReserved(e, mac, cid, second.picks.best);
      SettledAt(e, st1.table, st1.clock, mac, cid, ip, first.picks.best);
      SettledRun(e, st1, between, mac, cid);
      assert Active(st2.table, ip, st2.clock);
    }
    SelectsHeld(e, st2, Selecting(second.msg).value, second.sched, second.picks, ip);
  }

  lemma NotReserved(e: Env, mac: string, cid: string, best: Option<StaticBinding>)
    requires ValidEnv(e) && BestMatch(e.statics, mac, cid, best) && ReservedBy(e, best).None?
    ensures !Reserved(e, mac, cid)
  {
  }

  lemma FitsAgain(e: Env, mac: string, cid: string, b: Option<StaticBinding>, c: Option<StaticBinding>, ip: Addr)
    requires ValidEnv(e) && Unambiguous(e, mac, cid) && Fits(e, b, ip)
    requires BestMatch(e.statics, mac, cid, b) && BestMatch(e.statics, mac, cid, c)
    ensures Fits(e, c, ip)
  {
  }

  /** A granted address fits its client's best match and is held until the lease time is over. */
  lemma GrantBooks(e: Env, st: State, first: Step, mac: string, cid: string, ip: Addr)
    requires ValidEnv(e) && Grants(e, st, first, mac, cid, ip)
    ensures Holds(Next(e, st, first).table, ClientKey(mac, cid), ip, first.sched.start + e.leaseTime)
    ensures Fits(e, first.picks.best, ip) && BestMatch(e.statics, mac, cid, first.picks.best)
    ensures first.sched.start <= Next(e, st, first).clock
  {
    var req := Selecting(first.msg).value;
    HandledBySelect(e, st, first);
    SelectSound(e, st.table, req, first.sched, first.picks);
    BookedHolds(e, st.table, req, first.sched, first.picks, Select(e, st.table, req, first.sched, first.picks), ip);
  }

  lemma BookedHolds(e: Env, t: Table, req: Req, s: Schedule, p: Picks, o: Outcome, ip: Addr)
    requires ValidEnv(e) && OutcomeOk(e, t, req, s, p, o) && Address(o) == Some(ip)
    ensures Holds(Booked(o), ClientKey(req.mac, req.cid), ip, s.start + e.leaseTime)
    ensures Fits(e, p.best, ip)
  {
  }

  // ---- reservations, quarantine, gateway ----

  /** A granted address is the one selected for the sender. */
  lemma GrantedIsSelected(e: Env, st: State, step: Step)
    requires ValidEnv(e) && Granted(ReplyTo(e, st, step)).Some?
    ensures step.Message? && Selecting(step.msg).Some?
    ensures Granted(ReplyTo(e, st, step)) ==
            Address(Select(e, st.table, Selecting(step.msg).value, step.sched, step.picks))
  {
  }

  /** In every state a reserved address is granted only to a client whose best match
      reserves it. */
  lemma ReservationsHold(e: Env, st: State, step: Step, ip: Addr)
    requires ValidEnv(e) && Possible(e, st, step)
    requires Granted(ReplyTo(e, st, step)) == Some(ip) && ip in StaticIPs(e)
    ensures ReservedBy(e, step.picks.best) == Some(ip)
    ensures Matches(step.picks.best.value, Selecting(step.msg).value.mac, Selecting(step.msg).value.cid)
  {
    GrantedIsSelected(e, st, step);
    SelectSound(e, st.table, Selecting(step.msg).value, step.sched, step.picks);
  }

  /** Nobody is granted an address that somebody else holds. */
  lemma GrantsOnlyFree(e: Env, st: State, step: Step, key: string, ip: Addr, until: Time)
    requires ValidEnv(e) && Possible(e, st, step)
    requires Holds(st.table, key, ip, until) && Next(e, st, step).clock <= until
    requires !Gives(step, ip, key) && (step.Message? ==> SenderKey(step.msg) != Some(key))
    ensures Granted(ReplyTo(e, st, step)) != Some(ip)
  {
    if Granted(ReplyTo(e, st, step)).Some? {
      GrantedIsSelected(e, st, step);
      SelectSound(e, st.table, Selecting(step.msg).value, step.sched, step.picks);
    }
  }

  /** A declined address goes to no client until its placeholder expires or the address is
      released or declined again. */
  lemma Quarantine(e: Env, st: State, decline: Step, between: seq<Step>, step: Step, ip: Addr)
    requires ValidEnv(e) && Possible(e, st, decline)
    requires decline.Message? && decline.msg == Decline(Some(ip))
    requires Feasible(e, Next(e, st, decline), between)
    requires !GivesAny(between, ip, ClientKey(DECLINED, "")) && !Gives(step, ip, ClientKey(DECLINED, ""))
    requires Possible(e, Run(e, Next(e, st, decline), between), step)
    requires Next(e, Run(e, Next(e, st, decline), between), step).clock <= decline.sched.start + e.leaseTime
    ensures Granted(ReplyTo(e, Run(e, Next(e, st, decline), between), step)) != Some(ip)
  {
    var key, until := ClientKey(DECLINED, ""), decline.sched.start + e.leaseTime;
    var st1 := Next(e, st, decline);
    ClockMoves(e, st, decline);
    ClockMoves(e, Run(e, st1, between), step);
    HoldRun(e, st1, between, key, ip, until);
    if step.Message? && Selecting(step.msg).Some? {
      PlaceholderIsNoClient(Selecting(step.msg).value.mac, Selecting(step.msg).value.cid);
    }
    if step.Message? && step.msg.Release6? {
      PlaceholderIsNoClient(step.msg.mac, step.msg.cid);
    }
    GrantsOnlyFree(e, Run(e, st1, between), step, key, ip, until);
  }

  /** No client has a lease at the gateway address. */
  predicate GatewayFree(e: Env, t: Table) {
    e.prefix.addr in t ==> Key(t[e.prefix.addr]) == ClientKey(DECLINED, "")
  }

  lemma GatewayStep(e: Env, st: State, step: Step)
    requires ValidEnv(e) && Possible(e, st, step)
    requires GatewayFree(e, st.table) && e.prefix.addr !in StaticIPs(e)
    ensures Granted(ReplyTo(e, st, step)) != Some(e.prefix.addr)
    ensures GatewayFree(e, Next(e, st, step).table)
  {
    if step.Message? && Selecting(step.msg).Some? {
      GatewaySelect(e, st, step);
    } else {
      OthersOnlyShrink(e, st, step);
    }
  }

  lemma GatewaySelect(e: Env, st: State, step: Step)
    requires ValidEnv(e) && Possible(e, st, step) && step.Message? && Selecting(step.msg).Some?
    requires GatewayFree(e, st.table) && e.prefix.addr !in StaticIPs(e)
    ensures Granted(ReplyTo(e, st, step)) != Some(e.prefix.addr)
    ensures GatewayFree(e, Next(e, st, step).table)
  {
    var req := Selecting(step.msg).value;
    var o := Select(e, st.table, req, step.sched, step.picks);
    PlaceholderIsNoClient(req.mac, req.cid);
    SelectSound(e, st.table, req, step.sched, step.picks);
    GatewayNotBooked(e, st.table, req, step.sched, step.picks, o);
    HandledBySelect(e, st, step);
  }

  /** A message that leads to a selection leaves the booked table and is answered with the
      selected address, a REQUEST only if it asked for that one. */
  lemma HandledBySelect(e: Env, st: State, step: Step)
    requires ValidEnv(e) && step.Message? && Selecting(step.msg).Some?
    ensures var o := Select(e, st.table, Selecting(step.msg).value, step.sched, step.picks);
      && Next(e, st, step) == State(Booked(o), EndOf(step.sched))
      && ReplyTo(e, st, step) == match step.msg
           case Discover(_) => if o.booked.Some? then Offer(o.booked.value.ip) else Silent
           case Address6(_) => if o.booked.Some? then Assign(o.booked.value.ip) else Silent
           case _ => if Address(o) == Wanted(step.msg.req) then Ack(Wanted(step.msg.req).value) else Nak
  {
  }

  lemma GatewayNotBooked(e: Env, t: Table, req: Req, s: Schedule, p: Picks, o: Outcome)
    requires ValidEnv(e) && ValidPicks(e, t, req, s, p) && OutcomeOk(e, t, req, s, p, o)
    requires GatewayFree(e, t) && e.prefix.addr !in StaticIPs(e)
    requires ClientKey(req.mac, req.cid) != ClientKey(DECLINED, "")
    ensures Address(o) != Some(e.prefix.addr)
    ensures GatewayFree(e, Booked(o))
  {
  }

  /** If no static maps to the gateway and no client lease starts there, no run grants it. */
  lemma {:induction false} GatewayNeverGranted(e: Env, st: State, steps: seq<Step>, step: Step)
    requires ValidEnv(e) && Feasible(e, st, steps) && Possible(e, Run(e, st, steps), step)
    requires GatewayFree(e, st.table) && e.prefix.addr !in StaticIPs(e)
    ensures Granted(ReplyTo(e, Run(e, st, steps), step)) != Some(e.prefix.addr)
    decreases |steps|
  {
    if steps == [] {
      GatewayStep(e, st, step);
    } else {
      GatewayStep(e, st, steps[0]);
      GatewayNeverGranted(e, Next(e, st, steps[0]), steps[1..], step);
    }
  }

  // ---- completeness of allocation ----

  lemma {:induction false} IntervalSize(lo: Addr, hi: Addr, s: set<Addr>)
    requires lo <= hi + 1 && forall a | lo <= a <= hi :: a in s
    ensures hi + 1 - lo <= |s|
    decreases hi + 1 - lo
  {
    if lo <= hi {
      IntervalSize(lo + 1, hi, s - {lo});
    }
  }

  lemma UnionSize(a: set<Addr>, b: set<Addr>)
    ensures |a + b| <= |a| + |b|
  {
    assert a + b == a + (b - a);
    SubsetSize(b - a, b);
  }

  lemma SubsetSize(a: set<Addr>, b: set<Addr>)
    requires a <= b
    ensures |a| <= |b|
  {
    assert b == a + (b - a);
  }

  /** A client without a reservation is served whenever the pool has more addresses than
      there are unexpired leases, reservations and the gateway together. */
  lemma PoolServes(e: Env, st: State, req: Req, s: Schedule, p: Picks)
    requires ValidEnv(e) && Monotone(s) && st.clock <= s.start
    requires ValidPicks(e, st.table, req, s, p) && ReservedBy(e, p.best).None?
    requires e.poolEnd < HostSize(e.prefix)
    requires e.poolEnd - e.poolStart + 1 >
             |ActiveAddrs(st.table, EndOf(s))| + |StaticIPs(e)| + 1
    ensures Select(e, st.table, req, s, p).booked.Some?
  {
    if Select(e, st.table, req, s, p).booked.None? {
      NoneMeansFull(e, st.table, req, s, p);
      Pigeonhole(Base(e.prefix) + e.poolStart, Base(e.prefix) + e.poolEnd,
                 ActiveAddrs(st.table, EndOf(s)), e.prefix.addr, StaticIPs(e));
    }
  }

  /** A selection without a reservation fails only when every pool address is skipped or
      actively leased. */
  lemma NoneMeansFull(e: Env, t: Table, req: Req, s: Schedule, p: Picks)
    requires ValidEnv(e) && Monotone(s) && ReservedBy(e, p.best).None?
    requires e.poolEnd < HostSize(e.prefix)
    requires Select(e, t, req, s, p).booked.None?
    ensures forall a | Base(e.prefix) + e.poolStart <= a <= Base(e.prefix) + e.poolEnd ::
              a in Skipped(e) || a in ActiveAddrs(t, EndOf(s))
  {
    var lo, hi := Base(e.prefix) + e.poolStart, Base(e.prefix) + e.poolEnd;
    PoolReached(e, t, req, s, p);
    PoolPicks(e, Found(t, s.first), req, s, lo, hi);
    StillFull(e, t, req, s, lo, hi, SelectFromPool(e, Found(t, s.first), req, s, lo, hi));
  }

  lemma PoolReached(e: Env, t: Table, req: Req, s: Schedule, p: Picks)
    requires ValidEnv(e) && ReservedBy(e, p.best).None? && e.poolEnd < HostSize(e.prefix)
    requires Select(e, t, req, s, p).booked.None?
    ensures Select(e, t, req, s, p) ==
            SelectFromPool(e, Found(t, s.first), req, s, Base(e.prefix) + e.poolStart, Base(e.prefix) + e.poolEnd)
  {
    PoolEnds(e);
  }

  lemma PoolEnds(e: Env)
    requires ValidEnv(e) && e.poolEnd < HostSize(e.prefix)
    ensures AddrAtOffset(e.prefix, e.poolStart) == Some(Base(e.prefix) + e.poolStart)
    ensures AddrAtOffset(e.prefix, e.poolEnd) == Some(Base(e.prefix) + e.poolEnd)
  {
    OffsetExact(e.prefix, e.poolStart);
    OffsetExact(e.prefix, e.poolEnd);
  }

  lemma StillFull(e: Env, t: Table, req: Req, s: Schedule, lo: Addr, hi: Addr, o: Outcome)
    requires ValidEnv(e) && PoolPick(e, req, s, lo, hi, o) && o.booked.None?
    requires o.mid == Found(Found(Found(t, s.first), s.second), s.third)
    ensures forall a | lo <= a <= hi :: a in Skipped(e) || a in ActiveAddrs(t, EndOf(s))
  {
  }

  lemma Pigeonhole(lo: Addr, hi: Addr, busy: set<Addr>, gw: Addr, reserved: set<Addr>)
    requires lo <= hi && forall a | lo <= a <= hi :: a in {gw} + reserved || a in busy
    ensures hi - lo + 1 <= |busy| + |reserved| + 1
  {
    IntervalSize(lo, hi, {gw} + reserved + busy);
    UnionSize({gw} + reserved, busy);
    UnionSize({gw}, reserved);
  }

  // ---- what the pool gives ----

  lemma PoolSelects(e: Env, t: Table, req: Req, s: Schedule, p: Picks)
    requires ValidEnv(e) && e.poolEnd < HostSize(e.prefix)
    requires ReservedBy(e, p.best).None? && !(p.cur.Some? && Reusable(e, p.cur.value.ip))
    ensures Select(e, t, req, s, p) ==
            SelectFromPool(e, Found(t, s.first), req, s, Base(e.prefix) + e.poolStart, Base(e.prefix) + e.poolEnd)
  {
    PoolEnds(e);
  }

  /** A client with neither a reservation nor a lease to keep gets the pool address it asks
      for, if that is not the gateway, not reserved and not held by another client. */
  lemma RequestedHonoured(e: Env, t: Table, req: Req, s: Schedule, p: Picks, ip: Addr)
    requires ValidEnv(e) && Monotone(s) && e.poolEnd < HostSize(e.prefix)
    requires ReservedBy(e, p.best).None? && !(p.cur.Some? && Reusable(e, p.cur.value.ip))
    requires req.requested == Some(ip) && ip != e.prefix.addr && ip !in StaticIPs(e)
    requires Base(e.prefix) + e.poolStart <= ip <= Base(e.prefix) + e.poolEnd
    requires !HeldByOther(t, ip, ClientKey(req.mac, req.cid), s.start)
    ensures Address(Select(e, t, req, s, p)) == Some(ip)
  {
    var lo, hi, t1 := Base(e.prefix) + e.poolStart, Base(e.prefix) + e.poolEnd, Found(t, s.first);
    PoolSelects(e, t, req, s, p);
    FoundShrinks(t, s.first);
    FoundShrinks(t1, s.second);
    assert Address(SelectFromPool(e, t1, req, s, lo, hi)) == Some(ip);
  }

  /** Without a request it gets the least pool address: every lower one is the gateway, reserved
      or actively leased. */
  lemma LeastFreeGiven(e: Env, t: Table, req: Req, s: Schedule, p: Picks, ip: Addr, a: Addr)
    requires ValidEnv(e) && Monotone(s) && e.poolEnd < HostSize(e.prefix)
    requires ReservedBy(e, p.best).None? && !(p.cur.Some? && Reusable(e, p.cur.value.ip))
    requires req.requested.None? && Address(Select(e, t, req, s, p)) == Some(ip)
    requires Base(e.prefix) + e.poolStart <= a < ip
    ensures a == e.prefix.addr || a in StaticIPs(e) || Active(t, a, EndOf(s))
  {
    PoolSelects(e, t, req, s, p);
    LeastInPool(e, Found(t, s.first), req, s, Base(e.prefix) + e.poolStart, Base(e.prefix) + e.poolEnd, ip, a);
    FoundShrinks(t, s.first);
  }

  lemma LeastInPool(e: Env, t: Table, req: Req, s: Schedule, lo: Addr, hi: Addr, ip: Addr, a: Addr)
    requires ValidEnv(e) && req.requested.None?
    requires Address(SelectFromPool(e, t, req, s, lo, hi)) == Some(ip)
    requires lo <= a < ip
    ensures a in Skipped(e) || Active(t, a, EndOf(s))
  {
    var t2 := Found(t, s.second);
    var t3 := Found(t2, s.third);
    FirstFreeIsLeast(t3, s.third.hi, lo, hi, Skipped(e));
    FoundShrinks(t, s.second);
    FoundShrinks(t2, s.third);
  }
}
