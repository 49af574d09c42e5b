/** Expired leases are invisible: tables that agree on unexpired leases answer every run alike,
    so neither a sweep nor a restart through snapshot and load changes an address decision. */
module LeaseRestart {
  import opened Arith
  import opened Addressing
  import opened Statics
  import opened Leases
  import opened Selection

  /** t and u have the same unexpired leases. */
  predicate SameActive(t: Table, u: Table, now: Time) {
    && (forall ip | ip in t && now <= t[ip].expiry :: ip in u && u[ip] == t[ip])
    && (forall ip | ip in u && now <= u[ip].expiry :: ip in t && t[ip] == u[ip])
  }

  lemma FoundAgrees(t: Table, u: Table, r: Region, since: Time)
    requires SameActive(t, u, since) && After(r, since)
    ensures SameActive(Found(t, r), Found(u, r), r.lo) && SameActive(Found(t, r), Found(u, r), r.hi)
  {
  }

  lemma {:induction false} FirstFreeAgrees(t: Table, u: Table, now: Time, lo: Addr, hi: Addr, skip: set<Addr>)
    requires SameActive(t, u, now)
    ensures FirstFree(t, now, lo, hi, skip) == FirstFree(u, now, lo, hi, skip)
    decreases hi + 1 - lo
  {
    if lo <= hi { FirstFreeAgrees(t, u, now, lo + 1, hi, skip); }
  }

  /** byClient has the same possible answers on both tables. */
  lemma ByClientAgrees(t: Table, u: Table, key: string, lo: Time, hi: Time, r: Option<Lease>)
    requires SameActive(t, u, lo) && lo <= hi && ByClientAnswer(t, key, lo, hi, r)
    ensures ByClientAnswer(u, key, lo, hi, r)
  {
  }

  predicate Alike(o: Outcome, q: Outcome, now: Time) {
    o.booked == q.booked && SameActive(o.mid, q.mid, now)
  }

  lemma PoolAgrees(e: Env, t: Table, u: Table, req: Req, s: Schedule, lo: Addr, hi: Addr)
    requires ValidEnv(e) && Monotone(s) && SameActive(t, u, s.first.hi)
    ensures Alike(SelectFromPool(e, t, req, s, lo, hi), SelectFromPool(e, u, req, s, lo, hi), EndOf(s))
  {
    var t2, u2 := Found(t, s.second), Found(u, s.second);
    FoundAgrees(t, u, s.second, s.first.hi);
    FoundAgrees(t2, u2, s.third, s.second.hi);
    FirstFreeAgrees(Found(t2, s.third), Found(u2, s.third), s.third.hi, lo, hi, Skipped(e));
  }

  lemma DynamicAgrees(e: Env, t: Table, u: Table, req: Req, s: Schedule, cur: Option<Lease>)
    requires ValidEnv(e) && Monotone(s) && SameActive(t, u, s.first.hi)
    ensures Alike(SelectDynamic(e, t, req, s, cur), SelectDynamic(e, u, req, s, cur), EndOf(s))
  {
    if cur.Some? && Reusable(e, cur.value.ip) {
      FoundAgrees(t, u, s.second, s.first.hi);
      Later(Found(t, s.second), Found(u, s.second), s.second.hi, EndOf(s));
    } else {
      NewAgrees(e, t, u, req, s, cur);
    }
  }

  lemma NewAgrees(e: Env, t: Table, u: Table, req: Req, s: Schedule, cur: Option<Lease>)
    requires ValidEnv(e) && Monotone(s) && SameActive(t, u, s.first.hi)
    requires !(cur.Some? && Reusable(e, cur.value.ip))
    ensures Alike(SelectDynamic(e, t, req, s, cur), SelectDynamic(e, u, req, s, cur), EndOf(s))
  {
    var lo, hi := AddrAtOffset(e.prefix, e.poolStart), AddrAtOffset(e.prefix, e.poolEnd);
    if lo.Some? && hi.Some? {
      PoolAgrees(e, t, u, req, s, lo.value, hi.value);
    } else {
      Later(t, u, s.first.hi, EndOf(s));
    }
  }

  lemma Later(t: Table, u: Table, at: Time, now: Time)
    requires SameActive(t, u, at) && at <= now
    ensures SameActive(t, u, now)
  {
  }

  lemma ReservedAgrees(e: Env, t: Table, u: Table, req: Req, s: Schedule, ip: Addr)
    requires ValidEnv(e) && Monotone(s) && SameActive(t, u, s.first.hi)
    ensures Alike(SelectReserved(e, t, req, s, ip), SelectReserved(e, u, req, s, ip), EndOf(s))
  {
    FoundAgrees(t, u, s.second, s.first.hi);
  }

  lemma SelectAgrees(e: Env, t: Table, u: Table, req: Req, s: Schedule, p: Picks)
    requires ValidEnv(e) && Monotone(s) && SameActive(t, u, s.start)
    requires ValidPicks(e, t, req, s, p)
    ensures ValidPicks(e, u, req, s, p)
    ensures Alike(Select(e, t, req, s, p), Select(e, u, req, s, p), EndOf(s))
  {
    var t1, u1 := Found(t, s.first), Found(u, s.first);
    var reserved := ReservedBy(e, p.best);
    FoundAgrees(t, u, s.first, s.start);
    if reserved.None? {
      ByClientAgrees(t1, u1, ClientKey(req.mac, req.cid), s.first.lo, s.first.hi, p.cur);
      DynamicAgrees(e, t1, u1, req, s, p.cur);
    } else {
      ReservedAgrees(e, t1, u1, req, s, reserved.value);
    }
  }

  /** One message: possible on one table iff on the other, same reply, still alike afterwards. */
  lemma HandleAgrees(e: Env, t: Table, u: Table, msg: Msg, s: Schedule, p: Picks)
    requires ValidEnv(e) && Monotone(s) && SameActive(t, u, s.start) && PicksPossible(e, t, msg, s, p)
    ensures PicksPossible(e, u, msg, s, p)
    ensures Handle(e, t, msg, s, p).1 == Handle(e, u, msg, s, p).1
    ensures SameActive(Handle(e, t, msg, s, p).0, Handle(e, u, msg, s, p).0, EndOf(s))
  {
    if Selecting(msg).Some? {
      var req := Selecting(msg).value;
      SelectAgrees(e, t, u, req, s, p);
      BookedAgree(Select(e, t, req, s, p), Select(e, u, req, s, p), EndOf(s));
    } else {
      OthersAgree(e, t, u, msg, s, p);
    }
  }

  lemma OthersAgree(e: Env, t: Table, u: Table, msg: Msg, s: Schedule, p: Picks)
    requires ValidEnv(e) && Monotone(s) && SameActive(t, u, s.start) && PicksPossible(e, t, msg, s, p)
    requires Selecting(msg).None?
    ensures PicksPossible(e, u, msg, s, p)
    ensures Handle(e, t, msg, s, p).1 == Handle(e, u, msg, s, p).1
    ensures SameActive(Handle(e, t, msg, s, p).0, Handle(e, u, msg, s, p).0, EndOf(s))
  {
    var t1, u1 := Found(t, s.first), Found(u, s.first);
    FoundAgrees(t, u, s.first, s.start);
    match msg
    case Release6(mac, cid) =>
      ByClientAgrees(t1, u1, ClientKey(mac, cid), s.first.lo, s.first.hi, p.cur);
      FoundAgrees(t1, u1, s.second, s.first.hi);
      if p.cur.Some? {
        WithoutAgrees(Found(t1, s.second), Found(u1, s.second), p.cur.value.ip, s.second.hi, EndOf(s));
      } else {
        Later(t1, u1, s.first.hi, EndOf(s));
      }
    case Release(ip) => WithoutAgrees(t1, u1, ip, s.first.hi, EndOf(s));
    case Decline(requested) =>
      if requested.Some? {
        WithAgrees(t1, u1, Placeholder(e, requested.value, s.start), s.first.hi, EndOf(s));
      } else {
        Later(t, u, s.start, EndOf(s));
      }
    case _ => Later(t, u, s.start, EndOf(s));
  }

  lemma WithoutAgrees(t: Table, u: Table, ip: Addr, at: Time, now: Time)
    requires SameActive(t, u, at) && at <= now
    ensures SameActive(t - {ip}, u - {ip}, now)
  {
  }

  lemma WithAgrees(t: Table, u: Table, l: Lease, at: Time, now: Time)
    requires SameActive(t, u, at) && at <= now
    ensures SameActive(t[l.ip := l], u[l.ip := l], now)
  {
  }

  lemma StepAgrees(e: Env, t: Table, u: Table, clock: Time, step: Step)
    requires ValidEnv(e) && SameActive(t, u, clock) && Possible(e, State(t, clock), step)
    ensures Possible(e, State(u, clock), step)
    ensures ReplyTo(e, State(t, clock), step) == ReplyTo(e, State(u, clock), step)
    ensures Next(e, State(t, clock), step).clock == Next(e, State(u, clock), step).clock
    ensures SameActive(Next(e, State(t, clock), step).table, Next(e, State(u, clock), step).table,
                       Next(e, State(t, clock), step).clock)
  {
    if step.Message? {
      Later(t, u, clock, step.sched.start);
      HandleAgrees(e, t, u, step.msg, step.sched, step.picks);
    }
  }

  lemma BookedAgree(o: Outcome, q: Outcome, now: Time)
    requires Alike(o, q, now)
    ensures SameActive(Booked(o), Booked(q), now) && Address(o) == Address(q)
  {
  }

  /** The replies a run sends. */
  function Replies(e: Env, st: State, steps: seq<Step>): (r: seq<Reply>)
    requires ValidEnv(e)
    decreases |steps|
  {
    if steps == [] then [] else [ReplyTo(e, st, steps[0])] + Replies(e, Next(e, st, steps[0]), steps[1..])
  }

  /** Whole runs: the same runs are possible, with the same replies, and the unexpired leases
      agree to the end. */
  lemma {:induction false} RunAgrees(e: Env, t: Table, u: Table, clock: Time, steps: seq<Step>)
    requires ValidEnv(e) && SameActive(t, u, clock) && Feasible(e, State(t, clock), steps)
    ensures Feasible(e, State(u, clock), steps)
    ensures Replies(e, State(t, clock), steps) == Replies(e, State(u, clock), steps)
    ensures Run(e, State(t, clock), steps).clock == Run(e, State(u, clock), steps).clock
    ensures SameActive(Run(e, State(t, clock), steps).table, Run(e, State(u, clock), steps).table,
                       Run(e, State(t, clock), steps).clock)
    decreases |steps|
  {
    if steps != [] {
      var st, su := Next(e, State(t, clock), steps[0]), Next(e, State(u, clock), steps[0]);
      StepAgrees(e, t, u, clock, steps[0]);
      RunAgrees(e, st.table, su.table, st.clock, steps[1..]);
    }
  }

  /** A sweep at any earlier moment changes no later answer. */
  lemma SweepInvisible(e: Env, t: Table, at: Time, clock: Time, steps: seq<Step>)
    requires ValidEnv(e) && at <= clock
    ensures Feasible(e, State(t, clock), steps) <==> Feasible(e, State(Sweep(t, at), clock), steps)
    ensures Feasible(e, State(t, clock), steps) ==>
              Replies(e, State(t, clock), steps) == Replies(e, State(Sweep(t, at), clock), steps)
  {
    assert SameActive(t, Sweep(t, at), clock) && SameActive(Sweep(t, at), t, clock);
    if Feasible(e, State(t, clock), steps) { RunAgrees(e, t, Sweep(t, at), clock, steps); }
    if Feasible(e, State(Sweep(t, at), clock), steps) { RunAgrees(e, Sweep(t, at), t, clock, steps); }
  }

  lemma {:induction false} LoadedAt(ls: seq<Lease>, ip: Addr)
    requires SortedByIP(ls)
    ensures ip in Loaded(ls) <==> exists l :: l in ls && l.ip == ip
    ensures ip in Loaded(ls) ==> Loaded(ls)[ip] in ls && Loaded(ls)[ip].ip == ip
  {
    if ls != [] {
      var n := |ls| - 1;
      LoadedAt(ls[..n], ip);
      assert ls == ls[..n] + [ls[n]];
    }
  }

  /** Loading a snapshot restores exactly the unexpired leases. */
  lemma LoadSnapshot(t: Table, now: Time, ls: seq<Lease>)
    requires Keyed(t) && SortedByIP(ls) && Elems(ls) == ActiveLeases(t, now)
    ensures Loaded(ls) == Sweep(t, now)
  {
    forall ip
      ensures ip in Loaded(ls) <==> ip in Sweep(t, now)
      ensures ip in Loaded(ls) ==> Loaded(ls)[ip] == t[ip]
    {
      LoadedAt(ls, ip);
      if ip in Loaded(ls) {
        assert Loaded(ls)[ip] in Elems(ls);
      }
      if ip in Sweep(t, now) {
        assert t[ip] in ActiveLeases(t, now);
        assert t[ip] in Elems(ls);
      }
    }
  }

  /** Snapshots agree: tables with the same unexpired leases are saved as the same list. */
  lemma SnapshotAgrees(t: Table, u: Table, at: Time, now: Time, ls: seq<Lease>, ms: seq<Lease>)
    requires SameActive(t, u, at) && at <= now
    requires SortedByIP(ls) && Elems(ls) == ActiveLeases(t, now)
    requires SortedByIP(ms) && Elems(ms) == ActiveLeases(u, now)
    ensures ls == ms
  {
    assert ActiveLeases(t, now) == ActiveLeases(u, now);
    forall l ensures l in ls <==> l in ms {
      assert l in ls <==> l in Elems(ls);
      assert l in ms <==> l in Elems(ms);
    }
    SortedOnce(ls, ms);
  }

  /** An address-ordered list is determined by its elements. */
  lemma {:induction false} SortedOnce(ls: seq<Lease>, ms: seq<Lease>)
    requires SortedByIP(ls) && SortedByIP(ms) && forall l :: l in ls <==> l in ms
    ensures ls == ms
  {
    if ls != [] { assert ls[0] in ms; }
    if ms != [] { assert ms[0] in ls; }
    if ls != [] {
      SameTail(ls, ms);
      SortedOnce(ls[1..], ms[1..]);
      assert ls == [ls[0]] + ls[1..] && ms == [ms[0]] + ms[1..];
    }
  }

  lemma FirstIsLeast(ls: seq<Lease>)
    requires SortedByIP(ls) && ls != []
    ensures forall l | l in ls && l != ls[0] :: ls[0].ip < l.ip
    ensures forall l :: l in ls[1..] <==> l in ls && l != ls[0]
  {
    assert ls == [ls[0]] + ls[1..];
  }

  lemma SameTail(ls: seq<Lease>, ms: seq<Lease>)
    requires SortedByIP(ls) && SortedByIP(ms) && ls != [] && ms != [] && forall l :: l in ls <==> l in ms
    ensures ls[0] == ms[0] && forall l :: l in ls[1..] <==> l in ms[1..]
  {
    FirstIsLeast(ls);
    FirstIsLeast(ms);
    assert ls[0] in ms && ms[0] in ls;
  }

  /** A restart through snapshot and load changes no later answer. */
  lemma RestartInvisible(e: Env, t: Table, at: Time, ls: seq<Lease>, clock: Time, steps: seq<Step>)
    requires ValidEnv(e) && at <= clock
    requires Keyed(t) && SortedByIP(ls) && Elems(ls) == ActiveLeases(t, at)
    ensures Feasible(e, State(t, clock), steps) <==> Feasible(e, State(Loaded(ls), clock), steps)
    ensures Feasible(e, State(t, clock), steps) ==>
              Replies(e, State(t, clock), steps) == Replies(e, State(Loaded(ls), clock), steps)
  {
    LoadSnapshot(t, at, ls);
    SweepInvisible(e, t, at, clock, steps);
  }
}
