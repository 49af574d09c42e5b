/** The prefix-delegation client (internal/pd/client.go) together with the interface it reports
    to (internal/server/iface.go) and that interface's policy routing.  The network, the clock,
    the uplink, wake-ups, stop and release requests are arbitrary, and what they do is recorded
    by methods of their own; loops run for any number of passes given as `budget`.  Every method
    keeps the trace acceptable to the monitor of PdTrace, the monitor's knowledge equal to the
    client's fields, and the interface in step with the delegation, so the theorems about
    accepted traces hold of every run. */
module PdClient {
  import opened Arith
  import opened Addressing
  import opened PdEvents
  import opened PdTrace
  import PolicyRoutes

  /** The part of a served interface that follows the delegation. */
  class PdIface {
    const suffix: Addr
    const plen: nat
    const routing: bool                 // routed-prefix mode
    const routes: PolicyRoutes.Routes   // used in that mode
    var pdAddr: Option<Prefix>          // what envV6 reports
    var addrs: set<Prefix>              // addresses put on the interface

    /** The interface and its routes are started before the client is. */
    constructor (suffix: Addr, plen: nat, routing: bool, routes: PolicyRoutes.Routes)
      requires suffix < Pow2(128) && 1 <= plen <= 128
      requires routes.Valid() && !routes.started && !routes.stopped && routes.prefix.None?
      modifies routes, routes.k, routes.sys
      ensures Configured() && Serves(None) && this.routes == routes
    {
      this.suffix, this.plen := suffix, plen;
      this.routing, this.routes := routing, routes;
      pdAddr, addrs := None, {};
      new;
      if routing { routes.EnsureStarted(); }
    }

    predicate Configured() {
      suffix < Pow2(128) && 1 <= plen <= 128
    }

    ghost function Composed(d: Prefix): (r: Prefix)
      requires d.bits <= d.width
    {
      Compose(d, suffix, plen)
    }

    /** The prefix that is routed for a delegation. */
    ghost function Routed(d: Option<Prefix>): (r: Option<Prefix>)
      requires plen <= 128
      requires d.Some? ==> d.value.bits <= d.value.width
    {
      if d.Some? then Some(Masked(Composed(d.value))) else None
    }

    /** Everything derived from the delegation is there for d, and nothing else is. */
    ghost predicate Serves(d: Option<Prefix>)
      requires plen <= 128
      requires d.Some? ==> d.value.bits <= d.value.width
      reads this, routes, routes.k
    {
      && pdAddr == (if d.Some? then Some(Composed(d.value)) else None)
      && addrs == (if d.Some? then {Composed(d.value)} else {})
      && (routing ==> routes.Plumbed(Routed(d)))
    }

    /** A gain puts everything in place, a loss takes it away. */
    method OnPDChange(delegated: Prefix, ok: bool)
      requires Configured() && ValidPrefix(delegated) && delegated.width == 128
      requires routing ==> routes.Valid()
      modifies this, routes, routes.k, routes.sys
      ensures pdAddr == if ok then Some(Composed(delegated)) else None
      ensures addrs == if ok then old(addrs) + {Composed(delegated)}
                       else if old(pdAddr).Some? then old(addrs) - {old(pdAddr).value} else old(addrs)
      ensures ok && old(Serves(None)) ==> Serves(Some(delegated))
      ensures !ok && (old(Serves(Some(delegated))) || old(Serves(None))) ==> Serves(None)
    {
      if ok { Gain(delegated); } else { Lose(); }
    }

    /** The callback, as the client makes it: a gain when nothing is served, a loss of what is. */
    method Follow(delegated: Prefix, ok: bool)
      requires Configured() && GoodPrefix(delegated)
      requires Serves(None) || (!ok && Serves(Some(delegated)))
      modifies this, routes, routes.k, routes.sys
      ensures Serves(if ok then Some(delegated) else None)
    {
      OnPDChange(delegated, ok);
    }

    method Gain(delegated: Prefix)
      requires Configured() && ValidPrefix(delegated) && delegated.width == 128
      requires routing ==> routes.Valid()
      modifies this, routes, routes.k, routes.sys
      ensures pdAddr == Some(Composed(delegated)) && addrs == old(addrs) + {Composed(delegated)}
      ensures routing && old(routes.Plumbed(None)) ==> routes.Plumbed(Some(Masked(Composed(delegated))))
    {
      var addr := ComposePD(delegated, suffix, plen);
      pdAddr := Some(addr);
      addrs := addrs + {addr};
      Steer(addr);
    }

    method Lose()
      requires routing ==> routes.Valid()
      modifies this, routes, routes.k
      ensures pdAddr == None
      ensures addrs == if old(pdAddr).Some? then old(addrs) - {old(pdAddr).value} else old(addrs)
      ensures routing && old(routes.started && !routes.stopped) ==> routes.Plumbed(None)
    {
      var addr := pdAddr;
      pdAddr := None;
      Unsteer();
      if addr.Some? { addrs := addrs - {addr.value}; }
    }

    method Steer(addr: Prefix)
      requires (routing ==> routes.Valid()) && 0 < addr.bits <= addr.width
      modifies routes, routes.k, routes.sys
      ensures routing && old(routes.Plumbed(None)) ==> routes.Plumbed(Some(Masked(addr)))
    {
      if routing { var _ := routes.Install(Masked(addr)); }
    }

    method Unsteer()
      requires routing ==> routes.Valid()
      modifies routes, routes.k
      ensures routing && old(routes.started && !routes.stopped) ==> routes.Plumbed(None)
    {
      if routing { routes.Clear(); }
    }

    method EnvV6() returns (r: Option<Prefix>)
      ensures r == pdAddr
    {
      r := pdAddr;
    }

    method EnvV6All() returns (r: seq<Prefix>)
      ensures r == if pdAddr.Some? then [pdAddr.value] else []
    {
      var p := EnvV6();
      r := if p.Some? then [p.value] else [];
    }
  }

  /** The outcome of confirming a delegation. */
  datatype Verdict = NotReady | Kept | Withdrawn

  /** What a read from the socket may give. */
  datatype Read = Timeout | Garbage | Parsed(msg: Message)

  /** Addresses in a decoded message have 128 bits. */
  predicate Decodable(m: Message) {
    m.iapd.Some? ==> forall p | p in m.iapd.value.prefixes && p.net.Some? && p.net.value.addr.Some? ::
      p.net.value.addr.value < Pow2(128)
  }

  predicate GoodPrefix(p: Prefix) {
    ValidPrefix(p) && p.width == 128
  }

  lemma {:induction false} BestIn(ps: seq<IaPrefix>)
    ensures Best(ps).Some? ==> Best(ps).value in ps
  {
    if ps != [] { BestIn(ps[..|ps| - 1]); }
  }

  lemma DelegatesGood(m: Message)
    requires Decodable(m) && Delegates(Some(m)).Some?
    ensures GoodPrefix(Delegates(Some(m)).value.prefix) && Delegates(Some(m)).value.lifetime > 0
  {
    var best := Best(m.iapd.value.prefixes);
    BestIn(m.iapd.value.prefixes);
    ClearLowBounds(best.value.net.value.addr.value, 128 - best.value.net.value.ones);
  }

  /** The callbacks of a change, as events. */
  function Tolds(now: Time, owed: seq<(Prefix, bool)>): (r: Trace) {
    seq(|owed|, i requires 0 <= i < |owed| => At(now, Told(owed[i].0, owed[i].1)))
  }

  /** A usable reply with its sender. */
  function OfferOf(reply: Message): (o: Option<Offer>) {
    if Delegates(Some(reply)).Some? then Some(Offer(Delegates(Some(reply)).value, reply.serverID)) else None
  }

  /** A delegation in the state file; None is the invalid prefix of an empty field. */
  datatype Persisted = Persisted(prefix: Option<Prefix>, boundAt: Time, expiresAt: Time)

  function Saved(p: Persisted): (b: Binding)
    requires p.prefix.Some?
  {
    Binding(p.prefix.value, p.boundAt, p.expiresAt)
  }

  /** What composing makes of the invalid prefix: its address counts as zero. */
  const NO_PREFIX := Prefix(128, 0, 0)

  lemma BareSuffix(suffix: Addr, plen: nat)
    ensures GoodPrefix(NO_PREFIX) && Compose(NO_PREFIX, suffix, plen) == Prefix(128, suffix, plen)
  {
    ClearLowBounds(0, 128);
    BitOrZero(suffix);
  }

  /** What the interface shows to advertisements, by the callbacks it has had. */
  function Shown(w: Watch, suffix: Addr, plen: nat): (r: seq<Prefix>) {
    if w.served.Some? && !w.muted && w.served.value.bits <= w.served.value.width
    then [Compose(w.served.value, suffix, plen)] else []
  }

  /** A release request was taken just before k, a RELEASE to a known server was tried from k
      on, and then the delegation was dropped and its loss reported. */
  predicate Released(trace: Trace, k: nat, known: Option<Duid>, hint: Option<Prefix>, retry: Retry) {
    && 0 < k <= |trace| - 2 && trace[k - 1].e == TookRelease && trace[|trace| - 2].e == Dropped
    && if known.Some? then Finishes(trace, k, |trace| - 2, Sent(Release, known, hint), retry) else k == |trace| - 2
  }

  /** Since `taking`, a RELEASE to a known server was tried. */
  predicate ServerTold(taking: Trace, tried: Trace, known: Option<Duid>, hint: Option<Prefix>, retry: Retry) {
    if known.Some? then Finishes(tried, |taking|, |tried|, Sent(Release, known, hint), retry) else tried == taking
  }

  lemma ReleasedBy(taking: Trace, tried: Trace, drop: Trace, known: Option<Duid>, hint: Option<Prefix>, retry: Retry)
    requires taking != [] && taking[|taking| - 1].e == TookRelease && taking <= tried
    requires ServerTold(taking, tried, known, hint, retry) && |drop| == 2 && drop[0].e == Dropped
    ensures Released(tried + drop, |taking|, known, hint, retry)
  {
    if known.Some? { FinishesOn(tried, tried + drop, |taking|, |tried|, Sent(Release, known, hint), retry); }
  }

  /** SOLICIT was exchanged from `from` to k and, if the client got that far, REQUEST to the
      sender of the ADVERTISE from k to m. */
  predicate Acquired(trace: Trace, from: nat, k: nat, m: nat, hint: Option<Prefix>, retry: Retry, ok: bool) {
    && Finishes(trace, from, k, Sent(Solicit, None, hint), retry)
    && (ok || m > 0 ==> Sender(trace[..k]).Some? &&
                        Finishes(trace, k, m, Sent(Request, Sender(trace[..k]), hint), retry))
  }

  lemma AcquiredBy(first: Trace, asked: Trace, trace: Trace, from: nat, hint: Option<Prefix>, retry: Retry, ok: bool)
    requires first <= asked <= trace && Finishes(first, from, |first|, Sent(Solicit, None, hint), retry)
    requires Sender(first).Some? && Finishes(asked, |first|, |asked|, Sent(Request, Sender(first), hint), retry)
    ensures Acquired(trace, from, |first|, |asked|, hint, retry, ok)
  {
    assert trace[..|first|] == first;
    FinishesOn(asked, trace, |first|, |asked|, Sent(Request, Sender(first), hint), retry);
    FinishesOn(first, trace, from, |first|, Sent(Solicit, None, hint), retry);
  }

  class PdClient {
    const iface: PdIface
    const retry: Retry
    const duidOk: bool                  // the configured DUID can be encoded
    var binding: Option<Binding>
    var server: Option<Duid>
    var releaseReq: bool
    var done: bool
    var clock: Time
    var budget: nat
    ghost var fault: bool               // the system failed to give randomness or to write
    ghost var trace: Trace
    ghost var run: seq<Watch>           // the monitor's states on trace
    ghost var w: Watch                  // the last of them

    /** The monitor has accepted everything so far. */
    ghost predicate Tracked()
      reads this`trace, this`run, this`w, this`clock
    {
      Accepted(trace, run, retry) && run[|trace|] == w && w.retry == retry && w.clock <= clock
    }

    /** It knows what the client knows, and the callbacks are up to date. */
    ghost predicate Watched()
      reads this`trace, this`run, this`w, this`clock, this`binding, this`server, this`releaseReq
    {
      && Tracked() && w.owed == []
      && w.binding == binding && w.server == server && w.pending == releaseReq
      && w.served == PrefixOf(binding) && (w.muted ==> binding.Some?)
    }

    /** The interface serves exactly the delegation the client holds, unless it was restored
        without being told. */
    ghost predicate InStep()
      reads this`binding, this`w, iface, iface.routes, iface.routes.k
    {
      && iface.Configured()
      && (binding.Some? ==> GoodPrefix(binding.value.prefix))
      && iface.Serves(if w.muted then None else PrefixOf(binding))
    }

    /** No callback, adoption or exchange is under way either. */
    ghost predicate Valid()
      reads this`trace, this`run, this`w, this`clock, this`binding, this`server, this`releaseReq
      reads iface, iface.routes, iface.routes.k
    {
      Watched() && InStep() && Resting(w)
    }

    /** Stop was called, or the observed run ends here. */
    predicate Ended()
      reads this`done, this`budget
    {
      done || budget == 0
    }

    constructor (iface: PdIface, retry: Retry, duidOk: bool, now: Time, budget: nat)
      requires iface.Configured() && iface.Serves(None)
      ensures Valid() && w.phase == Top(Runs) && this.iface == iface && binding == None && trace == []
    {
      this.iface, this.retry, this.duidOk := iface, retry, duidOk;
      binding, server, releaseReq, done := None, None, false, false;
      clock, this.budget := now, budget;
      trace, run, w, fault := [], [Start(retry, now)], Start(retry, now), false;
    }

    /** The held binding was made no earlier than `since`. */
    ghost predicate Refreshed(since: Time)
      reads this`binding, this`clock
    {
      binding.Some? && since <= binding.value.boundAt <= clock
    }

    // ---- environment ----

    /** Every event carries the clock as it is. */
    ghost method Record(e: Event)
      requires Tracked() && Step(w, At(clock, e)).Some?
      modifies this`trace, this`run, this`w
      ensures Tracked() && trace == old(trace) + [At(clock, e)] && w == Step(old(w), At(clock, e)).value
    {
      var next := Step(w, At(clock, e)).value;
      AcceptedAppend(trace, run, retry, At(clock, e), next);
      trace, run, w := trace + [At(clock, e)], run + [next], next;
    }

    /** Something the client does. */
    ghost method Emit(e: Event)
      requires !Outside(e) && Tracked() && Step(w, At(clock, e)).Some?
      modifies this`trace, this`run, this`w
      ensures Tracked() && trace == old(trace) + [At(clock, e)] && w == Step(old(w), At(clock, e)).value
    {
      Record(e);
    }

    /** Something that moves only the phase and the pending request. */
    ghost method RecordMove(e: Event, phase: Phase, pending: bool)
      requires Tracked() && MovesTo(w, At(clock, e), phase, pending)
      modifies this`trace, this`run, this`w
      ensures Tracked() && trace == old(trace) + [At(clock, e)]
      ensures w == On(old(w), clock).(phase := phase, pending := pending)
    {
      Record(e);
    }

    ghost method EmitMove(e: Event, phase: Phase, pending: bool)
      requires !Outside(e) && Tracked() && MovesTo(w, At(clock, e), phase, pending)
      modifies this`trace, this`run, this`w
      ensures Tracked() && trace == old(trace) + [At(clock, e)]
      ensures w == On(old(w), clock).(phase := phase, pending := pending)
    {
      RecordMove(e, phase, pending);
    }

    method Now() returns (t: Time)
      modifies this`clock
      ensures t == clock && old(clock) <= clock
    {
      var t' :| t' >= clock;
      clock := t';
      t := clock;
    }

    method Stopped() returns (r: bool)
      modifies this`budget, this`done
      ensures budget <= old(budget) && (!r ==> budget < old(budget))
      ensures (r ==> Ended()) && (old(Ended()) ==> r)
    {
      var stop: bool := *;
      if stop { done := true; }
      r := done || budget == 0;
      if budget > 0 { budget := budget - 1; }
    }

    /** Waits for a timer, a wake-up or stop; false when stopped. */
    method Sleep() returns (ok: bool)
      modifies this`clock, this`budget, this`done
      ensures budget <= old(budget) && old(clock) <= clock && (!ok ==> Ended())
    {
      var _ := Now();
      var stopped := Stopped();
      ok := !stopped;
    }

    /** Looks at stop at the top of a loop. */
    method GoOn() returns (go: bool)
      requires Valid() && w.phase.Top?
      modifies this`budget, this`done, this`trace, this`run, this`w
      ensures Valid() && budget <= old(budget) && (go ==> budget < old(budget))
      ensures if go then w.phase == Inside(old(w).phase.loop) && !old(Ended()) else w.phase == Top(Runs) && Ended()
      ensures trace == old(trace) + [At(clock, if go then Going else Halted)]
    {
      var stopped := Stopped();
      go := !stopped;
      GoingMoves(w, clock);
      HaltedMoves(w, clock);
      RecordMove(if go then Going else Halted, if go then Inside(w.phase.loop) else Top(Runs), w.pending);
    }

    /** A sleep that ends the loops when stopped. */
    method SleepOn() returns (ok: bool)
      requires Valid() && Stoppable(w.phase)
      modifies this`clock, this`budget, this`done, this`trace, this`run, this`w
      ensures Valid() && budget <= old(budget) && old(clock) <= clock && old(trace) <= trace
      ensures if ok then w == old(w) && trace == old(trace) else w.phase == Top(Runs) && Ended()
    {
      ok := Sleep();
      if !ok {
        HaltedMoves(w, clock);
        RecordMove(Halted, Top(Runs), w.pending);
      }
    }

    /** A socket on the uplink's link-local address, if there is one. */
    method OpenSocket() returns (ok: bool)
      requires Valid() && w.phase == Inside(Runs)
      modifies this`trace, this`run, this`w
      ensures Valid() && w.phase == Top(if ok then Sessions else Runs) && trace == old(trace) + [At(clock, Socket(ok))]
    {
      ok := *;
      SocketMoves(w, clock, ok);
      RecordMove(Socket(ok), Top(if ok then Sessions else Runs), w.pending);
    }

    /** A transaction id, if the system gives one. */
    method Random() returns (ok: bool, txn: nat)
      modifies this`fault
      ensures fault == !ok
    {
      ok, txn := *, *;
      fault := !ok;
    }

    /** Writes one copy to the socket. */
    method Write() returns (ok: bool)
      modifies this`fault
      ensures fault == !ok
    {
      ok := *;
      fault := !ok;
    }

    /** The uplink, in whatever state it is. */
    method QueryUplink() returns (u: Uplink)
      requires Valid() && w.phase.Judging?
      modifies this`trace, this`run, this`w
      ensures Valid() && w == On(old(w), clock).(phase := Judged(old(w).phase.held, u))
      ensures trace == old(trace) + [At(clock, Netlink(u))]
    {
      u := *;
      NetlinkMoves(w, clock, u);
      RecordMove(Netlink(u), Judged(w.phase.held, u), w.pending);
    }

    /** Up, with a link-local address that is not tentative. */
    method UplinkReady() returns (up: bool)
      requires Valid() && w.phase.Judging?
      modifies this`trace, this`run, this`w
      ensures |trace| == |old(trace)| + 1 && old(trace) <= trace
      ensures trace[|trace| - 1].e.Netlink? && up == Usable(trace[|trace| - 1].e.uplink)
      ensures var u := trace[|trace| - 1].e.uplink;
        up <==> u.found && u.up && u.addrs.Some? && exists a :: a in u.addrs.value && a.linkLocal && !a.tentative
      ensures Valid() && w == On(old(w), clock).(phase := Judged(old(w).phase.held, trace[|trace| - 1].e.uplink))
    {
      var u := QueryUplink();
      if !u.found { return false; }
      if !u.up { return false; }
      if u.addrs.None? { return false; }
      for i := 0 to |u.addrs.value|
        invariant forall a | a in u.addrs.value[..i] :: !(a.linkLocal && !a.tentative)
      {
        var a := u.addrs.value[i];
        if a.linkLocal && !a.tentative { return true; }
      }
      assert u.addrs.value[..|u.addrs.value|] == u.addrs.value;
      up := false;
    }

    // ---- release requests ----

    /** The control API asks for a release. */
    method Release()
      requires Valid() && Askable(w.phase)
      modifies this`releaseReq, this`trace, this`run, this`w
      ensures Valid() && w.phase == old(w).phase && releaseReq && trace == old(trace) + [At(clock, Asked)]
    {
      AskedMoves(w, clock);
      RecordMove(Asked, w.phase, true);
      releaseReq := true;
    }

    /** Clears and returns the pending request.  One may have arrived just before. */
    method TakeReleaseReq() returns (r: bool)
      requires Valid() && Attentive(w.phase)
      modifies this`releaseReq, this`trace, this`run, this`w
      ensures Valid() && !releaseReq && (old(releaseReq) ==> r)
      ensures w.phase == if r && binding.Some? then Releasing(false) else old(w).phase
      ensures old(trace) <= trace && (!r ==> trace == old(trace))
      ensures r ==> |old(trace)| < |trace| && trace[|trace| - 1].e == TookRelease
    {
      var arrives: bool := *;
      if arrives { Release(); }
      r := releaseReq;
      if r { Take(); }
    }

    method Take()
      requires Valid() && Attentive(w.phase) && releaseReq
      modifies this`releaseReq, this`trace, this`run, this`w
      ensures Valid() && !releaseReq
      ensures w.phase == if binding.Some? then Releasing(false) else old(w).phase
      ensures trace == old(trace) + [At(clock, TookRelease)]
    {
      TookMoves(w, clock);
      EmitMove(TookRelease, if binding.Some? then Releasing(false) else w.phase, false);
      releaseReq := false;
    }

    // ---- callbacks and the binding ----

    method Tell(prefix: Prefix, ok: bool)
      requires iface.Configured() && GoodPrefix(prefix)
      requires Tracked() && w.owed != [] && w.owed[0] == (prefix, ok)
      requires w.served == (if ok then None else Some(prefix)) && (ok ==> !w.muted)
      requires iface.Serves(if ok || w.muted then None else Some(prefix))
      modifies this`trace, this`run, this`w, iface, iface.routes, iface.routes.k, iface.routes.sys
      ensures Tracked() && trace == old(trace) + [At(clock, Told(prefix, ok))]
      ensures w == On(old(w), clock).(owed := old(w).owed[1..], muted := false,
                                      served := if ok then Some(prefix) else None)
      ensures iface.Serves(if ok then Some(prefix) else None)
    {
      iface.Follow(prefix, ok);
      EmitTold(prefix, ok);
    }

    ghost method EmitTold(prefix: Prefix, ok: bool)
      requires Tracked() && w.owed != [] && w.owed[0] == (prefix, ok)
      requires w.served == (if ok then None else Some(prefix)) && (ok ==> !w.muted)
      modifies this`trace, this`run, this`w
      ensures Tracked() && trace == old(trace) + [At(clock, Told(prefix, ok))]
      ensures w == On(old(w), clock).(owed := old(w).owed[1..], muted := false,
                                      served := if ok then Some(prefix) else None)
    {
      Emit(Told(prefix, ok));
    }

    method DropPrefix()
      requires Valid() && (binding.Some? ==> DropOk(w))
      modifies this`binding, this`server, this`trace, this`run, this`w
      modifies iface, iface.routes, iface.routes.k, iface.routes.sys
      ensures Valid() && binding == None && (old(binding).Some? ==> server == None && !w.muted)
      ensures w.phase == if old(binding).Some? then AfterDrop(old(w).phase) else old(w).phase
      ensures trace == old(trace) + (if old(binding).Some?
                then [At(clock, Dropped), At(clock, Told(old(binding).value.prefix, false))] else [])
    {
      if binding.Some? { DropHeld(); }
    }

    method DropHeld()
      requires Valid() && binding.Some? && DropOk(w)
      modifies this`binding, this`server, this`trace, this`run, this`w
      modifies iface, iface.routes, iface.routes.k, iface.routes.sys
      ensures Valid() && binding == None && server == None && !w.muted && w.phase == AfterDrop(old(w).phase)
      ensures trace == old(trace) + [At(clock, Dropped), At(clock, Told(old(binding).value.prefix, false))]
    {
      var b := binding.value;
      EmitDropped();
      binding := None;
      server := None;
      Tell(b.prefix, false);
    }

    ghost method EmitDropped()
      requires Watched() && Resting(w) && binding.Some? && DropOk(w)
      modifies this`trace, this`run, this`w
      ensures Tracked() && trace == old(trace) + [At(clock, Dropped)]
      ensures w == On(old(w), clock).(binding := None, server := None, phase := AfterDrop(old(w).phase),
                                      owed := [(binding.value.prefix, false)])
    {
      Emit(Dropped);
    }

    ghost method EmitBound(b: Binding, from: Option<Duid>)
      requires Watched() && w.offer.Some? && w.offer.value.from == from
      requires b == Granted(w.offer.value.grant, clock)
      modifies this`trace, this`run, this`w
      ensures Tracked() && trace == old(trace) + [At(clock, Bound(b))]
      ensures w == On(old(w), clock).(binding := Some(b), server := from, offer := None,
                                      owed := Changes(binding, b))
    {
      Emit(Bound(b));
    }

    /** No exchange is under way. */
    ghost predicate Between()
      reads this`w
    {
      w.link == Shut
    }

    /** Applies a reply; false when it carries no usable prefix. */
    method ApplyReply(reply: Message) returns (ok: bool)
      requires Watched() && InStep() && Between() && Decodable(reply) && w.offer == OfferOf(reply)
      modifies this`binding, this`server, this`clock, this`trace, this`run, this`w
      modifies iface, iface.routes, iface.routes.k, iface.routes.sys
      ensures Watched() && InStep() && ok == Delegates(Some(reply)).Some?
      ensures old(clock) <= clock && old(trace) <= trace
      ensures w.phase == old(w).phase && (ok ==> Resting(w) && server == reply.serverID)
      ensures ok ==> binding == Some(Granted(Delegates(Some(reply)).value, clock))
      ensures ok <==> exists i: nat :: Offers(Some(reply), i)
      ensures ok ==> exists i: nat :: MadeFrom(Some(reply), i, binding.value, clock)
      ensures !ok ==> binding == old(binding) && server == old(server) && w == old(w) && trace == old(trace)
    {
      var grant := ReadGrant(reply);
      ok := TakeGrant(grant, reply.serverID);
      DelegatesMeans(Some(reply), clock);
    }

    /** Applies what an exchange gave, if anything. */
    method ApplyAnswer(reply: Option<Message>) returns (ok: bool)
      requires Watched() && InStep() && Between() && (reply.Some? ==> Decodable(reply.value))
      requires w.offer == if reply.Some? then OfferOf(reply.value) else None
      modifies this`binding, this`server, this`clock, this`trace, this`run, this`w
      modifies iface, iface.routes, iface.routes.k, iface.routes.sys
      ensures Valid() && w.phase == old(w).phase && ok == Delegates(reply).Some?
      ensures old(clock) <= clock && old(trace) <= trace
      ensures ok ==> Refreshed(old(clock))
      ensures !ok ==> binding == old(binding) && server == old(server) && trace == old(trace)
    {
      ok := false;
      if reply.Some? {
        ok := ApplyReply(reply.value);
      }
    }

    method TakeGrant(grant: Option<Grant>, from: Option<Duid>) returns (ok: bool)
      requires Watched() && InStep() && Between() && (grant.Some? ==> GoodPrefix(grant.value.prefix))
      requires w.offer == if grant.Some? then Some(Offer(grant.value, from)) else None
      modifies this`binding, this`server, this`clock, this`trace, this`run, this`w
      modifies iface, iface.routes, iface.routes.k, iface.routes.sys
      ensures Watched() && InStep() && ok == grant.Some? && old(clock) <= clock && old(trace) <= trace
      ensures w.phase == old(w).phase
      ensures ok ==> Resting(w) && server == from && binding == Some(Granted(grant.value, clock))
      ensures !ok ==> binding == old(binding) && server == old(server) && w == old(w) && trace == old(trace)
    {
      if grant.None? { return false; }
      var now := Now();
      Adopt(Binding(grant.value.prefix, now, now + grant.value.lifetime), from);
      ok := true;
    }

    /** The usable prefix of a reply, if there is one. */
    method ReadGrant(reply: Message) returns (g: Option<Grant>)
      requires Decodable(reply)
      ensures g == Delegates(Some(reply)) && (g.Some? ==> GoodPrefix(g.value.prefix))
    {
      if reply.iapd.None? || reply.iapd.value.status != 0 { return None; }
      var best := PickPrefix(reply.iapd.value.prefixes);
      if best.None? || best.value.net.value.addr.None? || best.value.net.value.ones > 128 { return None; }
      var prefix := Prefix(128, best.value.net.value.addr.value, best.value.net.value.ones);
      DelegatesGood(reply);
      g := Some(Grant(Masked(prefix), best.value.lifetime));
    }

    /** Takes over a new binding and reports the change, if there is one: the loss of the old
        prefix, then the gain of the new one. */
    method Adopt(b: Binding, from: Option<Duid>)
      requires Watched() && InStep() && Between() && GoodPrefix(b.prefix)
      requires w.offer.Some? && w.offer.value.from == from && b == Granted(w.offer.value.grant, clock)
      modifies this`binding, this`server, this`trace, this`run, this`w
      modifies iface, iface.routes, iface.routes.k, iface.routes.sys
      ensures Valid() && w.phase == old(w).phase && binding == Some(b) && server == from
      ensures trace == old(trace) + [At(clock, Bound(b))] + Tolds(clock, Changes(old(binding), b))
    {
      var was := binding;
      EmitBound(b, from);
      binding := Some(b);
      server := from;
      Announce(was, b);
    }

    /** The callbacks of a change. */
    method Announce(was: Option<Binding>, b: Binding)
      requires iface.Configured() && GoodPrefix(b.prefix) && (was.Some? ==> GoodPrefix(was.value.prefix))
      requires Tracked() && w.owed == Changes(was, b) && w.served == PrefixOf(was) && (w.muted ==> was.Some?)
      requires iface.Serves(if w.muted then None else PrefixOf(was))
      modifies this`trace, this`run, this`w, iface, iface.routes, iface.routes.k, iface.routes.sys
      ensures Tracked() && trace == old(trace) + Tolds(clock, Changes(was, b))
      ensures w == old(w).(clock := w.clock, blank := w.blank, owed := [], served := Some(b.prefix),
                           muted := old(w).muted && PrefixOf(was) == Some(b.prefix))
      ensures iface.Serves(if w.muted then None else Some(b.prefix))
    {
      if was.None? || was.value.prefix != b.prefix {
        if was.Some? {
          Tell(was.value.prefix, false);
        }
        Tell(b.prefix, true);
      }
    }

    method PickPrefix(ps: seq<IaPrefix>) returns (best: Option<IaPrefix>)
      ensures best == Best(ps)
    {
      best := None;
      for i := 0 to |ps|
        invariant best == Best(ps[..i])
      {
        var p := ps[i];
        assert ps[..i + 1][..i] == ps[..i];
        if p.lifetime <= 0 || p.net.None? { continue; }
        if best.None? || p.net.value.ones < best.value.net.value.ones {
          best := Some(p);
        }
      }
      assert ps[..|ps|] == ps;
    }

    // ---- exchange ----

    /** The message with the held prefix as a hint. */
    ghost function Letter(typ: MsgType, to: Option<Duid>): (msg: Event)
      reads this`binding
    {
      Sent(typ, to, PrefixOf(binding))
    }

    /** The exchange that is called for now. */
    ghost predicate MayExchange(typ: MsgType, to: Option<Duid>, answer: MsgType)
      reads this`w, this`binding
    {
      Resting(w) && Expected(w) == Some(Letter(typ, to)) && answer == AnswerTo(typ)
    }

    /** An exchange of msg is under way since `from`; before it the monitor was in the state
        `before`. */
    ghost predicate Underway(before: Watch, from: nat, msg: Event)
      reads this`w, this`trace
    {
      && Resting(before) && before.clock <= w.clock && w == On(before, w.clock).(link := w.link)
      && w.link.Open? && Expected(w) == Some(msg) && Within(trace, from, msg, w)
    }

    /** Sends one message, retransmitting it, and waits for the matching response. */
    method Exchange(typ: MsgType, to: Option<Duid>, answer: MsgType) returns (reply: Option<Message>)
      requires Watched() && InStep() && MayExchange(typ, to, answer)
      modifies this`clock, this`budget, this`done, this`fault, this`trace, this`run, this`w
      ensures Watched() && InStep() && budget <= old(budget) && old(clock) <= clock && (old(Ended()) ==> Ended())
      ensures w == On(old(w), clock).(offer := Offered(typ, reply), phase := AfterReply(old(w).phase, typ, reply))
      ensures reply.Some? ==> reply.value.typ == answer && Decodable(reply.value)
      // a whole exchange: the answer that was heard, or none after all copies and waits
      ensures Finishes(trace, |old(trace)|, |trace|, Letter(typ, to), retry)
      ensures old(trace) <= trace && trace[|trace| - 1].e == Got(typ, reply)
    {
      reply := SendAndWait(typ, to, answer);
    }

    method SendAndWait(typ: MsgType, to: Option<Duid>, answer: MsgType) returns (reply: Option<Message>)
      requires Watched() && MayExchange(typ, to, answer)
      modifies this`clock, this`budget, this`done, this`fault, this`trace, this`run, this`w
      ensures Watched() && budget <= old(budget) && old(clock) <= clock && (old(Ended()) ==> Ended())
      ensures w == On(old(w), clock).(offer := Offered(typ, reply), phase := AfterReply(old(w).phase, typ, reply))
      ensures reply.Some? ==> reply.value.typ == answer && Decodable(reply.value)
      ensures Finishes(trace, |old(trace)|, |trace|, Letter(typ, to), retry)
      ensures old(trace) <= trace && trace[|trace| - 1].e == Got(typ, reply)
    {
      reply := SendAll(typ, to, answer);
      Conclude(Letter(typ, to), reply, old(w), |old(trace)|);
    }

    /** Everything up to the result. */
    method SendAll(typ: MsgType, to: Option<Duid>, answer: MsgType) returns (reply: Option<Message>)
      requires Watched() && MayExchange(typ, to, answer)
      modifies this`clock, this`budget, this`done, this`fault, this`trace, this`run, this`w
      ensures Watched() && budget <= old(budget) && old(clock) <= clock && (old(Ended()) ==> Ended())
      ensures Underway(old(w), |old(trace)|, Letter(typ, to)) && old(trace) <= trace
      ensures Done(w.link, retry, reply)
      ensures reply.Some? ==> reply.value.typ == answer && Decodable(reply.value)
    {
      var randOk, txn := Random();
      Begin(typ, to, txn);
      reply := None;
      if randOk {
        reply := Retransmit(typ, to, answer, txn, old(w), |old(trace)|);
      } else {
        Block(Letter(typ, to), old(w), |old(trace)|);
      }
    }

    ghost method Begin(typ: MsgType, to: Option<Duid>, txn: nat)
      requires Watched() && MayExchange(typ, to, AnswerTo(typ))
      modifies this`trace, this`run, this`w
      ensures Watched() && Underway(old(w), |old(trace)|, Letter(typ, to)) && old(trace) <= trace
      ensures w.link == Open(txn, 0, None, None, false)
    {
      var s, msg := At(clock, Begun(typ, txn)), Letter(typ, to);
      WireSteps(w, s, msg);
      ExpectedStays(w, clock, Open(txn, 0, None, None, false));
      NothingYet(trace, msg, w);
      WithinStep(trace, |trace|, msg, w, s, On(w, clock).(link := Open(txn, 0, None, None, false)));
      Emit(Begun(typ, txn));
    }

    /** The end of an exchange. */
    ghost method Conclude(msg: Event, reply: Option<Message>, before: Watch, from: nat)
      requires Watched() && Underway(before, from, msg) && Done(w.link, retry, reply)
      modifies this`trace, this`run, this`w
      ensures Finishes(trace, from, |trace|, msg, retry)
      ensures Watched() && old(trace) <= trace && trace[|trace| - 1].e == Got(msg.typ, reply)
      ensures w == On(before, clock).(offer := Offered(msg.typ, reply),
                                      phase := AfterReply(before.phase, msg.typ, reply))
    {
      WithinEnds(trace, from, msg, w, At(clock, Got(msg.typ, reply)));
      GotStep(w, clock, msg.typ, reply);
      Emit(Got(msg.typ, reply));
    }

    /** An event of the exchange under way. */
    ghost method RecordWire(e: Event, msg: Event, before: Watch, from: nat)
      requires Watched() && Underway(before, from, msg) && OnWire(e)
      requires LinkStep(w.link, retry, At(clock, e), msg).Some?
      modifies this`trace, this`run, this`w
      ensures Watched() && Underway(before, from, msg) && trace == old(trace) + [At(clock, e)]
      ensures w.link == LinkStep(old(w).link, retry, At(clock, e), msg).value
    {
      var s, link := At(clock, e), LinkStep(w.link, retry, At(clock, e), msg).value;
      WireSteps(w, s, msg);
      ExpectedStays(w, clock, link);
      WithinStep(trace, from, msg, w, s, On(w, clock).(link := link));
      Record(e);
    }

    /** One that the client causes. */
    ghost method EmitWire(e: Event, msg: Event, before: Watch, from: nat)
      requires !Outside(e) && Watched() && Underway(before, from, msg) && OnWire(e)
      requires LinkStep(w.link, retry, At(clock, e), msg).Some?
      modifies this`trace, this`run, this`w
      ensures Watched() && Underway(before, from, msg) && trace == old(trace) + [At(clock, e)]
      ensures w.link == LinkStep(old(w).link, retry, At(clock, e), msg).value
    {
      RecordWire(e, msg, before, from);
    }

    /** At most `attempts` copies of the message, each waited for twice as long as the one
        before, until a response arrives. */
    method Retransmit(typ: MsgType, to: Option<Duid>, answer: MsgType, txn: nat, ghost before: Watch, ghost from: nat)
      returns (reply: Option<Message>)
      requires Watched() && Underway(before, from, Letter(typ, to)) && answer == AnswerTo(typ)
      requires w.link == Open(txn, 0, None, None, false)
      modifies this`clock, this`budget, this`done, this`fault, this`trace, this`run, this`w
      ensures Watched() && Underway(before, from, Letter(typ, to)) && old(trace) <= trace
      ensures budget <= old(budget) && old(clock) <= clock && (old(Ended()) ==> Ended())
      ensures Done(w.link, retry, reply)
      ensures reply.Some? ==> reply.value.typ == answer && Decodable(reply.value)
    {
      var attempt, timeout := 0, retry.initial;
      while attempt < retry.attempts
        invariant Watched() && Underway(before, from, Letter(typ, to)) && old(trace) <= trace
        invariant attempt <= retry.attempts && w.link == Open(txn, attempt, None, None, false)
        invariant timeout == Patience(retry, attempt)
        invariant budget <= old(budget) && old(clock) <= clock && (old(Ended()) ==> Ended())
      {
        var more;
        more, reply := Attempt(typ, to, answer, txn, timeout, before, from);
        if !more { return; }
        attempt, timeout := attempt + 1, 2 * timeout;
        if timeout > retry.max { timeout := retry.max; }
      }
      reply := None;
    }

    /** One copy and the wait for its answer; no more after an answer or when blocked. */
    method Attempt(typ: MsgType, to: Option<Duid>, answer: MsgType, txn: nat, timeout: Time,
                   ghost before: Watch, ghost from: nat)
      returns (more: bool, reply: Option<Message>)
      requires Watched() && Underway(before, from, Letter(typ, to)) && answer == AnswerTo(typ)
      requires Pausing(w.link) && w.link.sent < retry.attempts && w.link.txn == txn
      requires timeout == Patience(retry, w.link.sent)
      modifies this`clock, this`budget, this`done, this`fault, this`trace, this`run, this`w
      ensures Watched() && Underway(before, from, Letter(typ, to)) && old(trace) <= trace
      ensures budget <= old(budget) && old(clock) <= clock && (old(Ended()) ==> Ended())
      ensures if more then w.link == old(w).link.(sent := old(w).link.sent + 1) else Done(w.link, retry, reply)
      ensures reply.Some? ==> reply.value.typ == answer && Decodable(reply.value)
    {
      var written := SendCopy();
      if !written {
        Block(Letter(typ, to), before, from);
        return false, None;
      }
      reply := AwaitCopy(Letter(typ, to), txn, answer, timeout, before, from);
      more := reply.None?;
    }

    /** A copy is out: its deadline, and the wait for the answer. */
    method AwaitCopy(ghost msg: Event, txn: nat, answer: MsgType, timeout: Time, ghost before: Watch, ghost from: nat)
      returns (reply: Option<Message>)
      requires Watched() && Underway(before, from, msg) && answer == AnswerTo(msg.typ)
      requires Pausing(w.link) && w.link.sent < retry.attempts && w.link.txn == txn
      requires timeout == Patience(retry, w.link.sent)
      modifies this`clock, this`budget, this`trace, this`run, this`w
      ensures Watched() && Underway(before, from, msg) && old(trace) <= trace
      ensures budget <= old(budget) && old(clock) <= clock && (old(Ended()) ==> Ended())
      ensures if reply.None? then w.link == old(w).link.(sent := old(w).link.sent + 1) else Done(w.link, retry, reply)
      ensures reply.Some? ==> reply.value.typ == answer && Decodable(reply.value)
    {
      var now := Now();
      Launch(msg, timeout, before, from);
      reply := Receive(msg, txn, answer, now + timeout, before, from);
    }

    /** A copy goes out and is waited for. */
    ghost method Launch(msg: Event, timeout: Time, before: Watch, from: nat)
      requires Watched() && Underway(before, from, msg)
      requires Pausing(w.link) && w.link.sent < retry.attempts && timeout == Patience(retry, w.link.sent)
      modifies this`trace, this`run, this`w
      ensures Watched() && Underway(before, from, msg) && old(trace) <= trace
      ensures w.link == old(w).link.(sent := old(w).link.sent + 1, until := Some(clock + timeout))
    {
      EmitWire(msg, msg, before, from);
    }

    /** Builds and writes one message, unless stopped or the DUID cannot be encoded. */
    method SendCopy() returns (ok: bool)
      modifies this`budget, this`done, this`fault
      ensures budget <= old(budget) && (old(Ended()) ==> Ended())
      ensures !ok ==> fault || Ended() || !duidOk
    {
      var stopped := Stopped();
      if stopped || !duidOk { return false; }
      ok := Write();
    }

    /** No (more) copies can be sent: stop, a DUID that cannot be encoded, or a fault. */
    ghost method Block(msg: Event, before: Watch, from: nat)
      requires fault || Ended() || !duidOk
      requires Watched() && Underway(before, from, msg) && Pausing(w.link)
      modifies this`trace, this`run, this`w
      ensures Watched() && Underway(before, from, msg) && old(trace) <= trace && Done(w.link, retry, None)
    {
      EmitWire(Blocked(msg.typ), msg, before, from);
    }

    /** Reads the socket: whatever arrives, or nothing.  An observed run that ends here ends
        with a failed read. */
    method ReadSocket(ghost msg: Event, ghost before: Watch, ghost from: nat) returns (got: Read)
      requires Watched() && Underway(before, from, msg) && Listening(w.link)
      modifies this`budget, this`trace, this`run, this`w
      ensures Watched() && Underway(before, from, msg) && old(trace) <= trace
      ensures budget <= old(budget) && (!got.Timeout? ==> budget < old(budget)) && (old(Ended()) ==> Ended())
      ensures match got
        case Timeout => w.link == old(w).link.(until := None)
        case Garbage => w.link == old(w).link
        case Parsed(m) =>
          && Decodable(m) && trace != [] && trace[|trace| - 1].e == Heard(m)
          && w.link == old(w).link.(answer := if Answers(m, msg.typ, w.link.txn) then Some(m) else None)
    {
      var timesOut: bool, m: Message := *, *;
      if timesOut || budget == 0 {
        Fail(msg, before, from);
        return Timeout;
      }
      budget := budget - 1;
      if !Decodable(m) { return Garbage; }
      Arrive(m, msg, before, from);
      got := Parsed(m);
    }

    ghost method Fail(msg: Event, before: Watch, from: nat)
      requires Watched() && Underway(before, from, msg) && Listening(w.link)
      modifies this`trace, this`run, this`w
      ensures Watched() && Underway(before, from, msg) && old(trace) <= trace
      ensures w.link == old(w).link.(until := None)
    {
      RecordWire(Unread, msg, before, from);
    }

    ghost method Arrive(m: Message, msg: Event, before: Watch, from: nat)
      requires Watched() && Underway(before, from, msg) && Listening(w.link)
      modifies this`trace, this`run, this`w
      ensures Watched() && Underway(before, from, msg) && trace == old(trace) + [At(clock, Heard(m))]
      ensures w.link == old(w).link.(answer := if Answers(m, msg.typ, w.link.txn) then Some(m) else None)
    {
      RecordWire(Heard(m), msg, before, from);
    }

    /** Reads until the deadline and returns the first message of the expected type with our
        transaction. */
    method Receive(ghost msg: Event, txn: nat, answer: MsgType, deadline: Time,
                   ghost before: Watch, ghost from: nat)
      returns (reply: Option<Message>)
      requires Watched() && Underway(before, from, msg) && answer == AnswerTo(msg.typ)
      requires Listening(w.link) && w.link.until == Some(deadline) && w.link.txn == txn && !w.link.blocked
      modifies this`clock, this`budget, this`trace, this`run, this`w
      ensures Watched() && Underway(before, from, msg) && old(trace) <= trace
      ensures budget <= old(budget) && old(clock) <= clock && (old(Ended()) ==> Ended())
      // the answer is the message just heard; without one the wait is over
      ensures w.link == if reply.Some? then old(w).link.(answer := reply) else old(w).link.(until := None)
      ensures reply.Some? ==> trace != [] && trace[|trace| - 1].e == Heard(reply.value)
      ensures reply.Some? ==> Answers(reply.value, msg.typ, txn) && Decodable(reply.value)
    {
      while true
        invariant Watched() && Underway(before, from, msg) && old(trace) <= trace
        invariant w.link == old(w).link && old(clock) <= clock
        invariant budget <= old(budget) && (old(Ended()) ==> Ended())
        decreases budget
      {
        var over;
        over, reply := ReadOnce(msg, txn, answer, deadline, before, from);
        if over { return; }
      }
    }

    /** One read: the wait is over when the deadline has passed, the read fails or the answer is
        there. */
    method ReadOnce(ghost msg: Event, txn: nat, answer: MsgType, deadline: Time, ghost before: Watch, ghost from: nat)
      returns (over: bool, reply: Option<Message>)
      requires Watched() && Underway(before, from, msg) && answer == AnswerTo(msg.typ)
      requires Listening(w.link) && w.link.until == Some(deadline) && w.link.txn == txn
      modifies this`clock, this`budget, this`trace, this`run, this`w
      ensures Watched() && Underway(before, from, msg) && old(trace) <= trace
      ensures budget <= old(budget) && old(clock) <= clock && (old(Ended()) ==> Ended())
      ensures !over ==> w.link == old(w).link && budget < old(budget)
      ensures over ==> w.link == if reply.Some? then old(w).link.(answer := reply) else old(w).link.(until := None)
      ensures reply.Some? ==> over && trace != [] && trace[|trace| - 1].e == Heard(reply.value)
      ensures reply.Some? ==> Answers(reply.value, msg.typ, txn) && Decodable(reply.value)
    {
      var now := Now();
      if deadline <= now {
        StopWaiting(msg, before, from);
        return true, None;
      }
      over, reply := ReadAnswer(msg, txn, answer, before, from);
    }

    /** The deadline of the last copy has passed. */
    ghost method StopWaiting(msg: Event, before: Watch, from: nat)
      requires Watched() && Underway(before, from, msg) && Listening(w.link) && w.link.until.value <= clock
      modifies this`trace, this`run, this`w
      ensures Watched() && Underway(before, from, msg) && old(trace) <= trace
      ensures w.link == old(w).link.(until := None)
    {
      EmitWire(Waited, msg, before, from);
    }

    method ReadAnswer(ghost msg: Event, txn: nat, answer: MsgType, ghost before: Watch, ghost from: nat)
      returns (over: bool, reply: Option<Message>)
      requires Watched() && Underway(before, from, msg) && answer == AnswerTo(msg.typ)
      requires Listening(w.link) && w.link.txn == txn
      modifies this`budget, this`trace, this`run, this`w
      ensures Watched() && Underway(before, from, msg) && old(trace) <= trace
      ensures budget <= old(budget) && (old(Ended()) ==> Ended())
      ensures !over ==> w.link == old(w).link && budget < old(budget)
      ensures over ==> w.link == if reply.Some? then old(w).link.(answer := reply) else old(w).link.(until := None)
      ensures reply.Some? ==> over && trace != [] && trace[|trace| - 1].e == Heard(reply.value)
      ensures reply.Some? ==> Answers(reply.value, msg.typ, txn) && Decodable(reply.value)
    {
      var got := ReadSocket(msg, before, from);
      reply := Matching(got, txn, answer);
      over := got.Timeout? || reply.Some?;
    }

    /** Only the expected type with our transaction counts. */
    static function Matching(got: Read, txn: nat, answer: MsgType): (reply: Option<Message>) {
      if got.Parsed? && got.msg.typ == answer && got.msg.txn == txn then Some(got.msg) else None
    }

    // ---- the state machine ----

    /** Honours a pending release: RELEASE if the server is known, then drop. */
    method MaybeRelease() returns (acted: bool, ghost k: nat)
      requires Valid() && Attentive(w.phase)
      modifies this`binding, this`server, this`releaseReq, this`clock, this`budget, this`done, this`fault
      modifies this`trace, this`run, this`w, iface, iface.routes, iface.routes.k, iface.routes.sys
      ensures Valid() && w.phase == if acted then Top(Sessions) else old(w).phase
      ensures budget <= old(budget) && old(clock) <= clock && old(trace) <= trace
      // a pending request is consumed, and a held delegation does not survive it
      ensures !releaseReq && (old(releaseReq) && old(binding).Some? ==> acted)
      // but only a request makes it go, and a known server is told first
      ensures acted ==> binding == None && old(binding).Some? && |old(trace)| < k
      ensures acted ==> Released(trace, k, old(server), PrefixOf(old(binding)), retry)
      ensures !acted ==> binding == old(binding) && server == old(server)
    {
      var taken := TakeReleaseReq();
      k := |trace|;
      if !taken || binding.None? { return false, k; }
      ReleaseTaken();
      acted := true;
    }

    method ReleaseTaken()
      requires Watched() && InStep() && Resting(w) && w.phase == Releasing(false) && binding.Some?
      requires trace != [] && trace[|trace| - 1].e == TookRelease
      modifies this`binding, this`server, this`clock, this`budget, this`done, this`fault, this`trace, this`run, this`w
      modifies iface, iface.routes, iface.routes.k, iface.routes.sys
      ensures Valid() && budget <= old(budget) && old(clock) <= clock && old(trace) <= trace && binding == None
      ensures w.phase == Top(Sessions)
      ensures Released(trace, |old(trace)|, old(server), PrefixOf(old(binding)), retry)
    {
      ghost var tried := ReleaseHeld();
      ReleasedBy(old(trace), tried, trace[|tried|..], old(server), PrefixOf(old(binding)), retry);
      assert trace == tried + trace[|tried|..];
    }

    method ReleaseHeld() returns (ghost tried: Trace)
      requires Watched() && InStep() && Resting(w) && w.phase == Releasing(false) && binding.Some?
      modifies this`binding, this`server, this`clock, this`budget, this`done, this`fault, this`trace, this`run, this`w
      modifies iface, iface.routes, iface.routes.k, iface.routes.sys
      ensures Valid() && w.phase == Top(Sessions) && budget <= old(budget) && old(clock) <= clock && binding == None
      ensures old(trace) <= tried && ServerTold(old(trace), tried, old(server), PrefixOf(old(binding)), retry)
      ensures trace == tried + [At(clock, Dropped), At(clock, Told(old(binding).value.prefix, false))]
    {
      TellServer();
      tried := trace;
      DropHeld();
    }

    /** RELEASE, if the server is known; the answer does not matter. */
    method TellServer()
      requires Watched() && InStep() && Resting(w) && w.phase == Releasing(false) && binding.Some?
      modifies this`clock, this`budget, this`done, this`fault, this`trace, this`run, this`w
      ensures Valid() && w.phase.Releasing? && DropOk(w)
      ensures budget <= old(budget) && old(clock) <= clock && old(trace) <= trace
      ensures ServerTold(old(trace), trace, server, PrefixOf(binding), retry)
    {
      if server.Some? {
        var _ := Exchange(MsgType.Release, server, Reply);
      }
    }

    /** From `from` on, RENEW to a known server failed before m, and then REBIND failed. */
    ghost predicate BothFailed(known: Option<Duid>, from: nat, m: nat)
      reads this`trace, this`binding
    {
      && (if known.Some? then Fails(trace, from, m, Letter(Renew, known), retry) else m == from)
      && Fails(trace, m, |trace|, Letter(Rebind, None), retry)
    }

    /** RENEW to the remembered server first, then a REBIND any server can answer. */
    method ConfirmExisting() returns (ok: bool, ghost m: nat)
      requires Valid() && w.phase.UpSeen? && binding.Some?
      modifies this`binding, this`server, this`clock, this`budget, this`done, this`fault, this`trace, this`run, this`w
      modifies iface, iface.routes, iface.routes.k, iface.routes.sys
      ensures Valid() && budget <= old(budget) && old(clock) <= clock && old(trace) <= trace
      ensures binding.Some? && (ok ==> w.phase == Top(Holds) && Refreshed(old(clock)))
      ensures !ok ==> w.phase == Refused(old(w).phase.held) && binding == old(binding)
      ensures !ok ==> BothFailed(old(server), |old(trace)| + 1, m)
    {
      EmitConfirming();
      ok, m := AskInTurn();
    }

    method AskInTurn() returns (ok: bool, ghost m: nat)
      requires Valid() && w.phase.Asking? && !w.phase.renewed && binding.Some?
      modifies this`binding, this`server, this`clock, this`budget, this`done, this`fault, this`trace, this`run, this`w
      modifies iface, iface.routes, iface.routes.k, iface.routes.sys
      ensures Valid() && budget <= old(budget) && old(clock) <= clock && old(trace) <= trace
      ensures binding.Some? && (ok ==> w.phase == Top(Holds) && Refreshed(old(clock)))
      ensures !ok ==> w.phase == Refused(old(w).phase.held) && binding == old(binding)
      ensures !ok ==> BothFailed(old(server), |old(trace)|, m)
    {
      if server.Some? {
        ok := Ask(Renew, server);
        if ok { return ok, 0; }
      }
      m := |trace|;
      ghost var asked := trace;
      ok := Ask(Rebind, None);
      if !ok && server.Some? { FinishesOn(asked, trace, |old(trace)|, m, Letter(Renew, server), retry); }
    }

    ghost method EmitConfirming()
      requires Valid() && w.phase.UpSeen?
      modifies this`trace, this`run, this`w
      ensures Valid() && w == On(old(w), clock).(phase := Asking(old(w).phase.held, false))
      ensures trace == old(trace) + [At(clock, Confirming)]
    {
      ConfirmingMoves(w, clock);
      EmitMove(Confirming, Asking(w.phase.held, false), w.pending);
    }

    /** A confirmation is only attempted on a usable uplink, and a refused one withdraws. */
    method ConfirmOnLink() returns (verdict: Verdict)
      requires Valid() && binding.Some? && w.phase.Judging?
      modifies this`binding, this`server, this`clock, this`budget, this`done, this`fault, this`trace, this`run, this`w
      modifies iface, iface.routes, iface.routes.k, iface.routes.sys
      ensures Valid() && budget <= old(budget) && old(clock) <= clock && old(trace) <= trace
      ensures w.phase == match verdict
        case NotReady => Top(if old(w).phase.held then Holds else Sessions)
        case Kept => Top(Holds)
        case Withdrawn => if old(w).phase.held then Top(Sessions) else Soliciting
      // the uplink was looked at first; untouched and unasked unless it is usable
      ensures |old(trace)| < |trace| && trace[|old(trace)|].e.Netlink?
      ensures verdict != NotReady <==> Usable(trace[|old(trace)|].e.uplink)
      ensures verdict == NotReady ==> binding == old(binding) && |trace| == |old(trace)| + 1
      ensures verdict == Kept ==> Refreshed(old(clock))
      ensures verdict == Withdrawn ==> binding == None
    {
      var up := UplinkReady();
      if !up { return NotReady; }
      var ok := ConfirmOrDrop();
      verdict := if ok then Kept else Withdrawn;
    }

    method ConfirmOrDrop() returns (ok: bool)
      requires Valid() && w.phase.UpSeen? && binding.Some?
      modifies this`binding, this`server, this`clock, this`budget, this`done, this`fault, this`trace, this`run, this`w
      modifies iface, iface.routes, iface.routes.k, iface.routes.sys
      ensures Valid() && budget <= old(budget) && old(clock) <= clock && old(trace) <= trace
      ensures if ok then Refreshed(old(clock)) else binding == None
      ensures w.phase == if ok then Top(Holds) else if old(w).phase.held then Top(Sessions) else Soliciting
    {
      ghost var m;
      ok, m := ConfirmExisting();
      if !ok { DropPrefix(); }
    }

    /** One exchange of a confirmation, applied if it gave a usable reply. */
    method Ask(typ: MsgType, to: Option<Duid>) returns (ok: bool)
      requires Watched() && InStep() && binding.Some? && (typ == Renew || typ == Rebind)
      requires MayExchange(typ, to, Reply) && w.phase.Asking?
      modifies this`binding, this`server, this`clock, this`budget, this`done, this`fault, this`trace, this`run, this`w
      modifies iface, iface.routes, iface.routes.k, iface.routes.sys
      ensures Valid() && budget <= old(budget) && binding.Some? && old(trace) <= trace
      ensures old(clock) <= clock && (ok ==> w.phase == Top(Holds) && Refreshed(old(clock)))
      ensures !ok ==> binding == old(binding) && server == old(server)
      ensures !ok ==> w.phase == if typ == Renew then Asking(old(w).phase.held, true) else Refused(old(w).phase.held)
      ensures !ok ==> Fails(trace, |old(trace)|, |trace|, Letter(typ, to), retry)
    {
      var reply := AskOnce(typ, to);
      ok := ApplyAnswer(reply);
    }

    method AskOnce(typ: MsgType, to: Option<Duid>) returns (reply: Option<Message>)
      requires Watched() && InStep() && binding.Some? && (typ == Renew || typ == Rebind)
      requires MayExchange(typ, to, Reply) && w.phase.Asking?
      modifies this`clock, this`budget, this`done, this`fault, this`trace, this`run, this`w
      ensures Watched() && InStep() && Between() && budget <= old(budget) && old(clock) <= clock && old(trace) <= trace
      ensures w.offer == if reply.Some? then OfferOf(reply.value) else None
      ensures w.phase == if Delegates(reply).Some? then Top(Holds)
                         else if typ == Renew then Asking(old(w).phase.held, true) else Refused(old(w).phase.held)
      ensures reply.Some? ==> Decodable(reply.value)
      ensures Delegates(reply).None? ==> Fails(trace, |old(trace)|, |trace|, Letter(typ, to), retry)
    {
      reply := Exchange(typ, to, Reply);
    }

    /** SOLICIT, ADVERTISE, then REQUEST to the sender of the ADVERTISE, REPLY. */
    method AcquireFresh() returns (ok: bool, ghost k: nat, ghost m: nat)
      requires Valid() && w.phase == Soliciting
      modifies this`binding, this`server, this`clock, this`budget, this`done, this`fault, this`trace, this`run, this`w
      modifies iface, iface.routes, iface.routes.k, iface.routes.sys
      ensures Valid() && budget <= old(budget) && old(clock) <= clock && old(trace) <= trace
      ensures if ok then Refreshed(old(clock)) else binding == old(binding)
      ensures w.phase == Top(if ok then Holds else Runs)
      ensures Acquired(trace, |old(trace)|, k, m, PrefixOf(old(binding)), retry, ok)
      // it stops after the SOLICIT only without an ADVERTISE that names its sender
      ensures m == 0 ==> k == |trace| && Sender(trace).None?
    {
      var advertiser := Advertiser();
      k, m := |trace|, 0;
      if advertiser.None? { return false, k, m; }
      ghost var first := trace;
      ghost var asked;
      ok, asked := RequestFrom(advertiser);
      m := |asked|;
      AcquiredBy(first, asked, trace, |old(trace)|, PrefixOf(old(binding)), retry, ok);
    }

    /** SOLICIT, and the sender of the ADVERTISE if there is one that names it. */
    method Advertiser() returns (advertiser: Option<Duid>)
      requires Valid() && w.phase == Soliciting
      modifies this`clock, this`budget, this`done, this`fault, this`trace, this`run, this`w
      ensures Valid() && budget <= old(budget) && old(clock) <= clock && old(trace) <= trace
      ensures w.phase == if advertiser.Some? then Requesting(advertiser.value) else Top(Runs)
      ensures Finishes(trace, |old(trace)|, |trace|, Sent(Solicit, None, PrefixOf(binding)), retry)
      ensures Sender(trace) == advertiser
    {
      var adv := Exchange(Solicit, None, Advertise);
      advertiser := if adv.Some? then adv.value.serverID else None;
    }

    /** REQUEST to the server whose ADVERTISE was taken. */
    method RequestFrom(advertiser: Option<Duid>) returns (ok: bool, ghost asked: Trace)
      requires Valid() && advertiser.Some? && w.phase == Requesting(advertiser.value)
      modifies this`binding, this`server, this`clock, this`budget, this`done, this`fault, this`trace, this`run, this`w
      modifies iface, iface.routes, iface.routes.k, iface.routes.sys
      ensures Valid() && budget <= old(budget) && old(clock) <= clock && old(trace) <= trace
      ensures if ok then Refreshed(old(clock)) else binding == old(binding)
      ensures w.phase == Top(if ok then Holds else Runs)
      ensures old(trace) <= asked <= trace
      ensures Finishes(asked, |old(trace)|, |asked|, Sent(Request, advertiser, PrefixOf(old(binding))), retry)
    {
      var reply := AskAdvertiser(advertiser);
      asked := trace;
      ok := ApplyAnswer(reply);
    }

    method AskAdvertiser(advertiser: Option<Duid>) returns (reply: Option<Message>)
      requires Valid() && advertiser.Some? && w.phase == Requesting(advertiser.value)
      modifies this`clock, this`budget, this`done, this`fault, this`trace, this`run, this`w
      ensures Watched() && InStep() && Between() && budget <= old(budget) && old(clock) <= clock && old(trace) <= trace
      ensures w.offer == if reply.Some? then OfferOf(reply.value) else None
      ensures w.phase == Top(if Delegates(reply).Some? then Holds else Runs)
      ensures reply.Some? ==> Decodable(reply.value)
      ensures Finishes(trace, |old(trace)|, |trace|, Sent(Request, advertiser, PrefixOf(binding)), retry)
    {
      reply := Exchange(Request, advertiser, Reply);
    }

    /** Back in the session's loop, or stopped. */
    ghost predicate Returned()
      reads this`w, this`done, this`budget
    {
      w.phase == Top(Sessions) || (w.phase == Top(Runs) && Ended())
    }

    /** Holds the delegation: RENEW from T1, REBIND from T2, give up at expiry. */
    method BoundLoop()
      requires Valid() && w.phase == Top(Holds) && binding.Some?
      modifies this, iface, iface.routes, iface.routes.k, iface.routes.sys
      ensures Valid() && Returned() && budget <= old(budget) && old(trace) <= trace
      // it returns only without a delegation, or stopped
      ensures binding == None || Ended()
    {
      while true
        invariant Valid() && w.phase == Top(Holds) && binding.Some? && budget <= old(budget) && old(trace) <= trace
        decreases budget
      {
        var go := GoOn();
        if !go { return; }
        var again := BoundTurn();
        if !again { return; }
      }
    }

    /** Release requests come first. */
    method BoundTurn() returns (again: bool)
      requires Valid() && w.phase == Inside(Holds) && binding.Some?
      modifies this, iface, iface.routes, iface.routes.k, iface.routes.sys
      ensures Valid() && budget <= old(budget) && old(trace) <= trace
      ensures again ==> w.phase == Top(Holds) && binding.Some?
      ensures !again ==> Returned() && (binding == None || Ended())
    {
      var released, _ := MaybeRelease();
      if released { return false; }
      again := BoundPass();
    }

    /** One pass while bound: wait before T1, give up after expiry, refresh in between. */
    method BoundPass() returns (again: bool)
      requires Valid() && w.phase == Inside(Holds) && !releaseReq && binding.Some?
      modifies this, iface, iface.routes, iface.routes.k, iface.routes.sys
      ensures Valid() && budget <= old(budget) && old(trace) <= trace
      ensures again ==> w.phase == Top(Holds) && binding.Some?
      ensures !again ==> Returned() && (binding == None || Ended())
    {
      var b, known := binding.value, server;
      var now := ReadBound();
      if now < T1(b) {
        again := BeforeT1(b);
      } else if b.expiresAt < now {
        DropPrefix();
        again := false;
      } else {
        var lost, _ := RenewOrRebind(b, known, now);
        again := !lost;
      }
    }

    /** A clock reading while bound. */
    method ReadBound() returns (now: Time)
      requires Valid() && w.phase == Inside(Holds) && !releaseReq && binding.Some?
      modifies this`clock, this`trace, this`run, this`w
      ensures Valid() && now == clock && old(clock) <= clock
      ensures trace == old(trace) + [At(now, Bide)]
      ensures w == On(old(w), now).(phase := AfterReading(binding.value, server, now))
    {
      now := Now();
      BideMoves(w, clock);
      EmitMove(Bide, AfterReading(binding.value, server, now), w.pending);
    }

    /** Sleep; a wake-up before T1 confirms the delegation on a usable uplink. */
    method BeforeT1(b: Binding) returns (again: bool)
      requires Valid() && w.phase == Sleeping && binding == Some(b)
      modifies this, iface, iface.routes, iface.routes.k, iface.routes.sys
      ensures Valid() && budget <= old(budget) && old(trace) <= trace
      ensures again ==> w.phase == Top(Holds) && binding.Some?
      ensures !again ==> Returned() && (binding == None || Ended())
    {
      var awake := SleepOn();
      if !awake { return false; }
      var released, _ := MaybeRelease();
      if released { return false; }
      var now := ReadAwake(b);
      if now < T1(b) {
        var verdict := ConfirmOnLink();
        if verdict == Withdrawn { return false; }
      }
      again := true;
    }

    /** The reading after the sleep. */
    method ReadAwake(b: Binding) returns (now: Time)
      requires Valid() && w.phase == Sleeping && !releaseReq && binding == Some(b)
      modifies this`clock, this`trace, this`run, this`w
      ensures Valid() && now == clock && old(clock) <= clock
      ensures trace == old(trace) + [At(now, Woke)]
      ensures w == On(old(w), now).(phase := if now < T1(b) then Judging(true) else Top(Holds))
    {
      now := Now();
      WokeMoves(w, clock);
      EmitMove(Woke, if now < T1(b) then Judging(true) else Top(Holds), w.pending);
    }

    /** The message due at this reading, and to whom. */
    ghost function Due(b: Binding, known: Option<Duid>, now: Time): (msg: Event) {
      if known.Some? && now <= T2(b) then Sent(Renew, known, Some(b.prefix)) else Sent(Rebind, None, Some(b.prefix))
    }

    /** From T1 on: one exchange, and expiry checked again if it gave nothing. */
    method RenewOrRebind(b: Binding, known: Option<Duid>, now: Time) returns (lost: bool, ghost m: nat)
      requires Watched() && InStep() && Resting(w) && w.phase == Refreshing(DueType(b, known, now))
      requires binding == Some(b) && server == known
      modifies this, iface, iface.routes, iface.routes.k, iface.routes.sys
      ensures Valid() && budget <= old(budget) && old(clock) <= clock && old(trace) <= trace
      ensures w.phase == Top(if lost then Sessions else Holds)
      // RENEW to the known server until T2, REBIND otherwise
      ensures Finishes(trace, |old(trace)|, m, Due(b, known, now), retry)
      // lost if and only if that failed and the delegation has expired
      ensures lost <==> Delegates(trace[m - 1].e.reply).None? && b.expiresAt < clock
      ensures lost ==> binding == None
      ensures !lost ==> binding == Some(b) || Refreshed(old(clock))
    {
      var reply := AskDue(b, known, now);
      m := |trace|;
      ghost var asked := trace;
      lost := Settle(b, reply);
      FinishesOn(asked, trace, |old(trace)|, m, Due(b, known, now), retry);
    }

    /** A usable reply is applied, otherwise expiry is checked. */
    method Settle(b: Binding, reply: Option<Message>) returns (lost: bool)
      requires Watched() && InStep() && Between() && binding == Some(b) && (reply.Some? ==> Decodable(reply.value))
      requires w.offer == if reply.Some? then OfferOf(reply.value) else None
      requires w.phase == if Delegates(reply).Some? then Top(Holds) else Tried
      modifies this`binding, this`server, this`clock, this`trace, this`run, this`w
      modifies iface, iface.routes, iface.routes.k, iface.routes.sys
      ensures Valid() && w.phase == Top(if lost then Sessions else Holds) && old(clock) <= clock && old(trace) <= trace
      ensures lost <==> Delegates(reply).None? && b.expiresAt < clock
      ensures lost ==> binding == None
      ensures !lost ==> binding == Some(b) || Refreshed(old(clock))
    {
      var ok := ApplyAnswer(reply);
      if ok { return false; }
      lost := CheckExpiry(b);
    }

    method AskDue(b: Binding, known: Option<Duid>, now: Time) returns (reply: Option<Message>)
      requires Watched() && InStep() && Resting(w) && w.phase == Refreshing(DueType(b, known, now))
      requires binding == Some(b) && server == known
      modifies this`clock, this`budget, this`done, this`fault, this`trace, this`run, this`w
      ensures Watched() && InStep() && budget <= old(budget) && old(clock) <= clock && old(trace) <= trace
      ensures Between()
      ensures w.offer == if reply.Some? then OfferOf(reply.value) else None
      ensures w.phase == if Delegates(reply).Some? then Top(Holds) else Tried
      ensures reply.Some? ==> Decodable(reply.value)
      ensures Finishes(trace, |old(trace)|, |trace|, Due(b, known, now), retry)
      ensures trace[|trace| - 1].e.reply == reply
    {
      var typ, dst := Renew, known;
      if T2(b) < now || known.None? {
        typ, dst := Rebind, None;
      }
      reply := Exchange(typ, dst, Reply);
    }

    /** After an exchange that gave nothing. */
    method CheckExpiry(b: Binding) returns (lost: bool)
      requires Valid() && w.phase == Tried && binding == Some(b)
      modifies this`binding, this`server, this`clock, this`trace, this`run, this`w
      modifies iface, iface.routes, iface.routes.k, iface.routes.sys
      ensures Valid() && w.phase == Top(if lost then Sessions else Holds) && old(clock) <= clock && old(trace) <= trace
      ensures lost <==> b.expiresAt < clock
      ensures binding == if lost then None else Some(b)
    {
      var later := Now();
      EmitRecheck();
      lost := b.expiresAt < later;
      if lost { DropPrefix(); }
    }

    ghost method EmitRecheck()
      requires Valid() && w.phase == Tried && binding.Some?
      modifies this`trace, this`run, this`w
      ensures Valid() && old(trace) <= trace
      ensures w == On(old(w), clock).(phase := if binding.value.expiresAt < clock then Late else Top(Holds))
    {
      RecheckMoves(w, clock);
      EmitMove(Recheck, if binding.value.expiresAt < clock then Late else Top(Holds), w.pending);
    }

    /** Passes until stopped, or until the socket is to be opened again. */
    method SessionLoop()
      requires Valid() && w.phase == Top(Sessions)
      modifies this, iface, iface.routes, iface.routes.k, iface.routes.sys
      ensures Valid() && w.phase == Top(Runs) && budget <= old(budget) && old(trace) <= trace
    {
      while true
        invariant Valid() && Returned() && budget <= old(budget) && old(trace) <= trace
        decreases budget
      {
        var go := GoOn();
        if !go { return; }
        var again := SessionTurn();
        if !again { return; }
      }
    }

    /** Release requests come first; after one the next pass starts afresh. */
    method SessionTurn() returns (again: bool)
      requires Valid() && w.phase == Inside(Sessions)
      modifies this, iface, iface.routes, iface.routes.k, iface.routes.sys
      ensures Valid() && budget <= old(budget) && old(trace) <= trace
      ensures if again then Returned() else w.phase == Top(Runs)
    {
      var released, _ := MaybeRelease();
      if released { return true; }
      ghost var k;
      again, k := SessionPass();
    }

    /** One pass: confirm an unexpired delegation, otherwise acquire one, then hold it. */
    method SessionPass() returns (again: bool, ghost k: nat)
      requires Valid() && w.phase == Inside(Sessions) && !releaseReq
      modifies this, iface, iface.routes, iface.routes.k, iface.routes.sys
      ensures Valid() && budget <= old(budget) && old(trace) <= trace
      ensures if again then Returned() else w.phase == Top(Runs)
      // the clock is read; with nothing unexpired SOLICIT is exchanged at once, otherwise the
      // uplink is looked at
      ensures |old(trace)| + 1 < |trace| && trace[|old(trace)|].e == Pass
      ensures if Free(old(binding), trace[|old(trace)|].now)
              then Finishes(trace, |old(trace)| + 1, k, Sent(Solicit, None, PrefixOf(old(binding))), retry)
              else trace[|old(trace)| + 1].e.Netlink?
    {
      var b, now := ReadTop();
      ghost var read := trace;
      again, k := KeepOrAcquire(b, now);
      assert trace[|old(trace)|] == read[|old(trace)|];
    }

    method KeepOrAcquire(b: Option<Binding>, now: Time) returns (again: bool, ghost k: nat)
      requires Valid() && b == binding && w.phase == if Free(b, now) then Soliciting else Judging(false)
      modifies this, iface, iface.routes, iface.routes.k, iface.routes.sys
      ensures Valid() && budget <= old(budget) && old(trace) < trace
      ensures if again then Returned() else w.phase == Top(Runs)
      ensures if Free(b, now) then Finishes(trace, |old(trace)|, k, Sent(Solicit, None, PrefixOf(b)), retry)
              else trace[|old(trace)|].e.Netlink?
    {
      k := 0;
      if b.Some? && now < b.value.expiresAt {
        var over;
        over, again := KeepHeld();
        if over { return; }
      }
      again, k := AcquireAndHold();
    }

    /** Confirms an unexpired delegation and holds it; the pass goes on only if it is withdrawn. */
    method KeepHeld() returns (over: bool, again: bool)
      requires Valid() && binding.Some? && w.phase == Judging(false)
      modifies this, iface, iface.routes, iface.routes.k, iface.routes.sys
      ensures Valid() && budget <= old(budget) && old(trace) <= trace
      ensures |old(trace)| < |trace| && trace[|old(trace)|].e.Netlink?
      ensures !over ==> binding == None && w.phase == Soliciting
      ensures over ==> if again then Returned() else w.phase == Top(Runs)
    {
      var verdict := ConfirmOnLink();
      ghost var asked := trace;
      match verdict
      case NotReady =>
        again := SleepOn();
        over := true;
      case Kept =>
        BoundLoop();
        over, again := true, true;
      case Withdrawn =>
        over, again := false, false;
      assert trace[..|asked|] == asked;
    }

    /** Acquires a delegation and holds it; without one the socket is opened again. */
    method AcquireAndHold() returns (again: bool, ghost k: nat)
      requires Valid() && w.phase == Soliciting
      modifies this, iface, iface.routes, iface.routes.k, iface.routes.sys
      ensures Valid() && budget <= old(budget) && old(trace) < trace
      ensures if again then Returned() else w.phase == Top(Runs)
      ensures Finishes(trace, |old(trace)|, k, Sent(Solicit, None, PrefixOf(old(binding))), retry)
    {
      var ok; ghost var m;
      ok, k, m := AcquireFresh();
      ghost var acquired := trace;
      if !ok {
        var _ := Sleep();
        again := false;
      } else {
        BoundLoop();
        again := true;
      }
      FinishesOn(acquired, trace, |old(trace)|, k, Sent(Solicit, None, PrefixOf(old(binding))), retry);
    }

    method ReadTop() returns (b: Option<Binding>, now: Time)
      requires Valid() && w.phase == Inside(Sessions) && !releaseReq
      modifies this`clock, this`trace, this`run, this`w
      ensures Valid() && b == binding && now == clock && old(clock) <= clock
      ensures w == On(old(w), now).(phase := if Free(b, now) then Soliciting else Judging(false))
      ensures trace == old(trace) + [At(now, Pass)]
    {
      b := binding;
      now := Now();
      PassMoves(w, clock);
      EmitMove(Pass, if Free(b, now) then Soliciting else Judging(false), w.pending);
    }

    /** The client's goroutine: every run, for every budget, ends in a valid state, so its
        trace is accepted and the served prefix agrees with the delegation. */
    method Run()
      requires Valid() && w.phase == Top(Runs)
      modifies this, iface, iface.routes, iface.routes.k, iface.routes.sys
      ensures Valid() && w.phase == Top(Runs) && old(trace) <= trace && Ended()
    {
      while true
        invariant Valid() && w.phase == Top(Runs) && old(trace) <= trace
        decreases budget
      {
        var go := GoOn();
        if !go { return; }
        var awake := Session();
        if !awake { return; }
      }
    }

    /** A session, if the socket can be opened, and the pause after it. */
    method Session() returns (awake: bool)
      requires Valid() && w.phase == Inside(Runs)
      modifies this, iface, iface.routes, iface.routes.k, iface.routes.sys
      ensures Valid() && w.phase == Top(Runs) && budget <= old(budget) && old(trace) <= trace && (!awake ==> Ended())
    {
      Serve();
      awake := Sleep();
    }

    method Serve()
      requires Valid() && w.phase == Inside(Runs)
      modifies this, iface, iface.routes, iface.routes.k, iface.routes.sys
      ensures Valid() && w.phase == Top(Runs) && budget <= old(budget) && old(trace) <= trace
    {
      var haveSocket := OpenSocket();
      if haveSocket { SessionLoop(); }
    }

    // ---- what the servers see ----

    /** envV6: the composed address exactly while a delegation is held. */
    method ServedPrefix() returns (r: Option<Prefix>)
      requires Valid()
      ensures r.Some? <==> binding.Some? && !w.muted
      ensures r.Some? ==> r.value.bits == iface.plen && r.value.addr == BitOr(Base(binding.value.prefix), iface.suffix)
    {
      r := iface.EnvV6();
    }

    /** envV6All: at most that one prefix, so advertisements lose it with the delegation. */
    method AdvertisedPrefixes() returns (r: seq<Prefix>)
      requires Valid()
      ensures r == Shown(w, iface.suffix, iface.plen)
      ensures |r| == if binding.Some? && !w.muted then 1 else 0
      ensures r != [] ==> r[0] == Compose(binding.value.prefix, iface.suffix, iface.plen)
    {
      r := iface.EnvV6All();
    }

    // ---- restart ----

    /** Restoring a persisted delegation: the client keeps it unless its prefix is invalid or it
        has expired at a first reading, the interface serves it if it has not expired at a
        second.  The client is left holding what nobody serves if and only if the expiry lies
        between the two.  An invalid prefix is announced all the same: until the first gain
        envV6 reports the bare suffix although nothing is delegated. */
    method Restore(saved: Persisted) returns (first: Time, second: Time)
      requires Valid() && trace == [] && (saved.prefix.Some? ==> GoodPrefix(saved.prefix.value))
      modifies this, iface, iface.routes, iface.routes.k, iface.routes.sys
      ensures old(clock) <= first <= second && Watched()
      ensures binding == if saved.prefix.Some? && first <= saved.expiresAt then Some(Saved(saved)) else None
      ensures w.muted <==> binding.Some? && saved.expiresAt <= second
      ensures trace == if binding.None? then []
                       else [At(second, if w.muted then Unserved(Saved(saved)) else Restored(Saved(saved)))]
      ensures Valid() <==> saved.prefix.Some? || saved.expiresAt <= second
      ensures !Valid() ==> iface.Serves(Some(NO_PREFIX)) && iface.pdAddr == Some(Prefix(128, iface.suffix, iface.plen))
    {
      first := Now();
      var kept := saved.prefix.Some? && first <= saved.expiresAt;
      second := Now();
      var serve := second < saved.expiresAt;
      if kept {
        Resume(Saved(saved), serve);
      } else if serve {
        BareSuffix(iface.suffix, iface.plen);
        iface.OnPDChange(NO_PREFIX, true);
      }
    }

    method Resume(b: Binding, serve: bool)
      requires Valid() && trace == [] && GoodPrefix(b.prefix)
      modifies this`binding, this`trace, this`run, this`w, iface, iface.routes, iface.routes.k, iface.routes.sys
      ensures Valid() && binding == Some(b) && w.muted == !serve
      ensures trace == [At(clock, if serve then Restored(b) else Unserved(b))]
    {
      if serve { iface.OnPDChange(b.prefix, true); }
      EmitRestored(b, serve);
      binding := Some(b);
    }

    ghost method EmitRestored(b: Binding, served: bool)
      requires Tracked() && trace == []
      modifies this`trace, this`run, this`w
      ensures Tracked() && trace == [At(clock, if served then Restored(b) else Unserved(b))]
      ensures w == On(Start(retry, clock), clock).(binding := Some(b), served := Some(b.prefix), muted := !served)
    {
      Emit(if served then Restored(b) else Unserved(b));
    }
  }
}
