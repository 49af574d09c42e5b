/** Why an accepted prefix-delegation client does what it does: what the monitor's phases say
    about the trace, and from that when a prefix is withdrawn, why each message goes out and to
    whom, and what must follow a clock reading. */
module PdReasons {
  import opened Arith
  import opened Addressing
  import opened PdEvents
  import opened PdTrace

  // ---- what the phases mean ----

  /** At j the client knew what w still knows. */
  predicate Since(trace: Trace, j: nat, w: Watch) {
    j <= |trace| && w.binding == Held(trace[..j]) && w.server == ServerOf(trace[..j])
  }

  lemma SinceKept(trace: Trace, j: nat, w: Watch, s: Stamped, v: Watch)
    requires Since(trace, j, w) && v.binding == w.binding && v.server == w.server
    ensures Since(trace + [s], j, v) && (trace + [s])[..j] == trace[..j]
  {
    assert (trace + [s])[..j] == trace[..j];
  }

  /** RENEW and RELEASE go to the known server, REBIND to any. */
  function Letter(w: Watch, typ: MsgType): (msg: Event) {
    Sent(typ, if typ == Rebind then None else w.server, PrefixOf(w.binding))
  }

  /** A pending request was taken at j. */
  predicate TakenAt(trace: Trace, j: nat) {
    j < |trace| && trace[j].e == TookRelease && Pending(trace[..j])
  }

  predicate ReleasingFrom(trace: Trace, j: nat, w: Watch) {
    && w.phase.Releasing? && TakenAt(trace, j) && Since(trace, j, w)
    && (if w.phase.replied then Finishes(trace, j + 1, |trace|, Letter(w, Release), w.retry)
        else Within(trace, j + 1, Letter(w, Release), w))
    && (w.server.None? ==> |trace| == j + 1)
  }

  /** A confirmation was begun at j with a usable uplink. */
  predicate ConfirmsAt(trace: Trace, j: nat) {
    j + 2 <= |trace| && trace[j].e.Netlink? && Usable(trace[j].e.uplink) && trace[j + 1].e == Confirming
  }

  predicate RenewingFrom(trace: Trace, j: nat, w: Watch) {
    ConfirmsAt(trace, j) && Since(trace, j, w) && Within(trace, j + 2, Letter(w, Renew), w)
  }

  /** In a confirmation begun at j, RENEW to a known server failed before m. */
  predicate RenewFailed(trace: Trace, j: nat, m: nat, w: Watch) {
    if w.server.Some? then Fails(trace, j + 2, m, Letter(w, Renew), w.retry) else m == j + 2
  }

  predicate RebindingFrom(trace: Trace, j: nat, m: nat, w: Watch) {
    && ConfirmsAt(trace, j) && Since(trace, j, w) && RenewFailed(trace, j, m, w)
    && Within(trace, m, Letter(w, Rebind), w)
  }

  predicate RefusedFrom(trace: Trace, j: nat, m: nat, w: Watch) {
    && ConfirmsAt(trace, j) && Since(trace, j, w) && RenewFailed(trace, j, m, w)
    && Fails(trace, m, |trace|, Letter(w, Rebind), w.retry)
  }

  /** At j a SOLICIT exchange gave the ADVERTISE just heard from this server. */
  predicate AdvertisedAt(trace: Trace, j: nat, server: Duid) {
    && 0 < j < |trace| && trace[j].e.Got? && trace[j].e.typ == Solicit && trace[j].e.reply.Some?
    && var adv := trace[j].e.reply.value;
       trace[j - 1].e == Heard(adv) && adv.typ == Advertise && adv.serverID == Some(server)
  }

  predicate RequestingFrom(trace: Trace, j: nat, w: Watch) {
    && w.phase.Requesting? && AdvertisedAt(trace, j, w.phase.advertiser)
    && Within(trace, j + 1, Sent(Request, Some(w.phase.advertiser), PrefixOf(w.binding)), w)
  }

  /** The reading while bound at j made this message due. */
  predicate DueAt(trace: Trace, j: nat, typ: MsgType) {
    && j < |trace| && trace[j].e == Bide && Held(trace[..j]).Some?
    && var b := Held(trace[..j]).value;
       T1(b) <= trace[j].now <= b.expiresAt && typ == DueType(b, ServerOf(trace[..j]), trace[j].now)
  }

  function DueLetter(w: Watch): (msg: Event)
    requires w.phase.Refreshing?
  {
    Sent(w.phase.typ, if w.phase.typ == Renew then w.server else None, PrefixOf(w.binding))
  }

  predicate RefreshingFrom(trace: Trace, j: nat, w: Watch) {
    && w.phase.Refreshing? && DueAt(trace, j, w.phase.typ) && Since(trace, j, w)
    && Within(trace, j + 1, DueLetter(w), w)
  }

  /** The last event is a reading past the expiry of what is held. */
  predicate RanOut(trace: Trace) {
    && trace != [] && (trace[|trace| - 1].e == Bide || trace[|trace| - 1].e == Recheck)
    && Held(trace).Some? && Held(trace).value.expiresAt < trace[|trace| - 1].now
  }

  /** What the phase says about the end of the trace. */
  ghost predicate PhaseMeans(trace: Trace, w: Watch) {
    match w.phase
    case Top(_) => true
    case Inside(_) => true
    case Judging(_) => true
    case Tried => true
    case Sleeping => true
    case Soliciting => Free(w.binding, w.clock)
    case UpSeen(_) =>
      && trace != [] && trace[|trace| - 1].e.Netlink? && Usable(trace[|trace| - 1].e.uplink)
      && Since(trace, |trace| - 1, w)
    case Releasing(_) => exists j: nat :: ReleasingFrom(trace, j, w)
    case Asking(_, renewed) =>
      if w.server.Some? && !renewed then exists j: nat :: RenewingFrom(trace, j, w)
      else exists j: nat, m: nat :: RebindingFrom(trace, j, m, w)
    case Refused(_) => exists j: nat, m: nat :: RefusedFrom(trace, j, m, w)
    case Requesting(_) => exists j: nat :: RequestingFrom(trace, j, w)
    case Refreshing(_) => exists j: nat :: RefreshingFrom(trace, j, w)
    case Late => RanOut(trace)
  }

  lemma {:induction false} PhaseSound(trace: Trace, run: seq<Watch>, retry: Retry, n: nat)
    requires Accepted(trace, run, retry) && n <= |trace|
    ensures PhaseMeans(trace[..n], run[n])
  {
    if n > 0 {
      PhaseSound(trace, run, retry, n - 1);
      KnowsAll(trace, run, retry, n - 1);
      TracedAll(trace, run, retry, n - 1);
      assert StepsAt(trace, run, n - 1);
      PhaseStep(trace[..n - 1], run[n - 1], trace[n - 1]);
      Grow(trace, n - 1);
    }
  }

  lemma PhaseStep(trace: Trace, w: Watch, s: Stamped)
    requires Knows(trace, w) && Traced(trace, w) && PhaseMeans(trace, w) && Step(w, s).Some?
    ensures PhaseMeans(trace + [s], Step(w, s).value)
  {
    if OnWire(s.e) {
      WirePhase(trace, w, s, Step(w, s).value);
    } else if s.e.Got? {
      GotPhase(trace, w, s, Step(w, s).value);
    } else {
      EnterStep(trace, w, s, Step(w, s).value);
    }
  }

  // an event of the exchange under way

  lemma WirePhase(trace: Trace, w: Watch, s: Stamped, v: Watch)
    requires PhaseMeans(trace, w) && OnWire(s.e) && Step(w, s) == Some(v)
    ensures PhaseMeans(trace + [s], v)
  {
    ExpectedKept(w, s);
    match w.phase
    case Releasing(_) => ReleasingStep(trace, w, s, v);
    case Asking(_, renewed) =>
      if w.server.Some? && !renewed { RenewingStep(trace, w, s, v); } else { RebindingStep(trace, w, s, v); }
    case Requesting(_) => RequestingStep(trace, w, s, v);
    case Refreshing(_) => RefreshingStep(trace, w, s, v);
    case _ =>
  }

  lemma ExpectedKept(w: Watch, s: Stamped)
    requires OnWire(s.e) && Step(w, s).Some?
    ensures Expected(w).Some? && w.clock <= s.now
    ensures Wired(w, s, Step(w, s).value, Expected(w).value)
  {
  }

  /** v is w with an exchange of msg one event further. */
  predicate Wired(w: Watch, s: Stamped, v: Watch, msg: Event) {
    && msg.Sent? && Expected(w) == Some(msg) && LinkStep(w.link, w.retry, s, msg) == Some(v.link)
    && v == On(w, s.now).(link := v.link)
  }

  lemma ReleasingStep(trace: Trace, w: Watch, s: Stamped, v: Watch)
    requires w.phase.Releasing? && PhaseMeans(trace, w) && Wired(w, s, v, Letter(w, Release))
    ensures PhaseMeans(trace + [s], v)
  {
    var j: nat :| ReleasingFrom(trace, j, w);
    SinceKept(trace, j, w, s, v);
    WithinStep(trace, j + 1, Letter(w, Release), w, s, v);
    assert ReleasingFrom(trace + [s], j, v);
  }

  lemma RenewingStep(trace: Trace, w: Watch, s: Stamped, v: Watch)
    requires w.phase.Asking? && !w.phase.renewed && w.server.Some? && PhaseMeans(trace, w)
    requires Wired(w, s, v, Letter(w, Renew))
    ensures PhaseMeans(trace + [s], v)
  {
    var j: nat :| RenewingFrom(trace, j, w);
    SinceKept(trace, j, w, s, v);
    WithinStep(trace, j + 2, Letter(w, Renew), w, s, v);
    assert RenewingFrom(trace + [s], j, v);
  }

  lemma RebindingStep(trace: Trace, w: Watch, s: Stamped, v: Watch)
    requires w.phase.Asking? && (w.server.None? || w.phase.renewed) && PhaseMeans(trace, w)
    requires Wired(w, s, v, Letter(w, Rebind))
    ensures PhaseMeans(trace + [s], v)
  {
    var j: nat, m: nat :| RebindingFrom(trace, j, m, w);
    RenewFailedKept(trace, j, m, w, s, v);
    WithinStep(trace, m, Letter(w, Rebind), w, s, v);
    assert RebindingFrom(trace + [s], j, m, v);
  }

  lemma RenewFailedKept(trace: Trace, j: nat, m: nat, w: Watch, s: Stamped, v: Watch)
    requires ConfirmsAt(trace, j) && Since(trace, j, w) && RenewFailed(trace, j, m, w)
    requires v.binding == w.binding && v.server == w.server && v.retry == w.retry
    ensures ConfirmsAt(trace + [s], j) && Since(trace + [s], j, v) && RenewFailed(trace + [s], j, m, v)
  {
    SinceKept(trace, j, w, s, v);
    if w.server.Some? { FinishesOn(trace, trace + [s], j + 2, m, Letter(w, Renew), w.retry); }
  }

  lemma RequestingStep(trace: Trace, w: Watch, s: Stamped, v: Watch)
    requires w.phase.Requesting? && PhaseMeans(trace, w)
    requires Wired(w, s, v, Sent(Request, Some(w.phase.advertiser), PrefixOf(w.binding)))
    ensures PhaseMeans(trace + [s], v)
  {
    var j: nat :| RequestingFrom(trace, j, w);
    WithinStep(trace, j + 1, Sent(Request, Some(w.phase.advertiser), PrefixOf(w.binding)), w, s, v);
    assert RequestingFrom(trace + [s], j, v);
  }

  lemma RefreshingStep(trace: Trace, w: Watch, s: Stamped, v: Watch)
    requires w.phase.Refreshing? && PhaseMeans(trace, w) && Wired(w, s, v, DueLetter(w))
    ensures PhaseMeans(trace + [s], v)
  {
    var j: nat :| RefreshingFrom(trace, j, w);
    SinceKept(trace, j, w, s, v);
    WithinStep(trace, j + 1, DueLetter(w), w, s, v);
    assert RefreshingFrom(trace + [s], j, v);
  }

  // the result of an exchange

  lemma GotPhase(trace: Trace, w: Watch, s: Stamped, v: Watch)
    requires Knows(trace, w) && Traced(trace, w) && PhaseMeans(trace, w) && s.e.Got? && Step(w, s) == Some(v)
    ensures PhaseMeans(trace + [s], v)
  {
    GotKept(w, s);
    match w.phase
    case Releasing(_) => ReleaseEnds(trace, w, s, v);
    case Asking(_, renewed) =>
      if w.server.Some? && !renewed { RenewEnds(trace, w, s, v); } else { RebindEnds(trace, w, s, v); }
    case Soliciting => SolicitEnds(trace, w, s, v);
    case _ =>
  }

  lemma GotKept(w: Watch, s: Stamped)
    requires s.e.Got? && Step(w, s).Some?
    ensures Expected(w).Some? && Expected(w).value.typ == s.e.typ && w.link.Open?
    ensures Ended(w, s, Step(w, s).value)
  {
  }

  /** v is w after the result of its exchange. */
  predicate Ended(w: Watch, s: Stamped, v: Watch) {
    && s.e.Got? && Done(w.link, w.retry, s.e.reply)
    && v == On(w, s.now).(offer := Offered(s.e.typ, s.e.reply), phase := AfterReply(w.phase, s.e.typ, s.e.reply),
                          link := Shut)
  }

  lemma ReleaseEnds(trace: Trace, w: Watch, s: Stamped, v: Watch)
    requires w.phase == Releasing(false) && PhaseMeans(trace, w) && Ended(w, s, v)
    requires s.e.typ == Release && w.server.Some?
    ensures PhaseMeans(trace + [s], v)
  {
    var j: nat :| ReleasingFrom(trace, j, w);
    SinceKept(trace, j, w, s, v);
    WithinEnds(trace, j + 1, Letter(w, Release), w, s);
    assert ReleasingFrom(trace + [s], j, v);
  }

  lemma RenewEnds(trace: Trace, w: Watch, s: Stamped, v: Watch)
    requires w.phase.Asking? && !w.phase.renewed && w.server.Some? && PhaseMeans(trace, w)
    requires Ended(w, s, v) && s.e.typ == Renew
    ensures PhaseMeans(trace + [s], v)
  {
    var j: nat :| RenewingFrom(trace, j, w);
    var after := trace + [s];
    SinceKept(trace, j, w, s, v);
    WithinEnds(trace, j + 2, Letter(w, Renew), w, s);
    if v.phase.Asking? {
      NothingYet(after, Letter(v, Rebind), v);
      assert RebindingFrom(after, j, |after|, v);
    }
  }

  lemma RebindEnds(trace: Trace, w: Watch, s: Stamped, v: Watch)
    requires w.phase.Asking? && (w.server.None? || w.phase.renewed) && PhaseMeans(trace, w)
    requires Ended(w, s, v) && s.e.typ == Rebind
    ensures PhaseMeans(trace + [s], v)
  {
    var j: nat, m: nat :| RebindingFrom(trace, j, m, w);
    RenewFailedKept(trace, j, m, w, s, v);
    WithinEnds(trace, m, Letter(w, Rebind), w, s);
    if v.phase.Refused? { assert RefusedFrom(trace + [s], j, m, v); }
  }

  lemma SolicitEnds(trace: Trace, w: Watch, s: Stamped, v: Watch)
    requires w.phase == Soliciting && Traced(trace, w) && Ended(w, s, v) && s.e.typ == Solicit
    requires w.link.Open? && Expected(w).Some?
    ensures PhaseMeans(trace + [s], v)
  {
    if v.phase.Requesting? {
      var from: nat :| Within(trace, from, Expected(w).value, w);
      ReplayMeans(trace[from..], Expected(w).value, w.retry);
      var after, n := trace + [s], |trace|;
      assert after[n] == s && after[n - 1] == trace[n - 1] == trace[from..][n - from - 1];
      NothingYet(after, Sent(Request, Some(v.phase.advertiser), PrefixOf(v.binding)), v);
      assert RequestingFrom(after, n, v);
    }
  }

  // any other event

  /** A phase is entered. */
  lemma EnterStep(trace: Trace, w: Watch, s: Stamped, v: Watch)
    requires Knows(trace, w) && PhaseMeans(trace, w) && Step(w, s) == Some(v) && !OnWire(s.e) && !s.e.Got?
    ensures PhaseMeans(trace + [s], v)
  {
    HeldEffect(w, s, v);
    PhaseEffect(w, s, v);
    Entered(trace, w, s, v);
  }

  /** The phase after an event outside exchanges. */
  lemma PhaseEffect(w: Watch, s: Stamped, v: Watch)
    requires Step(w, s) == Some(v) && !OnWire(s.e) && !s.e.Got?
    requires Paying(w)
    ensures PhaseAfter(w, s, v) && v.link == Shut
  {
  }

  predicate PhaseAfter(w: Watch, s: Stamped, v: Watch) {
    match s.e
    case TookRelease => Attentive(v.phase) || (v.phase == Releasing(false) && w.pending)
    case Netlink(u) => w.phase.Judging? && v.phase == Judged(w.phase.held, u)
    case Confirming => w.phase.UpSeen? && v.phase == Asking(w.phase.held, false)
    case Bide => w.binding.Some? && v.phase == AfterReading(w.binding.value, w.server, s.now)
    case Recheck => w.binding.Some? && v.phase == if w.binding.value.expiresAt < s.now then Late else Top(Holds)
    case _ => Plain(v.phase) || (v.phase == Soliciting && SolicitNext(w, s))
  }

  /** Phases that say nothing about the trace. */
  predicate Plain(phase: Phase) {
    phase.Top? || phase.Inside? || phase.Judging? || phase == Sleeping
  }

  /** What leads to a SOLICIT, and the callback in between. */
  predicate SolicitNext(w: Watch, s: Stamped) {
    || (s.e == Pass && Free(w.binding, s.now)) || s.e == Dropped
    || (s.e.Told? && w.phase == Soliciting && w.clock <= s.now)
  }

  lemma Entered(trace: Trace, w: Watch, s: Stamped, v: Watch)
    requires Knows(trace, w) && PhaseMeans(trace, w) && PhaseAfter(w, s, v) && v.link == Shut && v.retry == w.retry
    requires s.e.TookRelease? || s.e.Netlink? || s.e.Confirming? || s.e.Bide? || s.e.Recheck? ==>
               v.binding == w.binding && v.server == w.server
    requires v.clock == s.now
    requires v.binding == if s.e.Restored? || s.e.Unserved? || s.e.Bound? then Some(s.e.b)
                          else if s.e.Dropped? then None else w.binding
    ensures PhaseMeans(trace + [s], v)
  {
    var after := trace + [s];
    assert after[|trace|] == s && after[..|trace|] == trace;
    match s.e
    case TookRelease =>
      NothingYet(after, Letter(v, Release), v);
      if v.phase.Releasing? { assert ReleasingFrom(after, |trace|, v); }
    case Confirming => EnterConfirmation(trace, w, s, v);
    case Bide =>
      ReadOn(trace, s);
      if v.phase.Refreshing? {
        NothingYet(after, DueLetter(v), v);
        assert RefreshingFrom(after, |trace|, v);
      }
    case Recheck => ReadOn(trace, s);
    case _ =>
  }

  lemma EnterConfirmation(trace: Trace, w: Watch, s: Stamped, v: Watch)
    requires PhaseMeans(trace, w) && w.phase.UpSeen? && s.e == Confirming
    requires v.phase == Asking(w.phase.held, false) && v.link == Shut && v.binding == w.binding && v.server == w.server
    ensures PhaseMeans(trace + [s], v)
  {
    var after, n := trace + [s], |trace|;
    assert after[n] == s && after[n - 1] == trace[n - 1];
    SinceKept(trace, n - 1, w, s, v);
    NothingYet(after, Letter(v, Renew), v);
    NothingYet(after, Letter(v, Rebind), v);
    if v.server.Some? {
      assert RenewingFrom(after, n - 1, v);
    } else {
      assert RebindingFrom(after, n - 1, n + 1, v);
    }
  }

  // ---- withdrawals ----

  /** A pending request was taken at j and, with a known server, a RELEASE exchange with it is
      over. */
  predicate ReleasedFrom(trace: Trace, j: nat, retry: Retry) {
    && TakenAt(trace, j)
    && var server, hint := ServerOf(trace[..j]), PrefixOf(Held(trace[..j]));
       if server.Some? then Finishes(trace, j + 1, |trace|, Sent(Release, server, hint), retry)
       else |trace| == j + 1
  }

  ghost predicate ByRelease(trace: Trace, retry: Retry) {
    exists j: nat :: ReleasedFrom(trace, j, retry)
  }

  /** With the uplink ready at j, RENEW to a known server failed and then REBIND failed. */
  predicate RefusalFrom(trace: Trace, j: nat, m: nat, retry: Retry) {
    && ConfirmsAt(trace, j)
    && var server, hint := ServerOf(trace[..j]), PrefixOf(Held(trace[..j]));
       && (if server.Some? then Fails(trace, j + 2, m, Sent(Renew, server, hint), retry) else m == j + 2)
       && Fails(trace, m, |trace|, Sent(Rebind, None, hint), retry)
  }

  ghost predicate ByRefusal(trace: Trace, retry: Retry) {
    exists j: nat, m: nat :: RefusalFrom(trace, j, m, retry)
  }

  /** p was given up at the end of the trace, for one of three reasons. */
  ghost predicate GivenUp(trace: Trace, p: Prefix, retry: Retry) {
    && trace != [] && trace[|trace| - 1].e == Dropped
    && var before := trace[..|trace| - 1];
       && PrefixOf(Held(before)) == Some(p)
       && (ByRelease(before, retry) || ByRefusal(before, retry) || RanOut(before))
  }

  /** The trace ends with the adoption of a reply that carries another prefix than p. */
  predicate Renumbered(trace: Trace, p: Prefix) {
    && |trace| >= 2 && trace[|trace| - 1].e.Bound? && trace[|trace| - 2].e.Got?
    && var grant := Delegates(trace[|trace| - 2].e.reply);
       && PrefixOf(Held(trace[..|trace| - 1])) == Some(p)
       && grant.Some? && grant.value.prefix != p
       && trace[|trace| - 1].e.b == Granted(grant.value, trace[|trace| - 1].now)
  }

  /** What the debt of callbacks says about the end of the trace. */
  ghost predicate DebtMeans(trace: Trace, w: Watch) {
    && (w.owed != [] && !w.owed[0].1 ==> Renumbered(trace, w.owed[0].0) || GivenUp(trace, w.owed[0].0, w.retry))
    && |w.owed| <= 2 && (|w.owed| == 2 ==> w.owed[1].1)
  }

  lemma {:induction false} DebtSound(trace: Trace, run: seq<Watch>, retry: Retry, n: nat)
    requires Accepted(trace, run, retry) && n <= |trace|
    ensures DebtMeans(trace[..n], run[n])
  {
    if n > 0 {
      DebtSound(trace, run, retry, n - 1);
      PhaseSound(trace, run, retry, n - 1);
      KnowsAll(trace, run, retry, n - 1);
      assert StepsAt(trace, run, n - 1);
      DebtStep(trace[..n - 1], run[n - 1], trace[n - 1], run[n]);
      Grow(trace, n - 1);
    }
  }

  lemma DebtStep(trace: Trace, w: Watch, s: Stamped, v: Watch)
    requires Knows(trace, w) && PhaseMeans(trace, w) && DebtMeans(trace, w) && Step(w, s) == Some(v)
    ensures DebtMeans(trace + [s], v)
  {
    HeldEffect(w, s, v);
    DebtEffect(w, s, v);
    if s.e.Bound? {
      BoundDebt(trace, w, s, v);
    } else if s.e.Dropped? {
      DroppedDebt(trace, w, s);
    }
  }

  lemma BoundDebt(trace: Trace, w: Watch, s: Stamped, v: Watch)
    requires Knows(trace, w) && s.e.Bound? && w.offer.Some? && s.e.b == Granted(w.offer.value.grant, s.now)
    requires v.owed == Changes(w.binding, s.e.b)
    ensures DebtMeans(trace + [s], v)
  {
    var after := trace + [s];
    assert after[..|after| - 1] == trace && after[|trace|] == s;
    assert after[|after| - 2] == trace[|trace| - 1];
  }

  lemma DroppedDebt(trace: Trace, w: Watch, s: Stamped)
    requires Knows(trace, w) && PhaseMeans(trace, w) && s.e.Dropped? && w.binding.Some? && DropOk(w)
    ensures GivenUp(trace + [s], w.binding.value.prefix, w.retry)
  {
    var after := trace + [s];
    assert after[..|after| - 1] == trace && after[|trace|] == s;
    DropReason(trace, w);
  }

  lemma DropReason(trace: Trace, w: Watch)
    requires PhaseMeans(trace, w) && DropOk(w)
    ensures ByRelease(trace, w.retry) || ByRefusal(trace, w.retry) || RanOut(trace)
  {
    if w.phase.Releasing? { ReleaseReason(trace, w); }
    if w.phase.Refused? { RefusalReason(trace, w); }
  }

  lemma ReleaseReason(trace: Trace, w: Watch)
    requires PhaseMeans(trace, w) && w.phase.Releasing? && DropOk(w)
    ensures ByRelease(trace, w.retry)
  {
    var j: nat :| ReleasingFrom(trace, j, w);
    assert ReleasedFrom(trace, j, w.retry);
  }

  lemma RefusalReason(trace: Trace, w: Watch)
    requires PhaseMeans(trace, w) && w.phase.Refused?
    ensures ByRefusal(trace, w.retry)
  {
    var j: nat, m: nat :| RefusedFrom(trace, j, m, w);
    assert RefusalFrom(trace, j, m, w.retry);
  }

  /** Withdrawal is always justified.  In every accepted trace, a callback that withdraws p
      directly follows either the adoption of a REPLY that carries another prefix, or the
      giving up of p: after a release request of the control API, with a known server after a
      RELEASE exchange with it; after a refused confirmation begun with the uplink ready, RENEW
      to a known server and then REBIND both without a usable reply; or at a clock reading past
      its expiry. */
  lemma WithdrawalJustified(trace: Trace, run: seq<Watch>, retry: Retry, n: nat, p: Prefix)
    requires Accepted(trace, run, retry) && n < |trace| && trace[n].e == Told(p, false)
    ensures Renumbered(trace[..n], p) || GivenUp(trace[..n], p, retry)
  {
    assert StepsAt(trace, run, n);
    DebtSound(trace, run, retry, n);
    KnowsAll(trace, run, retry, n);
  }

  // ---- causes ----

  /** What decided on a phase. */
  predicate CauseOf(phase: Phase, cause: Option<Event>) {
    match phase
    case Judging(held) => cause == Some(if held then Woke else Pass)
    case UpSeen(held) => cause == Some(if held then Woke else Pass)
    case Asking(held, _) => cause == Some(if held then Woke else Pass)
    case Refused(held) => cause == Some(if held then Woke else Pass)
    case Soliciting => cause == Some(Pass)
    case Requesting(_) => cause == Some(Pass)
    case Releasing(_) => cause == Some(TookRelease)
    case Refreshing(_) => cause == Some(Bide)
    case Late => cause == Some(Bide) || cause == Some(Recheck)
    case _ => true
  }

  lemma {:induction false} CauseSound(trace: Trace, run: seq<Watch>, retry: Retry, n: nat)
    requires Accepted(trace, run, retry) && n <= |trace|
    ensures CauseOf(run[n].phase, Cause(trace[..n]))
  {
    if n > 0 {
      CauseSound(trace, run, retry, n - 1);
      assert StepsAt(trace, run, n - 1);
      CauseOn(trace[..n - 1], trace[n - 1]);
      if Deciding(trace[n - 1].e) {
        Decided(run[n - 1], trace[n - 1], run[n]);
      } else {
        Undecided(run[n - 1], trace[n - 1], run[n], Cause(trace[..n - 1]));
      }
      Grow(trace, n - 1);
    }
  }

  lemma CauseOn(trace: Trace, s: Stamped)
    ensures Cause(trace + [s]) == if Deciding(s.e) then Some(s.e) else Cause(trace)
  {
    assert (trace + [s])[..|trace|] == trace;
  }

  lemma Decided(w: Watch, s: Stamped, v: Watch)
    requires Step(w, s) == Some(v) && Deciding(s.e)
    ensures CauseOf(v.phase, Some(s.e))
  {
  }

  lemma Undecided(w: Watch, s: Stamped, v: Watch, cause: Option<Event>)
    requires Step(w, s) == Some(v) && !Deciding(s.e) && CauseOf(w.phase, cause)
    ensures CauseOf(v.phase, cause)
  {
    PhaseFlow(w, s, v);
  }

  /** Where the phase comes from when nothing decides. */
  lemma PhaseFlow(w: Watch, s: Stamped, v: Watch)
    requires Step(w, s) == Some(v) && !Deciding(s.e)
    ensures v.phase == w.phase || v.phase.Top? || v.phase.Inside?
      || (s.e.Got? && v.phase == AfterReply(w.phase, s.e.typ, s.e.reply))
      || (s.e.Dropped? && v.phase == AfterDrop(w.phase))
      || (w.phase.Judging? && v.phase == UpSeen(w.phase.held))
      || (w.phase.UpSeen? && v.phase == Asking(w.phase.held, false))
  {
  }

  // ---- messages ----

  /** The trace ends within an exchange of msg that what happened at j called for. */
  predicate StartedAt(trace: Trace, j: nat, msg: Event, retry: Retry) {
    j < |trace| && msg.Sent? && Replay(trace[j + 1..], msg, retry).Some?
  }

  /** In a confirmation begun at j, msg is RENEW to the known server, or REBIND after that
      failed or without a known server. */
  predicate ConfirmsBy(trace: Trace, j: nat, m: nat, msg: Event, retry: Retry) {
    && ConfirmsAt(trace, j) && msg.Sent? && j + 2 <= m <= |trace| && Replay(trace[m..], msg, retry).Some?
    && var server := ServerOf(trace[..j]);
       if msg.typ == Renew then m == j + 2
       else if server.Some? then Fails(trace, j + 2, m, Sent(Renew, server, msg.hint), retry)
       else m == j + 2
  }

  /** Nothing is held that has not expired. */
  predicate Lacking(held: Option<Binding>, now: Time) {
    held.Some? ==> held.value.expiresAt <= now
  }

  /** Why a message may go out at `now` after this trace, and how it is addressed. */
  ghost predicate Called(trace: Trace, msg: Event, now: Time, retry: Retry)
    requires msg.Sent?
  {
    && msg.hint == PrefixOf(Held(trace))
    && match msg.typ
       case Solicit => msg.server.None? && Lacking(Held(trace), now) && Cause(trace) == Some(Pass)
       case Request =>
         msg.server.Some? &&
         exists j: nat :: AdvertisedAt(trace, j, msg.server.value) && StartedAt(trace, j, msg, retry)
       case Release =>
         msg.server.Some? && msg.server == ServerOf(trace) &&
         exists j: nat :: TakenAt(trace, j) && StartedAt(trace, j, msg, retry)
       case Renew => msg.server.Some? && msg.server == ServerOf(trace) && Keeps(trace, msg, retry)
       case Rebind => msg.server.None? && Keeps(trace, msg, retry)
       case _ => false
  }

  /** RENEW and REBIND: due after a reading while bound, or part of a confirmation. */
  ghost predicate Keeps(trace: Trace, msg: Event, retry: Retry)
    requires msg.Sent?
  {
    || (exists j: nat :: DueAt(trace, j, msg.typ) && StartedAt(trace, j, msg, retry))
    || (exists j: nat, m: nat :: ConfirmsBy(trace, j, m, msg, retry))
  }

  /** Every message has its reason and its addressee.  RENEW and RELEASE go to the sender of the
      reply the delegation came from, REQUEST to the sender of the ADVERTISE, the others to any
      server; SOLICIT only in a pass of the session and while nothing unexpired is held; RELEASE
      only on request; REBIND in a confirmation only after RENEW to a known server failed. */
  lemma MessagesCalledFor(trace: Trace, run: seq<Watch>, retry: Retry, n: nat)
    requires Accepted(trace, run, retry) && n < |trace| && trace[n].e.Sent?
    ensures Called(trace[..n], trace[n].e, trace[n].now, retry)
  {
    assert StepsAt(trace, run, n);
    KnowsAll(trace, run, retry, n);
    PhaseSound(trace, run, retry, n);
    CauseSound(trace, run, retry, n);
    CalledFor(trace[..n], run[n], trace[n]);
  }

  lemma CalledFor(trace: Trace, w: Watch, s: Stamped)
    requires Knows(trace, w) && PhaseMeans(trace, w) && CauseOf(w.phase, Cause(trace)) && s.e.Sent? && Step(w, s).Some?
    ensures Called(trace, s.e, s.now, w.retry)
  {
    ExpectedKept(w, s);
    match w.phase
    case Releasing(_) =>
      var j: nat :| ReleasingFrom(trace, j, w);
      assert TakenAt(trace, j) && StartedAt(trace, j, s.e, w.retry);
    case Asking(_, _) => ConfirmCalls(trace, w, s.e);
    case Requesting(_) =>
      var j: nat :| RequestingFrom(trace, j, w);
      assert AdvertisedAt(trace, j, s.e.server.value) && StartedAt(trace, j, s.e, w.retry);
    case Refreshing(_) =>
      var j: nat :| RefreshingFrom(trace, j, w);
      assert DueAt(trace, j, s.e.typ) && StartedAt(trace, j, s.e, w.retry);
    case _ =>
  }

  lemma ConfirmCalls(trace: Trace, w: Watch, msg: Event)
    requires PhaseMeans(trace, w) && w.phase.Asking? && msg.Sent? && Expected(w) == Some(msg)
    ensures Keeps(trace, msg, w.retry)
  {
    if w.server.Some? && !w.phase.renewed {
      var j: nat :| RenewingFrom(trace, j, w);
      assert ConfirmsBy(trace, j, j + 2, msg, w.retry);
    } else {
      var j: nat, m: nat :| RebindingFrom(trace, j, m, w);
      assert ConfirmsBy(trace, j, m, msg, w.retry);
    }
  }

  // ---- what must follow ----

  /** A clock reading while bound decides what comes next: the delegation is dropped if and
      only if it has expired, and then its prefix is withdrawn; an exchange to keep it follows
      if and only if T1 has passed and it has not expired, and then it is the due one; before
      T1 the client sleeps until it wakes, is released or stops. */
  lemma ReadingDecides(trace: Trace, run: seq<Watch>, retry: Retry, n: nat)
    requires Accepted(trace, run, retry) && n + 1 < |trace| && trace[n].e == Bide
    ensures Held(trace[..n]).Some?
    ensures var b, now, next := Held(trace[..n]).value, trace[n].now, trace[n + 1].e;
      && (next == Dropped <==> T1(b) <= now && b.expiresAt < now)
      && (next == Dropped && n + 2 < |trace| ==> trace[n + 2].e == Told(b.prefix, false))
      && (next.Begun? <==> T1(b) <= now <= b.expiresAt)
      && (next.Begun? ==> next.typ == if ServerOf(trace[..n]).Some? && now <= T2(b) then Renew else Rebind)
      && (next == Asked || next == TookRelease || next == Woke || next == Halted <==> now < T1(b))
  {
    KnowsAll(trace, run, retry, n);
    assert StepsAt(trace, run, n) && StepsAt(trace, run, n + 1);
    AfterBide(run[n], trace[n], run[n + 1], trace[n + 1]);
    if n + 2 < |trace| {
      assert StepsAt(trace, run, n + 2);
      if trace[n + 1].e == Dropped { LossFollows(run[n + 1], trace[n + 1], run[n + 2], trace[n + 2]); }
    }
  }

  lemma AfterBide(w: Watch, s: Stamped, v: Watch, t: Stamped)
    requires s.e == Bide && Step(w, s) == Some(v) && Step(v, t).Some?
    ensures w.binding.Some? && v.binding == w.binding
    ensures var b := w.binding.value;
      && (t.e == Dropped <==> T1(b) <= s.now && b.expiresAt < s.now)
      && (t.e.Begun? <==> T1(b) <= s.now <= b.expiresAt)
      && (t.e.Begun? ==> t.e.typ == DueType(b, w.server, s.now))
      && (t.e == Asked || t.e == TookRelease || t.e == Woke || t.e == Halted <==> s.now < T1(b))
  {
    assert v == On(w, s.now).(phase := AfterReading(w.binding.value, w.server, s.now));
  }

  lemma LossFollows(w: Watch, s: Stamped, v: Watch, t: Stamped)
    requires s.e == Dropped && Step(w, s) == Some(v) && Step(v, t).Some?
    ensures w.binding.Some? && t.e == Told(w.binding.value.prefix, false)
  {
  }

  /** The reading at n finds a delegation that is to be confirmed: unexpired at the top of a
      session pass, or before T1 after a sleep while bound. */
  predicate ToConfirm(trace: Trace, n: nat)
    requires n < |trace|
  {
    var b := Held(trace[..n]);
    (trace[n].e == Pass && !Lacking(b, trace[n].now)) || (trace[n].e == Woke && b.Some? && trace[n].now < T1(b.value))
  }

  /** Such a delegation is judged on the uplink next; a usable uplink leads straight to its
      confirmation, by RENEW if its server is known and by REBIND otherwise, and without one
      nothing is asked. */
  lemma UnexpiredIsConfirmed(trace: Trace, run: seq<Watch>, retry: Retry, n: nat)
    requires Accepted(trace, run, retry) && n + 3 < |trace| && ToConfirm(trace, n)
    ensures trace[n + 1].e.Netlink?
    ensures Usable(trace[n + 1].e.uplink) <==> trace[n + 2].e == Confirming
    ensures trace[n + 2].e == Confirming ==>
              trace[n + 3].e.Begun? && trace[n + 3].e.typ == if ServerOf(trace[..n]).Some? then Renew else Rebind
  {
    KnowsAll(trace, run, retry, n);
    assert StepsAt(trace, run, n) && StepsAt(trace, run, n + 1);
    assert StepsAt(trace, run, n + 2) && StepsAt(trace, run, n + 3);
    JudgedNext(run[n], trace[n], run[n + 1], trace[n + 1], run[n + 2], trace[n + 2]);
    if trace[n + 2].e == Confirming { AskedNext(run[n + 2], trace[n + 2], run[n + 3], trace[n + 3]); }
  }

  lemma JudgedNext(w: Watch, s: Stamped, v: Watch, t: Stamped, x: Watch, y: Stamped)
    requires Step(w, s) == Some(v) && Step(v, t) == Some(x) && Step(x, y).Some? && v.phase.Judging?
    requires s.e == Pass || s.e == Woke
    ensures t.e.Netlink? && x.server == w.server && (Usable(t.e.uplink) <==> y.e == Confirming)
  {
  }

  lemma AskedNext(w: Watch, s: Stamped, v: Watch, t: Stamped)
    requires s.e == Confirming && Step(w, s) == Some(v) && Step(v, t).Some?
    ensures t.e.Begun? && t.e.typ == if w.server.Some? then Renew else Rebind
  {
  }

  /** A pass of the session that finds nothing unexpired solicits at once, and any other looks at
      the uplink. */
  lemma FreeIsSolicited(trace: Trace, run: seq<Watch>, retry: Retry, n: nat)
    requires Accepted(trace, run, retry) && n + 1 < |trace| && trace[n].e == Pass
    ensures Lacking(Held(trace[..n]), trace[n].now) <==> trace[n + 1].e.Begun? && trace[n + 1].e.typ == Solicit
    ensures !Lacking(Held(trace[..n]), trace[n].now) <==> trace[n + 1].e.Netlink?
  {
    KnowsAll(trace, run, retry, n);
    assert StepsAt(trace, run, n) && StepsAt(trace, run, n + 1);
    AfterPass(run[n], trace[n], run[n + 1], trace[n + 1]);
  }

  lemma AfterPass(w: Watch, s: Stamped, v: Watch, t: Stamped)
    requires s.e == Pass && Step(w, s) == Some(v) && Step(v, t).Some?
    ensures if Free(w.binding, s.now) then t.e.Begun? && t.e.typ == Solicit else t.e.Netlink?
  {
  }

  /** Where a loop is entered again: a release may be asked for there, and otherwise the loop goes
      on unless it is stopped. */
  predicate LoopsOn(e: Event) {
    e == Asked || e == Going || e == Halted
  }

  /** A delegation given up is withdrawn next.  Then a new one is solicited at once if and only if
      it was refused in a pass of the session; after a release, an expiry or a refusal while
      bound the session's loop goes on. */
  lemma DropDecides(trace: Trace, run: seq<Watch>, retry: Retry, n: nat)
    requires Accepted(trace, run, retry) && n + 2 < |trace| && trace[n].e == Dropped
    ensures trace[n + 1].e.Told? && !trace[n + 1].e.ok && PrefixOf(Held(trace[..n])) == Some(trace[n + 1].e.prefix)
    ensures Cause(trace[..n]) == Some(Pass) <==> trace[n + 2].e.Begun? && trace[n + 2].e.typ == Solicit
    ensures Cause(trace[..n]) != Some(Pass) <==> LoopsOn(trace[n + 2].e)
  {
    KnowsAll(trace, run, retry, n);
    CauseSound(trace, run, retry, n);
    assert StepsAt(trace, run, n) && StepsAt(trace, run, n + 1) && StepsAt(trace, run, n + 2);
    LossFollows(run[n], trace[n], run[n + 1], trace[n + 1]);
    AfterLoss(run[n], trace[n], run[n + 1], trace[n + 1], run[n + 2], trace[n + 2]);
  }

  lemma AfterLoss(w: Watch, s: Stamped, v: Watch, t: Stamped, x: Watch, y: Stamped)
    requires s.e == Dropped && t.e.Told? && Paying(w)
    requires Step(w, s) == Some(v) && Step(v, t) == Some(x) && Step(x, y).Some?
    ensures DropOk(w)
    ensures if w.phase == Refused(false) then y.e.Begun? && y.e.typ == Solicit else LoopsOn(y.e)
  {
    SettleEffect(w, s, v);
    DebtEffect(w, s, v);
    DebtEffect(v, t, x);
    SettleEffect(v, t, x);
    LinkEffect(v, t, x);
  }

  /** Whether a result is a usable reply to a message that asks for a delegation. */
  ghost predicate Succeeds(e: Event)
    requires e.Got?
  {
    e.typ != Release && e.typ != Solicit && exists i: nat :: Offers(e.reply, i)
  }

  /** The result of an exchange decides what comes next.  A reply that delegates a prefix, and no
      other, is adopted: that prefix for its lifetime.  Without one, an ADVERTISE that names its
      sender leads to REQUEST, a RENEW of a confirmation to REBIND and that REBIND to the drop; a
      refresh while bound leads to a look at the clock, a RELEASE to the drop in any case, and
      after a failed SOLICIT or REQUEST the socket is opened again. */
  lemma ResultDecides(trace: Trace, run: seq<Watch>, retry: Retry, n: nat)
    requires Accepted(trace, run, retry) && n + 1 < |trace| && trace[n].e.Got?
    ensures var e, next, now := trace[n].e, trace[n + 1].e, trace[n + 1].now;
      && (Succeeds(e) <==> next.Bound?)
      && (Succeeds(e) ==> exists i: nat :: MadeFrom(e.reply, i, next.b, now))
      && (!Succeeds(e) ==> match e.typ
            case Solicit =>
              if e.reply.Some? && e.reply.value.serverID.Some? then next.Begun? && next.typ == Request
              else LoopsOn(next)
            case Request => LoopsOn(next)
            case Release => next == Dropped
            case Renew => if Cause(trace[..n]) == Some(Bide) then next == Recheck else next.Begun? && next.typ == Rebind
            case Rebind => next == if Cause(trace[..n]) == Some(Bide) then Recheck else Dropped
            case _ => false)
  {
    assert StepsAt(trace, run, n) && StepsAt(trace, run, n + 1);
    KnowsAll(trace, run, retry, n);
    PhaseSound(trace, run, retry, n);
    CauseSound(trace, run, retry, n);
    DelegatesMeans(trace[n].e.reply, trace[n + 1].now);
    AfterGot(run[n], trace[n], run[n + 1], trace[n + 1]);
    if !trace[n + 1].e.Bound? {
      KindOfPhase(trace[..n], run[n], trace[n]);
      FailureLeads(run[n], trace[n], run[n + 1], trace[n + 1]);
    }
  }

  lemma AfterGot(w: Watch, s: Stamped, v: Watch, t: Stamped)
    requires s.e.Got? && Step(w, s) == Some(v) && Step(v, t).Some?
    ensures t.e.Bound? <==> Offered(s.e.typ, s.e.reply).Some?
    ensures t.e.Bound? ==> t.e.b == Granted(Offered(s.e.typ, s.e.reply).value.grant, t.now)
    ensures Ended(w, s, v) && v.owed == []
  {
    DebtEffect(w, s, v);
    DebtEffect(v, t, Step(v, t).value);
    assert v.offer == Offered(s.e.typ, s.e.reply);
  }

  /** Which phases end in a result of which type, and for what cause. */
  lemma KindOfPhase(trace: Trace, w: Watch, s: Stamped)
    requires PhaseMeans(trace, w) && CauseOf(w.phase, Cause(trace)) && s.e.Got? && Step(w, s).Some?
    ensures match w.phase
      case Releasing(_) => s.e.typ == Release
      case Soliciting => s.e.typ == Solicit
      case Requesting(_) => s.e.typ == Request
      case Asking(_, renewed) =>
        && Cause(trace) != Some(Bide)
        && (s.e.typ == Renew || s.e.typ == Rebind) && (s.e.typ == Renew <==> w.server.Some? && !renewed)
      case Refreshing(_) => Cause(trace) == Some(Bide) && (s.e.typ == Renew || s.e.typ == Rebind)
      case _ => false
  {
    GotKept(w, s);
    if w.phase.Refreshing? {
      var j: nat :| RefreshingFrom(trace, j, w);
    }
  }

  /** What follows a result that is not adopted. */
  lemma FailureLeads(w: Watch, s: Stamped, v: Watch, t: Stamped)
    requires Ended(w, s, v) && v.owed == [] && v.offer.None? && Step(v, t).Some?
    requires s.e.typ != Release && s.e.typ != Solicit ==> Delegates(s.e.reply).None?
    ensures match w.phase
      case Releasing(_) => t.e == Dropped
      case Soliciting =>
        if s.e.reply.Some? && s.e.reply.value.serverID.Some? then t.e.Begun? && t.e.typ == Request else LoopsOn(t.e)
      case Requesting(_) => s.e.typ == Request ==> LoopsOn(t.e)
      case Asking(_, _) =>
        if s.e.typ == Renew then t.e.Begun? && t.e.typ == Rebind else s.e.typ == Rebind ==> t.e == Dropped
      case Refreshing(_) => s.e.typ == Renew || s.e.typ == Rebind ==> t.e == Recheck
      case _ => true
  {
  }

  /** A look at the clock after a failed refresh: the delegation is dropped if and only if it has
      expired, and otherwise held on. */
  lemma RecheckDecides(trace: Trace, run: seq<Watch>, retry: Retry, n: nat)
    requires Accepted(trace, run, retry) && n + 1 < |trace| && trace[n].e == Recheck
    ensures Held(trace[..n]).Some?
    ensures trace[n + 1].e == Dropped <==> Held(trace[..n]).value.expiresAt < trace[n].now
    ensures trace[n + 1].e != Dropped <==> LoopsOn(trace[n + 1].e)
  {
    KnowsAll(trace, run, retry, n);
    assert StepsAt(trace, run, n) && StepsAt(trace, run, n + 1);
    AfterRecheck(run[n], trace[n], run[n + 1], trace[n + 1]);
  }

  lemma AfterRecheck(w: Watch, s: Stamped, v: Watch, t: Stamped)
    requires s.e == Recheck && Step(w, s) == Some(v) && Step(v, t).Some?
    ensures w.binding.Some?
    ensures if w.binding.value.expiresAt < s.now then t.e == Dropped else LoopsOn(t.e)
  {
  }

  /** An adopted delegation is held: after its callbacks the client waits for the next pass of
      the loop that holds it, which reads the clock unless a release has been asked for. */
  lemma AdoptedIsHeld(trace: Trace, run: seq<Watch>, retry: Retry, n: nat)
    requires Accepted(trace, run, retry) && n + 2 < |trace| && !trace[n + 1].e.Told?
    requires trace[n].e.Bound? || (trace[n].e.Told? && trace[n].e.ok)
    ensures LoopsOn(trace[n + 1].e)
    ensures trace[n + 1].e == Going ==>
              trace[n + 2].e == Asked || trace[n + 2].e == TookRelease || trace[n + 2].e == Bide
  {
    KnowsAll(trace, run, retry, n);
    assert StepsAt(trace, run, n) && StepsAt(trace, run, n + 1) && StepsAt(trace, run, n + 2);
    AdoptedNext(run[n], trace[n], run[n + 1], trace[n + 1]);
    HeldNext(run[n + 1], trace[n + 1], run[n + 2], trace[n + 2]);
  }

  lemma AdoptedNext(w: Watch, s: Stamped, v: Watch, t: Stamped)
    requires Paying(w) && (w.owed != [] ==> w.offer.None?) && (s.e.Bound? || (s.e.Told? && s.e.ok)) && !t.e.Told?
    requires Step(w, s) == Some(v) && Step(v, t).Some?
    ensures v.phase == Top(Holds) && v.offer.None? && v.link == Shut && !v.blank
  {
    SettleEffect(w, s, v);
    DebtEffect(w, s, v);
    DebtEffect(v, t, Step(v, t).value);
    ClockEffect(w, s, v);
  }

  lemma HeldNext(w: Watch, s: Stamped, v: Watch, t: Stamped)
    requires w.phase == Top(Holds) && w.offer.None? && w.link == Shut && !s.e.Told? && !w.blank
    requires Step(w, s) == Some(v) && Step(v, t).Some?
    ensures LoopsOn(s.e)
    ensures s.e == Going ==> t.e == Asked || t.e == TookRelease || t.e == Bide
  {
  }

  /** An open socket is used: the session's loop is entered, and its pass reads the clock unless a
      release has been asked for; without a socket another one is tried. */
  lemma SocketIsUsed(trace: Trace, run: seq<Watch>, retry: Retry, n: nat)
    requires Accepted(trace, run, retry) && n + 2 < |trace| && trace[n].e.Socket?
    ensures LoopsOn(trace[n + 1].e)
    ensures trace[n + 1].e == Going ==>
              if trace[n].e.ok then trace[n + 2].e == Asked || trace[n + 2].e == TookRelease || trace[n + 2].e == Pass
              else trace[n + 2].e.Socket?
  {
    assert StepsAt(trace, run, n) && StepsAt(trace, run, n + 1) && StepsAt(trace, run, n + 2);
    AfterSocket(run[n], trace[n], run[n + 1], trace[n + 1], run[n + 2], trace[n + 2]);
  }

  lemma AfterSocket(w: Watch, s: Stamped, v: Watch, t: Stamped, x: Watch, y: Stamped)
    requires s.e.Socket? && Step(w, s) == Some(v) && Step(v, t) == Some(x) && Step(x, y).Some?
    ensures LoopsOn(t.e)
    ensures t.e == Going ==> if s.e.ok then y.e == Asked || y.e == TookRelease || y.e == Pass else y.e.Socket?
  {
    assert v == On(w, s.now).(phase := Top(if s.e.ok then Sessions else Runs));
  }

  /** A pending release is taken before the client acts on the clock again. */
  lemma ReleaseComesFirst(trace: Trace, run: seq<Watch>, retry: Retry, n: nat)
    requires Accepted(trace, run, retry) && n < |trace|
    requires trace[n].e == Pass || trace[n].e == Bide || trace[n].e == Woke
    ensures !Pending(trace[..n])
  {
    KnowsAll(trace, run, retry, n);
    assert StepsAt(trace, run, n);
    NoneWaits(run[n], trace[n]);
  }

  lemma NoneWaits(w: Watch, s: Stamped)
    requires Step(w, s).Some? && (s.e == Pass || s.e == Bide || s.e == Woke)
    ensures !w.pending
  {
  }
}
