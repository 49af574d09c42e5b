/** What a correct prefix-delegation client may do.  `Watch` is a monitor over traces of
    PdEvents; the lemmas below say what its acceptance means, in terms of the trace alone, for
    the delegation, the server, exchanges and callbacks. */
module PdTrace {
  import opened Arith
  import opened Addressing
  import opened PdEvents

  // ---- the monitor ----

  /** The client's nested loops: run opens sockets, a session goes on while a socket serves, and
      a delegation is held in a loop of its own. */
  datatype Loop = Runs | Sessions | Holds

  datatype Phase =
    | Top(loop: Loop)                // stop is looked at next
    | Inside(loop: Loop)             // a pass has begun
    | Releasing(replied: bool)
    | Judging(held: bool)            // an unexpired delegation is to be confirmed; held: after a
                                     // sleep while bound, otherwise in a pass of the session
    | UpSeen(held: bool)             // and the uplink is usable
    | Asking(held: bool, renewed: bool)   // confirming; renewed: RENEW gave nothing
    | Refused(held: bool)            // RENEW, if possible, and REBIND gave nothing
    | Soliciting                     // nothing unexpired is held
    | Requesting(advertiser: Duid)   // an ADVERTISE has come
    | Sleeping                       // bound, before T1
    | Refreshing(typ: MsgType)       // T1 has passed
    | Tried                          // and the exchange gave nothing
    | Late                           // the delegation has expired

  /** A usable reply just received and its sender. */
  datatype Offer = Offer(grant: Grant, from: Option<Duid>)

  datatype Watch = Watch(
    retry: Retry,
    blank: bool,                           // nothing has happened yet
    clock: Time,
    pending: bool,                         // a release request
    binding: Option<Binding>,
    server: Option<Duid>,
    served: Option<Prefix>,                // what the callbacks say
    muted: bool,                           // restored without telling the interface
    owed: seq<(Prefix, bool)>,             // callbacks that must come next
    offer: Option<Offer>,
    phase: Phase,
    link: Link)                            // the exchange under way

  function Start(retry: Retry, now: Time): (w: Watch) {
    Watch(retry, true, now, false, None, None, None, false, [], None, Top(Runs), Shut)
  }

  /** Nothing is held, or it has expired. */
  predicate Free(binding: Option<Binding>, now: Time) {
    binding.None? || binding.value.expiresAt <= now
  }

  /** The message that may be exchanged now, with its addressee and the held prefix as a hint. */
  function Expected(w: Watch): (msg: Option<Event>)
    ensures msg.Some? ==> msg.value.Sent?
  {
    var hint := PrefixOf(w.binding);
    match w.phase
    case Soliciting => Some(Sent(Solicit, None, hint))
    case Releasing(replied) =>
      if !replied && w.server.Some? then Some(Sent(Release, w.server, hint)) else None
    case Asking(_, renewed) =>
      Some(if w.server.Some? && !renewed then Sent(Renew, w.server, hint) else Sent(Rebind, None, hint))
    case Requesting(advertiser) => Some(Sent(Request, Some(advertiser), hint))
    case Refreshing(typ) => Some(Sent(typ, if typ == Renew then w.server else None, hint))
    case _ => None
  }

  /** The delegation an exchange yields: none in answer to RELEASE or SOLICIT. */
  function Offered(typ: MsgType, reply: Option<Message>): (o: Option<Offer>) {
    if typ == Release || typ == Solicit || Delegates(reply).None? then None
    else Some(Offer(Delegates(reply).value, reply.value.serverID))
  }

  function AfterReply(phase: Phase, typ: MsgType, reply: Option<Message>): (p: Phase) {
    match phase
    case Releasing(_) => Releasing(true)
    case Asking(held, _) =>
      if Delegates(reply).Some? then Top(Holds) else if typ == Renew then Asking(held, true) else Refused(held)
    case Refreshing(_) => if Delegates(reply).Some? then Top(Holds) else Tried
    case Soliciting =>
      if reply.Some? && reply.value.serverID.Some? then Requesting(reply.value.serverID.value) else Top(Runs)
    case _ => if Delegates(reply).Some? then Top(Holds) else Top(Runs)
  }

  /** A delegation refused in a pass of the session is replaced at once, any other drop leads to
      the next pass. */
  function AfterDrop(phase: Phase): (p: Phase) {
    if phase == Refused(false) then Soliciting else Top(Sessions)
  }

  /** Where a loop may be told to stop. */
  predicate Stoppable(phase: Phase) {
    phase.Top? || phase.Sleeping?
  }

  /** Where a release request may arrive. */
  predicate Askable(phase: Phase) {
    Stoppable(phase) || Attentive(phase)
  }

  /** Where a release request is looked for. */
  predicate Attentive(phase: Phase) {
    phase == Inside(Sessions) || phase == Inside(Holds) || phase == Sleeping
  }

  /** When a delegation may be given up: on a release once its exchange is over, if the server
      is known, on a refused confirmation, or when it has expired. */
  predicate DropOk(w: Watch) {
    match w.phase
    case Releasing(replied) => w.server.None? || replied
    case Refused(_) => true
    case Late => true
    case _ => false
  }

  /** What a reading while bound calls for. */
  function AfterReading(b: Binding, server: Option<Duid>, now: Time): (p: Phase) {
    if now < T1(b) then Sleeping else if b.expiresAt < now then Late else Refreshing(DueType(b, server, now))
  }

  /** The callbacks a new binding calls for. */
  function Changes(was: Option<Binding>, b: Binding): (owed: seq<(Prefix, bool)>) {
    if was.None? then [(b.prefix, true)]
    else if was.value.prefix != b.prefix then [(was.value.prefix, false), (b.prefix, true)]
    else []
  }

  /** What the client owes: callbacks, the adoption of a usable reply, the end of an exchange,
      the next step of each loop, a pending release before anything else in it, and the steps
      that an unexpired delegation, none, a usable uplink, a confirmation, a release, an
      ADVERTISE, a wake-up, T1 or expiry call for. */
  predicate MayFollow(w: Watch, e: Event) {
    if w.owed != [] then e.Told?
    else if w.offer.Some? then e.Bound?
    else if w.link.Open? then OnWire(e) || e.Got?
    else match w.phase
      case Top(_) => e.Asked? || e.Going? || e.Halted? || (w.blank && (e.Restored? || e.Unserved?))
      case Inside(Runs) => e.Socket?
      case Inside(Sessions) => e.Asked? || e.TookRelease? || (e.Pass? && !w.pending)
      case Inside(Holds) => e.Asked? || e.TookRelease? || (e.Bide? && !w.pending)
      case Releasing(_) => e.Begun? || e.Dropped?
      case Judging(_) => e.Netlink?
      case UpSeen(_) => e.Confirming?
      case Asking(_, _) => e.Begun?
      case Soliciting => e.Begun?
      case Requesting(_) => e.Begun?
      case Sleeping => e.Asked? || e.TookRelease? || e.Halted? || (e.Woke? && !w.pending)
      case Refreshing(_) => e.Begun?
      case Tried => e.Recheck?
      case Refused(_) => e.Dropped?
      case Late => e.Dropped?
  }

  /** No callback, adoption or exchange is under way. */
  predicate Resting(w: Watch) {
    w.owed == [] && w.offer.None? && w.link == Shut
  }

  function Step(w: Watch, s: Stamped): (r: Option<Watch>) {
    if !(w.clock <= s.now && MayFollow(w, s.e)) then None
    else if OnWire(s.e) then WireStep(On(w, s.now), s)
    else StepOn(On(w, s.now), w.blank, s.e)
  }

  function On(w: Watch, now: Time): (r: Watch) {
    w.(clock := now, blank := false)
  }

  function WireStep(w: Watch, s: Stamped): (r: Option<Watch>) {
    if Expected(w).None? then None
    else
      var l := LinkStep(w.link, w.retry, s, Expected(w).value);
      if l.Some? then Some(w.(link := l.value)) else None
  }

  function StepOn(w: Watch, blank: bool, e: Event): (r: Option<Watch>) {
    match e
    case Restored(b) =>
      if blank then Some(w.(binding := Some(b), served := Some(b.prefix))) else None
    case Unserved(b) =>
      if blank then Some(w.(binding := Some(b), served := Some(b.prefix), muted := true)) else None
    case Going => if w.phase.Top? then Some(w.(phase := Inside(w.phase.loop))) else None
    case Halted => Some(w.(phase := Top(Runs)))
    case Socket(ok) => Some(w.(phase := Top(if ok then Sessions else Runs)))
    case Asked => Some(w.(pending := true))
    case TookRelease =>
      if w.pending
      then Some(w.(pending := false, phase := if w.binding.Some? then Releasing(false) else w.phase))
      else None
    case Pass => Some(w.(phase := if Free(w.binding, w.clock) then Soliciting else Judging(false)))
    case Netlink(u) =>
      if w.phase.Judging? then Some(w.(phase := Judged(w.phase.held, u))) else None
    case Confirming => if w.phase.UpSeen? then Some(w.(phase := Asking(w.phase.held, false))) else None
    case Bide =>
      if w.binding.Some? then Some(w.(phase := AfterReading(w.binding.value, w.server, w.clock))) else None
    case Woke =>
      if w.binding.Some?
      then Some(w.(phase := if w.clock < T1(w.binding.value) then Judging(true) else Top(Holds))) else None
    case Recheck =>
      if w.binding.Some?
      then Some(w.(phase := if w.binding.value.expiresAt < w.clock then Late else Top(Holds)))
      else None
    case Got(typ, reply) =>
      if Expected(w).Some? && Expected(w).value.typ == typ && Done(w.link, w.retry, reply)
      then Some(w.(offer := Offered(typ, reply), phase := AfterReply(w.phase, typ, reply), link := Shut))
      else None
    case Bound(b) =>
      if w.offer.Some? && b == Granted(w.offer.value.grant, w.clock)
      then Some(w.(binding := Some(b), server := w.offer.value.from, offer := None,
                   owed := Changes(w.binding, b)))
      else None
    case Dropped =>
      if w.binding.Some? && DropOk(w)
      then Some(w.(binding := None, server := None, phase := AfterDrop(w.phase),
                   owed := [(w.binding.value.prefix, false)]))
      else None
    case Told(prefix, ok) =>
      if w.owed != [] && w.owed[0] == (prefix, ok) && w.served == (if ok then None else Some(prefix))
      then Some(w.(owed := w.owed[1..], served := if ok then Some(prefix) else None, muted := w.muted && ok))
      else None
    case _ => None
  }

  /** What the uplink means for a delegation to be confirmed: without a usable one it is kept, and
      the loop goes on. */
  function Judged(held: bool, u: Uplink): (p: Phase) {
    if Usable(u) then UpSeen(held) else Top(if held then Holds else Sessions)
  }

  /** The monitor goes through the states `run` on `trace`. */
  predicate Accepted(trace: Trace, run: seq<Watch>, retry: Retry) {
    && |run| == |trace| + 1 && run[0] == Start(retry, run[0].clock)
    && (forall i | 0 <= i < |run| :: run[i].retry == retry)
    && forall i | 0 <= i < |trace| :: StepsAt(trace, run, i)
  }

  predicate StepsAt(trace: Trace, run: seq<Watch>, i: nat)
    requires |run| == |trace| + 1 && i < |trace|
  {
    Step(run[i], trace[i]) == Some(run[i + 1])
  }

  lemma RetryStays(w: Watch, s: Stamped)
    requires Step(w, s).Some?
    ensures Step(w, s).value.retry == w.retry
  {
  }

  lemma AcceptedAppend(trace: Trace, run: seq<Watch>, retry: Retry, s: Stamped, w: Watch)
    requires Accepted(trace, run, retry) && Step(run[|trace|], s) == Some(w)
    ensures Accepted(trace + [s], run + [w], retry)
  {
    RetryStays(run[|trace|], s);
    forall i | 0 <= i < |trace| + 1 ensures StepsAt(trace + [s], run + [w], i) {
      if i < |trace| { assert StepsAt(trace, run, i); }
    }
  }

  /** What may be exchanged does not change while time passes. */
  lemma ExpectedStays(w: Watch, now: Time, link: Link)
    requires Expected(w).Some? && w.clock <= now
    ensures Expected(On(w, now)) == Expected(w) && Expected(On(w, now).(link := link)) == Expected(w)
  {
  }

  lemma WireSteps(w: Watch, s: Stamped, msg: Event)
    requires w.owed == [] && w.offer.None? && w.clock <= s.now && OnWire(s.e) && Expected(w) == Some(msg)
    requires w.link.Open? || s.e.Begun?
    requires LinkStep(w.link, w.retry, s, msg).Some?
    ensures Step(w, s) == Some(On(w, s.now).(link := LinkStep(w.link, w.retry, s, msg).value))
  {
    ExpectedStays(w, s.now, w.link);
  }

  lemma GotStep(w: Watch, now: Time, typ: MsgType, reply: Option<Message>)
    requires w.owed == [] && w.offer.None? && w.clock <= now && Done(w.link, w.retry, reply)
    requires Expected(w).Some? && Expected(w).value.typ == typ
    ensures Step(w, At(now, Got(typ, reply))) ==
            Some(On(w, now).(offer := Offered(typ, reply), phase := AfterReply(w.phase, typ, reply), link := Shut))
  {
    ExpectedStays(w, now, w.link);
  }

  // what a step does to each part of the state

  /** The delegation, its server and the pending request. */
  lemma HeldEffect(w: Watch, s: Stamped, v: Watch)
    requires Step(w, s) == Some(v)
    ensures v.retry == w.retry && w.clock <= v.clock == s.now && !v.blank
    ensures s.e.Restored? || s.e.Unserved? ==> w.blank
    ensures v.binding == if s.e.Restored? || s.e.Unserved? || s.e.Bound? then Some(s.e.b)
                         else if s.e.Dropped? then None else w.binding
    ensures s.e.Bound? ==> w.offer.Some?
    ensures v.server == if s.e.Bound? then w.offer.value.from else if s.e.Dropped? then None else w.server
    ensures v.pending <==> s.e == Asked || (s.e != TookRelease && w.pending)
  {
    BindingEffect(w, s, v);
    ServerEffect(w, s, v);
    ClockEffect(w, s, v);
    PendingEffect(w, s, v);
  }

  lemma BindingEffect(w: Watch, s: Stamped, v: Watch)
    requires Step(w, s) == Some(v)
    ensures s.e.Restored? || s.e.Unserved? ==> w.blank
    ensures v.binding == if s.e.Restored? || s.e.Unserved? || s.e.Bound? then Some(s.e.b)
                         else if s.e.Dropped? then None else w.binding
  {
  }

  lemma ServerEffect(w: Watch, s: Stamped, v: Watch)
    requires Step(w, s) == Some(v)
    ensures s.e.Bound? ==> w.offer.Some?
    ensures v.server == if s.e.Bound? then w.offer.value.from else if s.e.Dropped? then None else w.server
  {
  }

  lemma ClockEffect(w: Watch, s: Stamped, v: Watch)
    requires Step(w, s) == Some(v)
    ensures v.retry == w.retry && w.clock <= v.clock == s.now && !v.blank
  {
  }

  lemma PendingEffect(w: Watch, s: Stamped, v: Watch)
    requires Step(w, s) == Some(v)
    ensures v.pending <==> s.e == Asked || (s.e != TookRelease && w.pending)
  {
  }

  /** What is served. */
  lemma ServiceEffect(w: Watch, s: Stamped, v: Watch)
    requires Step(w, s) == Some(v)
    ensures s.e.Told? ==> w.owed != [] && w.owed[0] == (s.e.prefix, s.e.ok)
    ensures s.e.Told? ==> w.served == (if s.e.ok then None else Some(s.e.prefix))
    ensures v.served == if s.e.Told? then (if s.e.ok then Some(s.e.prefix) else None)
                        else if s.e.Restored? || s.e.Unserved? then Some(s.e.b.prefix) else w.served
    ensures v.muted <==> s.e.Unserved? || (w.muted && (s.e.Told? ==> s.e.ok))
  {
  }

  /** What is owed. */
  lemma DebtEffect(w: Watch, s: Stamped, v: Watch)
    requires Step(w, s) == Some(v)
    ensures if s.e.Told? then w.owed != [] && v.owed == w.owed[1..] && v.offer == w.offer else w.owed == []
    ensures if s.e.Bound? then w.offer.Some? && s.e.b == Granted(w.offer.value.grant, s.now) && v.offer.None? &&
                               v.owed == Changes(w.binding, s.e.b)
            else s.e.Told? || w.offer.None?
    ensures s.e.Dropped? ==> w.binding.Some? && DropOk(w) && v.owed == [(w.binding.value.prefix, false)]
    ensures v.offer.Some? ==> s.e.Told? || (s.e.Got? && v.offer == Offered(s.e.typ, s.e.reply))
    ensures v.owed != [] ==> s.e.Told? || s.e.Bound? || s.e.Dropped?
  {
    PaidEffect(w, s, v);
    MadeEffect(w, s, v);
  }

  lemma PaidEffect(w: Watch, s: Stamped, v: Watch)
    requires Step(w, s) == Some(v)
    ensures if s.e.Told? then w.owed != [] && v.owed == w.owed[1..] && v.offer == w.offer else w.owed == []
    ensures if s.e.Bound? then w.offer.Some? && s.e.b == Granted(w.offer.value.grant, s.now) && v.offer.None? &&
                               v.owed == Changes(w.binding, s.e.b)
            else s.e.Told? || w.offer.None?
  {
  }

  lemma MadeEffect(w: Watch, s: Stamped, v: Watch)
    requires Step(w, s) == Some(v)
    ensures s.e.Dropped? ==> w.binding.Some? && DropOk(w) && v.owed == [(w.binding.value.prefix, false)]
    ensures v.offer.Some? ==> s.e.Told? || (s.e.Got? && v.offer == Offered(s.e.typ, s.e.reply))
    ensures v.owed != [] ==> s.e.Told? || s.e.Bound? || s.e.Dropped?
  {
  }

  /** Callbacks and adoptions come with no exchange, and the phase is the one to go on from. */
  predicate Paying(w: Watch) {
    && (w.owed != [] ==> if w.owed[|w.owed| - 1].1 then w.phase == Top(Holds)
                         else w.phase == Top(Sessions) || w.phase == Soliciting)
    && (w.offer.Some? ==> w.phase == Top(Holds))
    && (w.owed != [] || w.offer.Some? ==> w.link == Shut)
  }

  lemma RestEffect(w: Watch, s: Stamped, v: Watch)
    requires Step(w, s) == Some(v) && Paying(w)
    ensures Paying(v)
  {
    DebtEffect(w, s, v);
    if s.e.Told? || s.e.Bound? || s.e.Dropped? || s.e.Got? { SettleEffect(w, s, v); }
  }

  lemma SettleEffect(w: Watch, s: Stamped, v: Watch)
    requires Step(w, s) == Some(v) && (s.e.Told? || s.e.Bound? || s.e.Dropped? || s.e.Got?)
    ensures v.link == if s.e.Got? then Shut else w.link
    ensures s.e.Told? || s.e.Bound? ==> v.phase == w.phase
    ensures s.e.Dropped? ==> w.link == Shut && v.phase == AfterDrop(w.phase)
    ensures s.e.Got? && v.offer.Some? ==> v.phase == Top(Holds)
  {
  }

  // events that move only the phase and the pending request

  predicate MovesTo(w: Watch, s: Stamped, phase: Phase, pending: bool) {
    Step(w, s) == Some(On(w, s.now).(phase := phase, pending := pending))
  }

  lemma AskedMoves(w: Watch, now: Time)
    requires Resting(w) && w.clock <= now && Askable(w.phase)
    ensures MovesTo(w, At(now, Asked), w.phase, true)
  {
  }

  lemma TookMoves(w: Watch, now: Time)
    requires Resting(w) && w.clock <= now && Attentive(w.phase) && w.pending
    ensures MovesTo(w, At(now, TookRelease), if w.binding.Some? then Releasing(false) else w.phase, false)
  {
  }

  lemma PassMoves(w: Watch, now: Time)
    requires Resting(w) && w.clock <= now && w.phase == Inside(Sessions) && !w.pending
    ensures MovesTo(w, At(now, Pass), if Free(w.binding, now) then Soliciting else Judging(false), w.pending)
  {
  }

  lemma NetlinkMoves(w: Watch, now: Time, u: Uplink)
    requires Resting(w) && w.clock <= now && w.phase.Judging?
    ensures MovesTo(w, At(now, Netlink(u)), Judged(w.phase.held, u), w.pending)
  {
  }

  lemma ConfirmingMoves(w: Watch, now: Time)
    requires Resting(w) && w.clock <= now && w.phase.UpSeen?
    ensures MovesTo(w, At(now, Confirming), Asking(w.phase.held, false), w.pending)
  {
  }

  lemma BideMoves(w: Watch, now: Time)
    requires Resting(w) && w.clock <= now && w.phase == Inside(Holds) && !w.pending && w.binding.Some?
    ensures MovesTo(w, At(now, Bide), AfterReading(w.binding.value, w.server, now), w.pending)
  {
  }

  lemma WokeMoves(w: Watch, now: Time)
    requires Resting(w) && w.clock <= now && w.phase == Sleeping && !w.pending && w.binding.Some?
    ensures MovesTo(w, At(now, Woke), if now < T1(w.binding.value) then Judging(true) else Top(Holds), w.pending)
  {
  }

  lemma HaltedMoves(w: Watch, now: Time)
    requires Resting(w) && w.clock <= now && Stoppable(w.phase)
    ensures MovesTo(w, At(now, Halted), Top(Runs), w.pending)
  {
  }

  lemma GoingMoves(w: Watch, now: Time)
    requires Resting(w) && w.clock <= now && w.phase.Top?
    ensures MovesTo(w, At(now, Going), Inside(w.phase.loop), w.pending)
  {
  }

  lemma SocketMoves(w: Watch, now: Time, ok: bool)
    requires Resting(w) && w.clock <= now && w.phase == Inside(Runs)
    ensures MovesTo(w, At(now, Socket(ok)), Top(if ok then Sessions else Runs), w.pending)
  {
  }

  lemma RecheckMoves(w: Watch, now: Time)
    requires Resting(w) && w.clock <= now && w.phase == Tried && w.binding.Some?
    ensures MovesTo(w, At(now, Recheck), if w.binding.value.expiresAt < now then Late else Top(Holds), w.pending)
  {
  }

  lemma Grow(trace: Trace, n: nat)
    requires n < |trace|
    ensures trace[..n + 1] == trace[..n] + [trace[n]]
  {
  }

  // ---- the monitor knows what the trace says ----

  predicate Knows(trace: Trace, w: Watch) {
    && (w.blank ==> w == Start(w.retry, w.clock)) && (w.blank <==> trace == [])
    && w.binding == Held(trace) && w.server == ServerOf(trace) && w.pending == Pending(trace)
    && (w.offer.Some? ==> EndsWith(trace, w.offer.value))
    && (w.owed != [] ==> w.offer.None?) && Paying(w)
  }

  /** The trace ends with the reply that makes this offer. */
  predicate EndsWith(trace: Trace, o: Offer) {
    && trace != [] && trace[|trace| - 1].e.Got?
    && Offered(trace[|trace| - 1].e.typ, trace[|trace| - 1].e.reply) == Some(o)
  }

  lemma KnowStep(trace: Trace, w: Watch, s: Stamped, v: Watch)
    requires Knows(trace, w) && Step(w, s) == Some(v)
    ensures Knows(trace + [s], v)
  {
    ReadOn(trace, s);
    HeldEffect(w, s, v);
    DebtEffect(w, s, v);
    RestEffect(w, s, v);
    assert (trace + [s])[|trace|] == s;
  }

  lemma ReadOn(trace: Trace, s: Stamped)
    ensures Held(trace + [s]) ==
            if s.e.Restored? || s.e.Unserved? || s.e.Bound? then Some(s.e.b)
            else if s.e.Dropped? then None else Held(trace)
    ensures ServerOf(trace + [s]) ==
            if s.e.Bound? then Sender(trace)
            else if s.e.Restored? || s.e.Unserved? || s.e.Dropped? then None else ServerOf(trace)
    ensures Pending(trace + [s]) <==> s.e == Asked || (s.e != TookRelease && Pending(trace))
  {
    assert (trace + [s])[..|trace|] == trace;
  }

  lemma {:induction false} KnowsAll(trace: Trace, run: seq<Watch>, retry: Retry, n: nat)
    requires Accepted(trace, run, retry) && n <= |trace|
    ensures Knows(trace[..n], run[n])
  {
    if n > 0 {
      KnowsAll(trace, run, retry, n - 1);
      assert StepsAt(trace, run, n - 1);
      Grow(trace, n - 1);
      KnowNext(trace[..n - 1], run[n - 1], trace[n - 1], trace[..n], run[n]);
    }
  }

  lemma KnowNext(trace: Trace, w: Watch, s: Stamped, after: Trace, v: Watch)
    requires Knows(trace, w) && Step(w, s) == Some(v) && after == trace + [s]
    ensures Knows(after, v)
  {
    KnowStep(trace, w, s, v);
  }

  // ---- every result is that of an exchange ----

  /** The exchange under way began at `from`. */
  predicate Within(trace: Trace, from: nat, msg: Event, w: Watch) {
    msg.Sent? && from <= |trace| && Replay(trace[from..], msg, w.retry) == Some(w.link)
  }

  lemma NothingYet(trace: Trace, msg: Event, w: Watch)
    requires msg.Sent? && w.link == Shut
    ensures Within(trace, |trace|, msg, w)
  {
    assert trace[|trace|..] == [];
  }

  lemma WithinStep(trace: Trace, from: nat, msg: Event, w: Watch, s: Stamped, v: Watch)
    requires Within(trace, from, msg, w) && v.retry == w.retry
    requires LinkStep(w.link, w.retry, s, msg) == Some(v.link)
    ensures Within(trace + [s], from, msg, v)
  {
    assert (trace + [s])[from..] == trace[from..] + [s];
    ReplayNext(trace[from..], s, msg, w.retry);
  }

  lemma WithinEnds(trace: Trace, from: nat, msg: Event, w: Watch, s: Stamped)
    requires Within(trace, from, msg, w) && s.e.Got? && s.e.typ == msg.typ && Done(w.link, w.retry, s.e.reply)
    ensures Finishes(trace + [s], from, |trace| + 1, msg, w.retry)
  {
    var after := trace + [s];
    assert from <= |trace| && after[from..|trace|] == trace[from..] && after[|trace|] == s;
  }

  ghost predicate Traced(trace: Trace, w: Watch) {
    w.link.Open? ==> Expected(w).Some? && exists from: nat :: Within(trace, from, Expected(w).value, w)
  }

  lemma TracedStep(trace: Trace, w: Watch, s: Stamped, v: Watch)
    requires Knows(trace, w) && Traced(trace, w) && Step(w, s) == Some(v)
    ensures Traced(trace + [s], v)
  {
    LinkEffect(w, s, v);
    if OnWire(s.e) {
      var msg := Expected(On(w, s.now)).value;
      var from: nat;
      if w.link.Open? {
        ExpectedStays(w, s.now, v.link);
        from :| Within(trace, from, msg, w);
      } else {
        from := |trace|;
        NothingYet(trace, msg, w);
      }
      WithinStep(trace, from, msg, w, s, v);
    }
  }

  lemma LinkEffect(w: Watch, s: Stamped, v: Watch)
    requires Step(w, s) == Some(v) && (w.owed != [] || w.offer.Some? ==> w.link == Shut)
    ensures if OnWire(s.e) then
              && Expected(On(w, s.now)).Some? && v == On(w, s.now).(link := v.link)
              && LinkStep(w.link, w.retry, s, Expected(On(w, s.now)).value) == Some(v.link)
            else v.link == Shut
    ensures v.retry == w.retry && w.clock <= s.now
  {
  }

  lemma {:induction false} TracedAll(trace: Trace, run: seq<Watch>, retry: Retry, n: nat)
    requires Accepted(trace, run, retry) && n <= |trace|
    ensures Traced(trace[..n], run[n])
  {
    if n > 0 {
      TracedAll(trace, run, retry, n - 1);
      KnowsAll(trace, run, retry, n - 1);
      assert StepsAt(trace, run, n - 1);
      Grow(trace, n - 1);
      TracedStep(trace[..n - 1], run[n - 1], trace[n - 1], run[n]);
    }
  }

  /** Every result in an accepted trace ends a whole exchange, begun at `from`. */
  lemma ResultsAreExchanged(trace: Trace, run: seq<Watch>, retry: Retry, n: nat)
    returns (from: nat, msg: Event)
    requires Accepted(trace, run, retry) && n < |trace| && trace[n].e.Got?
    ensures Finishes(trace, from, n + 1, msg, retry)
  {
    assert StepsAt(trace, run, n);
    TracedAll(trace, run, retry, n);
    KnowsAll(trace, run, retry, n);
    var w := run[n];
    msg := Expected(w).value;
    from :| Within(trace[..n], from, msg, w);
    ExpectedStays(w, trace[n].now, w.link);
    WithinEnds(trace[..n], from, msg, w, trace[n]);
    Grow(trace, n);
    FinishesOn(trace[..n + 1], trace, from, n + 1, msg, retry);
  }

  // ---- callbacks ----

  /** The sequence of callbacks; serving a restored delegation is one. */
  function Tells(trace: Trace): (r: seq<(Prefix, bool)>) {
    if trace == [] then []
    else
      Tells(trace[..|trace| - 1]) + TellOf(trace[|trace| - 1].e)
  }

  /** The callback an event amounts to, if any. */
  function TellOf(e: Event): (r: seq<(Prefix, bool)>) {
    if e.Told? then [(e.prefix, e.ok)] else if e.Restored? then [(e.b.prefix, true)] else []
  }

  /** A gain, then the loss of the same prefix, and so on. */
  predicate Alternates(ts: seq<(Prefix, bool)>) {
    forall k | 0 <= k < |ts| ::
      ts[k].1 == (k % 2 == 0) && (k % 2 == 1 ==> ts[k].0 == ts[k - 1].0)
  }

  /** The gain that was never reported: a delegation restored without being served. */
  function Unreported(trace: Trace): (r: seq<(Prefix, bool)>) {
    if trace != [] && trace[0].e.Unserved? then [(trace[0].e.b.prefix, true)] else []
  }

  /** The exact condition.  At every point of an accepted trace the callbacks alternate, each
      loss naming the prefix gained before it, if and only if the client did not start from a
      delegation restored without being served, or has made no callback yet.  With that one
      unreported gain in front they always alternate. */
  lemma CallbacksAlternate(trace: Trace, run: seq<Watch>, retry: Retry, n: nat)
    requires Accepted(trace, run, retry) && n <= |trace|
    ensures Alternates(Tells(trace[..n])) <==> !(n > 0 && trace[0].e.Unserved?) || Tells(trace[..n]) == []
    ensures Alternates(Unreported(trace[..n]) + Tells(trace[..n]))
    ensures ServedBy(run[n], Unreported(trace[..n]) + Tells(trace[..n]))
  {
    GainsAndLosses(trace, run, retry, n);
    var ts, lead := Tells(trace[..n]), Unreported(trace[..n]);
    if lead == [] {
      assert lead + ts == ts;
    } else if ts != [] {
      assert (lead + ts)[1] == ts[0];
      assert !ts[0].1;
    }
  }

  lemma {:induction false} GainsAndLosses(trace: Trace, run: seq<Watch>, retry: Retry, n: nat)
    requires Accepted(trace, run, retry) && n <= |trace|
    ensures Alternates(Unreported(trace[..n]) + Tells(trace[..n]))
    ensures ServedBy(run[n], Unreported(trace[..n]) + Tells(trace[..n]))
  {
    if n > 0 {
      GainsAndLosses(trace, run, retry, n - 1);
      KnowsAll(trace, run, retry, n - 1);
      assert StepsAt(trace, run, n - 1);
      Grow(trace, n - 1);
      TellStep(trace[..n - 1], run[n - 1], trace[n - 1], run[n]);
    }
  }

  predicate ServedBy(w: Watch, ts: seq<(Prefix, bool)>) {
    w.served == if |ts| % 2 == 1 then Some(ts[|ts| - 1].0) else None
  }

  lemma TellStep(trace: Trace, w: Watch, s: Stamped, v: Watch)
    requires Step(w, s) == Some(v) && Knows(trace, w)
    requires Alternates(Unreported(trace) + Tells(trace)) && ServedBy(w, Unreported(trace) + Tells(trace))
    ensures var ts := Unreported(trace + [s]) + Tells(trace + [s]);
      Alternates(ts) && ServedBy(v, ts)
  {
    HeldEffect(w, s, v);
    ServiceEffect(w, s, v);
    var gain := if trace == [] && s.e.Unserved? then [(s.e.b.prefix, true)] else TellOf(s.e);
    TellsAfter(trace, s);
    TellNext(Unreported(trace) + Tells(trace), w, gain, v);
  }

  lemma TellsAfter(trace: Trace, s: Stamped)
    ensures Unreported(trace + [s]) + Tells(trace + [s]) == Unreported(trace) + Tells(trace) +
            if trace == [] && s.e.Unserved? then [(s.e.b.prefix, true)] else TellOf(s.e)
  {
    var after := trace + [s];
    assert after[..|trace|] == trace && after[|trace|] == s;
    if trace != [] { assert after[0] == trace[0]; }
  }

  lemma TellNext(ts: seq<(Prefix, bool)>, w: Watch, more: seq<(Prefix, bool)>, v: Watch)
    requires Alternates(ts) && ServedBy(w, ts) && |more| <= 1
    requires if more == [] then v.served == w.served
             else w.served == (if more[0].1 then None else Some(more[0].0)) &&
                  v.served == (if more[0].1 then Some(more[0].0) else None)
    ensures Alternates(ts + more) && ServedBy(v, ts + more)
  {
    if more == [] { assert ts + more == ts; }
  }

  /** The failing input: whatever was restored without being served, a release right after the
      restart makes the loss of its prefix the first callback. */
  lemma LossWithoutGain(b: Binding, now: Time, retry: Retry)
    ensures var trace := EarlyRelease(b, now) + [At(now, Told(b.prefix, false))];
      && (exists run :: Accepted(trace, run, retry))
      && Tells(trace) == [(b.prefix, false)] && !Alternates(Tells(trace))
  {
    Withdrawn(b, now, retry);
    var early, told := EarlyRelease(b, now), At(now, Told(b.prefix, false));
    FirstTells(early, told);
    var ts := Tells(early + [told]);
    assert ts == TellOf(told.e) == [(b.prefix, false)];
    assert !ts[0].1;
  }

  function EarlyRelease(b: Binding, now: Time): (r: Trace) {
    Reopened(b, now) + [At(now, Asked), At(now, TookRelease), At(now, Dropped)]
  }

  /** The first pass of the first session after a restart. */
  function Reopened(b: Binding, now: Time): (r: Trace) {
    [At(now, Unserved(b)), At(now, Going), At(now, Socket(true)), At(now, Going)]
  }

  lemma Withdrawn(b: Binding, now: Time, retry: Retry)
    ensures exists run :: Accepted(EarlyRelease(b, now) + [At(now, Told(b.prefix, false))], run, retry)
  {
    var run, w := Restarted(b, now, retry);
    var trace := Reopened(b, now);
    var asked, taken := w.(pending := true), w.(phase := Releasing(false));
    trace, run := Extended(trace, run, retry, At(now, Asked), asked);
    trace, run := Extended(trace, run, retry, At(now, TookRelease), taken);
    var dropped := w.(binding := None, phase := Top(Sessions), owed := [(b.prefix, false)]);
    trace, run := Extended(trace, run, retry, At(now, Dropped), dropped);
    assert trace == EarlyRelease(b, now);
    assert dropped.owed[1..] == [];
    trace, run := Extended(trace, run, retry, At(now, Told(b.prefix, false)),
                           dropped.(owed := [], served := None, muted := false));
  }

  lemma Restarted(b: Binding, now: Time, retry: Retry) returns (run: seq<Watch>, w: Watch)
    ensures w == On(Start(retry, now), now).(binding := Some(b), served := Some(b.prefix), muted := true,
                                             phase := Inside(Sessions))
    ensures Accepted(Reopened(b, now), run, retry) && run[4] == w
  {
    var start := Start(retry, now);
    var kept := On(start, now).(binding := Some(b), served := Some(b.prefix), muted := true);
    w := kept.(phase := Inside(Sessions));
    var trace: Trace := [];
    trace, run := Extended([], [start], retry, At(now, Unserved(b)), kept);
    trace, run := Extended(trace, run, retry, At(now, Going), kept.(phase := Inside(Runs)));
    trace, run := Extended(trace, run, retry, At(now, Socket(true)), kept.(phase := Top(Sessions)));
    trace, run := Extended(trace, run, retry, At(now, Going), w);
    assert trace == Reopened(b, now);
  }

  /** A trace and its run with one more event. */
  lemma Extended(trace: Trace, run: seq<Watch>, retry: Retry, s: Stamped, w: Watch)
    returns (after: Trace, more: seq<Watch>)
    requires Accepted(trace, run, retry) && Step(run[|trace|], s) == Some(w)
    ensures after == trace + [s] && more == run + [w] && Accepted(after, more, retry)
  {
    AcceptedAppend(trace, run, retry, s, w);
    after, more := trace + [s], run + [w];
  }

  lemma {:induction false} FirstTells(trace: Trace, s: Stamped)
    requires forall i | 0 <= i < |trace| :: TellOf(trace[i].e) == []
    ensures Tells(trace) == [] && Tells(trace + [s]) == TellOf(s.e)
  {
    assert (trace + [s])[..|trace|] == trace;
    if trace != [] {
      var n := |trace| - 1;
      FirstTells(trace[..n], trace[n]);
      assert trace[..n] + [trace[n]] == trace;
    }
  }

  // ---- a delegation restored without being served ----

  /** Nothing has changed for the interface: the delegation was never dropped, and every reply
      since carried the same prefix. */
  predicate SameSince(trace: Trace, p: Prefix) {
    forall i | 0 <= i < |trace| :: !trace[i].e.Dropped? && (trace[i].e.Bound? ==> trace[i].e.b.prefix == p)
  }

  /** After a restart that kept the delegation without serving it, service is off exactly
      until the delegation is dropped or a reply carries another prefix: a reply with the
      same prefix does not bring it back. */
  lemma MutedUntilChange(trace: Trace, run: seq<Watch>, retry: Retry, n: nat)
    requires Accepted(trace, run, retry) && n <= |trace| && run[n].owed == []
    ensures run[n].muted <==> n > 0 && trace[0].e.Unserved? && SameSince(trace[..n], trace[0].e.b.prefix)
  {
    MutedMeans(trace, run, retry, n);
  }

  /** While the debt is being paid, the loss comes first. */
  predicate Mutes(trace: Trace, w: Watch) {
    if trace == [] then w == Start(w.retry, w.clock)
    else if w.blank then false
    else if !trace[0].e.Unserved? then !w.muted
    else if SameSince(trace, trace[0].e.b.prefix) then
      w.muted && w.owed == [] && PrefixOf(w.binding) == Some(trace[0].e.b.prefix)
    else w.muted ==> w.owed != [] && !w.owed[0].1
  }

  lemma {:induction false} MutedMeans(trace: Trace, run: seq<Watch>, retry: Retry, n: nat)
    requires Accepted(trace, run, retry) && n <= |trace|
    ensures Mutes(trace[..n], run[n])
  {
    if n > 0 {
      MutedMeans(trace, run, retry, n - 1);
      assert StepsAt(trace, run, n - 1);
      MuteStep(trace[..n - 1], run[n - 1], trace[n - 1], run[n]);
      Grow(trace, n - 1);
    }
  }

  lemma MuteStep(trace: Trace, w: Watch, s: Stamped, v: Watch)
    requires Mutes(trace, w) && Step(w, s) == Some(v)
    ensures Mutes(trace + [s], v)
  {
    HeldEffect(w, s, v);
    ServiceEffect(w, s, v);
    DebtEffect(w, s, v);
    var after := trace + [s];
    assert after[|trace|] == s;
    if trace != [] && trace[0].e.Unserved? {
      var p := trace[0].e.b.prefix;
      assert forall i | 0 <= i < |trace| :: after[i] == trace[i];
      assert SameSince(after, p) <==>
             SameSince(trace, p) && !s.e.Dropped? && (s.e.Bound? ==> s.e.b.prefix == p);
    }
  }
}
