/** What happens around the prefix-delegation client (internal/pd/client.go), as events stamped
    with the clock: messages, which prefix a reply delegates, what a trace says about the
    delegation held and its server, and what one exchange of a message with its retransmissions
    is. */
module PdEvents {
  import opened Arith
  import opened Addressing

  type Time = int
  type Duid = nat

  datatype Binding = Binding(prefix: Prefix, boundAt: Time, expiresAt: Time)

  datatype MsgType = Solicit | Advertise | Request | Renew | Rebind | Release | Reply

  /** An IA Prefix option: no prefix at all, or an address (possibly malformed) and a length. */
  datatype IaPrefix = IaPrefix(lifetime: int, net: Option<IaNet>)
  datatype IaNet = IaNet(addr: Option<Addr>, ones: nat)

  datatype IaPd = IaPd(status: nat, prefixes: seq<IaPrefix>)

  datatype Message = Message(typ: MsgType, txn: nat, serverID: Option<Duid>, iapd: Option<IaPd>)

  // ---- which prefix a reply delegates ----

  predicate Live(p: IaPrefix) {
    p.lifetime > 0 && p.net.Some?
  }

  /** The first of the shortest live prefixes. */
  function Best(ps: seq<IaPrefix>): (r: Option<IaPrefix>)
    ensures r.Some? ==> Live(r.value)
  {
    if ps == [] then None
    else
      var best, p := Best(ps[..|ps| - 1]), ps[|ps| - 1];
      if Live(p) && (best.None? || p.net.value.ones < best.value.net.value.ones) then Some(p) else best
  }

  /** Best is a live prefix, none is shorter, and none before it is as short. */
  lemma {:induction false} BestIsFirstShortest(ps: seq<IaPrefix>)
    ensures Best(ps).None? <==> forall p | p in ps :: !Live(p)
    ensures Best(ps).Some? ==> exists i :: 0 <= i < |ps| && FirstShortest(ps, i) && ps[i] == Best(ps).value
  {
    if ps != [] {
      var n := |ps| - 1;
      BestIsFirstShortest(ps[..n]);
      assert ps == ps[..n] + [ps[n]];
      if Best(ps) == Best(ps[..n]) && Best(ps).Some? {
        var i :| 0 <= i < n && FirstShortest(ps[..n], i) && ps[..n][i] == Best(ps).value;
        assert FirstShortest(ps, i);
      } else if Best(ps).Some? {
        if Best(ps[..n]).Some? {
          var i :| 0 <= i < n && FirstShortest(ps[..n], i) && ps[..n][i] == Best(ps[..n]).value;
        }
        assert forall j | 0 <= j < n :: ps[j] in ps[..n];
        assert FirstShortest(ps, n);
      }
    }
  }

  predicate FirstShortest(ps: seq<IaPrefix>, i: nat)
    requires i < |ps|
  {
    && Live(ps[i])
    && (forall j | 0 <= j < |ps| && Live(ps[j]) :: ps[i].net.value.ones <= ps[j].net.value.ones)
    && (forall j | 0 <= j < i && Live(ps[j]) :: ps[i].net.value.ones < ps[j].net.value.ones)
  }

  datatype Grant = Grant(prefix: Prefix, lifetime: int)

  /** The delegation a reply carries; None when it is not usable. */
  function Delegates(reply: Option<Message>): (g: Option<Grant>) {
    if reply.None? || reply.value.iapd.None? || reply.value.iapd.value.status != 0 then None
    else
      var best := Best(reply.value.iapd.value.prefixes);
      if best.None? || best.value.net.value.addr.None? || best.value.net.value.ones > 128 then None
      else
        var net := best.value.net.value;
        Some(Grant(Masked(Prefix(128, net.addr.value, net.ones)), best.value.lifetime))
  }

  /** The binding a grant makes when it is applied. */
  function Granted(g: Grant, now: Time): (b: Binding) {
    Binding(g.prefix, now, now + g.lifetime)
  }

  /** The reply delegates its i-th prefix: the IA is not refused, and of its live prefixes this is
      the first of the shortest, with an address and a possible length. */
  predicate Offers(reply: Option<Message>, i: nat) {
    && reply.Some? && reply.value.iapd.Some? && reply.value.iapd.value.status == 0
    && var ps := reply.value.iapd.value.prefixes;
       i < |ps| && FirstShortest(ps, i) && ps[i].net.value.addr.Some? && ps[i].net.value.ones <= 128
  }

  /** b is that delegation, taken at `now`: the masked prefix, held for its valid lifetime. */
  predicate MadeFrom(reply: Option<Message>, i: nat, b: Binding, now: Time) {
    && Offers(reply, i)
    && var p := reply.value.iapd.value.prefixes[i];
       && b.prefix.width == 128 && b.prefix.bits == p.net.value.ones
       && b.prefix.addr == Base(Prefix(128, p.net.value.addr.value, p.net.value.ones))
       && b.boundAt == now && b.expiresAt == now + p.lifetime && 0 < p.lifetime
  }

  /** A reply is usable if and only if it delegates some prefix, and the binding is made from it. */
  lemma DelegatesMeans(reply: Option<Message>, now: Time)
    ensures Delegates(reply).Some? <==> exists i: nat :: Offers(reply, i)
    ensures Delegates(reply).Some? ==> exists i: nat :: MadeFrom(reply, i, Granted(Delegates(reply).value, now), now)
  {
    if reply.Some? && reply.value.iapd.Some? {
      var ps := reply.value.iapd.value.prefixes;
      BestIsFirstShortest(ps);
      if Best(ps).Some? {
        var i: nat :| i < |ps| && FirstShortest(ps, i) && ps[i] == Best(ps).value;
        assert Delegates(reply).Some? ==>
            Offers(reply, i) && MadeFrom(reply, i, Granted(Delegates(reply).value, now), now);
        forall j: nat | Offers(reply, j) ensures j == i { OneFirst(ps, i, j); }
      }
    }
  }

  lemma OneFirst(ps: seq<IaPrefix>, i: nat, j: nat)
    requires i < |ps| && j < |ps| && FirstShortest(ps, i) && FirstShortest(ps, j)
    ensures i == j
  {
  }

  // ---- events ----

  /** The uplink as netlink reports it: the link, its up flag and its IPv6 addresses, where a
      lookup may fail. */
  datatype Uplink = Uplink(found: bool, up: bool, addrs: Option<seq<HostAddr>>)
  datatype HostAddr = HostAddr(linkLocal: bool, tentative: bool)

  /** It can carry DHCPv6: up, with a link-local address that is not tentative. */
  predicate Usable(u: Uplink) {
    u.found && u.up && u.addrs.Some? && exists a :: a in u.addrs.value && a.linkLocal && !a.tentative
  }

  datatype Event =
    | Restored(b: Binding)                  // a persisted delegation, served again
    | Unserved(b: Binding)                  // a persisted delegation, kept but not served
    | Going                                 // a loop goes on: stop was not requested
    | Halted                                // stopped at the top of a loop or in a sleep
    | Socket(ok: bool)                      // whether the socket could be opened
    | Asked                                 // the control API asks for a release
    | TookRelease                           // the pending request was taken
    | Pass                                  // the reading at the top of a session pass
    | Netlink(uplink: Uplink)               // the uplink as it was found
    | Confirming
    | Bide                                  // the reading at the top of a pass while bound
    | Woke                                  // the reading after a sleep while bound
    | Recheck                               // the reading after a refresh that gave nothing
    | Begun(typ: MsgType, txn: nat)         // an exchange
    | Sent(typ: MsgType, server: Option<Duid>, hint: Option<Prefix>)
    | Heard(msg: Message)                   // read from the socket
    | Unread                                // a read failed or timed out
    | Waited                                // a reading past the deadline of a copy
    | Blocked(typ: MsgType)                 // no more copies can go out: stop or a local error
    | Got(typ: MsgType, reply: Option<Message>)   // what the exchange gave
    | Bound(b: Binding)
    | Dropped
    | Told(prefix: Prefix, ok: bool)        // the callback

  /** Events that the client does not cause. */
  predicate Outside(e: Event) {
    e.Going? || e.Halted? || e.Socket? || e.Asked? || e.Netlink? || e.Heard? || e.Unread?
  }

  /** Events of an exchange before its result. */
  predicate OnWire(e: Event) {
    e.Begun? || e.Sent? || e.Heard? || e.Unread? || e.Waited? || e.Blocked?
  }

  /** An event with the clock at which it happened. */
  datatype Stamped = At(now: Time, e: Event)

  type Trace = seq<Stamped>

  function PrefixOf(b: Option<Binding>): (p: Option<Prefix>) {
    if b.Some? then Some(b.value.prefix) else None
  }

  function T1(b: Binding): (t: Time) {
    b.boundAt + (b.expiresAt - b.boundAt) / 2
  }

  function T2(b: Binding): (t: Time) {
    b.boundAt + (b.expiresAt - b.boundAt) * 4 / 5
  }

  /** T1 is half of the lifetime and T2 four fifths, rounded down, in order. */
  lemma TimersInOrder(b: Binding)
    requires b.boundAt <= b.expiresAt
    ensures var window := b.expiresAt - b.boundAt;
      && 2 * (T1(b) - b.boundAt) <= window < 2 * (T1(b) - b.boundAt + 1)
      && 5 * (T2(b) - b.boundAt) <= 4 * window < 5 * (T2(b) - b.boundAt + 1)
    ensures b.boundAt <= T1(b) <= T2(b) <= b.expiresAt
  {
  }

  /** The message due from T1 on. */
  function DueType(b: Binding, server: Option<Duid>, now: Time): (typ: MsgType) {
    if server.Some? && now <= T2(b) then Renew else Rebind
  }

  // ---- what a trace says ----

  /** The delegation held after a trace. */
  function Held(trace: Trace): (b: Option<Binding>) {
    if trace == [] then None
    else
      var last := trace[|trace| - 1].e;
      if last.Restored? || last.Unserved? || last.Bound? then Some(last.b)
      else if last.Dropped? then None
      else Held(trace[..|trace| - 1])
  }

  /** The server that gave it: the sender of the reply it was taken from. */
  function ServerOf(trace: Trace): (server: Option<Duid>) {
    if trace == [] then None
    else
      var rest, last := trace[..|trace| - 1], trace[|trace| - 1].e;
      if last.Bound? then Sender(rest)
      else if last.Restored? || last.Unserved? || last.Dropped? then None
      else ServerOf(rest)
  }

  /** The sender of the reply a trace ends with. */
  function Sender(trace: Trace): (server: Option<Duid>) {
    if trace != [] && trace[|trace| - 1].e.Got? && trace[|trace| - 1].e.reply.Some?
    then trace[|trace| - 1].e.reply.value.serverID else None
  }

  /** A release was asked for and the request has not been taken. */
  predicate Pending(trace: Trace) {
    trace != [] &&
      var last := trace[|trace| - 1].e;
      last == Asked || (last != TookRelease && Pending(trace[..|trace| - 1]))
  }

  /** Readings of the clock and taken requests decide what the client does next. */
  predicate Deciding(e: Event) {
    e.TookRelease? || e.Pass? || e.Bide? || e.Woke? || e.Recheck?
  }

  /** The last of them. */
  function Cause(trace: Trace): (e: Option<Event>) {
    if trace == [] then None
    else if Deciding(trace[|trace| - 1].e) then Some(trace[|trace| - 1].e)
    else Cause(trace[..|trace| - 1])
  }

  // ---- one exchange ----

  /** How often a message is sent, and how long each copy is waited for. */
  datatype Retry = Retry(attempts: nat, initial: Time, max: Time)

  /** The wait doubles up to the maximum. */
  function Patience(retry: Retry, k: nat): (t: Time) {
    if k == 0 then retry.initial
    else
      var t := 2 * Patience(retry, k - 1);
      if t > retry.max then retry.max else t
  }

  /** The k-th repetition is waited for 2^k times as long as the first copy, at most for the
      maximum. */
  lemma {:induction false} PatienceDoubles(retry: Retry, k: nat)
    requires 0 <= retry.initial && 0 <= retry.max && 0 < k
    ensures Patience(retry, k) == if Pow2(k) * retry.initial <= retry.max then Pow2(k) * retry.initial else retry.max
  {
    if k > 1 {
      PatienceDoubles(retry, k - 1);
      assert Pow2(k) * retry.initial == 2 * (Pow2(k - 1) * retry.initial);
    } else {
      assert Pow2(1) == 2 * Pow2(0) == 2;
    }
  }

  function AnswerTo(typ: MsgType): (answer: MsgType) {
    if typ == Solicit then Advertise else Reply
  }

  /** The message answers an exchange of this type and transaction. */
  predicate Answers(m: Message, typ: MsgType, txn: nat) {
    m.typ == AnswerTo(typ) && m.txn == txn
  }

  /** The state of an exchange: the copies sent, the deadline of the last one while it is
      waited for, and the answer once it has been heard. */
  datatype Link =
    | Shut
    | Open(txn: nat, sent: nat, until: Option<Time>, answer: Option<Message>, blocked: bool)

  predicate Listening(l: Link) {
    l.Open? && l.until.Some? && l.answer.None?
  }

  predicate Pausing(l: Link) {
    l.Open? && l.until.None? && l.answer.None? && !l.blocked
  }

  /** How an event moves an exchange of msg: one copy at a time, each waited for until the
      answer is heard, its deadline has passed or a read has failed. */
  function LinkStep(l: Link, retry: Retry, s: Stamped, msg: Event): (r: Option<Link>)
    requires msg.Sent?
  {
    match s.e
    case Begun(typ, txn) =>
      if l.Shut? && typ == msg.typ then Some(Open(txn, 0, None, None, false)) else None
    case Sent(_, _, _) =>
      if s.e == msg && Pausing(l) && l.sent < retry.attempts
      then Some(l.(sent := l.sent + 1, until := Some(s.now + Patience(retry, l.sent)))) else None
    case Heard(m) =>
      if Listening(l) then Some(l.(answer := if Answers(m, msg.typ, l.txn) then Some(m) else None)) else None
    case Unread => if Listening(l) then Some(l.(until := None)) else None
    case Waited => if Listening(l) && l.until.value <= s.now then Some(l.(until := None)) else None
    case Blocked(typ) => if typ == msg.typ && Pausing(l) then Some(l.(blocked := true)) else None
    case _ => None
  }

  /** An exchange gives the answer that was heard; without one it ends only after the last copy
      has been waited for, or blocked. */
  predicate Done(l: Link, retry: Retry, reply: Option<Message>) {
    && l.Open? && reply == l.answer
    && (reply.None? ==> l.until.None? && (l.blocked || l.sent == retry.attempts))
  }

  /** The state after the events of an exchange; None if they are not those of one. */
  function Replay(events: Trace, msg: Event, retry: Retry): (l: Option<Link>)
    requires msg.Sent?
  {
    if events == [] then Some(Shut)
    else
      var n := |events| - 1;
      var l := Replay(events[..n], msg, retry);
      if l.Some? then LinkStep(l.value, retry, events[n], msg) else None
  }

  lemma ReplayNext(events: Trace, s: Stamped, msg: Event, retry: Retry)
    requires msg.Sent? && Replay(events, msg, retry).Some?
    ensures Replay(events + [s], msg, retry) == LinkStep(Replay(events, msg, retry).value, retry, s, msg)
  {
    assert (events + [s])[..|events|] == events;
  }

  /** From `from` to `to` the trace is a whole exchange of msg with its result. */
  predicate Finishes(trace: Trace, from: nat, to: nat, msg: Event, retry: Retry) {
    && msg.Sent? && from < to <= |trace| && trace[to - 1].e.Got? && trace[to - 1].e.typ == msg.typ
    && var l := Replay(trace[from..to - 1], msg, retry);
       l.Some? && Done(l.value, retry, trace[to - 1].e.reply)
  }

  /** One that gave no usable reply. */
  predicate Fails(trace: Trace, from: nat, to: nat, msg: Event, retry: Retry) {
    Finishes(trace, from, to, msg, retry) && Delegates(trace[to - 1].e.reply).None?
  }

  lemma FinishesOn(trace: Trace, after: Trace, from: nat, to: nat, msg: Event, retry: Retry)
    requires Finishes(trace, from, to, msg, retry) && trace <= after
    ensures Finishes(after, from, to, msg, retry) && after[to - 1] == trace[to - 1]
  {
    assert after[from..to - 1] == trace[from..to - 1];
  }

  /** How many copies of a message went out. */
  function Copies(events: Trace): (n: nat) {
    if events == [] then 0
    else Copies(events[..|events| - 1]) + if events[|events| - 1].e.Sent? then 1 else 0
  }

  /** At j the wait for the copy sent at i ends: the read fails, or its deadline has passed; in
      between only other messages are heard. */
  predicate WaitEnds(events: Trace, i: nat, j: nat, retry: Retry)
    requires i < j < |events|
  {
    && (events[j].e == Unread ||
        (events[j].e == Waited && events[i].now + Patience(retry, Copies(events[..i])) <= events[j].now))
    && forall h | i < h < j :: events[h].e.Heard?
  }

  predicate WaitedOut(events: Trace, i: nat, retry: Retry) {
    exists j :: i < j < |events| && WaitEnds(events, i, j, retry)
  }

  /** The copy sent at i is still waited for, until t. */
  predicate StillAwaited(events: Trace, i: nat, t: Time, retry: Retry)
    requires i < |events|
  {
    t == events[i].now + Patience(retry, Copies(events[..i])) && forall h | i < h < |events| :: events[h].e.Heard?
  }

  predicate HeardAt(events: Trace, i: nat, typ: MsgType, txn: nat)
    requires i < |events|
  {
    events[i].e.Heard? && Answers(events[i].e.msg, typ, txn)
  }

  /** What the state of an exchange says about its events. */
  predicate LinkMeans(events: Trace, msg: Event, retry: Retry, l: Link)
    requires msg.Sent?
  {
    match l
    case Shut => events == []
    case Open(txn, sent, until, answer, blocked) =>
      && events != [] && events[0].e == Begun(msg.typ, txn) && Copies(events) == sent <= retry.attempts
      && (blocked <==> exists i :: 0 <= i < |events| && events[i].e.Blocked?)
      && (forall i | 0 <= i < |events| && HeardAt(events, i, msg.typ, txn) :: answer.Some? && i == |events| - 1)
      && (answer.Some? ==> events[|events| - 1].e == Heard(answer.value) && Answers(answer.value, msg.typ, txn))
      && (forall i | 0 <= i < |events| && events[i].e.Sent? :: CopyMeans(events, i, msg, retry, until))
  }

  predicate CopyMeans(events: Trace, i: nat, msg: Event, retry: Retry, until: Option<Time>)
    requires i < |events|
  {
    && events[i].e == msg
    && (WaitedOut(events, i, retry) || (until.Some? && StillAwaited(events, i, until.value, retry)))
  }

  lemma {:induction false} ReplayMeans(events: Trace, msg: Event, retry: Retry)
    requires msg.Sent? && Replay(events, msg, retry).Some?
    ensures LinkMeans(events, msg, retry, Replay(events, msg, retry).value)
  {
    if events != [] {
      var n := |events| - 1;
      ReplayMeans(events[..n], msg, retry);
      assert events == events[..n] + [events[n]];
      LinkMeansStep(events[..n], events[n], msg, retry, Replay(events[..n], msg, retry).value,
                    Replay(events, msg, retry).value);
    }
  }

  lemma LinkMeansStep(events: Trace, s: Stamped, msg: Event, retry: Retry, l: Link, k: Link)
    requires msg.Sent? && LinkMeans(events, msg, retry, l) && LinkStep(l, retry, s, msg) == Some(k)
    ensures LinkMeans(events + [s], msg, retry, k)
  {
    var after, n := events + [s], |events|;
    assert after[..n] == events && after[n] == s;
    assert forall i | 0 <= i < n :: after[i] == events[i];
    if l.Open? {
      forall i | 0 <= i < |after| && after[i].e.Sent? ensures CopyMeans(after, i, msg, retry, k.until) {
        if i < n { CopyStep(events, s, i, msg, retry, l, k); }
      }
      BlockedStep(events, s, l, k);
      forall i | 0 <= i < |after| && HeardAt(after, i, msg.typ, k.txn) ensures k.answer.Some? && i == n {
        if i < n { assert HeardAt(events, i, msg.typ, l.txn); }
      }
    }
  }

  lemma BlockedStep(events: Trace, s: Stamped, l: Link, k: Link)
    requires l.Open? && k.Open? && (k.blocked <==> l.blocked || s.e.Blocked?)
    requires l.blocked <==> exists i :: 0 <= i < |events| && events[i].e.Blocked?
    ensures k.blocked <==> exists i :: 0 <= i < |events + [s]| && (events + [s])[i].e.Blocked?
  {
    var after := events + [s];
    if l.blocked {
      var i :| 0 <= i < |events| && events[i].e.Blocked?;
      assert after[i].e.Blocked?;
    }
    if s.e.Blocked? { assert after[|events|].e.Blocked?; }
  }

  lemma CopyStep(events: Trace, s: Stamped, i: nat, msg: Event, retry: Retry, l: Link, k: Link)
    requires msg.Sent? && i < |events| && events[i].e.Sent? && l.Open? && LinkStep(l, retry, s, msg) == Some(k)
    requires CopyMeans(events, i, msg, retry, l.until)
    ensures CopyMeans(events + [s], i, msg, retry, k.until)
  {
    var after, n := events + [s], |events|;
    assert after[..i] == events[..i] && after[n] == s;
    assert forall h | 0 <= h < n :: after[h] == events[h];
    if WaitedOut(events, i, retry) {
      var j :| i < j < n && WaitEnds(events, i, j, retry);
      assert WaitEnds(after, i, j, retry);
    } else if !s.e.Heard? {
      assert WaitEnds(after, i, n, retry);
    }
  }

  /** What a whole exchange is.  An answer is the message just heard, of the awaited type and
      transaction.  Without an answer no such message was heard, every copy was waited for
      until its deadline or until a read failed, and there were `attempts` copies unless
      sending was blocked.  All copies are the same message. */
  lemma ExchangeMeans(trace: Trace, from: nat, to: nat, msg: Event, retry: Retry)
    requires Finishes(trace, from, to, msg, retry)
    ensures var events, reply := trace[from..to - 1], trace[to - 1].e.reply;
      && events != [] && events[0].e.Begun? && events[0].e.typ == msg.typ && Copies(events) <= retry.attempts
      && (forall i | 0 <= i < |events| && events[i].e.Sent? :: events[i].e == msg)
      && var txn := events[0].e.txn;
         if reply.Some? then
           && events[|events| - 1].e == Heard(reply.value) && reply.value.txn == txn
           && reply.value.typ == if msg.typ == Solicit then Advertise else Reply
         else
           && (forall i | 0 <= i < |events| :: !HeardAt(events, i, msg.typ, txn))
           && (forall i | 0 <= i < |events| && events[i].e.Sent? :: WaitedOut(events, i, retry))
           && (Copies(events) == retry.attempts || exists i :: 0 <= i < |events| && events[i].e.Blocked?)
  {
    ReplayMeans(trace[from..to - 1], msg, retry);
    var events := trace[from..to - 1];
    assert forall i | 0 <= i < |events| && events[i].e.Sent? ::
        CopyMeans(events, i, msg, retry, Replay(events, msg, retry).value.until);
  }
}
