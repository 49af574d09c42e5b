/** Policy routing of a delegated prefix (internal/pdroute/pdroute.go) over an abstract kernel:
    a set of rules and a set of routes, shared by all tables.  Kernel calls succeed here.  The
    order in which Start and Stop use the sysctl registry is the one module Sysctl reasons
    about. */
module PolicyRoutes {
  import opened Arith
  import opened Addressing
  import Sysctl

  const ROUTE_PROTO := 213
  const METRIC := 1024
  const PROTO_RA := 9

  datatype Net = Net(addr: Addr, bits: nat)

  function NetOf(p: Prefix): (n: Net)
    requires p.bits <= p.width
  {
    Net(Base(p), p.bits)
  }

  datatype Rule = Rule(table: int, priority: int, src: Option<Net>, dst: Option<Net>)

  /** A missing destination is the default route. */
  datatype Route = Route(table: int, dst: Option<Net>, gw: Option<Addr>, link: int, proto: int, metric: int)

  predicate IsDefault(dst: Option<Net>) {
    dst.None? || dst.value.bits == 0
  }

  /** The kernel does not store a selector of length zero. */
  function Stored(n: Option<Net>): (r: Option<Net>) {
    if n.Some? && n.value.bits == 0 then None else n
  }

  function StoredRule(r: Rule): (s: Rule) {
    r.(src := Stored(r.src), dst := Stored(r.dst))
  }

  class Kernel {
    var rules: set<Rule>
    var routes: set<Route>
    var links: map<string, int>
    ghost var history: seq<set<Rule>>   // the rule set after every rule change

    method RuleAdd(r: Rule)
      modifies this`rules, this`history
      ensures rules == old(rules) + {StoredRule(r)} && history == old(history) + [rules]
    {
      rules := rules + {StoredRule(r)};
      history := history + [rules];
    }

    method RuleDel(r: Rule)
      modifies this`rules, this`history
      ensures rules == old(rules) - {r} && history == old(history) + [rules]
    {
      rules := rules - {r};
      history := history + [rules];
    }

    /** Replaces the routes with the same table, destination and metric. */
    method RouteReplace(r: Route)
      modifies this`routes
      ensures routes == Replaced(old(routes), r)
    {
      routes := Replaced(routes, r);
    }

    /** The route dump, in any order. */
    method Dump() returns (dump: seq<Route>)
      ensures Elems(dump) == routes
    {
      dump := [];
      var todo := routes;
      while todo != {}
        invariant todo <= routes && Elems(dump) == routes - todo
        decreases todo
      {
        var rt :| rt in todo;
        todo := todo - {rt};
        ElemsConcat(dump, [rt]);
        dump := dump + [rt];
      }
    }

    method RouteDel(r: Route)
      modifies this`routes
      ensures routes == old(routes) - {r}
    {
      routes := routes - {r};
    }
  }

  function Replaced(routes: set<Route>, r: Route): (s: set<Route>) {
    (set q | q in routes && !(q.table == r.table && q.metric == r.metric && SameDst(q.dst, r.dst))) + {r}
  }

  predicate SameDst(a: Option<Net>, b: Option<Net>) {
    (IsDefault(a) && IsDefault(b)) || a == b
  }

  // ---- what belongs to a table ----

  function OwnRules(rules: set<Rule>, table: int): (r: set<Rule>) {
    set x | x in rules && x.table == table
  }

  function OtherRules(rules: set<Rule>, table: int): (r: set<Rule>) {
    set x | x in rules && x.table != table
  }

  function OwnRoutes(routes: set<Route>, table: int): (r: set<Route>) {
    set x | x in routes && x.table == table
  }

  function OtherRoutes(routes: set<Route>, table: int): (r: set<Route>) {
    set x | x in routes && x.table != table
  }

  datatype Config = Config(iface: string, uplink: string, table: int, priority: int)

  function FromRule(c: Config, n: Net): (r: Rule) {
    Rule(c.table, c.priority, Some(n), None)
  }

  function ToRule(c: Config, n: Net): (r: Rule) {
    Rule(c.table, c.priority, None, Some(n))
  }

  function Pair(c: Config, n: Net): (r: set<Rule>) {
    {FromRule(c, n), ToRule(c, n)}
  }

  function Subnet(c: Config, n: Net, link: int): (r: Route) {
    Route(c.table, Some(n), None, link, ROUTE_PROTO, METRIC)
  }

  function Mirror(c: Config, gw: Addr, link: int): (r: Route) {
    Route(c.table, None, Some(gw), link, ROUTE_PROTO, METRIC)
  }

  /** What the table may hold once started: rules of the pair shape, routes of our metric, and
      default routes only with a gateway. */
  predicate TidyRule(c: Config, r: Rule) {
    r.priority == c.priority &&
    ((r.src.Some? && r.src.value.bits > 0 && r.dst.None?) || (r.src.None? && r.dst.Some? && r.dst.value.bits > 0))
  }

  predicate TidyRoute(r: Route) {
    r.metric == METRIC && r.proto == ROUTE_PROTO && (IsDefault(r.dst) ==> r.gw.Some?)
  }

  predicate Tidy(c: Config, rules: set<Rule>, routes: set<Route>) {
    && (forall r | r in rules && r.table == c.table :: TidyRule(c, r))
    && (forall r | r in routes && r.table == c.table :: TidyRoute(r))
  }

  // ---- the mirrored default ----

  /** The routes the mirror chooses from: default routes of the uplink that are neither in our
      table nor some bridge's mirror. */
  function Candidates(routes: set<Route>, table: int, link: int): (r: set<Route>) {
    set x | x in routes && Eligible(x, table, link)
  }

  predicate Eligible(x: Route, table: int, link: int) {
    x.table != table && x.proto != ROUTE_PROTO && x.link == link && x.gw.Some? && IsDefault(x.dst)
  }

  predicate BetterDefault(a: Route, b: Route) {
    var aRA, bRA := a.proto == PROTO_RA, b.proto == PROTO_RA;
    if aRA != bRA then aRA else a.metric < b.metric
  }

  /** best is a possible choice for some order of the route dump. */
  predicate Chosen(cands: set<Route>, best: Option<Route>) {
    match best
    case None => cands == {}
    case Some(b) => b in cands && forall c | c in cands :: !BetterDefault(c, b)
  }

  /** A choice is a candidate learned from an RA if any is, with the lowest metric among its
      kind; it fails only without candidates. */
  lemma ChosenIsMaximal(cands: set<Route>, best: Option<Route>)
    ensures Chosen(cands, best) <==>
            match best
            case None => cands == {}
            case Some(b) =>
              && b in cands
              && (forall c | c in cands :: c.proto == 9 ==> b.proto == 9)
              && (forall c | c in cands && (c.proto == 9 <==> b.proto == 9) :: b.metric <= c.metric)
  {
  }

  /** What the scan over a dump finds. */
  function Scan(dump: seq<Route>, table: int, link: int): (best: Option<Route>) {
    if dump == [] then None
    else
      var best, rt := Scan(dump[..|dump| - 1], table, link), dump[|dump| - 1];
      if Eligible(rt, table, link) && (best.None? || BetterDefault(rt, best.value)) then Some(rt) else best
  }

  /** Every dump order leads to a possible choice... */
  lemma {:induction false} ScanChooses(dump: seq<Route>, table: int, link: int)
    ensures Chosen(Candidates(Elems(dump), table, link), Scan(dump, table, link))
  {
    if dump != [] {
      var n := |dump| - 1;
      ScanChooses(dump[..n], table, link);
      assert dump == dump[..n] + [dump[n]];
      ElemsConcat(dump[..n], [dump[n]]);
      var before, rt := Candidates(Elems(dump[..n]), table, link), dump[n];
      assert Candidates(Elems(dump), table, link) == before + if Eligible(rt, table, link) then {rt} else {};
    }
  }

  /** ...and every possible choice is found for some dump order. */
  lemma EveryChoiceFound(routes: set<Route>, table: int, link: int, best: Option<Route>) returns (dump: seq<Route>)
    requires Chosen(Candidates(routes, table, link), best)
    ensures Elems(dump) == routes && Scan(dump, table, link) == best
  {
    var rest := Listed(if best.Some? then routes - {best.value} else routes);
    var first := if best.Some? then [best.value] else [];
    dump := first + rest;
    ElemsConcat(first, rest);
    assert Elems(dump) == routes;
    if best.Some? {
      FirstStays(dump, table, link, best.value);
    } else {
      ScanChooses(dump, table, link);
    }
  }

  lemma {:induction false} Listed(routes: set<Route>) returns (dump: seq<Route>)
    ensures Elems(dump) == routes
    decreases routes
  {
    dump := [];
    if routes != {} {
      var rt :| rt in routes;
      var rest := Listed(routes - {rt});
      dump := rest + [rt];
      ElemsConcat(rest, [rt]);
    }
  }

  lemma {:induction false} FirstStays(dump: seq<Route>, table: int, link: int, b: Route)
    requires dump != [] && dump[0] == b && Eligible(b, table, link)
    requires forall c | c in dump && Eligible(c, table, link) :: !BetterDefault(c, b)
    ensures Scan(dump, table, link) == Some(b)
  {
    if |dump| > 1 {
      FirstStays(dump[..|dump| - 1], table, link, b);
    } else {
      assert dump[..0] == [];
    }
  }

  /** The routes after a sync that chose best. */
  function Synced(routes: set<Route>, c: Config, link: int, best: Option<Route>): (r: set<Route>)
    requires best.Some? ==> best.value.gw.Some?
  {
    if best.Some? then Replaced(routes, Mirror(c, best.value.gw.value, link))
    else set x | x in routes && !(x.table == c.table && x.gw.Some? && IsDefault(x.dst))
  }

  // ---- what a prefix needs, field by field ----

  /** The route to the prefix: straight onto the served interface. */
  predicate LeadsHome(r: Route, table: int, link: int, p: Prefix)
    requires p.bits <= p.width
  {
    && r.table == table && r.dst == Some(Net(Base(p), p.bits)) && r.gw.None? && r.link == link
    && r.proto == 213 && r.metric == 1024
  }

  /** The way out: a default on the uplink, through the gateway of a best default found there,
      one from a router advertisement if there is any and then the one with the lowest metric. */
  ghost predicate LeadsOut(r: Route, table: int, uplink: int, cands: set<Route>) {
    && r.table == table && r.dst.None? && r.gw.Some? && r.link == uplink && r.proto == 213 && r.metric == 1024
    && exists b :: b in cands && b.gw == r.gw && forall c | c in cands ::
         (c.proto == 9 ==> b.proto == 9) && ((c.proto == 9 <==> b.proto == 9) ==> b.metric <= c.metric)
  }

  /** The table's routes: the one home, and the one out exactly if the uplink has a default. */
  ghost predicate RoutesServe(c: Config, routes: set<Route>, links: map<string, int>, p: Prefix)
    requires p.bits <= p.width
  {
    && c.iface in links
    && (exists r :: r in routes && LeadsHome(r, c.table, links[c.iface], p))
    && (forall r | r in routes && r.table == c.table && r.gw.None? :: LeadsHome(r, c.table, links[c.iface], p))
    && (forall r | r in routes && r.table == c.table && r.gw.Some? ::
          c.uplink in links && LeadsOut(r, c.table, links[c.uplink], Candidates(routes, c.table, links[c.uplink])))
    && (c.uplink in links && Candidates(routes, c.table, links[c.uplink]) != {} ==>
          exists r :: r in routes && r.table == c.table && r.gw.Some?)
  }

  /** The table's rules: what comes from the prefix and what goes to it is looked up here. */
  predicate RulesServe(c: Config, rules: set<Rule>, p: Prefix)
    requires p.bits <= p.width
  {
    var net := Net(Base(p), p.bits);
    && Rule(c.table, c.priority, Some(net), None) in rules && Rule(c.table, c.priority, None, Some(net)) in rules
    && forall r | r in rules && r.table == c.table ::
         r.priority == c.priority && ((r.src == Some(net) && r.dst.None?) || (r.src.None? && r.dst == Some(net)))
  }

  class Routes {
    const cfg: Config
    const k: Kernel
    const sys: Sysctl.Registry          // shared by all bridges
    var started: bool
    var stopped: bool
    var prefix: Option<Prefix>

    ghost predicate Valid()
      reads this, k
    {
      started ==> Tidy(cfg, k.rules, k.routes)
    }

    ghost function Bridge(): (b: Sysctl.Bridge) {
      Sysctl.Bridge(cfg.iface, cfg.uplink)
    }

    /** The registry has been used by the bridge's k-th to (k + 3)-th turn. */
    ghost predicate TookTurns(was: Sysctl.Reg, log: seq<Sysctl.Use>, n: nat)
      requires n + 3 <= Sysctl.LAST
      reads sys
    {
      var a, b, c := Sysctl.Turn(Bridge(), n), Sysctl.Turn(Bridge(), n + 1), Sysctl.Turn(Bridge(), n + 2);
      && sys.log == log + [a, b, c]
      && sys.View() == Sysctl.Apply(Sysctl.Apply(Sysctl.Apply(was, a), b), c)
    }

    constructor (cfg: Config, k: Kernel, sys: Sysctl.Registry)
      ensures Valid() && !started && !stopped && prefix == None
      ensures this.cfg == cfg && this.k == k && this.sys == sys
    {
      this.cfg, this.k, this.sys := cfg, k, sys;
      started, stopped, prefix := false, false, None;
    }

    ghost predicate Empty()
      reads k
    {
      OwnRules(k.rules, cfg.table) == {} && OwnRoutes(k.routes, cfg.table) == {}
    }

    /** Our table holds exactly the rule pair, the subnet route and the mirror of `best`, a best
        default of the uplink; no mirror without a default or without the uplink. */
    ghost predicate Carries(p: Prefix, best: Option<Route>)
      requires p.bits <= p.width
      reads k
    {
      && cfg.iface in k.links && OwnRules(k.rules, cfg.table) == Pair(cfg, NetOf(p))
      && (best.Some? ==> best.value.gw.Some? && cfg.uplink in k.links)
      && (cfg.uplink in k.links ==> Chosen(Candidates(k.routes, cfg.table, k.links[cfg.uplink]), best))
      && OwnRoutes(k.routes, cfg.table) == {Subnet(cfg, NetOf(p), k.links[cfg.iface])}
           + (if best.Some? then {Mirror(cfg, best.value.gw.value, k.links[cfg.uplink])} else {})
    }

    /** The started table is plumbed for this prefix and nothing else; without the served
        interface it is empty. */
    ghost predicate Plumbed(d: Option<Prefix>)
      requires d.Some? ==> d.value.bits <= d.value.width
      reads this, k
    {
      && Valid() && started && !stopped && prefix == d
      && if d.Some? && cfg.iface in k.links then exists best :: Carries(d.value, best) else Empty()
    }

    /** Deletes our rules except those naming keep.  Every state on the way still has all the
        rules that are kept. */
    method WipeRules(keep: Option<Net>)
      modifies k`rules, k`history
      ensures k.rules == Kept(old(k.rules), cfg.table, keep)
      ensures old(k.history) <= k.history
      ensures forall i | |old(k.history)| <= i < |k.history| :: Kept(old(k.rules), cfg.table, keep) <= k.history[i]
    {
      ghost var kept := Kept(k.rules, cfg.table, keep);
      var todo := k.rules;
      while todo != {}
        invariant todo <= old(k.rules) && todo <= k.rules
        invariant k.rules == kept + todo
        invariant old(k.history) <= k.history
        invariant forall i | |old(k.history)| <= i < |k.history| :: kept <= k.history[i]
        decreases todo
      {
        var ru :| ru in todo;
        todo := todo - {ru};
        if ru.table != cfg.table { continue; }
        if keep.Some? && (ru.src == keep || ru.dst == keep) { continue; }
        k.RuleDel(ru);
      }
    }

    /** Empties our table except the gateway-less route to keep. */
    method FlushTableExcept(keep: Option<Net>)
      modifies k`routes
      ensures k.routes == Unflushed(old(k.routes), cfg.table, keep)
    {
      var todo := OwnRoutes(k.routes, cfg.table);
      while todo != {}
        invariant todo <= OwnRoutes(old(k.routes), cfg.table)
        invariant k.routes == Unflushed(old(k.routes), cfg.table, keep) + todo
        decreases todo
      {
        var rt :| rt in todo;
        todo := todo - {rt};
        if keep.Some? && rt.gw.None? && rt.dst == keep { continue; }
        k.RouteDel(rt);
      }
    }

    /** Crash leftovers are wiped whatever prefix they encode. */
    method EnsureStarted()
      requires Valid()
      modifies this`started, k`rules, k`routes, k`history, sys
      ensures Valid() && started == (old(started) || !stopped)
      // accept_ra of the uplink first, then forwarding
      ensures if !old(started) && !stopped then TookTurns(old(sys.View()), old(sys.log), 0)
              else sys.View() == old(sys.View()) && sys.log == old(sys.log)
      ensures old(started) || stopped ==>
                k.rules == old(k.rules) && k.routes == old(k.routes) && k.history == old(k.history)
      ensures !old(started) && !stopped ==>
                k.rules == OtherRules(old(k.rules), cfg.table) && k.routes == OtherRoutes(old(k.routes), cfg.table)
      ensures old(k.history) <= k.history
    {
      if started || stopped { return; }
      started := true;
      WipeRules(None);
      FlushTableExcept(None);
      sys.AcquirePath(Sysctl.AcceptRA(cfg.uplink));
      sys.AcquirePath(Sysctl.Forwarding(cfg.uplink));
      sys.AcquirePath(Sysctl.Forwarding(cfg.iface));
    }

    method RemoveDefault()
      modifies k`routes
      ensures k.routes == set x | x in old(k.routes) && !(x.table == cfg.table && x.gw.Some? && IsDefault(x.dst))
    {
      var todo := OwnRoutes(k.routes, cfg.table);
      while todo != {}
        invariant todo <= OwnRoutes(old(k.routes), cfg.table)
        invariant k.routes <= old(k.routes)
        invariant forall x | x in old(k.routes) :: x in k.routes <==>
                    x in todo || !(x.table == cfg.table && x.gw.Some? && IsDefault(x.dst))
        decreases todo
      {
        var rt :| rt in todo;
        todo := todo - {rt};
        if rt.gw.None? || !IsDefault(rt.dst) { continue; }
        k.RouteDel(rt);
      }
    }

    /** The scan over the dump. */
    method BestDefault(dump: seq<Route>, link: int) returns (best: Option<Route>)
      ensures best == Scan(dump, cfg.table, link)
    {
      best := None;
      for i := 0 to |dump|
        invariant best == Scan(dump[..i], cfg.table, link)
      {
        assert dump[..i + 1][..i] == dump[..i];
        var rt := dump[i];
        if rt.table == cfg.table || rt.proto == ROUTE_PROTO { continue; }
        if rt.link != link || rt.gw.None? || !IsDefault(rt.dst) { continue; }
        if best.None? || BetterDefault(rt, best.value) {
          best := Some(rt);
        }
      }
      assert dump[..|dump|] == dump;
    }

    method SyncDefault() returns (ghost best: Option<Route>)
      modifies k`routes
      ensures prefix.None? ==> k.routes == old(k.routes)
      ensures prefix.None? || cfg.uplink !in k.links ==> best.None?
      ensures prefix.Some? && cfg.uplink !in k.links ==> k.routes == Synced(old(k.routes), cfg, 0, None)
      ensures prefix.Some? && cfg.uplink in k.links ==>
                && Chosen(Candidates(old(k.routes), cfg.table, k.links[cfg.uplink]), best)
                && k.routes == Synced(old(k.routes), cfg, k.links[cfg.uplink], best)
    {
      best := None;
      if prefix.None? { return; }
      if cfg.uplink !in k.links {
        RemoveDefault();
        return;
      }
      var link := k.links[cfg.uplink];
      var dump := k.Dump();
      var found := BestDefault(dump, link);
      ScanChooses(dump, cfg.table, link);
      best := found;
      if found.None? {
        RemoveDefault();
        return;
      }
      k.RouteReplace(Mirror(cfg, found.value.gw.value, link));
    }

    /** Installs a prefix.  With the interface present our table then holds exactly the rule
        pair, the subnet route and the mirrored default; other tables are untouched; and when a pair
        was live before, every intermediate state has that pair or the new one. */
    method Install(p: Prefix) returns (ghost best: Option<Route>)
      requires Valid() && 0 < p.bits <= p.width
      modifies this`started, this`prefix, k`rules, k`routes, k`history, sys
      ensures Valid()
      ensures stopped ==> k.rules == old(k.rules) && k.routes == old(k.routes) && prefix == old(prefix)
      ensures !stopped ==> started && prefix == Some(p)
      ensures OtherRules(k.rules, cfg.table) == OtherRules(old(k.rules), cfg.table)
      ensures OtherRoutes(k.routes, cfg.table) == OtherRoutes(old(k.routes), cfg.table)
      ensures !stopped && cfg.iface in k.links ==> Carries(p, best)
      ensures !stopped && cfg.iface in k.links ==>
                RulesServe(cfg, k.rules, p) && RoutesServe(cfg, k.routes, k.links, p)
      ensures !stopped && cfg.iface !in k.links ==>
                if old(started) then k.rules == old(k.rules) && k.routes == old(k.routes)
                else Empty()
      ensures old(k.history) <= k.history
      ensures old(started) ==> forall n | Pair(cfg, n) <= old(k.rules) ::
                forall i | |old(k.history)| <= i < |k.history| ::
                  Pair(cfg, n) <= k.history[i] || Pair(cfg, NetOf(p)) <= k.history[i]
    {
      best := None;
      if stopped { return; }
      EnsureStarted();
      prefix := Some(p);
      if cfg.iface !in k.links { return; }
      ghost var before := k.routes;
      best := Plumb(NetOf(p));
      if cfg.uplink in k.links { CandidatesAreForeign(k.routes, before, cfg.table, k.links[cfg.uplink]); }
      CarriesServes(p, best);
    }

    lemma CarriesServes(p: Prefix, best: Option<Route>)
      requires p.bits <= p.width && Carries(p, best)
      ensures RulesServe(cfg, k.rules, p) && RoutesServe(cfg, k.routes, k.links, p)
    {
      PairServes(cfg, k.rules, p);
      TableServes(cfg, k.routes, k.links, p, best);
    }

    /** So does every plumbed table. */
    lemma PlumbedServes(p: Prefix)
      requires p.bits <= p.width && Plumbed(Some(p)) && cfg.iface in k.links
      ensures RulesServe(cfg, k.rules, p) && RoutesServe(cfg, k.routes, k.links, p)
    {
      var best :| Carries(p, best);
      CarriesServes(p, best);
    }

    /** Subnet route, rules and mirrored default of a prefix. */
    method Plumb(net: Net) returns (ghost best: Option<Route>)
      requires Tidy(cfg, k.rules, k.routes) && prefix.Some? && net.bits > 0 && cfg.iface in k.links
      modifies k`rules, k`routes, k`history
      ensures Tidy(cfg, k.rules, k.routes)
      ensures OtherRules(k.rules, cfg.table) == OtherRules(old(k.rules), cfg.table)
      ensures OtherRoutes(k.routes, cfg.table) == OtherRoutes(old(k.routes), cfg.table)
      ensures OwnRules(k.rules, cfg.table) == Pair(cfg, net)
      ensures best.Some? ==> best.value.gw.Some? && cfg.uplink in k.links
      ensures cfg.uplink in k.links ==> Chosen(Candidates(old(k.routes), cfg.table, k.links[cfg.uplink]), best)
      ensures OwnRoutes(k.routes, cfg.table) == {Subnet(cfg, net, k.links[cfg.iface])}
                + (if best.Some? then {Mirror(cfg, best.value.gw.value, k.links[cfg.uplink])} else {})
      ensures old(k.history) <= k.history
      ensures forall i | |old(k.history)| <= i < |k.history| ::
                old(k.rules) <= k.history[i] || Pair(cfg, net) <= k.history[i]
    {
      var link := k.links[cfg.iface];
      k.RouteReplace(Subnet(cfg, net, link));
      SwapRules(net);
      FlushTableExcept(Some(net));
      OnlySubnetLeft(cfg, old(k.routes), net, link);
      ghost var mid := k.routes;
      best := SyncDefault();
      SyncedOwn(cfg, mid, if cfg.uplink in k.links then k.links[cfg.uplink] else 0, best, Subnet(cfg, net, link));
      assert forall r | r in k.routes && r.table == cfg.table :: r in OwnRoutes(k.routes, cfg.table);
      assert forall r | r in k.rules && r.table == cfg.table :: r in OwnRules(k.rules, cfg.table);
    }

    /** The new pair first, then the stale rules. */
    method SwapRules(net: Net)
      requires net.bits > 0 && forall r | r in k.rules && r.table == cfg.table :: TidyRule(cfg, r)
      modifies k`rules, k`history
      ensures OwnRules(k.rules, cfg.table) == Pair(cfg, net)
      ensures forall r | r in k.rules && r.table == cfg.table :: TidyRule(cfg, r)
      ensures OtherRules(k.rules, cfg.table) == OtherRules(old(k.rules), cfg.table)
      ensures old(k.history) <= k.history
      ensures forall i | |old(k.history)| <= i < |k.history| ::
                old(k.rules) <= k.history[i] || Pair(cfg, net) <= k.history[i]
    {
      k.RuleAdd(FromRule(cfg, net));
      k.RuleAdd(ToRule(cfg, net));
      assert Pair(cfg, net) <= Kept(k.rules, cfg.table, Some(net));
      WipeRules(Some(net));
    }

    method Clear()
      requires Valid()
      modifies this`prefix, k`rules, k`routes, k`history
      ensures Valid()
      ensures OtherRules(k.rules, cfg.table) == OtherRules(old(k.rules), cfg.table)
      ensures OtherRoutes(k.routes, cfg.table) == OtherRoutes(old(k.routes), cfg.table)
      ensures prefix == None
      ensures started || old(prefix).Some? ==> Empty()
    {
      if prefix.None? && !started { return; }
      prefix := None;
      WipeRules(None);
      FlushTableExcept(None);
    }

    method Stop()
      requires Valid()
      modifies this`prefix, this`stopped, k`rules, k`routes, k`history, sys
      ensures Valid() && stopped
      // forwarding first, then accept_ra of the uplink
      ensures if started && !old(stopped) then TookTurns(old(sys.View()), old(sys.log), 3)
              else sys.View() == old(sys.View()) && sys.log == old(sys.log)
      ensures OtherRules(k.rules, cfg.table) == OtherRules(old(k.rules), cfg.table)
      ensures OtherRoutes(k.routes, cfg.table) == OtherRoutes(old(k.routes), cfg.table)
      ensures started && !old(stopped) ==> Empty()
    {
      if stopped { return; }
      stopped := true;
      Clear();
      if started {
        sys.ReleasePath(Sysctl.Forwarding(cfg.iface));
        sys.ReleasePath(Sysctl.Forwarding(cfg.uplink));
        sys.ReleasePath(Sysctl.AcceptRA(cfg.uplink));
      }
    }
  }

  lemma PairServes(c: Config, rules: set<Rule>, p: Prefix)
    requires p.bits <= p.width && OwnRules(rules, c.table) == Pair(c, NetOf(p))
    ensures RulesServe(c, rules, p)
  {
    assert FromRule(c, NetOf(p)) in OwnRules(rules, c.table) && ToRule(c, NetOf(p)) in OwnRules(rules, c.table);
    assert forall r | r in rules && r.table == c.table :: r in OwnRules(rules, c.table);
  }

  lemma TableServes(c: Config, routes: set<Route>, links: map<string, int>, p: Prefix, best: Option<Route>)
    requires p.bits <= p.width && c.iface in links
    requires best.Some? ==> best.value.gw.Some? && c.uplink in links
    requires c.uplink in links ==> Chosen(Candidates(routes, c.table, links[c.uplink]), best)
    requires OwnRoutes(routes, c.table) == {Subnet(c, NetOf(p), links[c.iface])}
               + (if best.Some? then {Mirror(c, best.value.gw.value, links[c.uplink])} else {})
    ensures RoutesServe(c, routes, links, p)
  {
    var home := Subnet(c, NetOf(p), links[c.iface]);
    assert home in OwnRoutes(routes, c.table) && LeadsHome(home, c.table, links[c.iface], p);
    assert forall r | r in routes && r.table == c.table :: r in OwnRoutes(routes, c.table);
    if best.Some? {
      var cands := Candidates(routes, c.table, links[c.uplink]);
      ChosenIsMaximal(cands, best);
      var out := Mirror(c, best.value.gw.value, links[c.uplink]);
      assert out in OwnRoutes(routes, c.table) && LeadsOut(out, c.table, links[c.uplink], cands);
    }
  }

  function Kept(rules: set<Rule>, table: int, keep: Option<Net>): (r: set<Rule>) {
    set x | x in rules && (x.table != table || (keep.Some? && (x.src == keep || x.dst == keep)))
  }

  function Unflushed(routes: set<Route>, table: int, keep: Option<Net>): (r: set<Route>) {
    set x | x in routes && (x.table != table || (keep.Some? && x.gw.None? && x.dst == keep))
  }

  /** After the subnet route is in and the table flushed around it, it is alone there. */
  lemma OnlySubnetLeft(c: Config, routes: set<Route>, net: Net, link: int)
    requires net.bits > 0 && forall r | r in routes && r.table == c.table :: TidyRoute(r)
    ensures var mid := Unflushed(Replaced(routes, Subnet(c, net, link)), c.table, Some(net));
      && OwnRoutes(mid, c.table) == {Subnet(c, net, link)}
      && OtherRoutes(mid, c.table) == OtherRoutes(routes, c.table)
      && forall up :: Candidates(mid, c.table, up) == Candidates(routes, c.table, up)
  {
    var mid := Unflushed(Replaced(routes, Subnet(c, net, link)), c.table, Some(net));
    assert OtherRoutes(mid, c.table) == OtherRoutes(routes, c.table);
    forall up ensures Candidates(mid, c.table, up) == Candidates(routes, c.table, up) {
      CandidatesAreForeign(mid, routes, c.table, up);
    }
  }

  lemma CandidatesAreForeign(a: set<Route>, b: set<Route>, table: int, link: int)
    requires OtherRoutes(a, table) == OtherRoutes(b, table)
    ensures Candidates(a, table, link) == Candidates(b, table, link)
  {
    assert forall x :: x in Candidates(a, table, link) ==> x in OtherRoutes(a, table);
    assert forall x :: x in Candidates(b, table, link) ==> x in OtherRoutes(b, table);
  }

  /** A sync only adds the mirrored default to our table. */
  lemma SyncedOwn(c: Config, mid: set<Route>, link: int, best: Option<Route>, subnet: Route)
    requires best.Some? ==> best.value.gw.Some?
    requires OwnRoutes(mid, c.table) == {subnet} && !IsDefault(subnet.dst)
    ensures OwnRoutes(Synced(mid, c, link, best), c.table)
            == {subnet} + (if best.Some? then {Mirror(c, best.value.gw.value, link)} else {})
    ensures OtherRoutes(Synced(mid, c, link, best), c.table) == OtherRoutes(mid, c.table)
  {
    assert subnet in OwnRoutes(mid, c.table);
    assert forall x :: x in mid && x.table == c.table ==> x in OwnRoutes(mid, c.table);
  }
}
