/** Several bridges mirroring one uplink's default route (syncDefaultLocked in
    internal/pdroute/pdroute.go): whatever the order of their syncs, no mirror ever feeds on
    another. */
module Mirrors {
  import opened Arith
  import opened Addressing
  import opened PolicyRoutes

  /** One bridge synced and its dump order led to `best`. */
  datatype Sync = Sync(cfg: Config, best: Option<Route>)

  /** Only bridges write to bridge tables, and they mark their routes. */
  predicate Marked(routes: set<Route>, tables: set<int>) {
    forall r | r in routes && r.table in tables :: TidyRoute(r)
  }

  /** The routes of the rest of the system. */
  function Foreign(routes: set<Route>, tables: set<int>): (r: set<Route>) {
    set x | x in routes && x.table !in tables
  }

  /** The uplink's default routes among foreign ones. */
  function Defaults(foreign: set<Route>, link: int): (r: set<Route>) {
    set x | x in foreign && x.proto != 213 && x.link == link && x.gw.Some? && (x.dst.None? || x.dst.value.bits == 0)
  }

  function DefaultsOf(routes: set<Route>, table: int): (r: set<Route>) {
    set x | x in routes && x.table == table && IsDefault(x.dst)
  }

  predicate PossibleSync(routes: set<Route>, tables: set<int>, link: int, s: Sync) {
    s.cfg.table in tables && Chosen(Candidates(routes, s.cfg.table, link), s.best)
  }

  function After(routes: set<Route>, link: int, s: Sync): (r: set<Route>)
    requires s.best.Some? ==> s.best.value.gw.Some?
  {
    Synced(routes, s.cfg, link, s.best)
  }

  /** A run of syncs. */
  ghost predicate Leads(routes: set<Route>, tables: set<int>, link: int, run: seq<Sync>, to: set<Route>)
    decreases |run|
  {
    if run == [] then routes == to
    else PossibleSync(routes, tables, link, run[0]) && Leads(After(routes, link, run[0]), tables, link, run[1..], to)
  }

  /** The candidates of every table are the same: the foreign default routes. */
  lemma CandidatesForeign(routes: set<Route>, tables: set<int>, table: int, link: int)
    requires Marked(routes, tables) && table in tables
    ensures Candidates(routes, table, link) == Defaults(Foreign(routes, tables), link)
  {
  }

  /** The table's default is the mirror of a best foreign default, or absent without one. */
  ghost predicate Faithful(routes: set<Route>, c: Config, link: int, foreign: set<Route>) {
    exists best :: Chosen(Defaults(foreign, link), best) && DefaultsOf(routes, c.table) == MirrorSet(c, link, best)
  }

  function MirrorSet(c: Config, link: int, best: Option<Route>): (r: set<Route>) {
    if best.Some? && best.value.gw.Some? then {Mirror(c, best.value.gw.value, link)} else {}
  }

  lemma SyncStep(routes: set<Route>, tables: set<int>, link: int, s: Sync)
    requires Marked(routes, tables) && PossibleSync(routes, tables, link, s)
    ensures Marked(After(routes, link, s), tables)
    ensures Foreign(After(routes, link, s), tables) == Foreign(routes, tables)
    ensures Faithful(After(routes, link, s), s.cfg, link, Foreign(routes, tables))
    ensures forall t | t != s.cfg.table :: DefaultsOf(After(routes, link, s), t) == DefaultsOf(routes, t)
  {
    CandidatesForeign(routes, tables, s.cfg.table, link);
    assert DefaultsOf(After(routes, link, s), s.cfg.table) == MirrorSet(s.cfg, link, s.best);
  }

  /** Mirrors never feed on mirrors: after any run of syncs the foreign routes are untouched,
      and every table that synced mirrors a best foreign default, or has none if there is none. */
  lemma {:induction false} MirrorsFollowForeign(routes: set<Route>, tables: set<int>, link: int, run: seq<Sync>,
                                                to: set<Route>, i: nat)
    requires Marked(routes, tables) && Leads(routes, tables, link, run, to) && i < |run|
    ensures Foreign(to, tables) == Foreign(routes, tables)
    ensures Faithful(to, run[i].cfg, link, Foreign(routes, tables))
    decreases |run|
  {
    var next := After(routes, link, run[0]);
    SyncStep(routes, tables, link, run[0]);
    if i > 0 {
      MirrorsFollowForeign(next, tables, link, run[1..], to, i - 1);
    } else {
      StaysFaithful(next, tables, link, run[1..], to, run[0].cfg);
    }
  }

  lemma {:induction false} StaysFaithful(routes: set<Route>, tables: set<int>, link: int, run: seq<Sync>,
                                         to: set<Route>, c: Config)
    requires Marked(routes, tables) && Leads(routes, tables, link, run, to)
    requires Faithful(routes, c, link, Foreign(routes, tables))
    ensures Foreign(to, tables) == Foreign(routes, tables)
    ensures Faithful(to, c, link, Foreign(routes, tables))
    decreases |run|
  {
    if run != [] {
      var next := After(routes, link, run[0]);
      SyncStep(routes, tables, link, run[0]);
      if run[0].cfg.table == c.table {
        var best :| Chosen(Defaults(Foreign(routes, tables), link), best) &&
                    DefaultsOf(next, run[0].cfg.table) == MirrorSet(run[0].cfg, link, best);
        assert DefaultsOf(next, c.table) == MirrorSet(c, link, best);
      }
      StaysFaithful(next, tables, link, run[1..], to, c);
    }
  }

  /** All best candidates agree on the gateway. */
  predicate OneGateway(cands: set<Route>) {
    forall a, b | a in cands && b in cands && Chosen(cands, Some(a)) && Chosen(cands, Some(b)) :: a.gw == b.gw
  }

  /** A repeated sync can never change anything, whatever the order of the route dump, if and
      only if the best candidates agree on the gateway. */
  lemma ResyncStableIff(routes: set<Route>, c: Config, link: int, dump: seq<Route>)
    requires Elems(dump) == routes
    ensures var best := Scan(dump, c.table, link);
      && (best.Some? ==> best.value.gw.Some?)
      && (OneGateway(Candidates(routes, c.table, link)) <==> Stable(Synced(routes, c, link, best), c, link))
  {
    var best, cands := Scan(dump, c.table, link), Candidates(routes, c.table, link);
    ScanChooses(dump, c.table, link);
    var once := Synced(routes, c, link, best);
    assert Candidates(once, c.table, link) == cands;
    if OneGateway(cands) {
      forall again | Elems(again) == once ensures Synced(once, c, link, Found(again, c, link)) == once {
        ScanChooses(again, c.table, link);
        ResyncWith(routes, c, link, best, Scan(again, c.table, link));
      }
    } else {
      var a, b :| a in cands && b in cands && Chosen(cands, Some(a)) && Chosen(cands, Some(b)) && a.gw != b.gw;
      var other := if a.gw != best.value.gw then a else b;
      var again := EveryChoiceFound(once, c.table, link, Some(other));
      ResyncWith(routes, c, link, best, Some(other));
      assert Synced(once, c, link, Found(again, c, link)) != once;
    }
  }

  /** The choice a sync makes from a dump. */
  function Found(dump: seq<Route>, c: Config, link: int): (best: Option<Route>)
    ensures best.Some? ==> best.value.gw.Some?
  {
    ScanChooses(dump, c.table, link);
    Scan(dump, c.table, link)
  }

  /** A sync changes nothing, for every order of the dump. */
  ghost predicate Stable(routes: set<Route>, c: Config, link: int) {
    forall dump | Elems(dump) == routes :: Synced(routes, c, link, Found(dump, c, link)) == routes
  }

  /** Two routers advertising with the same metric are enough: their mirror is never stable. */
  lemma TwoRoutersFlap(c: Config, link: int, a: Addr, b: Addr, table: int, metric: int)
    requires a != b && table != c.table
    ensures var routes := {Learned(table, a, link, metric), Learned(table, b, link, metric)};
      forall dump | Elems(dump) == routes :: !Stable(Synced(routes, c, link, Found(dump, c, link)), c, link)
  {
    var x, y := Learned(table, a, link, metric), Learned(table, b, link, metric);
    var cands := Candidates({x, y}, c.table, link);
    assert cands == {x, y};
    assert Chosen(cands, Some(x)) && Chosen(cands, Some(y));
    assert !OneGateway(cands);
    forall dump | Elems(dump) == {x, y}
      ensures !Stable(Synced({x, y}, c, link, Found(dump, c, link)), c, link)
    {
      ResyncStableIff({x, y}, c, link, dump);
    }
  }

  /** A default route learned from a router advertisement. */
  function Learned(table: int, gw: Addr, link: int, metric: int): (r: Route) {
    Route(table, None, Some(gw), link, PROTO_RA, metric)
  }

  lemma ResyncWith(routes: set<Route>, c: Config, link: int, best: Option<Route>, again: Option<Route>)
    requires Chosen(Candidates(routes, c.table, link), best) && Chosen(Candidates(routes, c.table, link), again)
    ensures best.Some? == again.Some?
    ensures Synced(Synced(routes, c, link, best), c, link, again) == Synced(routes, c, link, best)
            <==> (best.Some? ==> again.value.gw == best.value.gw)
  {
    var once := Synced(routes, c, link, best);
    if best.Some? {
      var m, n := Mirror(c, best.value.gw.value, link), Mirror(c, again.value.gw.value, link);
      assert m in once && n in Synced(once, c, link, again);
      if m != n {
        assert m !in Synced(once, c, link, again);
      } else {
        assert Synced(once, c, link, again) == once;
      }
    } else {
      assert Synced(once, c, link, again) == once;
    }
  }
}
