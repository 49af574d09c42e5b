/** Prefix deprecation in router advertisements (currentPrefixes in internal/server/ra.go).
    A countdown kept between builds is shown to report exactly a window of history. */
module Deprecation {
  import opened Arith
  import opened Addressing

  const RESENDS := 3

  /** The live /64s among the served prefixes. */
  function Live(v6all: seq<Prefix>): (r: set<Prefix>)
    requires forall p | p in v6all :: p.bits <= p.width
  {
    set p | p in v6all && p.bits == 64 :: Masked(p)
  }

  // ---- the stateless reference ----

  /** p was live in one of the last n builds of the history. */
  predicate LiveWithin(history: seq<set<Prefix>>, p: Prefix, n: nat) {
    exists i :: 0 <= i < |history| && |history| - n <= i && p in history[i]
  }

  /** What an RA says about p, given the builds before it and the set that is live now. */
  datatype Report = Alive | Deprecated | Absent

  function Reported(history: seq<set<Prefix>>, live: set<Prefix>, p: Prefix): (r: Report) {
    if p in live then Alive
    else if LiveWithin(history, p, RESENDS) then Deprecated
    else Absent
  }

  function ReportIn(out: map<Prefix, bool>, p: Prefix): (r: Report) {
    if p !in out then Absent else if out[p] then Alive else Deprecated
  }

  // ---- the countdown ----

  /** How many builds ago p was last live, counting the last build as one; zero for never. */
  function Age(history: seq<set<Prefix>>, p: Prefix): (a: nat) {
    if history == [] then 0
    else
      var n := |history| - 1;
      if p in history[n] then 1
      else
        var a := Age(history[..n], p);
        if a == 0 then 0 else a + 1
  }

  lemma {:induction false} AgeIsWindow(history: seq<set<Prefix>>, p: Prefix, n: nat)
    ensures 1 <= Age(history, p) <= n <==> LiveWithin(history, p, n)
  {
    if history != [] && n > 0 {
      var m := |history| - 1;
      var before := history[..m];
      AgeIsWindow(before, p, n - 1);
      assert forall i | 0 <= i < m :: history[i] == before[i];
    }
  }

  lemma AgeNext(history: seq<set<Prefix>>, live: set<Prefix>, p: Prefix)
    ensures Age(history + [live], p) ==
            if p in live then 1 else if Age(history, p) == 0 then 0 else Age(history, p) + 1
  {
    assert (history + [live])[..|history|] == history;
  }

  /** The countdown state that goes with a history. */
  ghost predicate Tracks(last: seq<Prefix>, deprecate: map<Prefix, int>, history: seq<set<Prefix>>) {
    && (forall p :: p in last <==> Age(history, p) == 1)
    && (forall p :: p in deprecate <==> 2 <= Age(history, p) <= RESENDS)
    && (forall p | p in deprecate :: deprecate[p] == RESENDS + 1 - Age(history, p))
  }

  class RaServer {
    var last: seq<Prefix>
    var deprecate: map<Prefix, int>
    ghost var builds: seq<set<Prefix>>

    ghost predicate Valid()
      reads this
    {
      Tracks(last, deprecate, builds)
    }

    constructor ()
      ensures Valid() && builds == []
    {
      last, deprecate, builds := [], map[], [];
    }

    /** Merge the live /64s with the prefixes pending deprecation. */
    method CurrentPrefixes(v6all: seq<Prefix>) returns (out: map<Prefix, bool>)
      requires Valid() && forall p | p in v6all :: p.bits <= p.width
      modifies this
      ensures Valid() && builds == old(builds) + [Live(v6all)]
      ensures forall p :: ReportIn(out, p) == Reported(old(builds), Live(v6all), p)
    {
      var live := CollectLive(v6all);
      ghost var history := builds;
      QueueVanished(live);
      out := EmitAlive(live);
      var pending := EmitPending();
      out := out + pending;
      last := SetToSeq(live);
      builds := builds + [live];
      forall p
        ensures ReportIn(out, p) == Reported(history, live, p)
        ensures p in last <==> Age(builds, p) == 1
        ensures p in deprecate <==> 2 <= Age(builds, p) <= RESENDS
        ensures p in deprecate ==> deprecate[p] == RESENDS + 1 - Age(builds, p)
      {
        AgeIsWindow(history, p, RESENDS);
        AgeNext(history, live, p);
      }
    }

    method CollectLive(v6all: seq<Prefix>) returns (live: set<Prefix>)
      requires forall p | p in v6all :: p.bits <= p.width
      ensures live == Live(v6all)
      // exactly the networks of the served /64s
      ensures forall q | q in v6all && q.bits == 64 :: Masked(q) in live
      ensures forall p | p in live :: p.bits == 64 && exists q :: q in v6all && p == Masked(q)
    {
      live := {};
      for i := 0 to |v6all|
        invariant live == Live(v6all[..i])
      {
        assert v6all[..i + 1] == v6all[..i] + [v6all[i]];
        if v6all[i].bits == 64 {
          live := live + {Masked(v6all[i])};
        }
      }
      assert v6all[..|v6all|] == v6all;
    }

    /** Prefixes that vanished since the last RA are queued for deprecation. */
    method QueueVanished(live: set<Prefix>)
      requires Valid()
      modifies this`deprecate
      ensures forall p :: p in deprecate <==>
                (p in old(deprecate) || (1 <= Age(builds, p) <= RESENDS && p !in live))
      ensures forall p | p in deprecate :: deprecate[p] == RESENDS + 1 - Age(builds, p)
    {
      for i := 0 to |last|
        invariant forall p :: p in deprecate <==> p in old(deprecate) || (p in last[..i] && p !in live)
        invariant forall p | p in deprecate :: deprecate[p] == RESENDS + 1 - Age(builds, p)
      {
        var p := last[i];
        assert last[..i + 1] == last[..i] + [p];
        assert p in last;
        if p !in live && p !in deprecate {
          deprecate := deprecate[p := RESENDS];
        }
      }
      assert last[..|last|] == last;
    }

    /** Live prefixes are advertised, and one that came back stops being deprecated. */
    method EmitAlive(live: set<Prefix>) returns (out: map<Prefix, bool>)
      modifies this`deprecate
      ensures out == map p | p in live :: true
      ensures deprecate == old(deprecate) - live
    {
      out := map[];
      var todo := live;
      while todo != {}
        invariant todo <= live
        invariant out == map p | p in live - todo :: true
        invariant deprecate == old(deprecate) - (live - todo)
        decreases todo
      {
        var p :| p in todo;
        out := out[p := true];
        deprecate := deprecate - {p};
        todo := todo - {p};
      }
    }

    /** Pending prefixes are advertised with zero lifetimes and counted down. */
    method EmitPending() returns (out: map<Prefix, bool>)
      modifies this`deprecate
      ensures out == map p | p in old(deprecate) :: false
      ensures deprecate == map p | p in old(deprecate) && old(deprecate)[p] > 1 :: old(deprecate)[p] - 1
    {
      out := map[];
      var todo := deprecate.Keys;
      while todo != {}
        invariant todo <= old(deprecate).Keys
        invariant out == map p | p in old(deprecate) && p !in todo :: false
        invariant forall p :: p in deprecate <==>
                    p in old(deprecate) && (p in todo || old(deprecate)[p] > 1)
        invariant forall p | p in deprecate ::
                    deprecate[p] == if p in todo then old(deprecate)[p] else old(deprecate)[p] - 1
        decreases todo
      {
        var p :| p in todo;
        var n := deprecate[p];
        out := out[p := false];
        if n <= 1 {
          deprecate := deprecate - {p};
        } else {
          deprecate := deprecate[p := n - 1];
        }
        todo := todo - {p};
      }
    }

    method SetToSeq(live: set<Prefix>) returns (r: seq<Prefix>)
      ensures forall p :: p in r <==> p in live
    {
      r := [];
      var todo := live;
      while todo != {}
        invariant todo <= live
        invariant forall p :: p in r <==> p in live - todo
        decreases todo
      {
        var p :| p in todo;
        r := r + [p];
        todo := todo - {p};
      }
    }
  }

  /** After a prefix is gone for good it is withdrawn in exactly three RAs and then absent. */
  lemma WithdrawnThreeTimes(history: seq<set<Prefix>>, gone: seq<set<Prefix>>, live: set<Prefix>, p: Prefix)
    requires p !in live && forall i | 0 <= i < |gone| :: p !in gone[i]
    requires history != [] && p in history[|history| - 1]
    ensures Reported(history + gone, live, p) == if |gone| < 3 then Deprecated else Absent
  {
    var h := history + gone;
    assert p in h[|history| - 1];
    assert forall i | |history| <= i < |h| :: h[i] == gone[i - |history|];
  }
}
