/** From the delegation to the advertisements: how the callbacks of the prefix-delegation client
    (internal/pd/client.go) show in the router advertisements of its interface
    (internal/server/ra.go).  Advertisements are built at any moments of a run. */
module PdAdverts {
  import opened Arith
  import opened Addressing
  import opened PdEvents
  import opened PdTrace
  import opened Deprecation
  import PdClient

  /** One advertisement for a client's interface, at the present moment of its run. */
  method Advertise(c: PdClient.PdClient, ra: RaServer) returns (out: map<Prefix, bool>)
    requires c.Valid() && ra.Valid()
    modifies ra
    ensures ra.Valid() && ra.builds == old(ra.builds) + [LiveAt(c.w, c.iface.suffix, c.iface.plen)]
    ensures forall p :: ReportIn(out, p) == Reported(old(ra.builds), LiveAt(c.w, c.iface.suffix, c.iface.plen), p)
  {
    var v6all := c.AdvertisedPrefixes();
    out := ra.CurrentPrefixes(v6all);
  }

  /** The /64 that is live in a state of the run, if any. */
  function LiveAt(w: Watch, suffix: Addr, plen: nat): (r: set<Prefix>) {
    if plen <= 128 then Deprecation.Live(PdClient.Shown(w, suffix, plen)) else {}
  }

  /** The /64 advertised for a delegated prefix. */
  function Advertised(p: Prefix, suffix: Addr): (r: Prefix)
    requires p.bits <= p.width
  {
    Masked(Compose(p, suffix, 64))
  }

  /** The builds made at the given moments of a run. */
  function Builds(run: seq<Watch>, at: seq<nat>, suffix: Addr): (r: seq<set<Prefix>>)
    requires forall i | 0 <= i < |at| :: at[i] < |run|
  {
    seq(|at|, i requires 0 <= i < |at| => LiveAt(run[at[i]], suffix, 64))
  }

  /** The callback at n reports the gain of a prefix advertised as q. */
  predicate GainOf(s: Stamped, q: Prefix, suffix: Addr) {
    s.e.Told? && s.e.ok && s.e.prefix.bits <= s.e.prefix.width && Advertised(s.e.prefix, suffix) == q
  }

  /** After the loss of a prefix its /64 is not live until it is gained again. */
  lemma {:induction false} GoneUntilGain(trace: Trace, run: seq<Watch>, retry: Retry, n: nat, m: nat, q: Prefix,
                                         suffix: Addr)
    requires Accepted(trace, run, retry) && n < m <= |trace| && trace[n].e.Told? && !trace[n].e.ok
    requires forall i | n < i < m :: !GainOf(trace[i], q, suffix)
    ensures q !in LiveAt(run[m], suffix, 64)
  {
    assert StepsAt(trace, run, m - 1);
    if m > n + 1 {
      GoneUntilGain(trace, run, retry, n, m - 1, q, suffix);
      KnowsAll(trace, run, retry, m - 1);
      assert !GainOf(trace[m - 1], q, suffix);
      StaysGone(run[m - 1], trace[m - 1], run[m], q, suffix);
    }
  }

  lemma StaysGone(w: Watch, s: Stamped, v: Watch, q: Prefix, suffix: Addr)
    requires Step(w, s) == Some(v) && !w.blank && !GainOf(s, q, suffix) && q !in LiveAt(w, suffix, 64)
    ensures q !in LiveAt(v, suffix, 64)
  {
    if s.e.Told? {
      assert v.served.Some? ==> s.e.ok && v.served.value == s.e.prefix;
    } else {
      assert v.served == w.served && v.muted == w.muted;
    }
  }

  /** A lost prefix is deprecated.  Let advertisements be built at any moments of a run, the
      last one before the loss of a served prefix p being the k-th.  Then the k-th lists the
      /64 of p as alive, and as long as that /64 is not gained again the next three list it
      with zero lifetimes and the later ones not at all. */
  lemma LossIsAdvertised(trace: Trace, run: seq<Watch>, retry: Retry, n: nat, p: Prefix, suffix: Addr,
                         at: seq<nat>, k: nat, j: nat)
    requires Accepted(trace, run, retry) && n < |trace| && trace[n].e == Told(p, false)
    requires p.bits <= p.width && !run[n].muted
    requires k < j < |at| && forall i | 0 <= i < |at| :: at[i] <= |trace|
    // the k-th build sees p served; those after it come after the loss
    requires at[k] <= n && (forall i | at[k] <= i < n :: !trace[i].e.Told? && !trace[i].e.Restored?)
    requires forall i | k < i <= j :: n < at[i]
    requires forall i, h | k < i <= j && n < h < at[i] :: !GainOf(trace[h], Advertised(p, suffix), suffix)
    ensures var h, q := Builds(run, at, suffix), Advertised(p, suffix);
      && Reported(h[..k], h[k], q) == Alive
      && Reported(h[..j], h[j], q) == if j - k <= 3 then Deprecated else Absent
  {
    var h, q := Builds(run, at, suffix), Advertised(p, suffix);
    assert StepsAt(trace, run, n);
    ServedSince(trace, run, retry, at[k], n);
    ShownLive(run[at[k]], p, suffix);
    forall i | k < i <= j ensures q !in h[i] {
      GoneUntilGain(trace, run, retry, n, at[i], q, suffix);
    }
    assert h[..j] == h[..k + 1] + h[k + 1..j];
    WithdrawnThreeTimes(h[..k + 1], h[k + 1..j], h[j], q);
  }

  lemma {:induction false} ServedSince(trace: Trace, run: seq<Watch>, retry: Retry, m: nat, n: nat)
    requires Accepted(trace, run, retry) && m <= n <= |trace|
    requires forall i | m <= i < n :: !trace[i].e.Told? && !trace[i].e.Restored?
    requires !run[n].muted
    ensures run[m].served == run[n].served && !run[m].muted
  {
    if m < n {
      assert StepsAt(trace, run, n - 1);
      SameService(run[n - 1], trace[n - 1], run[n]);
      ServedSince(trace, run, retry, m, n - 1);
    }
  }

  lemma SameService(w: Watch, s: Stamped, v: Watch)
    requires Step(w, s) == Some(v) && !s.e.Told? && !s.e.Restored? && !v.muted
    ensures v.served == w.served && !w.muted
  {
  }

  lemma ShownLive(w: Watch, p: Prefix, suffix: Addr)
    requires w.served == Some(p) && !w.muted && p.bits <= p.width
    ensures Advertised(p, suffix) in LiveAt(w, suffix, 64)
  {
    var c := Compose(p, suffix, 64);
    assert PdClient.Shown(w, suffix, 64) == [c];
    assert c in [c] && c.bits == 64;
  }
}
