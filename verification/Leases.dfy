/** The lease table (internal/server/binding.go): the meaning of each operation on a map from
    address to lease, and the class that updates such a map in place.  Every operation takes
    the clock readings the source takes inside its lock. */
module Leases {
  import opened Arith
  import opened Addressing
  import opened Statics

  type Time = int

  datatype Lease = Lease(
    ip: Addr, mac: string, clientID: string, hostname: string, expiry: Time, isStatic: bool)

  type Table = map<Addr, Lease>

  function ClientKey(mac: string, cid: string): (key: string) {
    Lower(mac) + "/" + Lower(cid)
  }

  function Key(l: Lease): (key: string) {
    ClientKey(l.mac, l.clientID)
  }

  /** Client keys identify clients: with no "/" in a MAC, equal keys mean equal MAC and equal
      client id, up to letter case. */
  lemma ClientKeyInjective(mac1: string, cid1: string, mac2: string, cid2: string)
    requires '/' !in mac1 && '/' !in mac2
    requires ClientKey(mac1, cid1) == ClientKey(mac2, cid2)
    ensures EqualFold(mac1, mac2) && EqualFold(cid1, cid2)
  {
    var k1, k2 := ClientKey(mac1, cid1), ClientKey(mac2, cid2);
    var m1, m2 := Lower(mac1), Lower(mac2);
    NoSlash(mac1);
    NoSlash(mac2);
    assert k1[|m1|] == '/' && k2[|m2|] == '/';
    assert |m1| == |m2|;
    assert m1 == k1[..|m1|] && m2 == k2[..|m1|];
    assert Lower(cid1) == k1[|m1| + 1..] && Lower(cid2) == k2[|m1| + 1..];
  }

  lemma NoSlash(s: string)
    requires '/' !in s
    ensures '/' !in Lower(s)
  {
    forall i | 0 <= i < |s| ensures Lower(s)[i] != '/' {
      assert s[i] in s;
    }
  }

  /** Leases sit under their own address. */
  predicate Keyed(t: Table) {
    forall ip | ip in t :: t[ip].ip == ip
  }

  predicate Active(t: Table, ip: Addr, now: Time) {
    ip in t && now <= t[ip].expiry
  }

  // ---- meaning of the operations ----

  predicate HeldByOther(t: Table, ip: Addr, key: string, now: Time) {
    Active(t, ip, now) && Key(t[ip]) != key
  }

  /** r is a possible answer of byClient when its readings lie in [lo, hi]: a lease of the
      client unexpired at some reading, or nothing when none is unexpired at the last one. */
  predicate ByClientAnswer(t: Table, key: string, lo: Time, hi: Time, r: Option<Lease>) {
    match r
    case Some(l) => l.ip in t && t[l.ip] == l && Key(l) == key && lo <= l.expiry
    case None => forall ip | ip in t && Key(t[ip]) == key :: t[ip].expiry < hi
  }

  function Sweep(t: Table, now: Time): (r: Table) {
    map ip | ip in t && now <= t[ip].expiry :: t[ip]
  }

  /** s is t after sweeps whose readings were at most now and releases of the addresses in
      gone: nothing else is missing, and what is left is unchanged. */
  predicate Dwindled(t: Table, s: Table, now: Time, gone: set<Addr>) {
    && (forall ip | ip in s :: ip in t && s[ip] == t[ip])
    && (forall ip | ip in t && ip !in s :: t[ip].expiry < now || ip in gone)
  }

  /** The first address of [lo, hi] that is neither skipped nor actively leased. */
  function FirstFree(t: Table, now: Time, lo: Addr, hi: Addr, skip: set<Addr>): (r: Option<Addr>)
    decreases hi + 1 - lo
  {
    if hi < lo then None
    else if lo !in skip && !Active(t, lo, now) then Some(lo)
    else FirstFree(t, now, lo + 1, hi, skip)
  }

  /** FirstFree is the least free address, and fails only when there is none. */
  lemma {:induction false} FirstFreeIsLeast(t: Table, now: Time, lo: Addr, hi: Addr, skip: set<Addr>)
    ensures match FirstFree(t, now, lo, hi, skip)
      case Some(ip) =>
        && lo <= ip <= hi && ip !in skip && !Active(t, ip, now)
        && forall a | lo <= a < ip :: a in skip || Active(t, a, now)
      case None => forall a | lo <= a <= hi :: a in skip || Active(t, a, now)
    decreases hi + 1 - lo
  {
    if lo <= hi && (lo in skip || Active(t, lo, now)) {
      FirstFreeIsLeast(t, now, lo + 1, hi, skip);
    }
  }

  /** The active leases, as the set snapshot reports. */
  function ActiveLeases(t: Table, now: Time): (r: set<Lease>) {
    set ip | ip in t && now <= t[ip].expiry :: t[ip]
  }

  function ActiveAddrs(t: Table, now: Time): (r: set<Addr>) {
    set ip | ip in t && now <= t[ip].expiry
  }

  predicate SortedByIP(ls: seq<Lease>) {
    forall i, j | 0 <= i < j < |ls| :: ls[i].ip < ls[j].ip
  }

  function Loaded(ls: seq<Lease>): (t: Table)
    ensures Keyed(t)
  {
    if ls == [] then map[]
    else
      var l := ls[|ls| - 1];
      Loaded(ls[..|ls| - 1])[l.ip := l]
  }

  // ---- the table ----

  class LeaseTable {
    var leases: Table

    ghost predicate Valid()
      reads this
    {
      Keyed(leases)
    }

    constructor ()
      ensures Valid() && leases == map[]
    {
      leases := map[];
    }

    method ByClient(mac: string, cid: string, lo: Time, hi: Time) returns (r: Option<Lease>)
      requires Valid() && lo <= hi
      ensures ByClientAnswer(leases, ClientKey(mac, cid), lo, hi, r)
    {
      var todo := leases.Keys;
      while todo != {}
        invariant todo <= leases.Keys
        invariant forall ip | ip in leases && ip !in todo && Key(leases[ip]) == ClientKey(mac, cid) ::
                    leases[ip].expiry < hi
        decreases todo
      {
        var ip :| ip in todo;
        todo := todo - {ip};
        var l := leases[ip];
        var now: Time :| lo <= now <= hi;
        if Key(l) == ClientKey(mac, cid) && now <= l.expiry {
          return Some(l);
        }
      }
      r := None;
    }

    method Set(l: Lease)
      requires Valid()
      modifies this
      ensures Valid() && leases == old(leases)[l.ip := l]
    {
      leases := leases[l.ip := l];
    }

    method Release(ip: Addr) returns (ok: bool)
      requires Valid()
      modifies this
      ensures Valid() && leases == old(leases) - {ip}
      ensures ok <==> ip in old(leases)
    {
      ok := ip in leases;
      if ok {
        leases := leases - {ip};
      }
    }

    method InUse(ip: Addr, mac: string, cid: string, now: Time) returns (r: bool)
      ensures r <==> HeldByOther(leases, ip, ClientKey(mac, cid), now)
    {
      if ip !in leases || leases[ip].expiry < now { return false; }
      r := Key(leases[ip]) != ClientKey(mac, cid);
    }

    method ExpireSweep(now: Time) returns (removed: bool)
      requires Valid()
      modifies this
      ensures Valid() && leases == Sweep(old(leases), now)
      ensures removed <==> leases != old(leases)
    {
      var todo := leases.Keys;
      removed := false;
      while todo != {}
        invariant todo <= leases.Keys
        invariant forall ip | ip in leases :: ip in old(leases) && leases[ip] == old(leases)[ip]
        invariant forall ip | ip in old(leases) && ip !in leases :: old(leases)[ip].expiry < now
        invariant forall ip | ip in leases && ip !in todo :: now <= leases[ip].expiry
        invariant removed <==> exists ip :: ip in old(leases) && ip !in leases
        decreases todo
      {
        var ip :| ip in todo;
        todo := todo - {ip};
        if leases[ip].expiry < now {
          leases := leases - {ip};
          removed := true;
        }
      }
    }

    /** The unexpired leases, each once, in address order. */
    method Snapshot(now: Time) returns (out: seq<Lease>)
      requires Valid()
      ensures SortedByIP(out)
      ensures Elems(out) == ActiveLeases(leases, now)
    {
      out := [];
      var todo := leases.Keys;
      while todo != {}
        invariant todo <= leases.Keys
        invariant SortedByIP(out)
        invariant forall l | l in out :: l.ip in leases && l.ip !in todo && leases[l.ip] == l && now <= l.expiry
        invariant forall ip | ip in leases && ip !in todo && now <= leases[ip].expiry :: leases[ip] in out
        decreases todo
      {
        var ip :| ip in todo;
        todo := todo - {ip};
        if leases[ip].expiry < now { continue; }
        out := InsertByIP(out, leases[ip]);
      }
    }

    method Load(ls: seq<Lease>)
      modifies this
      ensures Valid() && leases == Loaded(ls)
    {
      leases := map[];
      for i := 0 to |ls|
        invariant leases == Loaded(ls[..i])
      {
        assert ls[..i + 1][..i] == ls[..i];
        leases := leases[ls[i].ip := ls[i]];
      }
      assert ls[..|ls|] == ls;
    }

    /** The first-free scan.  `top` is the last address of the family, where the source's
        Next() yields the invalid address and the scan ends. */
    method Allocate(start: Addr, end: Addr, top: Addr, skip: set<Addr>, l: Lease, now: Time)
      returns (r: Option<Addr>)
      requires Valid() && end <= top
      modifies this
      ensures Valid()
      ensures r == FirstFree(old(leases), now, start, end, skip)
      ensures leases == if r.Some? then old(leases)[r.value := l.(ip := r.value)] else old(leases)
    {
      var ip := Some(start);
      while ip.Some? && ip.value <= end
        invariant leases == old(leases)
        invariant ip.Some? ==> FirstFree(leases, now, start, end, skip) == FirstFree(leases, now, ip.value, end, skip)
        invariant ip.None? ==> FirstFree(leases, now, start, end, skip) == None
        decreases if ip.Some? then end + 1 - ip.value else -1
      {
        if ip.value in skip || (ip.value in leases && now <= leases[ip.value].expiry) {
          ip := if ip.value == top then None else Some(ip.value + 1);
          continue;
        }
        leases := leases[ip.value := l.(ip := ip.value)];
        return ip;
      }
      r := None;
    }
  }

  /** Insertion into an address-ordered list. */
  function InsertByIP(ls: seq<Lease>, l: Lease): (r: seq<Lease>)
    requires SortedByIP(ls) && forall x | x in ls :: x.ip != l.ip
    ensures SortedByIP(r)
    ensures forall x :: x in r <==> x in ls || x == l
  {
    if ls == [] then [l]
    else if l.ip < ls[0].ip then [l] + ls
    else
      assert ls == [ls[0]] + ls[1..];
      var rest := InsertByIP(ls[1..], l);
      AboveFirst(ls, l, rest);
      SortedCons(ls[0], rest);
      [ls[0]] + rest
  }

  lemma AboveFirst(ls: seq<Lease>, l: Lease, rest: seq<Lease>)
    requires SortedByIP(ls) && ls != [] && ls[0].ip <= l.ip && ls[0].ip != l.ip
    requires forall x | x in rest :: x in ls[1..] || x == l
    ensures forall x | x in rest :: ls[0].ip < x.ip
  {
    forall x | x in rest ensures ls[0].ip < x.ip {
      if x in ls[1..] {
        var k :| 0 <= k < |ls| - 1 && ls[1..][k] == x;
        assert ls[k + 1] == x;
      }
    }
  }

  lemma SortedCons(l: Lease, rest: seq<Lease>)
    requires SortedByIP(rest) && forall x | x in rest :: l.ip < x.ip
    ensures SortedByIP([l] + rest)
  {
    var r := [l] + rest;
    forall i, j | 0 <= i < j < |r| ensures r[i].ip < r[j].ip {
      assert r[j] == rest[j - 1];
      if i > 0 { assert r[i] == rest[i - 1]; }
    }
  }
}
