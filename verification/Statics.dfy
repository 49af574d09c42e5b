/** Static reservations (internal/server/binding.go): which binding a client gets, and the
    validation of a whole replacement set. */
module Statics {
  import opened Arith

  datatype StaticBinding = StaticBinding(
    id: string, order: int, mac: Option<string>, clientID: Option<string>, offset: nat)

  function LowerChar(c: char): (r: char) {
    if 'A' <= c <= 'Z' then c + 32 as char else c
  }

  function Lower(s: string): (r: string)
    ensures |r| == |s|
  {
    seq(|s|, i requires 0 <= i < |s| => LowerChar(s[i]))
  }

  predicate EqualFold(a: string, b: string) {
    Lower(a) == Lower(b)
  }

  /** The same letter, or one in each case. */
  predicate SameLetter(a: char, b: char) {
    || a == b
    || ('A' <= a <= 'Z' && b as int == a as int + 32)
    || ('A' <= b <= 'Z' && a as int == b as int + 32)
  }

  /** Strings are compared letter by letter, in either case. */
  lemma EqualFoldMeans(a: string, b: string)
    ensures EqualFold(a, b) <==> |a| == |b| && forall i | 0 <= i < |a| :: SameLetter(a[i], b[i])
  {
    if EqualFold(a, b) {
      assert |a| == |Lower(a)| == |Lower(b)| == |b|;
      forall i | 0 <= i < |a| ensures SameLetter(a[i], b[i]) {
        assert Lower(a)[i] == Lower(b)[i];
      }
    }
  }

  /** A condition that is absent is a wildcard. */
  predicate Meets(cond: Option<string>, actual: string) {
    cond.None? || EqualFold(cond.value, actual)
  }

  predicate Matches(b: StaticBinding, mac: string, cid: string) {
    (b.mac.Some? || b.clientID.Some?) && Meets(b.mac, mac) && Meets(b.clientID, cid)
  }

  function Score(b: StaticBinding): (n: nat) {
    (if b.mac.Some? then 1 else 0) + (if b.clientID.Some? then 1 else 0)
  }

  /** b is at least as good a match as c. */
  predicate AtLeast(b: StaticBinding, c: StaticBinding) {
    Score(b) > Score(c) || (Score(b) == Score(c) && b.order >= c.order)
  }

  /** r is a possible answer of matchBinding for some order of the bindings: nothing when no
      binding matches, otherwise a match no other match beats. */
  predicate BestMatch(bindings: set<StaticBinding>, mac: string, cid: string, r: Option<StaticBinding>) {
    match r
    case None => forall b | b in bindings :: !Matches(b, mac, cid)
    case Some(best) =>
      best in bindings && Matches(best, mac, cid) &&
      forall b | b in bindings && Matches(b, mac, cid) :: AtLeast(best, b)
  }

  /** best sits at index i and no earlier match is as good. */
  predicate FirstBest(bindings: seq<StaticBinding>, mac: string, cid: string, i: nat, best: StaticBinding)
    requires i < |bindings|
  {
    bindings[i] == best &&
    forall j | 0 <= j < i && Matches(bindings[j], mac, cid) :: !AtLeast(bindings[j], best)
  }

  method MatchBinding(bindings: seq<StaticBinding>, mac: string, cid: string)
    returns (best: Option<StaticBinding>)
    ensures BestMatch(Elems(bindings), mac, cid, best)
    // ties go to the earlier binding
    ensures best.Some? ==> exists i :: 0 <= i < |bindings| && FirstBest(bindings, mac, cid, i, best.value)
  {
    best := None;
    var bestScore := 0;
    ghost var at := 0;
    for k := 0 to |bindings|
      invariant BestMatch(Elems(bindings[..k]), mac, cid, best)
      invariant best.Some? ==> bestScore == Score(best.value)
      invariant best.Some? ==> at < k && FirstBest(bindings, mac, cid, at, best.value)
    {
      var b := bindings[k];
      assert bindings[..k + 1] == bindings[..k] + [b];
      assert forall j | 0 <= j < k :: bindings[j] in bindings[..k];
      var score := 0;
      if b.mac.Some? {
        if !EqualFold(b.mac.value, mac) { continue; }
        score := score + 1;
      }
      if b.clientID.Some? {
        if !EqualFold(b.clientID.value, cid) { continue; }
        score := score + 1;
      }
      if score == 0 { continue; }
      if best.None? || score > bestScore || (score == bestScore && b.order > best.value.order) {
        best := Some(b);
        bestScore := score;
        at := k;
      }
    }
    assert bindings[..|bindings|] == bindings;
  }

  /** The client has everything the binding states. */
  predicate Fulfils(b: StaticBinding, mac: string, cid: string) {
    (b.mac.Some? ==> EqualFold(b.mac.value, mac)) && (b.clientID.Some? ==> EqualFold(b.clientID.value, cid))
  }

  /** What is matched: a binding that states something, all of it true of the client.  Stating
      both the MAC and the client id beats stating one of them, and then the higher order wins.
      Nothing is matched only if there is no such binding. */
  lemma BestMatchMeans(bindings: set<StaticBinding>, mac: string, cid: string, r: Option<StaticBinding>)
    ensures var stated := set b | b in bindings && (b.mac.Some? || b.clientID.Some?) && Fulfils(b, mac, cid);
      BestMatch(bindings, mac, cid, r) <==>
      match r
      case None => stated == {}
      case Some(best) =>
        && best in stated
        && forall b | b in stated ::
             && (b.mac.Some? && b.clientID.Some? ==> best.mac.Some? && best.clientID.Some?)
             && ((b.mac.Some? && b.clientID.Some? <==> best.mac.Some? && best.clientID.Some?) ==> b.order <= best.order)
  {
    var stated := set b | b in bindings && (b.mac.Some? || b.clientID.Some?) && Fulfils(b, mac, cid);
    assert forall b :: b in stated <==> b in bindings && Matches(b, mac, cid);
  }

  /** Two possible answers for the same client differ at most by a tie in score and order. */
  lemma BestMatchesTie(bindings: set<StaticBinding>, mac: string, cid: string,
                       a: Option<StaticBinding>, b: Option<StaticBinding>)
    requires BestMatch(bindings, mac, cid, a) && BestMatch(bindings, mac, cid, b)
    ensures a.Some? == b.Some?
    ensures a.Some? ==> Score(a.value) == Score(b.value) && a.value.order == b.value.order
  {
  }

  // ---- validation of a replacement set ----

  predicate ValidBinding(b: StaticBinding) {
    (b.mac.Some? || b.clientID.Some?) && b.offset > 0
  }

  /** The acceptance rule for a whole set. */
  predicate ValidSet(bs: seq<StaticBinding>) {
    && (forall i | 0 <= i < |bs| :: bs[i].id != "" && ValidBinding(bs[i]))
    && (forall i, j | 0 <= i < j < |bs| :: bs[i].id != bs[j].id)
  }

  /** buildStaticSet succeeds exactly on valid sets and then holds exactly the given bindings
      under their ids; on any other set the caller keeps what it had. */
  method BuildStaticSet(bs: seq<StaticBinding>) returns (r: Option<map<string, StaticBinding>>)
    ensures r.Some? <==> ValidSet(bs)
    ensures r.Some? ==> r.value.Values == Elems(bs)
    ensures r.Some? ==> forall id | id in r.value :: r.value[id].id == id
  {
    var m: map<string, StaticBinding> := map[];
    for i := 0 to |bs|
      invariant ValidSet(bs[..i])
      invariant m.Keys == set j | 0 <= j < i :: bs[j].id
      invariant m.Values == Elems(bs[..i])
      invariant forall id | id in m :: m[id].id == id
    {
      var b := bs[i];
      if b.id == "" || !ValidBinding(b) { return None; }
      if b.id in m { return None; }
      assert bs[..i + 1] == bs[..i] + [b];
      var m' := m[b.id := b];
      assert m'.Values == m.Values + {b} by {
        forall v | v in m.Values ensures v in m'.Values {
          var id :| id in m && m[id] == v;
          assert m'[id] == v;
        }
        assert m'[b.id] == b;
      }
      m := m';
    }
    assert bs[..|bs|] == bs;
    r := Some(m);
  }
}
