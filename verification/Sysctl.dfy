/** The refcounted sysctl registry (internal/pdroute/sysctl.go) and the order in which bridges
    use it (ensureStartedLocked and Stop in internal/pdroute/pdroute.go).  Bridges interleave
    at every acquire and release, the registry's own lock regions. */
module Sysctl {
  import opened Arith

  datatype Path = AcceptRA(iface: string) | Forwarding(iface: string)

  datatype Entry = Entry(refs: int, found: string, wrote: string)

  /** The registry and the /proc tree.  A path outside `kernel` cannot be read, one in
      `readonly` cannot be written. */
  datatype Reg = Reg(entries: map<Path, Entry>, kernel: map<Path, string>, readonly: set<Path>)

  /** The value to write on first use, if the current one calls for a change. */
  function Wanted(path: Path, cur: string): (next: Option<string>) {
    match path
    case AcceptRA(_) => if cur == "1" then Some("2") else None
    case Forwarding(_) => if cur == "0" then Some("1") else None
  }

  /** The entry made by the first acquire of a path. */
  function FirstEntry(kernel: map<Path, string>, readonly: set<Path>, path: Path): (e: Entry) {
    if path !in kernel then Entry(1, "", "")
    else
      var next := Wanted(path, kernel[path]);
      if next.None? || path in readonly then Entry(1, kernel[path], "")
      else Entry(1, kernel[path], next.value)
  }

  /** The value a path has while it is held. */
  function HeldValue(kernel: map<Path, string>, readonly: set<Path>, path: Path): (v: string)
    requires path in kernel
  {
    var e := FirstEntry(kernel, readonly, path);
    if e.wrote == "" then e.found else e.wrote
  }

  function Acquire(r: Reg, path: Path): (r': Reg) {
    if path in r.entries then
      r.(entries := r.entries[path := r.entries[path].(refs := r.entries[path].refs + 1)])
    else
      var e := FirstEntry(r.kernel, r.readonly, path);
      Reg(r.entries[path := e], if e.wrote == "" then r.kernel else r.kernel[path := e.wrote], r.readonly)
  }

  function Release(r: Reg, path: Path): (r': Reg) {
    if path !in r.entries then r
    else
      var e := r.entries[path];
      if e.refs - 1 > 0 then r.(entries := r.entries[path := e.(refs := e.refs - 1)])
      else
        var ours := e.wrote != "" && e.wrote != e.found && path in r.kernel && r.kernel[path] == e.wrote;
        Reg(r.entries - {path}, if ours && path !in r.readonly then r.kernel[path := e.found] else r.kernel, r.readonly)
  }

  /** A use of the registry. */
  datatype Use = Use(acquire: bool, path: Path)

  function Apply(r: Reg, u: Use): (r': Reg) {
    if u.acquire then Acquire(r, u.path) else Release(r, u.path)
  }

  /** The shared registry object. */
  class Registry {
    var entries: map<Path, Entry>
    var kernel: map<Path, string>
    const readonly: set<Path>
    ghost var log: seq<Use>             // every use so far

    ghost function View(): (r: Reg)
      reads this
    {
      Reg(entries, kernel, readonly)
    }

    constructor (kernel: map<Path, string>, readonly: set<Path>)
      ensures View() == Reg(map[], kernel, readonly) && log == []
    {
      this.entries, this.kernel, this.readonly, this.log := map[], kernel, readonly, [];
    }

    method AcquirePath(path: Path)
      modifies this
      ensures View() == Acquire(old(View()), path) && log == old(log) + [Use(true, path)]
    {
      log := log + [Use(true, path)];
      if path in entries {
        var e := entries[path];
        entries := entries[path := e.(refs := e.refs + 1)];
        return;
      }
      var e := Entry(1, "", "");
      entries := entries[path := e];
      if path !in kernel { return; }            // read error
      var cur := kernel[path];
      e := e.(found := cur);
      entries := entries[path := e];
      var next := Wanted(path, cur);
      if next.Some? && next.value != cur {
        if path in readonly { return; }         // write error
        kernel := kernel[path := next.value];
        entries := entries[path := e.(wrote := next.value)];
      }
    }

    method ReleasePath(path: Path)
      modifies this
      ensures View() == Release(old(View()), path) && log == old(log) + [Use(false, path)]
    {
      log := log + [Use(false, path)];
      if path !in entries { return; }
      var e := entries[path];
      e := e.(refs := e.refs - 1);
      if e.refs > 0 {
        entries := entries[path := e];
        return;
      }
      entries := entries - {path};
      if e.wrote == "" || e.wrote == e.found { return; }
      if path !in kernel || kernel[path] != e.wrote { return; }   // somebody else's value wins
      if path in readonly { return; }
      kernel := kernel[path := e.found];
    }
  }

  // ---- somebody else's value ----

  /** The path has a reference before each of these uses. */
  predicate HeldThrough(r: Reg, uses: seq<Use>, path: Path)
    decreases |uses|
  {
    uses != [] ==> path in r.entries && HeldThrough(Apply(r, uses[0]), uses[1..], path)
  }

  function ApplyAll(r: Reg, uses: seq<Use>): (r': Reg)
    decreases |uses|
  {
    if uses == [] then r else ApplyAll(Apply(r, uses[0]), uses[1..])
  }

  /** A value that somebody else wrote while the path was held wins: no use of the registry
      changes it, and the last release leaves it there. */
  lemma {:induction false} ForeignValueWins(r: Reg, uses: seq<Use>, path: Path)
    requires HeldThrough(r, uses, path)
    requires path in r.entries && path in r.kernel && r.kernel[path] != r.entries[path].wrote
    ensures path in ApplyAll(r, uses).kernel && ApplyAll(r, uses).kernel[path] == r.kernel[path]
    decreases |uses|
  {
    if uses != [] {
      var next := Apply(r, uses[0]);
      ForeignStays(r, uses[0], path);
      if path in next.entries {
        ForeignValueWins(next, uses[1..], path);
      } else {
        assert uses[1..] == [];
      }
    }
  }

  lemma ForeignStays(r: Reg, u: Use, path: Path)
    requires path in r.entries && path in r.kernel && r.kernel[path] != r.entries[path].wrote
    ensures var next := Apply(r, u);
      && path in next.kernel && next.kernel[path] == r.kernel[path]
      && (path in next.entries ==> next.entries[path].wrote == r.entries[path].wrote)
  {
  }

  /** Our own value is taken back by the last release: what was found is there again. */
  lemma OwnValueUndone(r: Reg, path: Path)
    requires path in r.entries && r.entries[path].refs == 1 && path !in r.readonly
    requires path in r.kernel && r.entries[path].wrote != "" && r.kernel[path] == r.entries[path].wrote
    ensures path !in Release(r, path).entries && Release(r, path).kernel == r.kernel[path := r.entries[path].found]
  {
  }

  // ---- bridges ----

  datatype Bridge = Bridge(iface: string, uplink: string)

  /** Steps a bridge has taken: three acquires when it starts, three releases when it stops. */
  const LAST := 6

  function Op(b: Bridge, phase: nat): (path: Path)
    requires phase < LAST
  {
    match phase
    case 0 => AcceptRA(b.uplink)
    case 1 => Forwarding(b.uplink)
    case 2 => Forwarding(b.iface)
    case 3 => Forwarding(b.iface)
    case 4 => Forwarding(b.uplink)
    case _ => AcceptRA(b.uplink)
  }

  /** The k-th use a bridge makes of the registry. */
  function Turn(b: Bridge, k: nat): (u: Use)
    requires k < LAST
  {
    Use(k < 3, Op(b, k))
  }

  datatype System = System(phases: seq<nat>, reg: Reg)

  predicate WellFormed(bs: seq<Bridge>, sys: System) {
    |sys.phases| == |bs| && forall i | 0 <= i < |bs| :: sys.phases[i] <= LAST
  }

  predicate CanAdvance(bs: seq<Bridge>, sys: System, i: nat) {
    WellFormed(bs, sys) && i < |bs| && sys.phases[i] < LAST
  }

  /** Bridge i takes its next step. */
  function Advance(bs: seq<Bridge>, sys: System, i: nat): (r: System)
    requires CanAdvance(bs, sys, i)
  {
    var k := sys.phases[i];
    System(sys.phases[i := k + 1], Apply(sys.reg, Turn(bs[i], k)))
  }

  function Initial(bs: seq<Bridge>, kernel: map<Path, string>, readonly: set<Path>): (r: System)
    ensures WellFormed(bs, r)
  {
    System(seq(|bs|, _ => 0), Reg(map[], kernel, readonly))
  }

  /** A run names the bridges in the order they step. */
  ghost predicate Reaches(bs: seq<Bridge>, from: System, run: seq<nat>, to: System)
    decreases |run|
  {
    if run == [] then from == to
    else CanAdvance(bs, from, run[0]) && Reaches(bs, Advance(bs, from, run[0]), run[1..], to)
  }

  // ---- who holds what ----

  /** How many references a bridge has on a path. */
  function Refs(b: Bridge, phase: nat, path: Path): (n: nat) {
    (if path == AcceptRA(b.uplink) && 1 <= phase <= 5 then 1 else 0)
    + (if path == Forwarding(b.uplink) && 2 <= phase <= 4 then 1 else 0)
    + (if path == Forwarding(b.iface) && phase == 3 then 1 else 0)
  }

  function Total(bs: seq<Bridge>, phases: seq<nat>, path: Path): (n: nat)
    requires |phases| == |bs|
  {
    if bs == [] then 0 else Refs(bs[0], phases[0], path) + Total(bs[1..], phases[1..], path)
  }

  lemma {:induction false} TotalUpdate(bs: seq<Bridge>, phases: seq<nat>, i: nat, k: nat, path: Path)
    requires |phases| == |bs| && i < |bs|
    ensures Total(bs, phases[i := k], path) ==
            Total(bs, phases, path) - Refs(bs[i], phases[i], path) + Refs(bs[i], k, path)
    decreases |bs|
  {
    if i == 0 {
      assert phases[i := k][1..] == phases[1..];
    } else {
      assert phases[i := k][1..] == phases[1..][i - 1 := k];
      TotalUpdate(bs[1..], phases[1..], i - 1, k, path);
    }
  }

  lemma {:induction false} TotalPositive(bs: seq<Bridge>, phases: seq<nat>, path: Path) returns (i: nat)
    requires |phases| == |bs| && Total(bs, phases, path) > 0
    ensures i < |bs| && Refs(bs[i], phases[i], path) > 0
    decreases |bs|
  {
    if Refs(bs[0], phases[0], path) > 0 {
      i := 0;
    } else {
      var j := TotalPositive(bs[1..], phases[1..], path);
      i := j + 1;
    }
  }

  lemma {:induction false} TotalAtLeast(bs: seq<Bridge>, phases: seq<nat>, path: Path, i: nat)
    requires |phases| == |bs| && i < |bs|
    ensures Total(bs, phases, path) >= Refs(bs[i], phases[i], path)
    decreases |bs|
  {
    if i > 0 { TotalAtLeast(bs[1..], phases[1..], path, i - 1); }
  }

  /** The bookkeeping of one path with n references: the count is right, and the kernel value
      is the original one or the one written on first use. */
  predicate Account(reg: Reg, kernel: map<Path, string>, readonly: set<Path>, path: Path, n: nat) {
    && (path in reg.kernel <==> path in kernel)
    && (path in reg.entries <==> n > 0)
    && (n > 0 ==> reg.entries[path] == FirstEntry(kernel, readonly, path).(refs := n))
    && (path in kernel ==> reg.kernel[path] == if n > 0 then HeldValue(kernel, readonly, path) else kernel[path])
  }

  lemma AcquireAccount(reg: Reg, kernel: map<Path, string>, readonly: set<Path>, op: Path, path: Path, n: nat)
    requires reg.readonly == readonly && Account(reg, kernel, readonly, path, n)
    ensures Account(Acquire(reg, op), kernel, readonly, path, if path == op then n + 1 else n)
  {
  }

  lemma ReleaseAccount(reg: Reg, kernel: map<Path, string>, readonly: set<Path>, op: Path, path: Path, n: nat)
    requires reg.readonly == readonly && Account(reg, kernel, readonly, path, n)
    requires path == op ==> n > 0
    ensures Account(Release(reg, op), kernel, readonly, path, if path == op then n - 1 else n)
  {
  }

  /** The invariant, path by path. */
  predicate Books(bs: seq<Bridge>, sys: System, kernel: map<Path, string>, readonly: set<Path>, path: Path)
    requires |sys.phases| == |bs|
  {
    Account(sys.reg, kernel, readonly, path, Total(bs, sys.phases, path))
  }

  ghost predicate Inv(bs: seq<Bridge>, sys: System, kernel: map<Path, string>, readonly: set<Path>) {
    && WellFormed(bs, sys) && sys.reg.readonly == readonly
    && forall path :: Books(bs, sys, kernel, readonly, path)
  }

  lemma {:induction false} TotalZero(bs: seq<Bridge>, phases: seq<nat>, path: Path)
    requires |phases| == |bs| && forall i | 0 <= i < |bs| :: phases[i] == 0 || phases[i] == LAST
    ensures Total(bs, phases, path) == 0
    decreases |bs|
  {
    if bs != [] { TotalZero(bs[1..], phases[1..], path); }
  }

  lemma InitialInv(bs: seq<Bridge>, kernel: map<Path, string>, readonly: set<Path>)
    ensures Inv(bs, Initial(bs, kernel, readonly), kernel, readonly)
  {
    var sys := Initial(bs, kernel, readonly);
    forall path ensures Books(bs, sys, kernel, readonly, path) {
      TotalZero(bs, sys.phases, path);
    }
  }

  lemma AdvanceInv(bs: seq<Bridge>, sys: System, i: nat, kernel: map<Path, string>, readonly: set<Path>)
    requires Inv(bs, sys, kernel, readonly) && CanAdvance(bs, sys, i)
    ensures Inv(bs, Advance(bs, sys, i), kernel, readonly)
  {
    var k := sys.phases[i];
    forall path ensures Books(bs, Advance(bs, sys, i), kernel, readonly, path) {
      var n, op := Total(bs, sys.phases, path), Op(bs[i], k);
      assert Books(bs, sys, kernel, readonly, path);
      TotalUpdate(bs, sys.phases, i, k + 1, path);
      TotalAtLeast(bs, sys.phases, path, i);
      if k < 3 {
        AcquireAccount(sys.reg, kernel, readonly, op, path, n);
      } else {
        ReleaseAccount(sys.reg, kernel, readonly, op, path, n);
      }
    }
  }

  lemma {:induction false} RunInv(bs: seq<Bridge>, from: System, run: seq<nat>, to: System,
                                  kernel: map<Path, string>, readonly: set<Path>)
    requires Inv(bs, from, kernel, readonly) && Reaches(bs, from, run, to)
    ensures Inv(bs, to, kernel, readonly)
    decreases |run|
  {
    if run != [] {
      AdvanceInv(bs, from, run[0], kernel, readonly);
      RunInv(bs, Advance(bs, from, run[0]), run[1..], to, kernel, readonly);
    }
  }

  // ---- the host never drops router advertisements ----

  /** If the registry has turned forwarding on for x, then accept_ra of x is not 1. */
  predicate Hears(reg: Reg, x: string) {
    Forwarding(x) in reg.entries && reg.entries[Forwarding(x)].wrote == "1" && AcceptRA(x) in reg.kernel
    ==> reg.kernel[AcceptRA(x)] != "1"
  }

  /** Every uplink keeps hearing router advertisements. */
  predicate HostHearsRAs(bs: seq<Bridge>, sys: System) {
    forall i | 0 <= i < |bs| :: Hears(sys.reg, bs[i].uplink)
  }

  /** Interface x starts out accepting RAs only as a host, and can be made a router. */
  predicate Exposed(kernel: map<Path, string>, readonly: set<Path>, x: string) {
    && AcceptRA(x) in kernel && kernel[AcceptRA(x)] == "1"
    && Forwarding(x) in kernel && kernel[Forwarding(x)] == "0" && Forwarding(x) !in readonly
  }

  /** What a configuration has to satisfy: an exposed uplink can be relaxed, and whoever
      serves it also has it as uplink. */
  predicate SafeConfig(bs: seq<Bridge>, kernel: map<Path, string>, readonly: set<Path>) {
    forall i | 0 <= i < |bs| && Exposed(kernel, readonly, bs[i].uplink) ::
      && AcceptRA(bs[i].uplink) !in readonly
      && forall j | 0 <= j < |bs| && bs[j].iface == bs[i].uplink :: bs[j].uplink == bs[i].uplink
  }

  lemma SafeWhenConfigured(bs: seq<Bridge>, sys: System, kernel: map<Path, string>, readonly: set<Path>)
    requires Inv(bs, sys, kernel, readonly) && SafeConfig(bs, kernel, readonly)
    ensures HostHearsRAs(bs, sys)
  {
    forall i | 0 <= i < |bs|
      ensures Hears(sys.reg, bs[i].uplink)
    {
      var x := bs[i].uplink;
      var f, a := Forwarding(x), AcceptRA(x);
      assert Books(bs, sys, kernel, readonly, f) && Books(bs, sys, kernel, readonly, a);
      if f in sys.reg.entries && sys.reg.entries[f].wrote == "1" && a in kernel && kernel[a] == "1" {
        var j := TotalPositive(bs, sys.phases, f);
        assert Exposed(kernel, readonly, x);
        assert bs[j].uplink == x;
        TotalAtLeast(bs, sys.phases, a, j);
      }
    }
  }

  /** Some run reaches a state in which an uplink no longer hears router advertisements. */
  ghost predicate Unsafe(bs: seq<Bridge>, kernel: map<Path, string>, readonly: set<Path>) {
    exists run, to :: Reaches(bs, Initial(bs, kernel, readonly), run, to) && !HostHearsRAs(bs, to)
  }

  /** If an exposed uplink cannot be relaxed, starting its bridge leaves it deaf. */
  lemma ReadonlyUplinkIsUnsafe(bs: seq<Bridge>, kernel: map<Path, string>, readonly: set<Path>, i: nat)
    requires i < |bs| && Exposed(kernel, readonly, bs[i].uplink) && AcceptRA(bs[i].uplink) in readonly
    ensures Unsafe(bs, kernel, readonly)
  {
    var s0 := Initial(bs, kernel, readonly);
    var s1 := Advance(bs, s0, i);
    var s2 := Advance(bs, s1, i);
    assert [i, i][1..] == [i] && [i][1..] == [];
    assert Reaches(bs, s1, [i], s2);
    assert Reaches(bs, s0, [i, i], s2);
    assert !Hears(s2.reg, bs[i].uplink);
  }

  /** If an exposed uplink is served by a bridge with another uplink, starting that bridge
      leaves it deaf. */
  lemma ServedUplinkIsUnsafe(bs: seq<Bridge>, kernel: map<Path, string>, readonly: set<Path>, i: nat, j: nat)
    requires i < |bs| && j < |bs| && Exposed(kernel, readonly, bs[i].uplink)
    requires bs[j].iface == bs[i].uplink && bs[j].uplink != bs[i].uplink
    ensures Unsafe(bs, kernel, readonly)
  {
    var s0 := Initial(bs, kernel, readonly);
    var s1 := Advance(bs, s0, j);
    var s2 := Advance(bs, s1, j);
    var s3 := Advance(bs, s2, j);
    assert [j, j, j][1..] == [j, j] && [j, j][1..] == [j] && [j][1..] == [];
    assert Reaches(bs, s2, [j], s3);
    assert Reaches(bs, s1, [j, j], s3);
    assert Reaches(bs, s0, [j, j, j], s3);
    assert !Hears(s3.reg, bs[i].uplink);
  }

  /** The exact condition: with no outside writer, every interleaving of every run keeps the
      host hearing RAs if and only if the configuration is safe. */
  lemma HostHearsRAsIffSafe(bs: seq<Bridge>, kernel: map<Path, string>, readonly: set<Path>)
    ensures SafeConfig(bs, kernel, readonly) <==> !Unsafe(bs, kernel, readonly)
  {
    if SafeConfig(bs, kernel, readonly) {
      forall run, to | Reaches(bs, Initial(bs, kernel, readonly), run, to)
        ensures HostHearsRAs(bs, to)
      {
        InitialInv(bs, kernel, readonly);
        RunInv(bs, Initial(bs, kernel, readonly), run, to, kernel, readonly);
        SafeWhenConfigured(bs, to, kernel, readonly);
      }
    } else {
      var i :| 0 <= i < |bs| && Exposed(kernel, readonly, bs[i].uplink) &&
               !(&& AcceptRA(bs[i].uplink) !in readonly
                 && forall j | 0 <= j < |bs| && bs[j].iface == bs[i].uplink :: bs[j].uplink == bs[i].uplink);
      if AcceptRA(bs[i].uplink) in readonly {
        ReadonlyUplinkIsUnsafe(bs, kernel, readonly, i);
      } else {
        var j :| 0 <= j < |bs| && bs[j].iface == bs[i].uplink && bs[j].uplink != bs[i].uplink;
        ServedUplinkIsUnsafe(bs, kernel, readonly, i, j);
      }
    }
  }

  /** After any run in which every started bridge has stopped, every sysctl is as it was. */
  lemma AllRestored(bs: seq<Bridge>, kernel: map<Path, string>, readonly: set<Path>, run: seq<nat>, to: System)
    requires Reaches(bs, Initial(bs, kernel, readonly), run, to)
    requires |to.phases| == |bs| && forall i | 0 <= i < |bs| :: to.phases[i] == 0 || to.phases[i] == LAST
    ensures to.reg.kernel == kernel && to.reg.entries == map[]
  {
    InitialInv(bs, kernel, readonly);
    RunInv(bs, Initial(bs, kernel, readonly), run, to, kernel, readonly);
    forall path
      ensures path in to.reg.kernel <==> path in kernel
      ensures path in kernel ==> to.reg.kernel[path] == kernel[path]
      ensures path !in to.reg.entries
    {
      TotalZero(bs, to.phases, path);
      assert Books(bs, to, kernel, readonly, path);
    }
  }

  /** What a held path reads in any reachable state: accept_ra 1 has become 2 and forwarding 0
      has become 1, if it can be written; every other value is as it was. */
  lemma HeldReads(bs: seq<Bridge>, sys: System, kernel: map<Path, string>, readonly: set<Path>, path: Path)
    requires Inv(bs, sys, kernel, readonly) && path in kernel && Total(bs, sys.phases, path) > 0
    ensures path in sys.reg.kernel
    ensures sys.reg.kernel[path] ==
            if path in readonly then kernel[path]
            else if path.AcceptRA? && kernel[path] == "1" then "2"
            else if path.Forwarding? && kernel[path] == "0" then "1"
            else kernel[path]
  {
    assert Books(bs, sys, kernel, readonly, path);
  }
}
