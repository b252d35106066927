/**
 Runs of the whole manager: any sequence of operations, each with any of its
 calls failing, and restarts of the process between them. What every run keeps.
 */
module Runs {
  import opened Wrappers
  import opened World
  import opened Allocation
  import opened Nat
  import opened Fleet
  import Domains
  import IPv6
  import Plumbing
  import Quotas
  import Reconcile
  import Throttle
  import Traffic

  datatype Op =
    | Add(name: Name, opt: AddOptions, add: AddFaults)
    | Del(name: Name, del: DelFaults)
    | Reinstall(name: Name, reinstall: ReinstallFaults)
    | Update(name: Name, request: Quotas.Request, update: Quotas.Faults)
    | Sample(live: map<Name, Traffic.Counters>, period: string, fails: set<Name>)
    | Enforce(enforce: Throttle.Faults)
    | Bind(name: Name, domain: string, on: bool, bind: Domains.AddFaults)
    | Unbind(name: Name, domain: string, unbind: Domains.DelFaults)
    | SetProtocol(name: Name, domain: string, on: bool, toggle: Domains.SetFaults)
    | Sync(sync: Reconcile.Faults)
    | Restart

  ghost function Step(c: Config, s: State, op: Op): State {
    match op
    case Add(name, opt, f) => AddState(c, s, name, opt, f)
    case Del(name, f) => DelState(c, s, name, f)
    case Reinstall(name, f) => ReinstallState(c, s, name, f)
    case Update(name, q, f) => Quotas.FullState(s, name, q, f)
    case Sample(live, period, fails) => s.(traffic := Traffic.SampleAll(s.traffic, s.users.Keys, live, period, fails))
    case Enforce(f) => Throttle.EnforceState(s, f)
    case Bind(name, d, on, f) => Domains.AddDomainState(s, name, d, on, f)
    case Unbind(name, d, f) => Domains.DelDomainState(s, name, d, f)
    case SetProtocol(name, d, on, f) => Domains.SetProtocolState(s, name, d, on, f)
    case Sync(f) => Reconcile.SyncState(s, f)
    case Restart => Throttle.Restarted(s)
  }

  ghost function Run(c: Config, s: State, ops: seq<Op>): State {
    if ops == [] then s else Step(c, Run(c, s, ops[..|ops| - 1]), ops[|ops| - 1])
  }

  const EMPTY := State(map[], map[], map[], map[], map[], map[], {}, map[], None)

  // ---- addresses, ports and blocks: every run ----

  /** Rows keep their slots and instances their addresses. */
  ghost predicate SameSlots(s: State, t: State) {
    && t.users.Keys == s.users.Keys && t.lxd.Keys == s.lxd.Keys
    && (forall n :: n in s.users ==> t.users[n] == Quotas.SameSlot(s.users[n], t.users[n]))
    && (forall n :: n in s.lxd ==> t.lxd[n].ip == s.lxd[n].ip)
  }

  /** Operations that move no slot, address, ndppd rule, nft file or loaded rule. */
  ghost predicate Quiet(s: State, t: State) {
    SameSlots(s, t) && t.ndppd == s.ndppd && t.nftFiles == s.nftFiles && t.nftLive == s.nftLive
  }

  predicate Lifecycle(op: Op) { op.Add? || op.Del? || op.Reinstall? }

  predicate Binding(op: Op) { op.Bind? || op.Unbind? || op.SetProtocol? }

  lemma SameSlotsKeepFleet(c: Config, s: State, t: State)
    requires FleetOK(c, s) && SameSlots(s, t)
    ensures FleetOK(c, t)
  {
  }

  lemma BindingTouches(c: Config, s: State, op: Op)
    requires Binding(op)
    ensures Domains.Touches(s, Step(c, s, op))
  {
    match op
    case Bind(name, d, on, f) => Domains.AddDomainTouches(s, name, d, on, f);
    case Unbind(name, d, f) => Domains.DelDomainTouches(s, name, d, f);
    case SetProtocol(name, d, on, f) => Domains.SetProtocolTouches(s, name, d, on, f);
  }

  lemma UpdateQuiet(s: State, name: Name, q: Quotas.Request, f: Quotas.Faults)
    ensures Quiet(s, Quotas.FullState(s, name, q, f))
  {
    Quotas.UpdateTouches(s, name, q, f);
  }

  lemma EnforceQuiet(s: State, f: Throttle.Faults)
    ensures Quiet(s, Throttle.EnforceState(s, f))
  {
  }

  lemma StepQuiet(c: Config, s: State, op: Op)
    requires !Lifecycle(op)
    ensures Quiet(s, Step(c, s, op))
  {
    match op
    case Update(name, q, f) => UpdateQuiet(s, name, q, f);
    case Enforce(f) => EnforceQuiet(s, f);
    case Sample(_, _, _) =>
    case Sync(_) =>
    case Restart =>
    case _ => BindingTouches(c, s, op);
  }

  lemma StepKeepsFleet(c: Config, s: State, op: Op)
    requires FleetOK(c, s)
    ensures FleetOK(c, Step(c, s, op))
  {
    match op
    case Add(name, opt, f) => AddKeepsFleet(c, s, name, opt, f);
    case Del(name, f) => DelKeepsFleet(c, s, name, f);
    case Reinstall(name, f) => ReinstallKeepsFleet(c, s, name, f);
    case _ =>
      StepQuiet(c, s, op);
      SameSlotsKeepFleet(c, s, Step(c, s, op));
  }

  /**
   Over every run with any call failing at any point: rows are well-formed with
   unique indices, addresses and ports; each container with a row has that
   row's IPv4; orphans have none a row owns; no two containers share one.
   */
  lemma {:induction false} RunsKeepFleet(c: Config, s: State, ops: seq<Op>)
    requires FleetOK(c, s)
    ensures FleetOK(c, Run(c, s, ops))
  {
    if ops != [] {
      RunsKeepFleet(c, s, ops[..|ops| - 1]);
      StepKeepsFleet(c, Run(c, s, ops[..|ops| - 1]), ops[|ops| - 1]);
    }
  }

  /** With IPv6 on, no address ever belongs to the blocks of two rows. */
  lemma RunsKeepBlocksDisjoint(c: Config, s: State, ops: seq<Op>, m: Name, n: Name, a: IPv6.Address)
    requires FleetOK(c, s) && c.prefix.Some?
    requires var t := Run(c, s, ops); m in t.users && n in t.users && m != n
    ensures !(IPv6.InNetwork(a, c.Block(m), IPv6.BLOCK_BITS) && IPv6.InNetwork(a, c.Block(n), IPv6.BLOCK_BITS))
  {
    RunsKeepFleet(c, s, ops);
    IPv6.BlocksEqualOrDisjoint(c.prefix.value, c.hash(m), c.hash(n));
  }

  /** In every reachable table the rules of all rows send each packet one way, whatever the order of the files. */
  lemma ReachableRulesFunctional(c: Config, ops: seq<Op>, o1: seq<Name>, o2: seq<Name>, proto: Proto, port: int)
    requires var users := Run(c, EMPTY, ops).users;
             (forall n :: n in users <==> n in o1) && (forall n :: n in users <==> n in o2)
    ensures var users := Run(c, EMPTY, ops).users;
            var files := map n | n in users :: UserRules(users[n]);
            Functional(files) && Lookup(Chain(files, o1), proto, port) == Lookup(Chain(files, o2), proto, port)
  {
    RunsKeepFleet(c, EMPTY, ops);
    var users := Run(c, EMPTY, ops).users;
    var files := map n | n in users :: UserRules(users[n]);
    TableFunctional(c, users, files);
    OrderIrrelevant(files, o1, o2, proto, port);
  }

  /** In every reachable table the user limit means 200 rows, and an SSH port is always found. */
  lemma ReachableAllocation(c: Config, ops: seq<Op>, draw: Option<nat>, picks: seq<nat>)
    ensures var users := Run(c, EMPTY, ops).users;
            && (PickIdx(UsedIdx(users), draw) == Err(LimitReached) <==> |users| == MAX_USERS)
            && PickPort(UsedPorts(users), picks).Ok?
  {
    RunsKeepFleet(c, EMPTY, ops);
    LimitExact(c, Run(c, EMPTY, ops).users, draw);
    PortsSuffice(c, Run(c, EMPTY, ops).users, picks);
  }

  // ---- the loaded ruleset: every run ----

  /** Every file renders some well-formed row, of a user who may be gone. */
  ghost predicate Rendered(c: Config, files: Files) {
    forall n :: n in files ==> exists u :: RowOK(c, u) && files[n] == UserRules(u)
  }

  ghost predicate RulesRendered(c: Config, s: State) { Rendered(c, s.nftFiles) && Rendered(c, s.nftLive) }

  lemma AddRendered(c: Config, s: State, name: Name, opt: AddOptions, f: AddFaults)
    requires FleetOK(c, s) && RulesRendered(c, s)
    ensures RulesRendered(c, AddState(c, s, name, opt, f))
  {
    if AddPlan(c, s, name, opt, f).Ok? && f.launch.Created? {
      PlanFresh(c, s, name, opt, f);
      var p := AddPlan(c, s, name, opt, f).value;
      Plumbing.AddTouchesFiles(c, s, name, opt, f);
      assert RowOK(c, NewRow(p, opt, 0));
    }
  }

  lemma StepKeepsRendered(c: Config, s: State, op: Op)
    requires FleetOK(c, s) && RulesRendered(c, s)
    ensures RulesRendered(c, Step(c, s, op))
  {
    match op
    case Add(name, opt, f) => AddRendered(c, s, name, opt, f);
    case Del(name, f) =>
      if ValidName(name) && name in s.users && f.remove.Removed? { Plumbing.DelTouchesFiles(c, s, name, f); }
    case Reinstall(name, f) => Throttle.ReinstallTouches(c, s, name, f);
    case _ => StepQuiet(c, s, op);
  }

  lemma {:induction false} RunsKeepRendered(c: Config, s: State, ops: seq<Op>)
    requires FleetOK(c, s) && RulesRendered(c, s)
    ensures RulesRendered(c, Run(c, s, ops))
  {
    if ops != [] {
      RunsKeepRendered(c, s, ops[..|ops| - 1]);
      RunsKeepFleet(c, s, ops[..|ops| - 1]);
      StepKeepsRendered(c, Run(c, s, ops[..|ops| - 1]), ops[|ops| - 1]);
    }
  }

  /**
   In every reachable state, whatever files Dels and rollbacks have left, each
   loaded file renders a well-formed row, and the loaded ruleset sends each
   packet one way if and only if no two of those rows have one SSH port in
   different slots.
   */
  lemma ReachableRulesetExact(c: Config, ops: seq<Op>) returns (rows: map<Name, User>)
    ensures var live := Run(c, EMPTY, ops).nftLive;
            && rows.Keys == live.Keys && (forall n :: n in rows ==> RowOK(c, rows[n])) && FilesFromRows(rows, live)
            && (Functional(live) <==> Compatible(c, rows))
  {
    RunsKeepRendered(c, EMPTY, ops);
    var live := Run(c, EMPTY, ops).nftLive;
    rows := RowsBehind(c, live);
    RulesetExact(c, rows, live);
  }

  lemma RowsBehind(c: Config, files: Files) returns (rows: map<Name, User>)
    requires Rendered(c, files)
    ensures rows.Keys == files.Keys && (forall n :: n in rows ==> RowOK(c, rows[n])) && FilesFromRows(rows, files)
  {
    rows := map n | n in files :: var u :| RowOK(c, u) && files[n] == UserRules(u); u;
  }

  // ---- the referential integrity the methods rely on: every run ----

  /** Traffic and domain rows belong to user rows. */
  ghost predicate References(s: State) { s.traffic.Keys <= s.users.Keys && Domains.Owned(s) }

  lemma GrowingKeepsReferences(s: State, t: State)
    requires References(s) && t.domains == s.domains && t.traffic == s.traffic && s.users.Keys <= t.users.Keys
    ensures References(t)
  {
  }

  lemma AddKeepsReferences(c: Config, s: State, name: Name, opt: AddOptions, f: AddFaults)
    requires References(s)
    ensures References(AddState(c, s, name, opt, f))
  {
    AddTouches(c, s, name, opt, f);
    AddFrame(c, s, name, opt, f);
    GrowingKeepsReferences(s, AddState(c, s, name, opt, f));
  }

  lemma UpdateKeepsReferences(s: State, name: Name, q: Quotas.Request, f: Quotas.Faults)
    requires References(s)
    ensures References(Quotas.FullState(s, name, q, f))
  {
    Quotas.UpdateTouches(s, name, q, f);
    GrowingKeepsReferences(s, Quotas.FullState(s, name, q, f));
  }

  lemma DelKeepsReferences(c: Config, s: State, name: Name, f: DelFaults)
    requires References(s)
    ensures References(DelState(c, s, name, f))
  {
    var t := DelState(c, s, name, f);
    if t.users != s.users {
      assert t.traffic == s.traffic - {name} && t.domains == s.domains - DomainsOf(s, name)
          && t.users == s.users - {name};
    }
  }

  lemma TouchesKeepsReferences(s: State, t: State)
    requires References(s) && Domains.Touches(s, t)
    ensures References(t)
  {
  }

  lemma ReinstallKeepsReferences(c: Config, s: State, name: Name, f: ReinstallFaults)
    requires References(s)
    ensures References(ReinstallState(c, s, name, f))
  {
    GrowingKeepsReferences(s, ReinstallState(c, s, name, f));
  }

  lemma EnforceKeepsReferences(s: State, f: Throttle.Faults)
    requires References(s)
    ensures References(Throttle.EnforceState(s, f))
  {
    GrowingKeepsReferences(s, Throttle.EnforceState(s, f));
  }

  lemma SampleKeepsReferences(s: State, live: map<Name, Traffic.Counters>, period: string, fails: set<Name>)
    requires References(s)
    ensures References(s.(traffic := Traffic.SampleAll(s.traffic, s.users.Keys, live, period, fails)))
  {
  }

  lemma StepKeepsReferences(c: Config, s: State, op: Op)
    requires References(s)
    ensures References(Step(c, s, op))
  {
    match op
    case Add(name, opt, f) => AddKeepsReferences(c, s, name, opt, f);
    case Del(name, f) => DelKeepsReferences(c, s, name, f);
    case Update(name, q, f) => UpdateKeepsReferences(s, name, q, f);
    case Reinstall(name, f) => ReinstallKeepsReferences(c, s, name, f);
    case Sample(live, period, fails) => SampleKeepsReferences(s, live, period, fails);
    case Enforce(f) => EnforceKeepsReferences(s, f);
    case Sync(f) => GrowingKeepsReferences(s, Reconcile.SyncState(s, f));
    case Restart => GrowingKeepsReferences(s, Throttle.Restarted(s));
    case _ =>
      BindingTouches(c, s, op);
      TouchesKeepsReferences(s, Step(c, s, op));
  }

  lemma {:induction false} RunsKeepReferences(c: Config, s: State, ops: seq<Op>)
    requires References(s)
    ensures References(Run(c, s, ops))
  {
    if ops != [] {
      RunsKeepReferences(c, s, ops[..|ops| - 1]);
      StepKeepsReferences(c, Run(c, s, ops[..|ops| - 1]), ops[|ops| - 1]);
    }
  }

  // ---- bound domains ----

  ghost predicate DomainsNormal(s: State) { forall d :: d in s.domains ==> Domains.Normal(d) }

  lemma DelKeepsDomains(c: Config, s: State, name: Name, f: DelFaults)
    ensures forall d :: d in DelState(c, s, name, f).domains ==> d in s.domains
  {
  }

  lemma StepKeepsDomainsNormal(c: Config, s: State, op: Op)
    requires DomainsNormal(s)
    ensures DomainsNormal(Step(c, s, op))
  {
    match op
    case Add(name, opt, f) => AddFrame(c, s, name, opt, f);
    case Del(name, f) => DelKeepsDomains(c, s, name, f);
    case Reinstall(name, f) => Throttle.ReinstallTouches(c, s, name, f);
    case Update(name, q, f) => Quotas.UpdateTouches(s, name, q, f);
    case Sample(_, _, _) =>
    case Enforce(_) =>
    case Sync(_) =>
    case Restart =>
    case _ => BindingTouches(c, s, op);
  }

  lemma {:induction false} RunsKeepDomainsNormal(c: Config, s: State, ops: seq<Op>)
    requires DomainsNormal(s)
    ensures DomainsNormal(Run(c, s, ops))
  {
    if ops != [] {
      RunsKeepDomainsNormal(c, s, ops[..|ops| - 1]);
      StepKeepsDomainsNormal(c, Run(c, s, ops[..|ops| - 1]), ops[|ops| - 1]);
    }
  }

  /** In every reachable table two bound domains declare disjoint Traefik elements. */
  lemma ReachableElementsUnique(c: Config, ops: seq<Op>, d: string, e: string)
    requires d in Run(c, EMPTY, ops).domains && e in Run(c, EMPTY, ops).domains && d != e
    ensures Domains.Elements(d) !! Domains.Elements(e)
  {
    RunsKeepDomainsNormal(c, EMPTY, ops);
    Domains.ElementsUnique(d, e);
  }

  // ---- the bridge gateway ----

  /** No row has the block the gateway candidates lie in. */
  ghost predicate NoZeroBlock(c: Config, s: State) { forall n :: n in s.users ==> c.hash(n) != IPv6.ZERO_HASH }

  /** Whenever Add looks for the gateway it finds one. */
  ghost predicate GatewayFound(c: Config, op: Op)
    requires c.prefix.Some?
  {
    op.Add? ==> IPv6.LeastFree(c.prefix.value, op.add.inUse).Some?
  }

  lemma StepKeepsZeroFree(c: Config, s: State, op: Op)
    requires c.prefix.Some? && c.Valid() && NoZeroBlock(c, s) && GatewayFound(c, op)
    ensures NoZeroBlock(c, Step(c, s, op))
  {
    match op
    case Add(name, opt, f) =>
      AddTouches(c, s, name, opt, f);
      if AddPlan(c, s, name, opt, f).Ok? {
        PlanChecks(c, s, name, opt, f);
        BlockCheckExact(c, s.users, name, f.inUse);
      }
    case Del(name, f) =>
    case Reinstall(name, f) => Throttle.ReinstallTouches(c, s, name, f);
    case _ => StepQuiet(c, s, op);
  }

  lemma {:induction false} RunsKeepZeroFree(c: Config, s: State, ops: seq<Op>)
    requires c.prefix.Some? && c.Valid() && NoZeroBlock(c, s)
    requires forall i :: 0 <= i < |ops| ==> GatewayFound(c, ops[i])
    ensures NoZeroBlock(c, Run(c, s, ops))
  {
    if ops != [] {
      RunsKeepZeroFree(c, s, ops[..|ops| - 1]);
      StepKeepsZeroFree(c, Run(c, s, ops[..|ops| - 1]), ops[|ops| - 1]);
    }
  }

  /**
   In every reachable state each row's block lies inside the prefix and the
   clamped bridge network, and, as long as every Add found a gateway to check
   against, it holds no address the bridge could ever take.
   */
  lemma ReachableBlocksSafe(c: Config, ops: seq<Op>, n: Name, a: IPv6.Address, k: nat)
    requires c.prefix.Some? && c.Valid() && n in Run(c, EMPTY, ops).users
    requires IPv6.InNetwork(a, c.Block(n), IPv6.BLOCK_BITS)
    ensures IPv6.InNetwork(a, c.prefix.value.net, c.prefix.value.ones)
    ensures IPv6.InNetwork(a, c.prefix.value.net, IPv6.BridgePrefixLen(c.prefix.value.ones))
    ensures k < 0x1_0000 && (forall i :: 0 <= i < |ops| ==> GatewayFound(c, ops[i])) ==>
              a != IPv6.Offset(c.prefix.value.net, k)
  {
    IPv6.BlockInsidePrefix(c.prefix.value, c.hash(n), a);
    if k < 0x1_0000 && forall i :: 0 <= i < |ops| ==> GatewayFound(c, ops[i]) {
      RunsKeepZeroFree(c, EMPTY, ops);
      IPv6.GatewayInBlock(c.prefix.value, c.hash(n), k);
    }
  }
}
