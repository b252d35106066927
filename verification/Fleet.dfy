/**
 Add, Del and Reinstall on the whole world of stores, in closed form: what each
 leaves behind for every combination of failing calls. The manager's methods
 are proved against these functions; the properties are proved about them.
 */
module Fleet {
  import opened Wrappers
  import opened World
  import opened Allocation
  import opened Nat
  import Cpu
  import IPv6

  // ---- how external calls can go ----

  /** lx.Launch is create, then start, then wait: it can fail with the container left behind. */
  datatype Launching = Created | CreateFailed | FailedAfterCreate

  /** lx.Delete; its operation can also be reported failed although the container is gone. */
  datatype Removing = Removed | Kept | RemovedWithError

  /** writeNDPPD: written or removed with the daemon following, file left as it was, or written with the daemon down. */
  datatype Wiring = Wired | NotWritten | DaemonDown

  datatype AddOptions = AddOptions(cpu: int, memMB: int, diskGB: int, trafficGB: int)

  datatype AddFaults = AddFaults(
    draw: Option<nat>, picks: seq<nat>, poolFull: bool,
    inUse: Option<set<IPv6.Address>>, listOk: bool,
    launch: Launching, provisionOk: bool, wire: Wiring, configureOk: bool,
    insertOk: bool, quotaOk: bool, nftWriteOk: bool, reloadOk: bool,
    undo: CleanupFaults)

  datatype CleanupFaults = CleanupFaults(unwire: Wiring, remove: Removing, nftRemoveOk: bool, reloadOk: bool,
      rowDeleteOk: bool)
  {
    /** Every call of the rollback does its work. */
    predicate Clean() { !unwire.NotWritten? && !remove.Kept? && nftRemoveOk && reloadOk && rowDeleteOk }
  }

  datatype DelFaults = DelFaults(
    remove: Removing, unwire: Wiring, nftRemoveOk: bool, reloadOk: bool,
    rowDeleteOk: bool, sessionsOk: bool, stuckFiles: set<string>)

  datatype ReinstallFaults = ReinstallFaults(
    remove: Removing, imageOk: bool, launch: Launching, provisionOk: bool, wire: Wiring, configureOk: bool)

  // ---- checks before anything is touched ----

  predicate NameChar(ch: char) { 'a' <= ch <= 'z' || '0' <= ch <= '9' || ch == '-' }

  /** A letter, then lower-case letters, digits and hyphens, no trailing hyphen, at most 63. */
  predicate ValidName(name: Name) {
    && 1 <= |name| <= 63
    && 'a' <= name[0] <= 'z'
    && (forall i :: 0 <= i < |name| ==> NameChar(name[i]))
    && name[|name| - 1] != '-'
  }

  ghost predicate BlockShared(c: Config, users: map<Name, User>, name: Name)
    requires c.prefix.Some?
  {
    exists n :: n in users && n != name && c.Block(n) == c.Block(name)
  }

  ghost function BlockCheck(c: Config, users: map<Name, User>, name: Name,
      inUse: Option<set<IPv6.Address>>): Option<Error> {
    if c.prefix.None? then None
    else if BlockShared(c, users, name) then Some(BlockTaken)
    else
      var gw := IPv6.LeastFree(c.prefix.value, inUse);
      if gw.Some? && IPv6.InNetwork(gw.value, c.Block(name), IPv6.BLOCK_BITS) then Some(BlockHoldsGateway) else None
  }

  predicate AddressHeld(lxd: map<Name, Instance>, ip: IPv4) { exists n :: n in lxd && lxd[n].ip == Some(ip) }

  /** What the new user gets, or the error that stops Add before it touches anything. */
  datatype Plan = Plan(idx: int, ip: IPv4, sshPort: int)

  ghost function AddPlan(c: Config, s: State, name: Name, opt: AddOptions, f: AddFaults): Result<Plan, Error> {
    if !ValidName(name) then Err(InvalidName)
    else if !Cpu.ValidCPU(opt.cpu) then Err(InvalidCPU)
    else if opt.memMB < 64 then Err(InvalidMemory)
    else if opt.diskGB < 1 then Err(InvalidDisk)
    else if name in s.users then Err(NameTaken)
    else
      var idx := PickIdx(UsedIdx(s.users), f.draw);
      if idx.Err? then Err(idx.error)
      else if f.poolFull then Err(PoolFull)
      else
        var ip := ContainerIP(c.subnet, idx.value);
        if ip.Err? then Err(ip.error)
        else
          var port := PickPort(UsedPorts(s.users), f.picks);
          if port.Err? then Err(port.error)
          else if BlockCheck(c, s.users, name, f.inUse).Some? then Err(BlockCheck(c, s.users, name, f.inUse).value)
          else if !f.listOk then Err(LXDUnreadable)
          else if name in s.lxd || AddressHeld(s.lxd, ip.value) then Err(InstanceConflict)
          else Ok(Plan(idx.value, ip.value, port.value))
  }

  // ---- ndppd ----

  /**
   The rules after a write for the given containers, with none a removal of the
   file; with IPv6 off nothing happens.
   */
  function Wrote(c: Config, rules: set<IPv6.Address>, names: set<Name>, w: Wiring): set<IPv6.Address> {
    if c.prefix.None? || w.NotWritten? then rules else c.Blocks(names)
  }

  /** With no container left no error is reported, not even of a file that cannot be removed. */
  predicate WroteOk(c: Config, names: set<Name>, w: Wiring) { c.prefix.None? || names == {} || w.Wired? }

  // ---- Add ----

  function NewRow(p: Plan, opt: AddOptions, quotaGB: int): User {
    User(p.idx, p.ip, p.sshPort, USER_PORT_BASE + (p.idx - 1) * PORTS_PER_USER, opt.cpu, opt.memMB, opt.diskGB, quotaGB)
  }

  function NewInstance(p: Plan, opt: AddOptions): Instance { Instance(Some(p.ip), opt.cpu, opt.memMB, opt.diskGB, "") }

  function Quota(opt: AddOptions): int { if opt.trafficGB > 0 then opt.trafficGB else 0 }

  /** The steps after a successful Launch, in order; the first that fails triggers the rollback. */
  datatype Stage = Provision | Wire | Configure | Insert | SetQuota | WriteNft | Reload

  function FailsAt(c: Config, opt: AddOptions, f: AddFaults): Option<Stage> {
    if !f.provisionOk then Some(Provision)
    else if c.prefix.Some? && !f.wire.Wired? then Some(Wire)
    else if !f.configureOk then Some(Configure)
    else if !f.insertOk then Some(Insert)
    else if opt.trafficGB > 0 && !f.quotaOk then Some(SetQuota)
    else if c.v4Forward && !f.nftWriteOk then Some(WriteNft)
    else if !f.reloadOk then Some(Reload)
    else None
  }

  function StageError(stage: Stage): Error {
    match stage
    case Provision => ProvisionFailed
    case Wire => WireFailed
    case Configure => ConfigureFailed
    case Insert => DBFailed
    case SetQuota => DBFailed
    case WriteNft => NftWriteFailed
    case Reload => NftReloadFailed
  }

  /** Everything about the new user is in place and nothing else has moved. */
  function Added(c: Config, s: State, name: Name, p: Plan, opt: AddOptions): State {
    var files := if c.v4Forward then s.nftFiles[name := UserRules(NewRow(p, opt, 0))] else s.nftFiles;
    s.(users := s.users[name := NewRow(p, opt, Quota(opt))],
       lxd := s.lxd[name := NewInstance(p, opt)],
       nftFiles := files, nftLive := files,
       ndppd := if c.prefix.Some? then c.Blocks(s.users.Keys + {name}) else s.ndppd)
  }

  /** What a failure at a stage leaves once the rollback has run. */
  function RolledBack(c: Config, s: State, name: Name, p: Plan, opt: AddOptions, f: AddFaults, at: Stage): State {
    var rowLeft := (at.SetQuota? || at.WriteNft? || at.Reload?) && !f.undo.rowDeleteOk;
    var row := NewRow(p, opt, if at.SetQuota? then 0 else Quota(opt));
    var wired := if at.Provision? then s.ndppd else Wrote(c, s.ndppd, s.users.Keys + {name}, f.wire);
    var written := if at.Reload? && c.v4Forward then s.nftFiles[name := UserRules(row)] else s.nftFiles;
    var files := if f.undo.nftRemoveOk then written - {name} else written;
    s.(users := if rowLeft then s.users[name := row] else s.users,
       lxd := if f.undo.remove.Kept? then s.lxd[name := NewInstance(p, opt)] else s.lxd,
       nftFiles := files,
       nftLive := if f.undo.reloadOk then files else s.nftLive,
       ndppd := Wrote(c, wired, s.users.Keys, f.undo.unwire))
  }

  ghost function AddState(c: Config, s: State, name: Name, opt: AddOptions, f: AddFaults): State {
    match AddPlan(c, s, name, opt, f)
    case Err(_) => s
    case Ok(p) =>
      match f.launch
      case CreateFailed => s
      case FailedAfterCreate => s.(lxd := s.lxd[name := NewInstance(p, opt)])
      case Created =>
        match FailsAt(c, opt, f)
        case None => Added(c, s, name, p, opt)
        case Some(at) => RolledBack(c, s, name, p, opt, f, at)
  }

  ghost function AddResult(c: Config, s: State, name: Name, opt: AddOptions, f: AddFaults): Result<User, Error> {
    match AddPlan(c, s, name, opt, f)
    case Err(e) => Err(e)
    case Ok(p) =>
      if !f.launch.Created? then Err(LaunchFailed)
      else match FailsAt(c, opt, f)
        case None => Ok(NewRow(p, opt, 0))
        case Some(at) => Err(StageError(at))
  }

  // ---- Del ----

  function DomainsOf(s: State, name: Name): set<string> { set d | d in s.domains && s.domains[d].owner == name }

  function YamlFiles(domains: set<string>): set<string> { set d | d in domains :: FileOf(d) }

  function DelState(c: Config, s: State, name: Name, f: DelFaults): State {
    if !ValidName(name) || name !in s.users || f.remove.Kept? then s
    else
      var gone := s.(lxd := s.lxd - {name});
      if f.remove.RemovedWithError? then gone
      else
        var files := if f.nftRemoveOk then s.nftFiles - {name} else s.nftFiles;
        var unplugged := gone.(
          ndppd := Wrote(c, s.ndppd, s.users.Keys - {name}, f.unwire),
          nftFiles := files, nftLive := if f.reloadOk then files else s.nftLive);
        if !f.rowDeleteOk then unplugged
        else
          var rowless := unplugged.(users := s.users - {name}, traffic := s.traffic - {name},
              domains := s.domains - DomainsOf(s, name));
          if !f.sessionsOk then rowless
          else rowless.(
            traefik := s.traefik - YamlFiles(DomainsOf(s, name) - f.stuckFiles),
            throttled := if s.throttled.Some? then Some(s.throttled.value - {name}) else None)
  }

  function DelError(s: State, name: Name, f: DelFaults): Option<Error> {
    if !ValidName(name) then Some(InvalidName)
    else if name !in s.users then Some(NoSuchUser)
    else if !f.remove.Removed? then Some(DeleteFailed)
    else if !f.rowDeleteOk || !f.sessionsOk then Some(DBFailed)
    else None
  }

  // ---- Reinstall ----

  function ReinstallState(c: Config, s: State, name: Name, f: ReinstallFaults): State {
    if name !in s.users || f.remove.Kept? then s
    else
      var u := s.users[name];
      var gone := s.(lxd := s.lxd - {name});
      if f.remove.RemovedWithError? || !f.imageOk || f.launch.CreateFailed? then gone
      else
        var rebuilt := s.(lxd := s.lxd[name := Instance(Some(u.ip), u.cpu, u.memMB, u.diskGB, "")]);
        if f.launch.FailedAfterCreate? || !f.provisionOk then rebuilt
        else rebuilt.(ndppd := Wrote(c, s.ndppd, s.users.Keys, f.wire))
  }

  function ReinstallError(c: Config, s: State, name: Name, f: ReinstallFaults): Option<Error> {
    if name !in s.users then Some(NoSuchUser)
    else if !f.remove.Removed? then Some(DeleteFailed)
    else if !f.imageOk then Some(ImageMissing)
    else if !f.launch.Created? then Some(LaunchFailed)
    else if !f.provisionOk then Some(ProvisionFailed)
    else if c.prefix.Some? && !f.wire.Wired? then Some(WireFailed)
    else if !f.configureOk then Some(ConfigureFailed)
    else None
  }

  // ---- addresses ----

  /** Containers with a row hold its address, orphans hold none a row owns, and no two containers share one. */
  ghost predicate AddressesOK(users: map<Name, User>, lxd: map<Name, Instance>) {
    && (forall n :: n in lxd && n in users ==> lxd[n].ip == Some(users[n].ip))
    && (forall n, m :: n in lxd && n !in users && m in users ==> lxd[n].ip != Some(users[m].ip))
    && (forall m, n :: m in lxd && n in lxd && m != n && lxd[m].ip.Some? ==> lxd[m].ip != lxd[n].ip)
  }

  /** With IPv6 on, no two rows have the same block. */
  ghost predicate BlocksOK(c: Config, users: map<Name, User>) {
    c.prefix.Some? ==> forall m, n :: m in users && n in users && m != n ==> c.Block(m) != c.Block(n)
  }

  ghost predicate FleetOK(c: Config, s: State) {
    TableOK(c, s.users) && AddressesOK(s.users, s.lxd) && BlocksOK(c, s.users)
  }

  /**
   The block check passes if and only if no other row has the block, and its hash
   is not zero or no gateway is found.
   */
  lemma BlockCheckExact(c: Config, users: map<Name, User>, name: Name, inUse: Option<set<IPv6.Address>>)
    requires c.prefix.Some? && c.Valid()
    ensures BlockCheck(c, users, name, inUse).None? <==>
              !BlockShared(c, users, name)
                  && (c.hash(name) == IPv6.ZERO_HASH ==> IPv6.LeastFree(c.prefix.value, inUse).None?)
  {
    if IPv6.LeastFree(c.prefix.value, inUse).Some? { IPv6.GatewaySafe(c.prefix.value, inUse, c.hash(name)); }
  }

  lemma PlanChecks(c: Config, s: State, name: Name, opt: AddOptions, f: AddFaults)
    requires AddPlan(c, s, name, opt, f).Ok?
    ensures var p := AddPlan(c, s, name, opt, f).value;
            && name !in s.users && name !in s.lxd && !AddressHeld(s.lxd, p.ip)
            && PickIdx(UsedIdx(s.users), f.draw) == Ok(p.idx) && PickPort(UsedPorts(s.users), f.picks) == Ok(p.sshPort)
            && ContainerIP(c.subnet, p.idx) == Ok(p.ip)
            && (c.prefix.Some? ==> !BlockShared(c, s.users, name))
            && BlockCheck(c, s.users, name, f.inUse).None?
  {
  }

  lemma PicksFresh(c: Config, users: map<Name, User>, p: Plan, draw: Option<nat>, picks: seq<nat>)
    requires TableOK(c, users) && PickIdx(UsedIdx(users), draw) == Ok(p.idx)
               && PickPort(UsedPorts(users), picks) == Ok(p.sshPort)
    requires ContainerIP(c.subnet, p.idx) == Ok(p.ip)
    ensures SSH_PORT_BASE <= p.sshPort < SSH_PORT_BASE + SSH_PORT_COUNT
    ensures forall n :: n in users ==> users[n].idx != p.idx && users[n].sshPort != p.sshPort && users[n].ip != p.ip
  {
    PickIdxExact(UsedIdx(users), draw);
    PickPortExact(UsedPorts(users), picks);
    forall n | n in users ensures users[n].idx != p.idx && users[n].sshPort != p.sshPort && users[n].ip != p.ip {
      assert users[n].idx in UsedIdx(users) && users[n].sshPort in UsedPorts(users);
      ContainerIPInjective(c.subnet, users[n].idx, p.idx);
    }
  }

  /** What passing Add's checks guarantees: a free index and port, an address no row or container has, a free block. */
  lemma PlanFresh(c: Config, s: State, name: Name, opt: AddOptions, f: AddFaults)
    requires AddPlan(c, s, name, opt, f).Ok? && TableOK(c, s.users)
    ensures var p := AddPlan(c, s, name, opt, f).value;
            && name !in s.users && name !in s.lxd
            && (forall q :: RowOK(c, NewRow(p, opt, q)))
            && (forall n :: n in s.users ==>
                  s.users[n].idx != p.idx && s.users[n].sshPort != p.sshPort && s.users[n].ip != p.ip)
            && (forall n :: n in s.lxd ==> s.lxd[n].ip != Some(p.ip))
            && (c.prefix.Some? ==> forall n :: n in s.users ==> c.Block(n) != c.Block(name))
  {
    PlanChecks(c, s, name, opt, f);
    PicksFresh(c, s.users, AddPlan(c, s, name, opt, f).value, f.draw, f.picks);
  }

  /** A new row, a new container or both, with a free address. */
  lemma ExtendKeeps(users: map<Name, User>, lxd: map<Name, Instance>, name: Name, row: User, inst: Instance)
    requires AddressesOK(users, lxd) && name !in users && name !in lxd && inst.ip == Some(row.ip)
    requires forall n :: n in users ==> users[n].ip != row.ip
    requires forall n :: n in lxd ==> lxd[n].ip != Some(row.ip)
    ensures AddressesOK(users, lxd[name := inst])
    ensures AddressesOK(users[name := row], lxd)
    ensures AddressesOK(users[name := row], lxd[name := inst])
  {
  }

  lemma NewRowKeeps(c: Config, users: map<Name, User>, name: Name, row: User)
    requires TableOK(c, users) && BlocksOK(c, users) && name !in users && RowOK(c, row)
    requires forall n :: n in users ==> users[n].idx != row.idx && users[n].sshPort != row.sshPort
    requires c.prefix.Some? ==> forall n :: n in users ==> c.Block(n) != c.Block(name)
    ensures TableOK(c, users[name := row]) && BlocksOK(c, users[name := row])
  {
  }

  /** At most the new name's row and container differ. */
  ghost predicate OnlyNew(s: State, t: State, name: Name, p: Plan, opt: AddOptions) {
    && (t.lxd == s.lxd || t.lxd == s.lxd[name := NewInstance(p, opt)])
    && (t.users == s.users || (name in t.users && t.users == s.users[name := NewRow(p, opt, t.users[name].quotaGB)]))
  }

  lemma RollbackTouches(c: Config, s: State, name: Name, p: Plan, opt: AddOptions, f: AddFaults, at: Stage)
    ensures OnlyNew(s, RolledBack(c, s, name, p, opt, f, at), name, p, opt)
    ensures OnlyNew(s, Added(c, s, name, p, opt), name, p, opt)
  {
  }

  /** Add touches at most the new name's row and container. */
  lemma AddTouches(c: Config, s: State, name: Name, opt: AddOptions, f: AddFaults)
    ensures var t := AddState(c, s, name, opt, f);
            match AddPlan(c, s, name, opt, f)
            case Err(_) => t == s
            case Ok(p) => OnlyNew(s, t, name, p, opt)
  {
    var plan := AddPlan(c, s, name, opt, f);
    if plan.Ok? && f.launch.Created? {
      var at := FailsAt(c, opt, f);
      RollbackTouches(c, s, name, plan.value, opt, f, if at.Some? then at.value else Provision);
    }
  }

  /** No traffic row, domain row, Traefik file or throttle entry changes from s to t. */
  ghost predicate SameElsewhere(s: State, t: State) {
    t.traffic == s.traffic && t.domains == s.domains && t.traefik == s.traefik && t.throttled == s.throttled
  }

  lemma RollbackFrame(c: Config, s: State, name: Name, p: Plan, opt: AddOptions, f: AddFaults, at: Stage)
    ensures SameElsewhere(s, RolledBack(c, s, name, p, opt, f, at))
    ensures SameElsewhere(s, Added(c, s, name, p, opt))
  {
  }

  lemma AddFrame(c: Config, s: State, name: Name, opt: AddOptions, f: AddFaults)
    ensures SameElsewhere(s, AddState(c, s, name, opt, f))
  {
    var plan := AddPlan(c, s, name, opt, f);
    if plan.Ok? && f.launch.Created? {
      var at := FailsAt(c, opt, f);
      RollbackFrame(c, s, name, plan.value, opt, f, if at.Some? then at.value else Provision);
    }
  }

  /** Whatever fails in Add, every container keeps its address and no two share one. */
  lemma AddKeepsFleet(c: Config, s: State, name: Name, opt: AddOptions, f: AddFaults)
    requires FleetOK(c, s)
    ensures FleetOK(c, AddState(c, s, name, opt, f))
  {
    AddTouches(c, s, name, opt, f);
    var t := AddState(c, s, name, opt, f);
    if t != s {
      PlanFresh(c, s, name, opt, f);
      var p := AddPlan(c, s, name, opt, f).value;
      var row := NewRow(p, opt, if name in t.users then t.users[name].quotaGB else 0);
      ExtendKeeps(s.users, s.lxd, name, row, NewInstance(p, opt));
      NewRowKeeps(c, s.users, name, row);
    }
  }

  lemma FewerKeep(c: Config, s: State, t: State, name: Name)
    requires FleetOK(c, s)
    requires t.lxd == s.lxd - {name} && (t.users == s.users || t.users == s.users - {name})
    ensures FleetOK(c, t)
  {
  }

  lemma DelKeepsFleet(c: Config, s: State, name: Name, f: DelFaults)
    requires FleetOK(c, s)
    ensures FleetOK(c, DelState(c, s, name, f))
  {
    if ValidName(name) && name in s.users && !f.remove.Kept? { FewerKeep(c, s, DelState(c, s, name, f), name); }
  }

  /** A row's container may be created afresh: nothing else holds its address. */
  lemma RebuildKeeps(c: Config, users: map<Name, User>, lxd: map<Name, Instance>, name: Name, inst: Instance)
    requires TableOK(c, users) && AddressesOK(users, lxd) && name in users && inst.ip == Some(users[name].ip)
    ensures AddressesOK(users, lxd[name := inst])
  {
    forall n | n in users && n != name ensures users[n].ip != users[name].ip {
      ContainerIPInjective(c.subnet, users[n].idx, users[name].idx);
    }
  }

  lemma ReinstallKeepsFleet(c: Config, s: State, name: Name, f: ReinstallFaults)
    requires FleetOK(c, s)
    ensures FleetOK(c, ReinstallState(c, s, name, f))
  {
    var t := ReinstallState(c, s, name, f);
    if name in s.users && t.lxd != s.lxd - {name} && t.lxd != s.lxd {
      RebuildKeeps(c, s.users, s.lxd, name, t.lxd[name]);
    }
  }

  /** Reinstall makes no conflict check and needs none: no other container has the row's address. */
  lemma ReinstallNeverConflicts(c: Config, s: State, name: Name, other: Name)
    requires FleetOK(c, s) && name in s.users && other in s.lxd && other != name
    ensures s.lxd[other].ip != Some(s.users[name].ip)
  {
    if other in s.users { ContainerIPInjective(c.subnet, s.users[other].idx, s.users[name].idx); }
  }
}
