/**
 The manager as the program runs it: one object over all the stores, each
 operation a sequence of store calls that may fail. Every operation is proved
 to have exactly the outcome its closed form gives.
 */
module ManagerModule {
  import opened Wrappers
  import opened World
  import opened Allocation
  import opened Fleet
  import Cpu
  import Domains
  import IPv6
  import Nat
  import Quotas
  import Reconcile
  import Throttle
  import Traffic

  datatype UndoStep = UndoCPU(cpu: int) | UndoMem(memMB: int) | UndoDisk(diskGB: int)

  class Manager {
    const cfg: Config
    var users: map<Name, User>
    var traffic: map<Name, Traffic.Usage>
    var domains: map<string, DomainRow>
    var lxd: map<Name, Instance>
    var nftFiles: map<Name, seq<Rule>>
    var nftLive: map<Name, seq<Rule>>
    var ndppd: set<IPv6.Address>
    var traefik: map<string, Content>
    var throttled: Option<set<Name>>

    constructor (cfg: Config)
      ensures this.cfg == cfg
      ensures S() == State(map[], map[], map[], map[], map[], map[], {}, map[], None)
    {
      this.cfg := cfg;
      users, traffic, domains, lxd := map[], map[], map[], map[];
      nftFiles, nftLive, ndppd, traefik, throttled := map[], map[], {}, map[], None;
    }

    ghost function S(): State
      reads this
    {
      State(users, traffic, domains, lxd, nftFiles, nftLive, ndppd, traefik, throttled)
    }

    // ---- lx ----

    method Launch(name: Name, inst: Instance, outcome: Launching) returns (ok: bool)
      modifies this
      ensures ok <==> outcome.Created? && name !in old(lxd)
      ensures S() == old(S()).(lxd :=
                if outcome.CreateFailed? || name in old(lxd) then old(lxd) else old(lxd)[name := inst])
    {
      if outcome.CreateFailed? || name in lxd {
        return false;
      }
      lxd := lxd[name := inst];
      return outcome.Created?;
    }

    method DeleteInstance(name: Name, outcome: Removing) returns (ok: bool)
      modifies this
      ensures ok <==> outcome.Removed?
      ensures S() == old(S()).(lxd := if outcome.Kept? then old(lxd) else old(lxd) - {name})
    {
      if outcome.Kept? {
        return false;
      }
      lxd := lxd - {name};
      return outcome.Removed?;
    }

    /** Refuses a name or address a live instance already has. */
    method CheckLXDConflict(name: Name, ip: IPv4, listOk: bool) returns (e: Option<Error>)
      ensures e == if !listOk then Some(LXDUnreadable)
                   else if name in lxd || AddressHeld(lxd, ip) then Some(InstanceConflict) else None
    {
      if !listOk {
        return Some(LXDUnreadable);
      }
      var left := lxd.Keys;
      while left != {}
        invariant left <= lxd.Keys
        invariant forall n :: n in lxd && n !in left ==> n != name && lxd[n].ip != Some(ip)
      {
        var n :| n in left;
        if n == name || lxd[n].ip == Some(ip) {
          return Some(InstanceConflict);
        }
        left := left - {n};
      }
      return None;
    }

    // ---- ipv6 ----

    /** Refuses a block another row has, or one that holds the bridge gateway. */
    method CheckIPv6BlockCollision(name: Name, inUse: Option<set<IPv6.Address>>) returns (e: Option<Error>)
      ensures e == BlockCheck(cfg, users, name, inUse)
    {
      if cfg.prefix.None? {
        return None;
      }
      var block := cfg.Block(name);
      var left := users.Keys;
      while left != {}
        invariant left <= users.Keys
        invariant forall n :: n in users && n !in left && n != name ==> cfg.Block(n) != block
      {
        var n :| n in left;
        if n != name && cfg.Block(n) == block {
          return Some(BlockTaken);
        }
        left := left - {n};
      }
      var gw := IPv6.BridgeGateway(cfg.prefix.value, inUse);
      if gw.Some? && IPv6.InNetwork(gw.value, block, IPv6.BLOCK_BITS) {
        return Some(BlockHoldsGateway);
      }
      return None;
    }

    /** Rewrites the ndppd rules for the rows, without drop and with add, and restarts the daemon. */
    method WriteNDPPD(add: set<Name>, drop: set<Name>, w: Wiring) returns (ok: bool)
      modifies this
      ensures S() == old(S()).(ndppd := Wrote(cfg, old(ndppd), old(users).Keys - drop + add, w))
      ensures ok == WroteOk(cfg, old(users).Keys - drop + add, w)
    {
      if cfg.prefix.None? {
        return true;
      }
      var names := users.Keys - drop + add;
      if names == {} {
        if !w.NotWritten? { ndppd := cfg.Blocks(names); }
        return true;
      }
      var rules, left := {}, names;
      while left != {}
        invariant left <= names && rules == cfg.Blocks(names - left)
      {
        var n :| n in left;
        rules := rules + {cfg.Block(n)};
        left := left - {n};
      }
      assert names - {} == names;
      if w.NotWritten? {
        return false;
      }
      ndppd := rules;
      return w.Wired?;
    }

    // ---- fw ----

    method WriteUserRules(name: Name, u: User, ok: bool)
      modifies this
      ensures S() == old(S()).(nftFiles := if ok then old(nftFiles)[name := Nat.UserRules(u)] else old(nftFiles))
    {
      if ok {
        var last := u.startPort + PORTS_PER_USER - 1;
        nftFiles := nftFiles[name := [
          Rule(Tcp, u.sshPort, u.sshPort, u.ip, Some(22)),
          Rule(Tcp, u.startPort, last, u.ip, None),
          Rule(Udp, u.startPort, last, u.ip, None)]];
      }
    }

    method RemoveUserRules(name: Name, ok: bool)
      modifies this
      ensures S() == old(S()).(nftFiles := if ok then old(nftFiles) - {name} else old(nftFiles))
    {
      if ok { nftFiles := nftFiles - {name}; }
    }

    /** One atomic nft batch: the files become the loaded ruleset, or it stays as it was. */
    method Reload(ok: bool)
      modifies this
      ensures S() == old(S()).(nftLive := if ok then old(nftFiles) else old(nftLive))
    {
      if ok { nftLive := nftFiles; }
    }

    // ---- db ----

    /** INSERT with the UNIQUE columns of the users table. */
    method CreateUser(name: Name, u: User, ok: bool) returns (created: bool)
      modifies this
      ensures created <==>
                ok && name !in old(users) && u.idx !in UsedIdx(old(users)) && u.sshPort !in UsedPorts(old(users))
      ensures S() == old(S()).(users := if created then old(users)[name := u] else old(users))
    {
      created := ok && name !in users && u.idx !in UsedIdx(users) && u.sshPort !in UsedPorts(users);
      if created { users := users[name := u]; }
    }

    /** DELETE of a row, cascading to its traffic and domains. */
    method DeleteUser(name: Name, ok: bool)
      modifies this
      ensures S() == if !ok then old(S())
                     else old(S()).(users := old(users) - {name}, traffic := old(traffic) - {name},
                                    domains := old(domains) - DomainsOf(old(S()), name))
    {
      if ok {
        domains := domains - set d | d in domains && domains[d].owner == name;
        traffic := traffic - {name};
        users := users - {name};
      }
    }

    // ---- Add ----

    method Cleanup(name: Name, created: bool, f: CleanupFaults)
      modifies this
      ensures S() == CleanedUp(cfg, old(S()), name, created, f)
    {
      assert users.Keys - {name} + {} == users.Keys - {name};
      var _ := WriteNDPPD({}, {name}, f.unwire);
      var _ := DeleteInstance(name, f.remove);
      RemoveUserRules(name, f.nftRemoveOk);
      Reload(f.reloadOk);
      if created {
        DeleteUser(name, f.rowDeleteOk);
      }
    }

    method Add(name: Name, opt: AddOptions, f: AddFaults) returns (r: Result<User, Error>)
      requires name !in users ==> name !in traffic && DomainsOf(S(), name) == {}
      modifies this
      ensures S() == AddState(cfg, old(S()), name, opt, f)
      ensures r == AddResult(cfg, old(S()), name, opt, f)
    {
      if !ValidName(name) { return Err(InvalidName); }
      if !Cpu.ValidCPU(opt.cpu) { return Err(InvalidCPU); }
      if opt.memMB < 64 { return Err(InvalidMemory); }
      if opt.diskGB < 1 { return Err(InvalidDisk); }
      if name in users { return Err(NameTaken); }
      var idx := NextFreeIdx(users, f.draw);
      if idx.Err? { return Err(idx.error); }
      if f.poolFull { return Err(PoolFull); }
      var ip := ContainerIP(cfg.subnet, idx.value);
      if ip.Err? { return Err(ip.error); }
      var port := AllocSSHPort(users, f.picks);
      if port.Err? { return Err(port.error); }
      var startPort := USER_PORT_BASE + (idx.value - 1) * PORTS_PER_USER;
      var collision := CheckIPv6BlockCollision(name, f.inUse);
      if collision.Some? { return Err(collision.value); }
      var conflict := CheckLXDConflict(name, ip.value, f.listOk);
      if conflict.Some? { return Err(conflict.value); }
      ghost var p := Plan(idx.value, ip.value, port.value);
      assert AddPlan(cfg, old(S()), name, opt, f) == Ok(p);
      PickIdxExact(UsedIdx(users), f.draw);
      PickPortExact(UsedPorts(users), f.picks);
      var launched := Launch(name, Instance(Some(ip.value), opt.cpu, opt.memMB, opt.diskGB, ""), f.launch);
      if !launched { return Err(LaunchFailed); }
      r := Complete(name, User(idx.value, ip.value, port.value, startPort, opt.cpu, opt.memMB, opt.diskGB, 0), opt, f,
          p, old(S()));
    }

    /** The container's side of the steps after Launch: provisioning and IPv6. */
    method Complete(name: Name, row: User, opt: AddOptions, f: AddFaults, ghost p: Plan, ghost s: State)
        returns (r: Result<User, Error>)
      requires row == NewRow(p, opt, 0) && FreshIn(s, name, row)
      requires S() == s.(lxd := s.lxd[name := NewInstance(p, opt)])
      modifies this
      ensures match FailsAt(cfg, opt, f)
              case None => S() == Added(cfg, s, name, p, opt) && r == Ok(row)
              case Some(at) => S() == RolledBack(cfg, s, name, p, opt, f, at) && r == Err(StageError(at))
    {
      assert s.users.Keys - {} + {name} == s.users.Keys + {name};
      if !f.provisionOk {
        UndoHost(name, f, Provision, opt, p, s);
        return Err(ProvisionFailed);
      }
      var wired := WriteNDPPD({name}, {}, f.wire);
      if !wired {
        UndoHost(name, f, Wire, opt, p, s);
        return Err(WireFailed);
      }
      if !f.configureOk {
        UndoHost(name, f, Configure, opt, p, s);
        return Err(ConfigureFailed);
      }
      r := Register(name, row, opt, f, p, s);
    }

    /** Cleanup before the row exists. */
    method UndoHost(name: Name, f: AddFaults, at: Stage, ghost opt: AddOptions, ghost p: Plan, ghost s: State)
      requires FreshIn(s, name, NewRow(p, opt, 0)) && (at.Provision? || at.Wire? || at.Configure? || at.Insert?)
      requires S() == WithHost(cfg, s, name, p, opt, f, at)
      modifies this
      ensures S() == RolledBack(cfg, s, name, p, opt, f, at)
    {
      HostUndone(cfg, s, name, p, opt, f, at);
      Cleanup(name, false, f.undo);
    }

    /** Cleanup once the row exists. */
    method UndoRow(name: Name, f: AddFaults, at: Stage, ghost opt: AddOptions, ghost p: Plan, ghost s: State)
      requires FreshIn(s, name, NewRow(p, opt, 0)) && (at.SetQuota? || at.WriteNft? || at.Reload?)
      requires S() == WithRow(cfg, s, name, p, opt, f, at)
      modifies this
      ensures S() == RolledBack(cfg, s, name, p, opt, f, at)
    {
      RowUndone(cfg, s, name, p, opt, f, at);
      Cleanup(name, true, f.undo);
    }

    /** The host's side: the row and its traffic quota. */
    method Register(name: Name, row: User, opt: AddOptions, f: AddFaults, ghost p: Plan, ghost s: State)
        returns (r: Result<User, Error>)
      requires row == NewRow(p, opt, 0) && FreshIn(s, name, row)
      requires f.provisionOk && (cfg.prefix.Some? ==> f.wire.Wired?) && f.configureOk
      requires S() == s.(lxd := s.lxd[name := NewInstance(p, opt)],
                 ndppd := Wrote(cfg, s.ndppd, s.users.Keys + {name}, f.wire))
      modifies this
      ensures match FailsAt(cfg, opt, f)
              case None => S() == Added(cfg, s, name, p, opt) && r == Ok(row)
              case Some(at) => S() == RolledBack(cfg, s, name, p, opt, f, at) && r == Err(StageError(at))
    {
      var created := CreateUser(name, row, f.insertOk);
      assert created == f.insertOk;
      if !created {
        UndoHost(name, f, Insert, opt, p, s);
        return Err(DBFailed);
      }
      if opt.trafficGB > 0 {
        if !f.quotaOk {
          UndoRow(name, f, SetQuota, opt, p, s);
          return Err(DBFailed);
        }
        users := users[name := users[name].(quotaGB := opt.trafficGB)];
      }
      assert users == s.users[name := NewRow(p, opt, Quota(opt))];
      r := Publish(name, row, opt, f, p, s);
    }

    /** The last steps: nft rules and reload. */
    method Publish(name: Name, row: User, opt: AddOptions, f: AddFaults, ghost p: Plan, ghost s: State)
        returns (r: Result<User, Error>)
      requires row == NewRow(p, opt, 0) && FreshIn(s, name, row)
      requires f.provisionOk && (cfg.prefix.Some? ==> f.wire.Wired?) && f.configureOk && f.insertOk
                 && (opt.trafficGB > 0 ==> f.quotaOk)
      requires S() == WithRow(cfg, s, name, p, opt, f, WriteNft)
      modifies this
      ensures match FailsAt(cfg, opt, f)
              case None => S() == Added(cfg, s, name, p, opt) && r == Ok(row)
              case Some(at) => S() == RolledBack(cfg, s, name, p, opt, f, at) && r == Err(StageError(at))
    {
      if cfg.v4Forward {
        WriteUserRules(name, row, f.nftWriteOk);
        if !f.nftWriteOk {
          UndoRow(name, f, WriteNft, opt, p, s);
          return Err(NftWriteFailed);
        }
      }
      if !f.reloadOk {
        UndoRow(name, f, Stage.Reload, opt, p, s);
        return Err(NftReloadFailed);
      }
      Reload(true);
      return Ok(row);
    }

    // ---- Del and Reinstall ----

    method Del(name: Name, f: DelFaults) returns (e: Option<Error>)
      modifies this
      ensures S() == DelState(cfg, old(S()), name, f)
      ensures e == DelError(old(S()), name, f)
    {
      if !ValidName(name) { return Some(InvalidName); }
      if name !in users { return Some(NoSuchUser); }
      var deleted := DeleteInstance(name, f.remove);
      if !deleted { return Some(DeleteFailed); }
      assert users.Keys - {name} + {} == users.Keys - {name};
      var _ := WriteNDPPD({}, {name}, f.unwire);
      var bound := set d | d in domains && domains[d].owner == name;
      assert bound == DomainsOf(old(S()), name);
      RemoveUserRules(name, f.nftRemoveOk);
      Reload(f.reloadOk);
      DeleteUser(name, f.rowDeleteOk);
      if !f.rowDeleteOk || !f.sessionsOk { return Some(DBFailed); }
      RemoveDomainFiles(bound, f.stuckFiles);
      if throttled.Some? {
        throttled := Some(throttled.value - {name});
      }
      return None;
    }

    /** Best-effort removal of the files of deleted domain rows. */
    method RemoveDomainFiles(bound: set<string>, stuck: set<string>)
      modifies this
      ensures S() == old(S()).(traefik := old(traefik) - YamlFiles(bound - stuck))
    {
      var left := bound;
      assert bound - left - stuck == {} && YamlFiles({}) == {};
      while left != {}
        invariant left <= bound
        invariant S() == old(S()).(traefik := old(traefik) - YamlFiles(bound - left - stuck))
      {
        var d :| d in left;
        if d !in stuck {
          traefik := traefik - {FileOf(d)};
          assert bound - (left - {d}) - stuck == (bound - left - stuck) + {d};
          assert YamlFiles((bound - left - stuck) + {d}) == YamlFiles(bound - left - stuck) + {FileOf(d)};
        } else {
          assert bound - (left - {d}) - stuck == bound - left - stuck;
        }
        left := left - {d};
      }
      assert bound - {} - stuck == bound - stuck;
    }

    method Reinstall(name: Name, f: ReinstallFaults) returns (e: Option<Error>)
      modifies this
      ensures S() == ReinstallState(cfg, old(S()), name, f)
      ensures e == ReinstallError(cfg, old(S()), name, f)
    {
      if name !in users { return Some(NoSuchUser); }
      var u := users[name];
      var deleted := DeleteInstance(name, f.remove);
      if !deleted { return Some(DeleteFailed); }
      if !f.imageOk { return Some(ImageMissing); }
      var launched := Launch(name, Instance(Some(u.ip), u.cpu, u.memMB, u.diskGB, ""), f.launch);
      assert (old(lxd) - {name})[name := Instance(Some(u.ip), u.cpu, u.memMB, u.diskGB, "")]
          == old(lxd)[name := Instance(Some(u.ip), u.cpu, u.memMB, u.diskGB, "")];
      if !launched { return Some(LaunchFailed); }
      if !f.provisionOk { return Some(ProvisionFailed); }
      assert users.Keys - {} + {name} == users.Keys;
      var wired := WriteNDPPD({name}, {}, f.wire);
      if !wired { return Some(WireFailed); }
      if !f.configureOk { return Some(ConfigureFailed); }
      return None;
    }

    // ---- quotas ----

    method SetCPU(name: Name, cpu: int, outcome: Setting) returns (ok: bool)
      modifies this
      ensures ok <==> On(old(lxd), name, outcome).Applied?
      ensures S() == old(S()).(lxd :=
                if On(old(lxd), name, outcome).Refused? then old(lxd)
                else old(lxd)[name := old(lxd)[name].(cpu := cpu)])
    {
      if name !in lxd || outcome.Refused? { return false; }
      lxd := lxd[name := lxd[name].(cpu := cpu)];
      return outcome.Applied?;
    }

    method SetMem(name: Name, memMB: int, outcome: Setting) returns (ok: bool)
      modifies this
      ensures ok <==> On(old(lxd), name, outcome).Applied?
      ensures S() == old(S()).(lxd :=
                if On(old(lxd), name, outcome).Refused? then old(lxd)
                else old(lxd)[name := old(lxd)[name].(memMB := memMB)])
    {
      if name !in lxd || outcome.Refused? { return false; }
      lxd := lxd[name := lxd[name].(memMB := memMB)];
      return outcome.Applied?;
    }

    method SetDisk(name: Name, diskGB: int, outcome: Setting) returns (ok: bool)
      modifies this
      ensures ok <==> On(old(lxd), name, outcome).Applied?
      ensures S() == old(S()).(lxd :=
                if On(old(lxd), name, outcome).Refused? then old(lxd)
                else old(lxd)[name := old(lxd)[name].(diskGB := diskGB)])
    {
      if name !in lxd || outcome.Refused? { return false; }
      lxd := lxd[name := lxd[name].(diskGB := diskGB)];
      return outcome.Applied?;
    }

    /** Runs the undo stack from the top; failures are only reported. */
    method Unwind(name: Name, undo: seq<UndoStep>, f: Quotas.Faults)
      modifies this
      ensures S() == old(S()).(lxd :=
                if name in old(lxd) then old(lxd)[name := Undone(old(lxd)[name], undo, f)] else old(lxd))
    {
      var i := |undo|;
      assert name in lxd ==> lxd == lxd[name := lxd[name]];
      while i > 0
        invariant 0 <= i <= |undo|
        invariant S() == old(S()).(lxd :=
                    if name in old(lxd) then old(lxd)[name := Undone(old(lxd)[name], undo[i..], f)] else old(lxd))
      {
        i := i - 1;
        assert undo[i..][1..] == undo[i + 1..];
        match undo[i] {
          case UndoCPU(v) => var _ := SetCPU(name, v, f.undoCpu);
          case UndoMem(v) => var _ := SetMem(name, v, f.undoMem);
          case UndoDisk(v) => var _ := SetDisk(name, v, f.undoDisk);
        }
      }
      assert undo[0..] == undo;
    }

    /** The forward writes, each pushing its undo step once it worked; stops at the first that does not. */
    method SetLimits(name: Name, u: User, q: Quotas.Request, f: Quotas.Faults) returns (ok: bool, undo: seq<UndoStep>)
      modifies this
      ensures ok == Quotas.PastDisk(old(lxd), name, q, f)
      ensures undo == Stack(u, q, Quotas.PastCpu(old(lxd), name, q, f), Quotas.PastMem(old(lxd), name, q, f), ok)
      ensures S() == old(S()).(lxd :=
                if name in old(lxd) then old(lxd)[name := Pushed(old(lxd), name, q, f)] else old(lxd))
    {
      undo := [];
      assert name in lxd ==> lxd == lxd[name := lxd[name]];
      if q.cpu > 0 {
        ok := SetCPU(name, q.cpu, f.cpu);
        if !ok { return; }
        undo := undo + [UndoCPU(u.cpu)];
      }
      if q.memMB > 0 {
        ok := SetMem(name, q.memMB, f.mem);
        if !ok { return; }
        undo := undo + [UndoMem(u.memMB)];
      }
      if q.diskGB > 0 {
        ok := SetDisk(name, q.diskGB, f.disk);
        if !ok { return; }
        undo := undo + [UndoDisk(u.diskGB)];
      }
      ok := true;
    }

    method UpdateQuotas(name: Name, q: Quotas.Request, f: Quotas.Faults) returns (e: Option<Error>)
      modifies this
      ensures S() == Quotas.UpdateState(old(S()), name, q, f)
      ensures e == Quotas.UpdateError(old(S()), name, q, f)
    {
      if name !in users { return Some(NoSuchUser); }
      var u := users[name];
      assert name in lxd ==> lxd == lxd[name := lxd[name]];
      if q.cpu > 0 && !Cpu.ValidCPU(q.cpu) { return Some(InvalidCPU); }
      if q.diskGB > 0 && q.diskGB < u.diskGB { return Some(DiskCannotShrink); }
      var ok, undo := SetLimits(name, u, q, f);
      if !ok || !f.rowOk {
        Unwind(name, undo, f);
        if name in old(lxd) { UnwindMatches(old(S()), name, q, f, undo); }
        return Some(if ok then DBFailed else LXDRefused);
      }
      users := users[name := u.(
        cpu := if q.cpu > 0 then q.cpu else u.cpu,
        memMB := if q.memMB > 0 then q.memMB else u.memMB,
        diskGB := if q.diskGB > 0 then q.diskGB else u.diskGB)];
      return None;
    }

    method UpdateQuotasAndTraffic(name: Name, q: Quotas.Request, f: Quotas.Faults) returns (e: Option<Error>)
      modifies this
      ensures S() == Quotas.FullState(old(S()), name, q, f)
      ensures e == Quotas.FullError(old(S()), name, q, f)
    {
      if name !in users { return Some(NoSuchUser); }
      var u := users[name];
      if q.trafficGB >= 0 {
        if !f.trafficOk { return Some(DBFailed); }
        users := users[name := users[name].(quotaGB := q.trafficGB)];
      }
      e := UpdateQuotas(name, q, f);
      if e.Some? && q.trafficGB >= 0 && f.restoreOk {
        users := users[name := users[name].(quotaGB := u.quotaGB)];
      }
    }

    // ---- traffic ----

    method ApplyTraffic(name: Name, period: string, rx: int, tx: int)
      modifies this
      ensures S() == old(S()).(traffic := old(traffic)[name :=
                Traffic.Upsert(if name in old(traffic) then Some(old(traffic)[name]) else None, period, rx, tx)])
    {
      if name !in traffic {
        traffic := traffic[name := Traffic.Usage(period, Traffic.Meter(0, tx), Traffic.Meter(0, rx))];
        return;
      }
      var row := traffic[name];
      var up := if row.period != period then 0 else row.up.total;
      var down := if row.period != period then 0 else row.down.total;
      if rx >= row.down.last { down := down + (rx - row.down.last); } else { down := down + rx; }
      if tx >= row.up.last { up := up + (tx - row.up.last); } else { up := up + tx; }
      traffic := traffic[name := Traffic.Usage(period, Traffic.Meter(up, tx), Traffic.Meter(down, rx))];
    }

    /** SampleTraffic; without counters nothing is done, a failing update is reported once all users are done. */
    method SampleTraffic(counters: Option<map<Name, Traffic.Counters>>, period: string, fails: set<Name>)
      returns (failed: bool)
      modifies this
      ensures var live := if counters.Some? then counters.value else map[];
              && S() == old(S()).(traffic := Traffic.SampleAll(old(traffic), old(users).Keys, live, period, fails))
              && (failed <==> counters.None? || old(users).Keys * live.Keys * fails != {})
    {
      if counters.None? {
        assert traffic == Traffic.SampleAll(traffic, users.Keys, map[], period, fails);
        return true;
      }
      failed := SampleUsers(counters.value, period, fails);
    }

    /** sampleTraffic; fails are the users whose update errors. */
    method SampleUsers(live: map<Name, Traffic.Counters>, period: string, fails: set<Name>) returns (failed: bool)
      modifies this
      ensures S() == old(S()).(traffic := Traffic.SampleAll(old(traffic), old(users).Keys, live, period, fails))
      ensures failed <==> old(users).Keys * live.Keys * fails != {}
    {
      failed := false;
      ghost var missed := users.Keys * live.Keys * fails;
      var left := users.Keys;
      assert Traffic.SampleAll(traffic, users.Keys - left, live, period, fails) == traffic && missed - left == {};
      while left != {}
        invariant left <= users.Keys && users == old(users)
        invariant S() == old(S()).(traffic := Traffic.SampleAll(old(traffic), users.Keys - left, live, period, fails))
        invariant failed <==> missed - left != {}
      {
        var n :| n in left;
        Traffic.SampleStep(old(traffic), users.Keys - left, n, live, period, fails);
        Throttle.Peel(missed, left, n);
        if n in live {
          if n !in fails {
            ApplyTraffic(n, period, live[n].rx, live[n].tx);
          } else {
            failed := true;
          }
        }
        assert users.Keys - (left - {n}) == (users.Keys - left) + {n};
        left := left - {n};
      }
      assert users.Keys - {} == users.Keys && missed - left == missed;
    }

    /** Sets or clears the eth0 limit; the instance must exist, and the patch can err after taking effect. */
    method EnsureNicRateLimit(name: Name, rate: string, outcome: Setting) returns (ok: bool)
      modifies this
      ensures ok <==> On(old(lxd), name, outcome).Applied?
      ensures S() == old(S()).(lxd :=
                if On(old(lxd), name, outcome).Refused? then old(lxd)
                    else old(lxd)[name := old(lxd)[name].(rate := rate)])
    {
      if name !in lxd || outcome.Refused? { return false; }
      lxd := lxd[name := lxd[name].(rate := rate)];
      return outcome.Applied?;
    }

    /** One user's turn: patch the limit when it is not what the quota asks for. */
    method EnforceUser(n: Name, throttledNow: bool, f: Throttle.Faults, ghost s: State)
      returns (over: bool, called: bool, ok: bool)
      requires n in users && S() == s.(lxd := lxd) && lxd.Keys == s.lxd.Keys
      requires throttledNow <==> n in Throttle.Primed(s, f)
      modifies this
      ensures over == Throttle.Over(s, n)
      ensures called <==> n in Throttle.Wanted(s, f)
      ensures ok <==> n !in Throttle.Failures(s, f)
      ensures S() == old(S()).(lxd :=
                if n in Throttle.Writes(s, f) then old(lxd)[n := old(lxd)[n].(rate := Throttle.Rate(over))]
                    else old(lxd))
    {
      called, ok := false, true;
      var used := Traffic.UsedBytes(if n in traffic then Some(traffic[n]) else None);
      over := Traffic.ShouldThrottle(used, users[n].quotaGB);
      var outcome := if n in f.writes then f.writes[n] else Applied;
      if over && !throttledNow {
        called := true;
        ok := EnsureNicRateLimit(n, THROTTLE_RATE, outcome);
      } else if !over && throttledNow {
        called := true;
        ok := EnsureNicRateLimit(n, "", outcome);
      }
    }

    /** A restart of the process between operations: only what is in memory is lost. */
    method Restart()
      modifies this
      ensures S() == Throttle.Restarted(old(S()))
    {
      throttled := None;
    }

    /** The throttle set in memory; on the first pass, the limits actually on the containers. */
    method PrimeThrottle(f: Throttle.Faults) returns (now: set<Name>)
      ensures now == Throttle.Primed(S(), f)
    {
      if throttled.Some? {
        return throttled.value;
      }
      now := {};
      var left := users.Keys;
      while left != {}
        invariant left <= users.Keys
        invariant now == set n | n in users && n !in left && n !in f.readFails && Throttle.Limited(lxd, n)
      {
        var n :| n in left;
        if n !in f.readFails && n in lxd && lxd[n].rate != "" {
          now := now + {n};
        }
        left := left - {n};
      }
    }

    /** One pass; calls are the users whose limit it asked LXD to change. */
    method EnforceTrafficLimits(f: Throttle.Faults) returns (failed: bool, ghost calls: set<Name>)
      modifies this
      ensures S() == Throttle.EnforceState(old(S()), f)
      ensures failed <==> Throttle.Failures(old(S()), f) != {}
      ensures calls == Throttle.Wanted(old(S()), f)
    {
      ghost var s := S();
      var now := PrimeThrottle(f);
      failed, calls := false, {};
      var left := users.Keys;
      Throttle.TurnsBegin(s, f);
      while left != {}
        invariant left <= s.users.Keys
        invariant S() == s.(lxd := Throttle.Patched(s, Throttle.Writes(s, f) - left))
        invariant now == Throttle.Tracked(s, f, Throttle.Recorded(s, f) - left)
        invariant failed <==> Throttle.Failures(s, f) - left != {}
        invariant calls == Throttle.Wanted(s, f) - left
      {
        var n :| n in left;
        Throttle.Turn(s, f, left, n);
        var over, called, ok := EnforceUser(n, n in now, f, s);
        if called {
          calls := calls + {n};
          if ok {
            if over { now := now + {n}; } else { now := now - {n}; }
          } else {
            failed := true;
          }
        }
        left := left - {n};
      }
      Throttle.TurnsEnd(s, f, left);
      throttled := Some(now);
    }

    // ---- domains ----

    method WriteDomain(d: string, ip: IPv4, on: bool, w: Domains.Writing) returns (ok: bool)
      modifies this
      ensures ok <==> w.Written?
      ensures S() == old(S()).(traefik := Domains.WriteFile(old(traefik), d, Rendered(d, ip, on), w))
    {
      var tmp := TempOf(d);
      if w.TempFailed? {
        if w.partial { traefik := traefik[tmp := Foreign("")]; }
        return false;
      }
      traefik := traefik[tmp := Rendered(d, ip, on)];
      if w.RenameFailed? {
        return false;
      }
      traefik := (traefik - {tmp})[FileOf(d) := Rendered(d, ip, on)];
      assert old(traefik)[tmp := Rendered(d, ip, on)] - {tmp} == old(traefik) - {tmp};
      return true;
    }

    /** An already missing file counts as removed. */
    method RemoveDomain(d: string, removable: bool) returns (ok: bool)
      modifies this
      ensures ok <==> removable || FileOf(d) !in old(traefik)
      ensures S() == old(S()).(traefik := if removable then old(traefik) - {FileOf(d)} else old(traefik))
    {
      if FileOf(d) !in traefik {
        assert traefik - {FileOf(d)} == traefik;
        return true;
      }
      if !removable { return false; }
      traefik := traefik - {FileOf(d)};
      return true;
    }

    method AddDomain(name: Name, raw: string, on: bool, f: Domains.AddFaults) returns (e: Option<Error>)
      modifies this
      ensures S() == Domains.AddDomainState(old(S()), name, raw, on, f)
      ensures e == Domains.AddDomainError(old(S()), name, raw, f)
    {
      if !f.v4Live { return Some(V4Disabled); }
      if name !in users { return Some(NoSuchUser); }
      var n := Domains.Normalize(raw);
      if n.Err? { return Some(InvalidDomain); }
      var d := n.value;
      if d in domains { return Some(DomainTaken); }
      if !f.rowOk { return Some(DBFailed); }
      domains := domains[d := DomainRow(name, on)];
      var ok := WriteDomain(d, users[name].ip, on, f.write);
      if !ok {
        if f.undoOk {
          domains := domains - {d};
          assert domains == old(domains);
        }
        return Some(FileFailed);
      }
      return None;
    }

    method DelDomain(name: Name, raw: string, f: Domains.DelFaults) returns (e: Option<Error>)
      modifies this
      ensures S() == Domains.DelDomainState(old(S()), name, raw, f)
      ensures e == Domains.DelDomainError(old(S()), name, raw, f)
    {
      if name !in users { return Some(NoSuchUser); }
      var n := Domains.Normalize(raw);
      if n.Err? { return Some(InvalidDomain); }
      var d := n.value;
      if d !in domains || domains[d].owner != name { return Some(NoSuchDomain); }
      var row := domains[d];
      if !f.rowOk { return Some(DBFailed); }
      domains := domains - {d};
      var ok := RemoveDomain(d, f.removeOk);
      if !ok {
        if f.undoOk {
          domains := domains[d := DomainRow(name, row.proxyProtocol)];
          assert domains == old(domains);
        }
        return Some(FileFailed);
      }
      assert traefik == old(traefik) - {FileOf(d)};
      return None;
    }

    method SetDomainProtocol(name: Name, raw: string, on: bool, f: Domains.SetFaults) returns (e: Option<Error>)
      modifies this
      ensures S() == Domains.SetProtocolState(old(S()), name, raw, on, f)
      ensures e == Domains.SetProtocolError(old(S()), name, raw, on, f)
    {
      if name !in users { return Some(NoSuchUser); }
      var n := Domains.Normalize(raw);
      if n.Err? { return Some(InvalidDomain); }
      var d := n.value;
      if d !in domains || domains[d].owner != name { return Some(NoSuchDomain); }
      var row := domains[d];
      if row.proxyProtocol == on { return None; }
      if !f.rowOk { return Some(DBFailed); }
      domains := domains[d := row.(proxyProtocol := on)];
      var ok := WriteDomain(d, users[name].ip, on, f.write);
      if !ok {
        if f.undoOk {
          domains := domains[d := domains[d].(proxyProtocol := row.proxyProtocol)];
          assert domains == old(domains);
        }
        return Some(FileFailed);
      }
      return None;
    }

    /** The reconciler's first half: rewrite every known domain's file. */
    method RewriteAll(known: set<string>, f: Reconcile.Faults) returns (failed: bool)
      requires known == Reconcile.Listed(S())
      modifies this
      ensures S() == old(S()).(traefik := traefik)
      ensures forall k :: Reconcile.Get(traefik, k) == Reconcile.AfterWrites(old(S()), f, known, k)
      ensures failed <==> exists d :: d in known && !Reconcile.WriteOutcome(f, d).Written?
    {
      ghost var s := S();
      failed := false;
      var left := known;
      while left != {}
        invariant left <= known && S() == s.(traefik := traefik)
        invariant forall k :: Reconcile.Get(traefik, k) == Reconcile.AfterWrites(s, f, known - left, k)
        invariant failed <==> exists d :: d in known - left && !Reconcile.WriteOutcome(f, d).Written?
      {
        var d :| d in left;
        ghost var dir := traefik;
        var ok := WriteDomain(d, users[domains[d].owner].ip, domains[d].proxyProtocol, Reconcile.WriteOutcome(f, d));
        forall k ensures Reconcile.Get(traefik, k) == Reconcile.AfterWrites(s, f, known - left + {d}, k) {
          Reconcile.WriteStep(s, f, known - left, d, dir, k);
        }
        assert known - (left - {d}) == known - left + {d};
        left := left - {d};
        if !ok { failed := true; }
      }
      assert known - {} == known;
    }

    /** Its second half: remove every YAML file without a row. */
    method Sweep(known: set<string>, stuck: set<string>) returns (failed: bool)
      modifies this
      ensures S() == old(S()).(traefik := old(traefik) - YamlFiles(Reconcile.Bases(old(traefik)) - known - stuck))
      ensures failed <==> (Reconcile.Bases(old(traefik)) - known) * stuck != {}
    {
      ghost var s := S();
      var files := set k | k in traefik && Domains.IsYaml(k) :: Domains.BaseOf(k);
      ghost var removable, errors := files - known - stuck, (files - known) * stuck;
      assert files == Reconcile.Bases(s.traefik);
      assert YamlFiles(removable - files) == {} && errors - files == {};
      failed := false;
      while files != {}
        invariant files <= Reconcile.Bases(s.traefik)
        invariant removable == Reconcile.Bases(s.traefik) - known - stuck
        invariant errors == (Reconcile.Bases(s.traefik) - known) * stuck
        invariant S() == s.(traefik := s.traefik - YamlFiles(removable - files))
        invariant failed <==> errors - files != {}
      {
        var b :| b in files;
        Throttle.Peel(removable, files, b);
        Throttle.Peel(errors, files, b);
        if b !in known {
          Reconcile.SweepStep(s.traefik, removable - files, b);
          var ok := RemoveDomain(b, b !in stuck);
          failed := failed || !ok;
        }
        files := files - {b};
      }
      assert removable - files == removable && errors - files == errors;
    }

    /** Rewrite every known domain, then remove every other YAML file; the first error is reported at the end. */
    method SyncAllDomains(f: Reconcile.Faults) returns (failed: bool)
      modifies this
      ensures S() == Reconcile.SyncState(old(S()), f)
      ensures failed <==> Reconcile.SyncFails(old(S()), f)
    {
      ghost var s := S();
      var known := set d | d in domains && domains[d].owner in users;
      assert known == Reconcile.Listed(s);
      failed := RewriteAll(known, f);
      if !f.listOk {
        Reconcile.WritesOnly(s, f, traefik);
        return true;
      }
      ghost var rewritten := traefik;
      var stuck := Sweep(known, f.stuck);
      Reconcile.WritesThenSweep(s, f, rewritten);
      failed := failed || stuck;
    }
  }

  /** An instance after an undo stack has run from its top. */
  function Undone(i: Instance, undo: seq<UndoStep>, f: Quotas.Faults): Instance {
    if undo == [] then i
    else
      var later := Undone(i, undo[1..], f);
      match undo[0]
      case UndoCPU(v) => if f.undoCpu.Refused? then later else later.(cpu := v)
      case UndoMem(v) => if f.undoMem.Refused? then later else later.(memMB := v)
      case UndoDisk(v) => if f.undoDisk.Refused? then later else later.(diskGB := v)
  }

  /** The undo stack of an update that got past the given writes. */
  function Stack(u: User, q: Quotas.Request, cpu: bool, mem: bool, disk: bool): seq<UndoStep> {
    (if q.cpu > 0 && cpu then [UndoCPU(u.cpu)] else [])
    + (if q.memMB > 0 && mem then [UndoMem(u.memMB)] else [])
    + (if q.diskGB > 0 && disk then [UndoDisk(u.diskGB)] else [])
  }

  /** The instance after the forward writes alone. */
  function Pushed(lxd: map<Name, Instance>, name: Name, q: Quotas.Request, f: Quotas.Faults): Instance
    requires name in lxd
  {
    var i := lxd[name];
    i.(cpu := Quotas.Forward(q.cpu, i.cpu, f.cpu),
       memMB := if Quotas.PastCpu(lxd, name, q, f) then Quotas.Forward(q.memMB, i.memMB, f.mem) else i.memMB,
       diskGB := if Quotas.PastMem(lxd, name, q, f) then Quotas.Forward(q.diskGB, i.diskGB, f.disk) else i.diskGB)
  }

  lemma StackUndone(i: Instance, u: User, q: Quotas.Request, cpu: bool, mem: bool, disk: bool, f: Quotas.Faults)
    ensures Undone(i, Stack(u, q, cpu, mem, disk), f) == i.(
              cpu := if q.cpu > 0 && cpu && !f.undoCpu.Refused? then u.cpu else i.cpu,
              memMB := if q.memMB > 0 && mem && !f.undoMem.Refused? then u.memMB else i.memMB,
              diskGB := if q.diskGB > 0 && disk && !f.undoDisk.Refused? then u.diskGB else i.diskGB)
  {
    var c := if q.cpu > 0 && cpu then [UndoCPU(u.cpu)] else [];
    var m := if q.memMB > 0 && mem then [UndoMem(u.memMB)] else [];
    var d := if q.diskGB > 0 && disk then [UndoDisk(u.diskGB)] else [];
    assert Stack(u, q, cpu, mem, disk) == c + (m + d);
    UndoneFirst(i, c, m + d, f);
    UndoneFirst(i, m, d, f);
    UndoneFirst(i, d, [], f);
    assert d + [] == d;
  }

  /** An optional step on top of the rest of a stack, counted from its bottom. */
  lemma UndoneFirst(i: Instance, first: seq<UndoStep>, rest: seq<UndoStep>, f: Quotas.Faults)
    requires |first| <= 1
    ensures Undone(i, first + rest, f) == Undone(Undone(i, rest, f), first, f)
  {
    if first == [] {
      assert first + rest == rest;
    } else {
      assert (first + rest)[1..] == rest;
    }
  }

  /** The forward writes followed by the undo stack leave what the closed form says. */
  lemma UnwindMatches(s: State, name: Name, q: Quotas.Request, f: Quotas.Faults, undo: seq<UndoStep>)
    requires name in s.users && name in s.lxd
    requires Quotas.UpdateError(s, name, q, f) in {Some(LXDRefused), Some(DBFailed)}
    requires undo == Stack(s.users[name], q, Quotas.PastCpu(s.lxd, name, q, f), Quotas.PastMem(s.lxd, name, q, f),
               Quotas.PastDisk(s.lxd, name, q, f))
    ensures Undone(Pushed(s.lxd, name, q, f), undo, f) == Quotas.InstanceAfter(s, name, q, f)
  {
    StackUndone(Pushed(s.lxd, name, q, f), s.users[name], q,
      Quotas.PastCpu(s.lxd, name, q, f), Quotas.PastMem(s.lxd, name, q, f), Quotas.PastDisk(s.lxd, name, q, f), f);
  }

  /** What the rollback makes of a world: every call does its part or nothing, whatever the others do. */
  function CleanedUp(c: Config, s: State, name: Name, created: bool, f: CleanupFaults): State {
    var files := if f.nftRemoveOk then s.nftFiles - {name} else s.nftFiles;
    var t := s.(
      ndppd := Wrote(c, s.ndppd, s.users.Keys - {name}, f.unwire),
      lxd := if f.remove.Kept? then s.lxd else s.lxd - {name},
      nftFiles := files, nftLive := if f.reloadOk then files else s.nftLive);
    if created && f.rowDeleteOk
    then t.(users := s.users - {name}, traffic := s.traffic - {name}, domains := s.domains - DomainsOf(s, name))
    else t
  }

  /** The world when a step up to the insert fails, before the rollback. */
  function WithHost(c: Config, s: State, name: Name, p: Plan, opt: AddOptions, f: AddFaults, at: Stage): State {
    s.(lxd := s.lxd[name := NewInstance(p, opt)],
       ndppd := if at.Provision? then s.ndppd else Wrote(c, s.ndppd, s.users.Keys + {name}, f.wire))
  }

  /** The world when a step after the insert fails, before the rollback. */
  function WithRow(c: Config, s: State, name: Name, p: Plan, opt: AddOptions, f: AddFaults, at: Stage): State {
    var row := NewRow(p, opt, if at.SetQuota? then 0 else Quota(opt));
    s.(users := s.users[name := row],
       lxd := s.lxd[name := NewInstance(p, opt)],
       nftFiles := if at.Reload? && c.v4Forward then s.nftFiles[name := Nat.UserRules(row)] else s.nftFiles,
       ndppd := Wrote(c, s.ndppd, s.users.Keys + {name}, f.wire))
  }

  lemma HostUndone(c: Config, s: State, name: Name, p: Plan, opt: AddOptions, f: AddFaults, at: Stage)
    requires FreshIn(s, name, NewRow(p, opt, 0)) && (at.Provision? || at.Wire? || at.Configure? || at.Insert?)
    ensures CleanedUp(c, WithHost(c, s, name, p, opt, f, at), name, false, f.undo) ==
              RolledBack(c, s, name, p, opt, f, at)
  {
    assert s.lxd[name := NewInstance(p, opt)] - {name} == s.lxd;
    assert s.users.Keys - {name} == s.users.Keys;
  }

  lemma RowUndone(c: Config, s: State, name: Name, p: Plan, opt: AddOptions, f: AddFaults, at: Stage)
    requires FreshIn(s, name, NewRow(p, opt, 0)) && (at.SetQuota? || at.WriteNft? || at.Reload?)
    ensures CleanedUp(c, WithRow(c, s, name, p, opt, f, at), name, true, f.undo) ==
              RolledBack(c, s, name, p, opt, f, at)
  {
    var t := WithRow(c, s, name, p, opt, f, at);
    SameWithout(s.lxd, name, NewInstance(p, opt));
    SameWithout(s.users, name, t.users[name]);
    assert t.traffic - {name} == s.traffic && t.users.Keys - {name} == s.users.Keys;
    assert DomainsOf(t, name) == {} && s.domains - {} == s.domains;
  }

  lemma SameWithout<T>(m: map<Name, T>, name: Name, x: T)
    requires name !in m
    ensures m[name := x] - {name} == m
  {
  }

  /** Nothing in the tables refers to the name, and the row's unique columns are free. */
  ghost predicate FreshIn(s: State, name: Name, row: User) {
    && name !in s.users && name !in s.lxd && name !in s.traffic && DomainsOf(s, name) == {}
    && row.idx !in UsedIdx(s.users) && row.sshPort !in UsedPorts(s.users)
  }
}
