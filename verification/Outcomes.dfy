/**
 What each operation does for its caller, in the caller's own terms: when it
 succeeds, what is then there, and what a failure leaves. None of this names
 the branches of the closed forms.
 */
module Outcomes {
  import opened Wrappers
  import opened World
  import opened Allocation
  import opened Nat
  import opened Fleet
  import Domains
  import IPv6
  import Reconcile
  import Throttle

  // ---- Add ----

  /** Every call Add makes after its checks works. */
  predicate AddCallsWork(c: Config, opt: AddOptions, f: AddFaults) {
    && f.launch.Created? && f.provisionOk && (c.prefix.Some? ==> f.wire.Wired?) && f.configureOk
    && f.insertOk && (opt.trafficGB > 0 ==> f.quotaOk)
    && (c.v4Forward ==> f.nftWriteOk) && f.reloadOk
  }

  /** The options are valid, and the name and the fleet leave room for one more user. */
  ghost predicate Admissible(c: Config, s: State, name: Name, opt: AddOptions, f: AddFaults) {
    && ValidName(name) && name !in s.users
    && (1 <= opt.cpu <= 9 || (opt.cpu >= 10 && opt.cpu % 10 == 0)) && opt.memMB >= 64 && opt.diskGB >= 1
    && (exists i :: 1 <= i <= 200 && i !in UsedIdx(s.users)) && f.draw.Some?
    && |UsedPorts(s.users)| < 2000 && c.subnet.ones == 24 && !f.poolFull && f.listOk
  }

  /** No other row has the name's IPv6 block, and it does not hold the gateway the bridge would get. */
  ghost predicate BlockFree(c: Config, s: State, name: Name, f: AddFaults) {
    c.prefix.Some? ==>
      && (forall n :: n in s.users && n != name ==> c.Block(n) != c.Block(name))
      && var gw := IPv6.LeastFree(c.prefix.value, f.inUse);
         gw.Some? ==> !IPv6.InNetwork(gw.value, c.Block(name), IPv6.BLOCK_BITS)
  }

  /** The slot drawn. */
  function Slot(s: State, f: AddFaults): int {
    if PickIdx(UsedIdx(s.users), f.draw).Ok? then PickIdx(UsedIdx(s.users), f.draw).value else 0
  }

  function AddressOf(c: Config, idx: int): IPv4 { IPv4(c.subnet.net.a, c.subnet.net.b, c.subnet.net.c, idx + 1) }

  /** No live container has the name, or the address of the slot drawn. */
  ghost predicate AddressFree(c: Config, s: State, name: Name, idx: int) {
    name !in s.lxd && forall n :: n in s.lxd ==> s.lxd[n].ip != Some(AddressOf(c, idx))
  }

  lemma BlockCheckMeans(c: Config, s: State, name: Name, f: AddFaults)
    ensures BlockCheck(c, s.users, name, f.inUse).None? <==> BlockFree(c, s, name, f)
  {
  }

  /** The checks pass if and only if there is room, the block is free, and so is the address of the slot drawn. */
  lemma ChecksExact(c: Config, s: State, name: Name, opt: AddOptions, f: AddFaults)
    ensures AddPlan(c, s, name, opt, f).Ok? <==>
              Admissible(c, s, name, opt, f) && BlockFree(c, s, name, f) && AddressFree(c, s, name, Slot(s, f))
  {
    PickIdxOk(UsedIdx(s.users), f.draw);
    PickIdxExact(UsedIdx(s.users), f.draw);
    PickPortOk(UsedPorts(s.users), f.picks);
    BlockCheckMeans(c, s, name, f);
    ContainerIPExact(c.subnet, Slot(s, f));
  }

  /** Add succeeds if and only if its checks pass and every later call works. */
  lemma AddSucceedsExact(c: Config, s: State, name: Name, opt: AddOptions, f: AddFaults)
    ensures AddResult(c, s, name, opt, f).Ok? <==>
              && Admissible(c, s, name, opt, f) && BlockFree(c, s, name, f) && AddressFree(c, s, name, Slot(s, f))
              && AddCallsWork(c, opt, f)
  {
    ChecksExact(c, s, name, opt, f);
  }

  /** What the checks hand on: the slot drawn, its address, and a free port of the range. */
  lemma PlanMeans(c: Config, s: State, name: Name, opt: AddOptions, f: AddFaults)
    requires AddPlan(c, s, name, opt, f).Ok?
    ensures var p := AddPlan(c, s, name, opt, f).value;
            && p.idx == Slot(s, f) && 1 <= p.idx <= 200 && p.idx !in UsedIdx(s.users)
            && p.ip == AddressOf(c, p.idx)
            && 30000 <= p.sshPort < 32000 && p.sshPort !in UsedPorts(s.users)
            && name !in s.users && name !in s.lxd
  {
    PlanChecks(c, s, name, opt, f);
    PickIdxExact(UsedIdx(s.users), f.draw);
    PickPortOk(UsedPorts(s.users), f.picks);
    PickPortExact(UsedPorts(s.users), f.picks);
    ContainerIPExact(c.subnet, Slot(s, f));
  }

  /** The row of a user just added, from the options alone. */
  predicate RowFor(c: Config, s: State, opt: AddOptions, row: User) {
    && 1 <= row.idx <= 200 && row.idx !in UsedIdx(s.users) && row.ip == AddressOf(c, row.idx)
    && 30000 <= row.sshPort < 32000 && row.sshPort !in UsedPorts(s.users)
    && row.startPort == 10000 + (row.idx - 1) * 100
    && row.cpu == opt.cpu && row.memMB == opt.memMB && row.diskGB == opt.diskGB
  }

  /**
   A successful Add gives the name a row with the options' limits and quota, in
   a free slot with its address, ports and block; a container with that
   address and those limits, unthrottled; its nft file, loaded; its ndppd rule.
   It changes nothing else.
   */
  lemma AddEffect(c: Config, s: State, name: Name, opt: AddOptions, f: AddFaults)
    requires AddResult(c, s, name, opt, f).Ok?
    ensures var t, row := AddState(c, s, name, opt, f), AddResult(c, s, name, opt, f).value;
            && RowFor(c, s, opt, row) && name !in s.users && name !in s.lxd
            && t.users == s.users[name := row.(quotaGB := if opt.trafficGB > 0 then opt.trafficGB else 0)]
            && t.lxd == s.lxd[name := Instance(Some(row.ip), opt.cpu, opt.memMB, opt.diskGB, "")]
            && t.nftFiles == (if c.v4Forward then s.nftFiles[name := UserRules(row)] else s.nftFiles)
            && t.nftLive == t.nftFiles
            && t.ndppd == (if c.prefix.Some? then c.Blocks(s.users.Keys + {name}) else s.ndppd)
            && SameElsewhere(s, t)
  {
    PlanMeans(c, s, name, opt, f);
    AddFrame(c, s, name, opt, f);
  }

  /** Add's calls work up to and with the INSERT, and up to and with the nft file. */
  predicate RowMade(c: Config, f: AddFaults) {
    f.provisionOk && (c.prefix.Some? ==> f.wire.Wired?) && f.configureOk && f.insertOk
  }

  predicate FileMade(c: Config, opt: AddOptions, f: AddFaults) {
    RowMade(c, f) && (opt.trafficGB > 0 ==> f.quotaOk) && c.v4Forward && f.nftWriteOk
  }

  /** What an Add that failed after its launch leaves of its name, store by store; nothing else moves. */
  lemma AddFailureExact(c: Config, s: State, name: Name, opt: AddOptions, f: AddFaults)
    requires AddPlan(c, s, name, opt, f).Ok? && f.launch.Created? && AddResult(c, s, name, opt, f).Err?
    ensures var t := AddState(c, s, name, opt, f);
            && (name in t.users <==> RowMade(c, f) && !f.undo.rowDeleteOk) && t.users - {name} == s.users
            && (name in t.lxd <==> f.undo.remove.Kept?) && t.lxd - {name} == s.lxd
            && (name in t.nftFiles <==> !f.undo.nftRemoveOk && (name in s.nftFiles || FileMade(c, opt, f)))
            && t.nftFiles - {name} == s.nftFiles - {name}
            && t.nftLive == (if f.undo.reloadOk then t.nftFiles else s.nftLive)
            && SameElsewhere(s, t)
    ensures var t := AddState(c, s, name, opt, f);
            t.ndppd == if c.prefix.None? then s.ndppd
                       else if !f.undo.unwire.NotWritten? then c.Blocks(s.users.Keys)
                       else if f.provisionOk && !f.wire.NotWritten? then c.Blocks(s.users.Keys + {name}) else s.ndppd
  {
    PlanChecks(c, s, name, opt, f);
    AddFrame(c, s, name, opt, f);
    RollbackLeaves(c, s, name, AddPlan(c, s, name, opt, f).value, opt, f, FailsAt(c, opt, f).value);
  }

  lemma RollbackLeaves(c: Config, s: State, name: Name, p: Plan, opt: AddOptions, f: AddFaults, at: Stage)
    requires FailsAt(c, opt, f) == Some(at) && name !in s.users && name !in s.lxd
    ensures var t := RolledBack(c, s, name, p, opt, f, at);
            && (name in t.users <==> RowMade(c, f) && !f.undo.rowDeleteOk) && t.users - {name} == s.users
            && (name in t.lxd <==> f.undo.remove.Kept?) && t.lxd - {name} == s.lxd
            && (name in t.nftFiles <==> !f.undo.nftRemoveOk && (name in s.nftFiles || FileMade(c, opt, f)))
            && t.nftFiles - {name} == s.nftFiles - {name}
            && t.nftLive == (if f.undo.reloadOk then t.nftFiles else s.nftLive)
  {
    assert at.Reload? && c.v4Forward <==> FileMade(c, opt, f);
    assert at.SetQuota? || at.WriteNft? || at.Reload? <==> RowMade(c, f);
  }

  /**
   An Add that fails before or in its launch leaves nothing, but a container if
   the launch failed after the create.
   */
  lemma AddStoppedExact(c: Config, s: State, name: Name, opt: AddOptions, f: AddFaults)
    requires AddPlan(c, s, name, opt, f).Err? || !f.launch.Created?
    ensures AddResult(c, s, name, opt, f).Err?
    ensures var t := AddState(c, s, name, opt, f);
            if AddPlan(c, s, name, opt, f).Ok? && f.launch.FailedAfterCreate?
            then
              var left := Instance(Some(AddressOf(c, Slot(s, f))), opt.cpu, opt.memMB, opt.diskGB, "");
              name !in s.lxd && t == s.(lxd := s.lxd[name := left])
            else t == s
  {
    if AddPlan(c, s, name, opt, f).Ok? { PlanMeans(c, s, name, opt, f); }
  }

  // ---- Del ----

  lemma DelSucceedsExact(s: State, name: Name, f: DelFaults)
    ensures DelError(s, name, f).None? <==>
              ValidName(name) && name in s.users && f.remove.Removed? && f.rowDeleteOk && f.sessionsOk
  {
  }

  /**
   A successful Del leaves no row, container, traffic, domain row or throttle
   entry of the name, and no nft file, ndppd rule or Traefik file whose removal
   worked. It changes nothing else.
   */
  lemma DelEffect(c: Config, s: State, name: Name, f: DelFaults)
    requires DelError(s, name, f).None?
    ensures var t := DelState(c, s, name, f);
            && t.users == s.users - {name} && t.lxd == s.lxd - {name} && t.traffic == s.traffic - {name}
            && (forall d :: d in t.domains <==> d in s.domains && s.domains[d].owner != name)
            && (forall d :: d in t.domains ==> t.domains[d] == s.domains[d])
            && t.nftFiles == (if f.nftRemoveOk then s.nftFiles - {name} else s.nftFiles)
            && t.nftLive == (if f.reloadOk then t.nftFiles else s.nftLive)
            && t.ndppd == (if c.prefix.Some? && !f.unwire.NotWritten? then c.Blocks(s.users.Keys - {name}) else s.ndppd)
            && t.throttled == (if s.throttled.Some? then Some(s.throttled.value - {name}) else None)
  {
  }

  /** Its Traefik files: those of the name's domains that could be removed, and no other. */
  lemma DelClearsFiles(c: Config, s: State, name: Name, f: DelFaults, k: string)
    requires DelError(s, name, f).None?
    ensures var t := DelState(c, s, name, f);
            && (k in t.traefik <==>
                  k in s.traefik
                  && !(exists d :: d in s.domains && s.domains[d].owner == name && d !in f.stuckFiles
                        && k == d + ".yaml"))
            && (k in t.traefik ==> t.traefik[k] == s.traefik[k])
  {
    var gone := DomainsOf(s, name) - f.stuckFiles;
    Reconcile.InYamlFiles(gone, k);
    assert k in YamlFiles(gone) <==>
             exists d :: d in s.domains && s.domains[d].owner == name && d !in f.stuckFiles && k == d + ".yaml";
  }

  /** A failed Del: nothing, or only the container, or all but the row, or all but files and throttle entry. */
  lemma DelFailureExact(c: Config, s: State, name: Name, f: DelFaults)
    requires DelError(s, name, f).Some?
    ensures var t := DelState(c, s, name, f);
            && (!ValidName(name) || name !in s.users || f.remove.Kept? ==> t == s)
            && (ValidName(name) && name in s.users && f.remove.RemovedWithError? ==> t == s.(lxd := s.lxd - {name}))
            && (ValidName(name) && name in s.users && f.remove.Removed? ==>
                  && t.lxd == s.lxd - {name} && t.traefik == s.traefik && t.throttled == s.throttled
                  && t.users == (if f.rowDeleteOk then s.users - {name} else s.users)
                  && t.traffic == (if f.rowDeleteOk then s.traffic - {name} else s.traffic)
                  && (f.rowDeleteOk ==> forall d :: d in t.domains <==> d in s.domains && s.domains[d].owner != name)
                  && (!f.rowDeleteOk ==> t.domains == s.domains))
  {
  }

  // ---- Reinstall ----

  lemma ReinstallSucceedsExact(c: Config, s: State, name: Name, f: ReinstallFaults)
    ensures ReinstallError(c, s, name, f).None? <==>
              && name in s.users && f.remove.Removed? && f.imageOk && f.launch.Created? && f.provisionOk
              && (c.prefix.Some? ==> f.wire.Wired?) && f.configureOk
  {
  }

  /**
   After Reinstall of a user the container is there if and only if the old one
   stayed, or it was removed cleanly, the image is there and the create worked;
   a new one has the row's address and limits and no rate limit. Nothing else
   moves but the ndppd rules, rewritten for the rows.
   */
  lemma ReinstallEffect(c: Config, s: State, name: Name, f: ReinstallFaults)
    ensures var t := ReinstallState(c, s, name, f);
            && t == s.(lxd := t.lxd, ndppd := t.ndppd) && t.lxd - {name} == s.lxd - {name}
            && (name !in s.users ==> t == s)
            && (name in s.users ==>
                  && (name in t.lxd <==>
                        (f.remove.Kept? && name in s.lxd)
                            || (f.remove.Removed? && f.imageOk && !f.launch.CreateFailed?))
                  && (name in t.lxd && f.remove.Kept? ==> t.lxd[name] == s.lxd[name])
                  && (name in t.lxd && !f.remove.Kept? ==>
                        var u := s.users[name];
                        t.lxd[name] == Instance(Some(u.ip), u.cpu, u.memMB, u.diskGB, "")))
    ensures var t := ReinstallState(c, s, name, f);
            && (t.ndppd == s.ndppd || (c.prefix.Some? && t.ndppd == c.Blocks(s.users.Keys)))
            && (ReinstallError(c, s, name, f).None? ==>
                  name in t.lxd && (c.prefix.Some? ==> t.ndppd == c.Blocks(s.users.Keys)))
  {
    Throttle.ReinstallTouches(c, s, name, f);
  }

  // ---- domains ----

  /** Binding works if and only if it is allowed, the text is a domain nobody has, and both writes work. */
  lemma BindSucceedsExact(s: State, name: Name, raw: string, f: Domains.AddFaults)
    ensures Domains.AddDomainError(s, name, raw, f).None? <==>
              && f.v4Live && name in s.users && Domains.Normalize(raw).Ok? && Domains.Normalize(raw).value !in s.domains
              && f.rowOk && f.write.Written?
  {
  }

  /** It then gives the domain to the user with the flag asked for, and a file with the user's address and that flag. */
  lemma BindEffect(s: State, name: Name, raw: string, on: bool, f: Domains.AddFaults)
    requires Domains.AddDomainError(s, name, raw, f).None?
    ensures var t, d := Domains.AddDomainState(s, name, raw, on, f), Domains.Normalize(raw).value;
            && t == s.(domains := s.domains[d := DomainRow(name, on)], traefik := t.traefik)
            && Domains.Put(s.traefik, t.traefik, d, Rendered(d, s.users[name].ip, on))
  {
    var d := Domains.Normalize(raw).value;
    Domains.WriteTouches(s.traefik, d, Rendered(d, s.users[name].ip, on), f.write);
  }

  /** Unbinding works if and only if the domain is the user's, the row goes, and so does the file if there is one. */
  lemma UnbindSucceedsExact(s: State, name: Name, raw: string, f: Domains.DelFaults)
    ensures Domains.DelDomainError(s, name, raw, f).None? <==>
              && name in s.users && Domains.Normalize(raw).Ok? && Domains.Normalize(raw).value in s.domains
              && s.domains[Domains.Normalize(raw).value].owner == name
              && f.rowOk && (Domains.Normalize(raw).value + ".yaml" in s.traefik ==> f.removeOk)
  {
  }

  lemma UnbindEffect(s: State, name: Name, raw: string, f: Domains.DelFaults)
    requires Domains.DelDomainError(s, name, raw, f).None?
    ensures var d := Domains.Normalize(raw).value;
            Domains.DelDomainState(s, name, raw, f) ==
            s.(domains := s.domains - {d}, traefik := s.traefik - {d + ".yaml"})
  {
  }

  /** Setting the flag works if and only if the domain is the user's and, when the flag changes, both writes work. */
  lemma ToggleSucceedsExact(s: State, name: Name, raw: string, on: bool, f: Domains.SetFaults)
    ensures Domains.SetProtocolError(s, name, raw, on, f).None? <==>
              && name in s.users && Domains.Normalize(raw).Ok? && Domains.Normalize(raw).value in s.domains
              && s.domains[Domains.Normalize(raw).value].owner == name
              && (s.domains[Domains.Normalize(raw).value].proxyProtocol != on ==> f.rowOk && f.write.Written?)
  {
  }

  lemma ToggleEffect(s: State, name: Name, raw: string, on: bool, f: Domains.SetFaults)
    requires Domains.SetProtocolError(s, name, raw, on, f).None?
    ensures var t, d := Domains.SetProtocolState(s, name, raw, on, f), Domains.Normalize(raw).value;
            && t == s.(domains := s.domains[d := DomainRow(name, on)], traefik := t.traefik)
            && (s.domains[d].proxyProtocol == on ==> t.traefik == s.traefik)
            && (s.domains[d].proxyProtocol != on ==>
                  Domains.Put(s.traefik, t.traefik, d, Rendered(d, s.users[name].ip, on)))
  {
    var d := Domains.Normalize(raw).value;
    if s.domains[d].proxyProtocol != on {
      Domains.WriteTouches(s.traefik, d, Rendered(d, s.users[name].ip, on), f.write);
    } else {
      assert s.domains[d] == DomainRow(name, on) && s.domains[d := DomainRow(name, on)] == s.domains;
    }
  }

  /** A failed bind changes no YAML file, and no domain row unless its compensation failed too. */
  lemma BindFailure(s: State, name: Name, raw: string, on: bool, f: Domains.AddFaults)
    requires Domains.AddDomainError(s, name, raw, f).Some?
    ensures var t, e := Domains.AddDomainState(s, name, raw, on, f), Domains.AddDomainError(s, name, raw, f);
            && t == s.(domains := t.domains, traefik := t.traefik) && Domains.SameYaml(s.traefik, t.traefik)
            && (e != Some(FileFailed) || f.undoOk ==> t.domains == s.domains)
  {
    if Domains.AddDomainError(s, name, raw, f) == Some(FileFailed) {
      var d := Domains.Normalize(raw).value;
      Domains.WriteTouches(s.traefik, d, Rendered(d, s.users[name].ip, on), f.write);
    }
  }

  lemma UnbindFailure(s: State, name: Name, raw: string, f: Domains.DelFaults)
    requires Domains.DelDomainError(s, name, raw, f).Some?
    ensures var t, e := Domains.DelDomainState(s, name, raw, f), Domains.DelDomainError(s, name, raw, f);
            && t == s.(domains := t.domains)
            && (e != Some(FileFailed) || f.undoOk ==> t.domains == s.domains)
  {
  }

  lemma ToggleFailure(s: State, name: Name, raw: string, on: bool, f: Domains.SetFaults)
    requires Domains.SetProtocolError(s, name, raw, on, f).Some?
    ensures var t, e := Domains.SetProtocolState(s, name, raw, on, f), Domains.SetProtocolError(s, name, raw, on, f);
            && t == s.(domains := t.domains, traefik := t.traefik) && Domains.SameYaml(s.traefik, t.traefik)
            && (e != Some(FileFailed) || f.undoOk ==> t.domains == s.domains)
  {
    if Domains.SetProtocolError(s, name, raw, on, f) == Some(FileFailed) {
      var d := Domains.Normalize(raw).value;
      Domains.WriteTouches(s.traefik, d, Rendered(d, s.users[name].ip, on), f.write);
    }
  }

  /**
   Table and directory agree: one YAML file per domain row, with the owner's
   address and the row's flag, and no other.
   */
  lemma AgreementMeans(s: State)
    ensures Domains.DirOK(s) <==>
              && (forall d :: d in s.domains ==> s.domains[d].owner in s.users)
              && (forall d :: d in s.domains ==>
                    d + ".yaml" in s.traefik
                    && var ip := s.users[s.domains[d].owner].ip;
                       s.traefik[d + ".yaml"] == Rendered(d, ip, s.domains[d].proxyProtocol))
              && (forall k :: k in s.traefik && Domains.IsYaml(k) ==> k[..|k| - 5] in s.domains)
  {
    if Domains.DirOK(s) {
      forall d | d in s.domains ensures d + ".yaml" in s.traefik
        && s.traefik[d + ".yaml"] == Rendered(d, s.users[s.domains[d].owner].ip, s.domains[d].proxyProtocol)
      {
        assert FileOf(d) == d + ".yaml";
      }
    } else if Domains.Owned(s) && forall k :: k in s.traefik && Domains.IsYaml(k) ==> Domains.BaseOf(k) in s.domains {
      var d :| d in s.domains && (FileOf(d) !in s.traefik || s.traefik[FileOf(d)] != Domains.Rendering(s, d));
      assert FileOf(d) == d + ".yaml";
    }
  }

  // ---- the reconciler ----

  /**
   Even a failing reconciliation does all it can: a known domain whose write
   works has the right file, and one whose write does not keeps what it had;
   with the directory listed, any other YAML file that can be removed is gone,
   and the rest stays.
   */
  lemma SyncDoesWhatItCan(s: State, f: Reconcile.Faults, k: string)
    requires Domains.Owned(s) && Domains.IsYaml(k)
    ensures var t, d := Reconcile.SyncState(s, f), Domains.BaseOf(k);
            && t == s.(traefik := t.traefik)
            && (d in s.domains && Reconcile.WriteOutcome(f, d).Written? ==>
                  var ip := s.users[s.domains[d].owner].ip;
                  Reconcile.Get(t.traefik, k) == Some(Rendered(d, ip, s.domains[d].proxyProtocol)))
            && (d in s.domains && !Reconcile.WriteOutcome(f, d).Written? ==>
                  Reconcile.Get(t.traefik, k) == Reconcile.Get(s.traefik, k))
            && (d !in s.domains ==>
                  Reconcile.Get(t.traefik, k) ==
                  if f.listOk && d !in f.stuck then None else Reconcile.Get(s.traefik, k))
  {
    Reconcile.FilesAfter(s, f, k);
    Reconcile.TempNames("");
  }
}
