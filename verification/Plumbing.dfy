/**
 The host-side plumbing of a fleet: ndppd rules and nft files against the rows,
 through every Add, rollback, Del and Reinstall.
 */
module Plumbing {
  import opened Wrappers
  import opened World
  import opened Allocation
  import opened Nat
  import opened Fleet
  import IPv6

  // ---- rollback ----

  lemma CleanRollback(c: Config, s: State, name: Name, p: Plan, opt: AddOptions, f: AddFaults, at: Stage)
    requires f.undo.Clean()
    ensures RolledBack(c, s, name, p, opt, f, at) ==
            s.(nftFiles := s.nftFiles - {name}, nftLive := s.nftFiles - {name},
               ndppd := if c.prefix.Some? then c.Blocks(s.users.Keys) else s.ndppd)
  {
    assert c.Blocks({}) == {};
    var row := NewRow(p, opt, if at.SetQuota? then 0 else Quota(opt));
    assert s.nftFiles[name := UserRules(row)] - {name} == s.nftFiles - {name};
  }

  /**
   An Add that fails anywhere after a successful Launch, with working rollback
   calls, leaves no row, container, nft file or ndppd rule of the name, and
   everything of every other user as it was.
   */
  lemma FailedAddLeavesNoTrace(c: Config, s: State, name: Name, opt: AddOptions, f: AddFaults)
    requires AddPlan(c, s, name, opt, f).Ok? && f.launch.Created? && FailsAt(c, opt, f).Some? && f.undo.Clean()
    ensures name !in s.users && name !in s.lxd
    ensures AddState(c, s, name, opt, f) ==
            s.(nftFiles := s.nftFiles - {name}, nftLive := s.nftFiles - {name},
               ndppd := if c.prefix.Some? then c.Blocks(s.users.Keys) else s.ndppd)
  {
    CleanRollback(c, s, name, AddPlan(c, s, name, opt, f).value, opt, f, FailsAt(c, opt, f).value);
  }

  // ---- ndppd ----

  /** The rules are exactly the blocks of the current rows. */
  predicate RulesExact(c: Config, s: State) { c.prefix.Some? ==> s.ndppd == c.Blocks(s.users.Keys) }

  /** A failed Add leaves the new rule: it was written and the rollback could not rewrite the file. */
  predicate RuleLeft(f: AddFaults, at: Stage) {
    !at.Provision? && !f.wire.NotWritten? && f.undo.unwire.NotWritten?
  }

  /** A failed Add leaves the new row: it was inserted and the rollback could not delete it. */
  predicate RowLeft(f: AddFaults, at: Stage) {
    (at.SetQuota? || at.WriteNft? || at.Reload?) && !f.undo.rowDeleteOk
  }

  lemma FreshBlock(c: Config, users: set<Name>, name: Name)
    requires c.prefix.Some? && forall n :: n in users ==> c.Block(n) != c.Block(name)
    ensures c.Block(name) in c.Blocks(users + {name}) && c.Block(name) !in c.Blocks(users)
  {
  }

  lemma RollbackKeepsRules(c: Config, s: State, name: Name, p: Plan, opt: AddOptions, f: AddFaults, at: Stage)
    requires RulesExact(c, s) && c.prefix.Some? && name !in s.users
    requires forall n :: n in s.users ==> c.Block(n) != c.Block(name)
    ensures RulesExact(c, RolledBack(c, s, name, p, opt, f, at)) <==> (RowLeft(f, at) <==> RuleLeft(f, at))
  {
    FreshBlock(c, s.users.Keys, name);
    var t := RolledBack(c, s, name, p, opt, f, at);
    assert t.users.Keys == if RowLeft(f, at) then s.users.Keys + {name} else s.users.Keys;
    assert c.Blocks({}) == {};
  }

  /**
   From exact rules, Add ends with exact rules whenever it succeeds or stops
   before its container runs; after a rollback, exactly when the new row and
   the new rule are either both gone or both left.
   */
  lemma AddKeepsRules(c: Config, s: State, name: Name, opt: AddOptions, f: AddFaults)
    requires FleetOK(c, s) && RulesExact(c, s) && c.prefix.Some?
    ensures var rolledBack := AddPlan(c, s, name, opt, f).Ok? && f.launch.Created? && FailsAt(c, opt, f).Some?;
            RulesExact(c, AddState(c, s, name, opt, f)) <==>
              (rolledBack ==> (RowLeft(f, FailsAt(c, opt, f).value) <==> RuleLeft(f, FailsAt(c, opt, f).value)))
  {
    var plan := AddPlan(c, s, name, opt, f);
    if plan.Ok? && f.launch.Created? {
      PlanFresh(c, s, name, opt, f);
      if FailsAt(c, opt, f).Some? {
        RollbackKeepsRules(c, s, name, plan.value, opt, f, FailsAt(c, opt, f).value);
      } else {
        assert Added(c, s, name, plan.value, opt).users.Keys == s.users.Keys + {name};
      }
    }
  }

  /**
   From exact rules, Del ends with exact rules exactly when the row and its rule
   are either both gone or both kept: a rule write that fails or a row that
   cannot be deleted leaves the two apart.
   */
  lemma DelKeepsRules(c: Config, s: State, name: Name, f: DelFaults)
    requires FleetOK(c, s) && RulesExact(c, s) && c.prefix.Some?
    requires ValidName(name) && name in s.users && f.remove.Removed?
    ensures RulesExact(c, DelState(c, s, name, f)) <==>
              (f.rowDeleteOk <==> !f.unwire.NotWritten?)
  {
    var t, rest := DelState(c, s, name, f), s.users.Keys - {name};
    FreshBlock(c, rest, name);
    assert rest + {name} == s.users.Keys;
    assert c.Blocks({}) == {};
    assert t.users.Keys == if f.rowDeleteOk then rest else s.users.Keys;
  }

  /** A Del that stops at the container changes no rule. */
  lemma DelStoppedKeepsRules(c: Config, s: State, name: Name, f: DelFaults)
    requires !(ValidName(name) && name in s.users && f.remove.Removed?)
    ensures DelState(c, s, name, f).ndppd == s.ndppd && DelState(c, s, name, f).users == s.users
  {
  }

  lemma ReinstallKeepsRules(c: Config, s: State, name: Name, f: ReinstallFaults)
    requires RulesExact(c, s)
    ensures RulesExact(c, ReinstallState(c, s, name, f))
  {
  }

  // ---- nft files ----

  /** Every file renders its row, and the loaded ruleset sends no packet two ways. */
  ghost predicate FilesOK(s: State) { FilesFromRows(s.users, s.nftFiles) && Functional(s.nftLive) }

  /** A failed Add leaves its file without a row: the reload failed, and the rollback removed the row only. */
  ghost predicate FileLeft(c: Config, s: State, name: Name, opt: AddOptions, f: AddFaults) {
    && AddPlan(c, s, name, opt, f).Ok? && f.launch.Created? && FailsAt(c, opt, f) == Some(Reload)
    && c.v4Forward && f.undo.rowDeleteOk && !f.undo.nftRemoveOk
  }

  /** Add keeps every file a rendered row if and only if it leaves no file without a row. */
  lemma AddKeepsFiles(c: Config, s: State, name: Name, opt: AddOptions, f: AddFaults)
    requires FleetOK(c, s) && FilesOK(s)
    ensures FilesOK(AddState(c, s, name, opt, f)) <==> !FileLeft(c, s, name, opt, f)
  {
    AddKeepsFleet(c, s, name, opt, f);
    var t := AddState(c, s, name, opt, f);
    if AddPlan(c, s, name, opt, f).Ok? && f.launch.Created? {
      AddRendersRows(c, s, name, opt, f);
      if FilesFromRows(t.users, t.nftFiles) { TableFunctional(c, t.users, t.nftFiles); }
    }
  }

  lemma RollbackRendersRows(c: Config, s: State, name: Name, p: Plan, opt: AddOptions, f: AddFaults, at: Stage)
    requires FilesFromRows(s.users, s.nftFiles) && name !in s.users
    ensures var t := RolledBack(c, s, name, p, opt, f, at);
            && (FilesFromRows(t.users, t.nftFiles) <==>
                  !(at.Reload? && c.v4Forward && f.undo.rowDeleteOk && !f.undo.nftRemoveOk))
            && (t.nftLive == t.nftFiles || t.nftLive == s.nftLive)
  {
    var t := RolledBack(c, s, name, p, opt, f, at);
    assert name in t.nftFiles <==> at.Reload? && c.v4Forward && !f.undo.nftRemoveOk;
    assert name in t.users <==> (at.SetQuota? || at.WriteNft? || at.Reload?) && !f.undo.rowDeleteOk;
  }

  lemma AddRendersRows(c: Config, s: State, name: Name, opt: AddOptions, f: AddFaults)
    requires FilesFromRows(s.users, s.nftFiles)
    requires AddPlan(c, s, name, opt, f).Ok? && f.launch.Created?
    ensures var t := AddState(c, s, name, opt, f);
            && (FilesFromRows(t.users, t.nftFiles) <==> !FileLeft(c, s, name, opt, f))
            && (t.nftLive == t.nftFiles || t.nftLive == s.nftLive)
  {
    PlanChecks(c, s, name, opt, f);
    var p := AddPlan(c, s, name, opt, f).value;
    if FailsAt(c, opt, f).Some? {
      RollbackRendersRows(c, s, name, p, opt, f, FailsAt(c, opt, f).value);
    } else {
      assert UserRules(NewRow(p, opt, 0)) == UserRules(NewRow(p, opt, Quota(opt)));
    }
  }

  /** Once launched, Add writes or removes the file of its name only, and loads all files or none. */
  lemma AddTouchesFiles(c: Config, s: State, name: Name, opt: AddOptions, f: AddFaults)
    requires AddPlan(c, s, name, opt, f).Ok? && f.launch.Created?
    ensures var t, p := AddState(c, s, name, opt, f), AddPlan(c, s, name, opt, f).value;
            && (t.nftLive == t.nftFiles || t.nftLive == s.nftLive)
            && (forall n :: n in t.nftFiles ==>
                  (n in s.nftFiles && t.nftFiles[n] == s.nftFiles[n])
                  || t.nftFiles[n] == UserRules(NewRow(p, opt, 0)))
  {
    var p := AddPlan(c, s, name, opt, f).value;
    assert UserRules(NewRow(p, opt, 0)) == UserRules(NewRow(p, opt, Quota(opt)));
    if FailsAt(c, opt, f).Some? { RollbackTouchesFiles(c, s, name, p, opt, f, FailsAt(c, opt, f).value); }
  }

  lemma RollbackTouchesFiles(c: Config, s: State, name: Name, p: Plan, opt: AddOptions, f: AddFaults, at: Stage)
    ensures var t := RolledBack(c, s, name, p, opt, f, at);
            && (t.nftLive == t.nftFiles || t.nftLive == s.nftLive)
            && (forall n :: n in t.nftFiles ==>
                  (n in s.nftFiles && t.nftFiles[n] == s.nftFiles[n])
                  || t.nftFiles[n] == UserRules(NewRow(p, opt, 0)))
  {
  }

  lemma DelTouchesFiles(c: Config, s: State, name: Name, f: DelFaults)
    requires ValidName(name) && name in s.users && f.remove.Removed?
    ensures var t := DelState(c, s, name, f);
            && t.users == (if f.rowDeleteOk then s.users - {name} else s.users)
            && t.nftFiles == (if f.nftRemoveOk then s.nftFiles - {name} else s.nftFiles)
            && t.nftLive == (if f.reloadOk then t.nftFiles else s.nftLive)
  {
  }

  /** Del keeps every file a rendered row exactly when the deleted row's own file is gone with it. */
  lemma DelKeepsFiles(c: Config, s: State, name: Name, f: DelFaults)
    requires FleetOK(c, s) && FilesOK(s)
    requires ValidName(name) && name in s.users && f.remove.Removed?
    ensures FilesOK(DelState(c, s, name, f)) <==> (f.nftRemoveOk || !f.rowDeleteOk || name !in s.nftFiles)
  {
    DelTouchesFiles(c, s, name, f);
    var t := DelState(c, s, name, f);
    if f.nftRemoveOk || !f.rowDeleteOk || name !in s.nftFiles {
      FewerFiles(c, s, t, name);
    } else {
      assert name in t.nftFiles && name !in t.users;
    }
  }

  /** Rows and files of one user dropped, the row's file at least when the row is. */
  lemma FewerFiles(c: Config, s: State, t: State, name: Name)
    requires FleetOK(c, s) && FilesOK(s)
    requires t.users == s.users - {name} || t.users == s.users
    requires t.nftFiles == s.nftFiles - {name}
               || (t.nftFiles == s.nftFiles && (name !in s.nftFiles || t.users == s.users))
    requires t.nftLive == t.nftFiles || t.nftLive == s.nftLive
    ensures FilesOK(t)
  {
    TableFunctional(c, s.users, t.nftFiles);
  }

  /**
   A leftover nft file is not always harmless. After a Del that could not remove
   the user's file, a new user may get the freed SSH port. The loaded ruleset
   then sends that port to two addresses if and only if the new user sits in
   another slot, and it is sound in every other case.
   */
  lemma LeftoverFileConflicts(c: Config, s: State, gone: Name, fd: DelFaults, name: Name, opt: AddOptions,
      fa: AddFaults)
    requires FleetOK(c, s) && FilesOK(s)
    requires ValidName(gone) && gone in s.users && gone in s.nftFiles && gone != name
    requires fd.remove.Removed? && !fd.nftRemoveOk && fd.rowDeleteOk
    requires AddResult(c, DelState(c, s, gone, fd), name, opt, fa).Ok?
    ensures var t, row := DelState(c, s, gone, fd), AddResult(c, DelState(c, s, gone, fd), name, opt, fa).value;
            Functional(AddState(c, t, name, opt, fa).nftLive) <==>
              !(c.v4Forward && row.sshPort == s.users[gone].sshPort && row.idx != s.users[gone].idx)
  {
    var t := DelState(c, s, gone, fd);
    DelTouchesFiles(c, s, gone, fd);
    FewerRows(c, s.users, gone);
    PlanFresh(c, t, name, opt, fa);
    var p := AddPlan(c, t, name, opt, fa).value;
    assert AddState(c, t, name, opt, fa) == Added(c, t, name, p, opt);
    LeftoverExact(c, s, gone, name, NewRow(p, opt, 0));
  }

  lemma FewerRows(c: Config, users: map<Name, User>, gone: Name)
    requires TableOK(c, users)
    ensures TableOK(c, users - {gone})
  {
  }

  /** The files of a sound table, plus the file of a row that is unique but for one row of the table. */
  lemma LeftoverExact(c: Config, s: State, gone: Name, name: Name, row: User)
    requires FleetOK(c, s) && FilesOK(s) && gone in s.users && gone in s.nftFiles && name !in s.users && RowOK(c, row)
    requires forall n :: n in s.users - {gone} ==> s.users[n].idx != row.idx && s.users[n].sshPort != row.sshPort
    ensures Functional(s.nftFiles)
    ensures Functional(s.nftFiles[name := UserRules(row)]) <==>
              !(row.sshPort == s.users[gone].sshPort && row.idx != s.users[gone].idx)
  {
    var files := s.nftFiles[name := UserRules(row)];
    TableFunctional(c, s.users, s.nftFiles);
    if row.sshPort == s.users[gone].sshPort && row.idx != s.users[gone].idx {
      ContainerIPInjective(c.subnet, row.idx, s.users[gone].idx);
      SharedPortConflicts(files, gone, s.users[gone], name, row);
    } else {
      TableFunctional(c, s.users[name := row], files);
    }
  }

  // ---- files in step with the rows ----

  /** Every row has its file, there is no other file, and all of it is loaded. */
  predicate InStep(s: State) {
    && s.nftLive == s.nftFiles && s.nftFiles.Keys == s.users.Keys
    && forall n :: n in s.users ==> s.nftFiles[n] == UserRules(s.users[n])
  }

  /** A rollback parts row and file, or keeps both without reloading. */
  predicate PartsStep(f: AddFaults, at: Stage) {
    var kept := at.Reload? && !f.undo.nftRemoveOk;
    (RowLeft(f, at) <==> !kept) || (kept && !f.undo.reloadOk)
  }

  lemma RollbackKeepsStep(c: Config, s: State, name: Name, p: Plan, opt: AddOptions, f: AddFaults, at: Stage)
    requires InStep(s) && name !in s.users && c.v4Forward
    ensures InStep(RolledBack(c, s, name, p, opt, f, at)) <==> !PartsStep(f, at)
  {
    var t := RolledBack(c, s, name, p, opt, f, at);
    var kept := at.Reload? && !f.undo.nftRemoveOk;
    assert name in t.nftFiles <==> kept;
    assert name in t.users <==> RowLeft(f, at);
    assert !kept ==> t.nftFiles == s.nftFiles;
    if kept && RowLeft(f, at) {
      assert t.nftFiles[name] == UserRules(t.users[name]);
      assert t.nftFiles != s.nftFiles;
    }
  }

  /** From files in step Add ends in step if and only if no rollback parts row and file. */
  lemma AddKeepsStep(c: Config, s: State, name: Name, opt: AddOptions, f: AddFaults)
    requires InStep(s) && c.v4Forward
    ensures InStep(AddState(c, s, name, opt, f)) <==>
              (AddPlan(c, s, name, opt, f).Ok? && f.launch.Created? && FailsAt(c, opt, f).Some? ==>
                 !PartsStep(f, FailsAt(c, opt, f).value))
  {
    var plan := AddPlan(c, s, name, opt, f);
    if plan.Ok? && f.launch.Created? {
      PlanChecks(c, s, name, opt, f);
      var p := plan.value;
      if FailsAt(c, opt, f).Some? {
        RollbackKeepsStep(c, s, name, p, opt, f, FailsAt(c, opt, f).value);
      } else {
        assert UserRules(NewRow(p, opt, 0)) == UserRules(NewRow(p, opt, Quota(opt)));
        assert InStep(Added(c, s, name, p, opt));
      }
    }
  }

  /** Del keeps the files in step if and only if row and file go together and the rest is reloaded, or neither goes. */
  lemma DelKeepsStep(c: Config, s: State, name: Name, f: DelFaults)
    requires InStep(s) && ValidName(name) && name in s.users && f.remove.Removed?
    ensures InStep(DelState(c, s, name, f)) <==> (f.rowDeleteOk <==> f.nftRemoveOk) && (f.nftRemoveOk ==> f.reloadOk)
  {
    DelTouchesFiles(c, s, name, f);
    var t := DelState(c, s, name, f);
    assert name in t.nftFiles <==> !f.nftRemoveOk;
    assert name in t.users <==> !f.rowDeleteOk;
  }
}
