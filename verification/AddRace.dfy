/**
 Several processes adding users at once. The mutex of a manager is per process,
 so here every Add takes its steps one at a time, in any interleaving with the
 others: read the tables, check LXD, launch, insert, and on failure roll back.
 What keeps the Adds apart is the UNIQUE columns of the users table, LXD's own
 unique names, and the rollback.
 */
module AddRace {
  import opened Wrappers
  import opened World
  import Allocation
  import Fleet
  import IPv6

  /** One call of Add. */
  type Pid = nat

  datatype Pc =
    | Named | Indexed | Ported | Cleared | Checked
    | Launched | Inserted | Written | Done
    | UndoContainer | UndoFile | UndoRow | Failed

  /** An Add's own variables; row is the id of the row it created. */
  datatype Proc = Proc(pc: Pc, name: Name, idx: int, port: int, row: Option<nat>)

  /** Rows and containers from before the race have no owner. */
  datatype Row = Row(name: Name, idx: int, port: int, owner: Option<Pid>)
  datatype Container = Container(ip: Option<IPv4>, owner: Option<Pid>)

  datatype Shared = Shared(procs: map<Pid, Proc>, rows: map<nat, Row>, lxd: map<Name, Container>, files: map<Name, Pid>)

  /** One step of one Add, with the outcome of its external call. */
  datatype Action =
    | Begin(p: Pid, name: Name)
    | PickIdx(p: Pid, draw: Option<nat>)
    | PickPort(p: Pid, picks: seq<nat>)
    | CheckBlock(p: Pid, gateway: Option<IPv6.Address>)
    | Check(p: Pid, listOk: bool)
    | Launch(p: Pid, launch: Fleet.Launching)
    | Insert(p: Pid, id: nat, ok: bool)
    | Write(p: Pid, ok: bool)
    | Finish(p: Pid)
    | Abort(p: Pid)
    | RemoveContainer(p: Pid, remove: Fleet.Removing)
    | RemoveFile(p: Pid, ok: bool)
    | RemoveRow(p: Pid, ok: bool)

  function UsedIdx(s: Shared): set<int> { set id | id in s.rows :: s.rows[id].idx }

  function UsedPorts(s: Shared): set<int> { set id | id in s.rows :: s.rows[id].port }

  function UsedNames(s: Shared): set<Name> { set id | id in s.rows :: s.rows[id].name }

  function IP(c: Config, q: Proc): Option<IPv4> {
    var ip := Allocation.ContainerIP(c.subnet, q.idx);
    if ip.Ok? then Some(ip.value) else None
  }

  predicate Conflict(c: Config, s: Shared, q: Proc) {
    q.name in s.lxd || exists n :: n in s.lxd && s.lxd[n].ip == IP(c, q)
  }

  /** The IPv6 block is another row's, or holds the gateway the bridge would get. */
  predicate BlockRefused(c: Config, s: Shared, q: Proc, gateway: Option<IPv6.Address>) {
    c.prefix.Some? &&
      ((exists i :: i in s.rows && s.rows[i].name != q.name && c.Block(s.rows[i].name) == c.Block(q.name))
       || (gateway.Some? && IPv6.InNetwork(gateway.value, c.Block(q.name), IPv6.BLOCK_BITS)))
  }

  function Set(s: Shared, p: Pid, q: Proc): Shared { s.(procs := s.procs[p := q]) }

  predicate Choosing(pc: Pc) { pc.Named? || pc.Indexed? || pc.Ported? || pc.Cleared? }

  /** The steps before anything is touched: what an Add knows after reading the tables and LXD. */
  function Choose(c: Config, s: Shared, q: Proc, a: Action): Proc {
    match (a, q.pc)
    case (PickIdx(_, draw), Named) =>
      var idx := Allocation.PickIdx(UsedIdx(s), draw);
      if idx.Err? || IP(c, q.(idx := idx.value)).None? then q.(pc := Failed) else q.(pc := Indexed, idx := idx.value)
    case (PickPort(_, picks), Indexed) =>
      var port := Allocation.PickPort(UsedPorts(s), picks);
      if port.Err? then q.(pc := Failed) else q.(pc := Ported, port := port.value)
    case (CheckBlock(_, gateway), Ported) => q.(pc := if BlockRefused(c, s, q, gateway) then Failed else Cleared)
    case (Check(_, listOk), Cleared) => q.(pc := if listOk && !Conflict(c, s, q) then Checked else Failed)
    case (Abort(_), _) => q.(pc := Failed)
    case _ => q
  }

  /** INSERT: refused when a UNIQUE column is taken. */
  predicate Insertable(s: Shared, q: Proc) {
    q.name !in UsedNames(s) && q.idx !in UsedIdx(s) && q.port !in UsedPorts(s)
  }

  /** The steps that change what all Adds share. */
  function Act(c: Config, s: Shared, p: Pid, q: Proc, a: Action): Shared {
    match (a, q.pc)
    case (Launch(_, launch), Checked) =>
      if q.name in s.lxd || launch.CreateFailed? then Set(s, p, q.(pc := Failed))
      else
        var pc := if launch.Created? then Launched else Failed;
        Set(s, p, q.(pc := pc)).(lxd := s.lxd[q.name := Container(IP(c, q), Some(p))])
    case (Insert(_, id, ok), Launched) =>
      if id in s.rows then s
      else if !ok || !Insertable(s, q) then Set(s, p, q.(pc := UndoContainer))
      else Set(s, p, q.(pc := Inserted, row := Some(id))).(rows := s.rows[id := Row(q.name, q.idx, q.port, Some(p))])
    case (Write(_, ok), Inserted) =>
      if !c.v4Forward then Set(s, p, q.(pc := Written))
      else if !ok then Set(s, p, q.(pc := UndoContainer))
      else Set(s, p, q.(pc := Written)).(files := s.files[q.name := p])
    case (Finish(_), Written) => Set(s, p, q.(pc := Done))
    case (Abort(_), _) =>
      if q.pc.Launched? || q.pc.Inserted? || q.pc.Written? then Set(s, p, q.(pc := UndoContainer)) else s
    case (RemoveContainer(_, remove), UndoContainer) =>
      Set(s, p, q.(pc := UndoFile)).(lxd := if remove.Kept? then s.lxd else s.lxd - {q.name})
    case (RemoveFile(_, ok), UndoFile) =>
      Set(s, p, q.(pc := UndoRow)).(files := if ok then s.files - {q.name} else s.files)
    case (RemoveRow(_, ok), UndoRow) =>
      Set(s, p, q.(pc := Failed)).(rows := if ok && q.row.Some? then s.rows - {q.row.value} else s.rows)
    case _ => s
  }

  /** What one action does; an action its Add cannot take now does nothing. */
  function Step(c: Config, s: Shared, a: Action): Shared {
    if a.Begin? then
      if a.p in s.procs then s
      else Set(s, a.p, Proc(if a.name in UsedNames(s) then Failed else Named, a.name, 0, 0, None))
    else if a.p !in s.procs then s
    else if Choosing(s.procs[a.p].pc) then Set(s, a.p, Choose(c, s, s.procs[a.p], a))
    else Act(c, s, a.p, s.procs[a.p], a)
  }

  function Run(c: Config, s: Shared, h: seq<Action>): Shared {
    if h == [] then s else Step(c, Run(c, s, h[..|h| - 1]), h[|h| - 1])
  }

  // ---- invariants ----

  predicate PastCheck(pc: Pc) { !Choosing(pc) && !pc.Failed? }

  predicate HasContainer(pc: Pc) { pc.Launched? || pc.Inserted? || pc.Written? || pc.Done? || pc.UndoContainer? }

  predicate HasRow(pc: Pc) { pc.Inserted? || pc.Written? || pc.Done? }

  /** The UNIQUE columns. */
  ghost predicate UniqueRows(rows: map<nat, Row>) {
    forall i, j :: i in rows && j in rows && i != j ==>
      rows[i].name != rows[j].name && rows[i].idx != rows[j].idx && rows[i].port != rows[j].port
  }

  /** No address an Add has checked belongs to a container from before. */
  ghost predicate AwayFromOld(c: Config, s: Shared, q: Proc) {
    forall n :: n in s.lxd && s.lxd[n].owner.None? ==> s.lxd[n].ip != IP(c, q)
  }

  /** An Add past its launch owns the container of its name. */
  predicate HoldsContainer(c: Config, s: Shared, p: Pid)
    requires p in s.procs
  {
    var q := s.procs[p];
    HasContainer(q.pc) ==> q.name in s.lxd && s.lxd[q.name] == Container(IP(c, q), Some(p))
  }

  /** An Add past its insert owns the row of its id. */
  predicate HoldsRow(s: Shared, p: Pid)
    requires p in s.procs
  {
    var q := s.procs[p];
    && (HasRow(q.pc) ==> q.row.Some?)
    && (q.row.Some? && !q.pc.Failed? ==>
          q.row.value in s.rows && s.rows[q.row.value] == Row(q.name, q.idx, q.port, Some(p)))
    && (Choosing(q.pc) || q.pc.Checked? || q.pc.Launched? ==> q.row.None?)
  }

  ghost predicate ProcOK(c: Config, s: Shared, p: Pid)
    requires p in s.procs
  {
    var q := s.procs[p];
    && (!q.pc.Named? && !q.pc.Failed? ==> IP(c, q).Some?)
    && (PastCheck(q.pc) ==> AwayFromOld(c, s, q))
    && HoldsContainer(c, s, p) && HoldsRow(s, p)
  }

  /** An owned container has its owner's name and address, and no address of a container from before. */
  ghost predicate ContainerOK(c: Config, s: Shared, n: Name)
    requires n in s.lxd
  {
    s.lxd[n].owner.Some? ==>
      && s.lxd[n].owner.value in s.procs
      && var q := s.procs[s.lxd[n].owner.value];
         q.name == n && s.lxd[n].ip == IP(c, q) && IP(c, q).Some? && AwayFromOld(c, s, q)
         && (HasContainer(q.pc) || q.pc.UndoFile? || q.pc.UndoRow? || q.pc.Failed?)
  }

  /** Containers from before have distinct addresses. */
  ghost predicate OldDistinct(s: Shared) {
    forall m, n ::
      m in s.lxd && n in s.lxd && m != n && s.lxd[m].owner.None? && s.lxd[n].owner.None? && s.lxd[m].ip.Some? ==>
      s.lxd[m].ip != s.lxd[n].ip
  }

  ghost predicate Inv(c: Config, s: Shared) {
    && UniqueRows(s.rows) && OldDistinct(s)
    && (forall p :: p in s.procs ==> ProcOK(c, s, p))
    && (forall n :: n in s.lxd ==> ContainerOK(c, s, n))
  }

  /** Before the race: no Add running, unique rows, containers with distinct addresses. */
  ghost predicate Start(s: Shared) {
    && s.procs == map[] && UniqueRows(s.rows) && OldDistinct(s)
    && (forall n :: n in s.lxd ==> s.lxd[n].owner.None?)
    && (forall i :: i in s.rows ==> s.rows[i].owner.None?)
  }

  lemma InsertKeepsUnique(s: Shared, id: nat, q: Proc, p: Pid)
    requires UniqueRows(s.rows) && Insertable(s, q)
    ensures UniqueRows(s.rows[id := Row(q.name, q.idx, q.port, Some(p))])
  {
    forall i | i in s.rows ensures s.rows[i].name != q.name && s.rows[i].idx != q.idx && s.rows[i].port != q.port {
      assert s.rows[i].name in UsedNames(s) && s.rows[i].idx in UsedIdx(s) && s.rows[i].port in UsedPorts(s);
    }
  }

  /** The rows after a step: as they were, with one that was insertable, or without the Add's own. */
  lemma ActRows(c: Config, s: Shared, p: Pid, a: Action)
    requires p in s.procs && !Choosing(s.procs[p].pc)
    ensures var q, t := s.procs[p], Act(c, s, p, s.procs[p], a);
            || t.rows == s.rows
            || (a.Insert? && Insertable(s, q) && t.rows == s.rows[a.id := Row(q.name, q.idx, q.port, Some(p))])
            || (q.row.Some? && t.rows == s.rows - {q.row.value})
  {
  }

  lemma ActKeepsRowsUnique(c: Config, s: Shared, p: Pid, a: Action)
    requires p in s.procs && !Choosing(s.procs[p].pc) && UniqueRows(s.rows)
    ensures UniqueRows(Act(c, s, p, s.procs[p], a).rows)
  {
    ActRows(c, s, p, a);
    if a.Insert? && Insertable(s, s.procs[p]) { InsertKeepsUnique(s, a.id, s.procs[p], p); }
  }

  lemma StepKeepsRowsUnique(c: Config, s: Shared, a: Action)
    requires UniqueRows(s.rows)
    ensures UniqueRows(Step(c, s, a).rows)
  {
    if a.p in s.procs && !a.Begin? && !Choosing(s.procs[a.p].pc) { ActKeepsRowsUnique(c, s, a.p, a); }
  }

  ghost predicate OwnProcs(s: Shared, t: Shared, p: Pid) {
    forall r :: r != p ==> (r in s.procs <==> r in t.procs) && (r in s.procs ==> t.procs[r] == s.procs[r])
  }

  ghost predicate OwnLxd(s: Shared, t: Shared, p: Pid) {
    && (forall n :: n in s.lxd && s.lxd[n].owner != Some(p) ==> n in t.lxd && t.lxd[n] == s.lxd[n])
    && (forall n :: n in t.lxd && t.lxd[n].owner != Some(p) ==> n in s.lxd && t.lxd[n] == s.lxd[n])
  }

  ghost predicate OwnRows(s: Shared, t: Shared, p: Pid) {
    && (forall i :: i in s.rows && s.rows[i].owner != Some(p) ==> i in t.rows && t.rows[i] == s.rows[i])
    && (forall i :: i in t.rows && t.rows[i].owner != Some(p) ==> i in s.rows && t.rows[i] == s.rows[i])
  }

  /** From s to t only this Add's own variables, containers and rows have moved. */
  ghost predicate OwnOnly(s: Shared, t: Shared, p: Pid) { OwnProcs(s, t, p) && OwnLxd(s, t, p) && OwnRows(s, t, p) }

  lemma ActIsOwnProcs(c: Config, s: Shared, p: Pid, a: Action)
    requires p in s.procs && !Choosing(s.procs[p].pc)
    ensures OwnProcs(s, Act(c, s, p, s.procs[p], a), p)
  {
  }

  lemma ActIsOwnLxd(c: Config, s: Shared, p: Pid, a: Action)
    requires p in s.procs && HoldsContainer(c, s, p) && !Choosing(s.procs[p].pc)
    ensures OwnLxd(s, Act(c, s, p, s.procs[p], a), p)
  {
  }

  lemma ActIsOwnRows(c: Config, s: Shared, p: Pid, a: Action)
    requires p in s.procs && HoldsRow(s, p) && !Choosing(s.procs[p].pc)
    ensures OwnRows(s, Act(c, s, p, s.procs[p], a), p)
  {
  }

  lemma ActIsOwn(c: Config, s: Shared, p: Pid, a: Action)
    requires p in s.procs && ProcOK(c, s, p) && !Choosing(s.procs[p].pc)
    ensures OwnOnly(s, Act(c, s, p, s.procs[p], a), p)
  {
    ActIsOwnProcs(c, s, p, a);
    ActIsOwnLxd(c, s, p, a);
    ActIsOwnRows(c, s, p, a);
  }

  lemma StepIsOwn(c: Config, s: Shared, a: Action)
    requires Inv(c, s)
    ensures OwnOnly(s, Step(c, s, a), a.p)
  {
    if a.p in s.procs && !a.Begin? && !Choosing(s.procs[a.p].pc) {
      assert ProcOK(c, s, a.p);
      ActIsOwn(c, s, a.p, a);
    }
  }

  lemma OthersKeep(c: Config, s: Shared, t: Shared, p: Pid)
    requires Inv(c, s) && OwnOnly(s, t, p)
    ensures OldDistinct(t)
    ensures forall r :: r in t.procs && r != p ==> ProcOK(c, t, r)
    ensures forall n :: n in t.lxd && t.lxd[n].owner != Some(p) ==> ContainerOK(c, t, n)
  {
    forall r | r in t.procs && r != p ensures ProcOK(c, t, r) { assert ProcOK(c, s, r); }
    forall n | n in t.lxd && t.lxd[n].owner != Some(p) ensures ContainerOK(c, t, n) { assert ContainerOK(c, s, n); }
  }

  /** Containers from before stay as they are. */
  ghost predicate SameOld(s: Shared, t: Shared) {
    forall n :: n in t.lxd && t.lxd[n].owner.None? ==> n in s.lxd && s.lxd[n] == t.lxd[n]
  }

  lemma ActKeepsOld(c: Config, s: Shared, p: Pid, a: Action)
    requires p in s.procs && !Choosing(s.procs[p].pc)
    ensures var t := Act(c, s, p, s.procs[p], a);
            SameOld(s, t) && p in t.procs && t.procs[p].name == s.procs[p].name && t.procs[p].idx == s.procs[p].idx
            && t.procs[p].port == s.procs[p].port && !Choosing(t.procs[p].pc)
                  && (PastCheck(t.procs[p].pc) ==> PastCheck(s.procs[p].pc))
  {
  }

  lemma ActKeepsHeldContainer(c: Config, s: Shared, p: Pid, a: Action)
    requires p in s.procs && HoldsContainer(c, s, p) && !Choosing(s.procs[p].pc)
    ensures p in Act(c, s, p, s.procs[p], a).procs && HoldsContainer(c, Act(c, s, p, s.procs[p], a), p)
  {
    assert IP(c, Act(c, s, p, s.procs[p], a).procs[p]) == IP(c, s.procs[p]);
  }

  lemma ActKeepsHeldRow(c: Config, s: Shared, p: Pid, a: Action)
    requires p in s.procs && HoldsRow(s, p) && !Choosing(s.procs[p].pc)
    ensures p in Act(c, s, p, s.procs[p], a).procs && HoldsRow(Act(c, s, p, s.procs[p], a), p)
  {
  }

  lemma ActKeepsProc(c: Config, s: Shared, p: Pid, a: Action)
    requires p in s.procs && ProcOK(c, s, p) && !Choosing(s.procs[p].pc)
    ensures ProcOK(c, Act(c, s, p, s.procs[p], a), p)
  {
    ActKeepsOld(c, s, p, a);
    ActKeepsHeldContainer(c, s, p, a);
    ActKeepsHeldRow(c, s, p, a);
    var t := Act(c, s, p, s.procs[p], a);
    assert IP(c, t.procs[p]) == IP(c, s.procs[p]);
  }

  lemma ChooseKeepsProc(c: Config, s: Shared, p: Pid, a: Action)
    requires p in s.procs && ProcOK(c, s, p) && Choosing(s.procs[p].pc)
    ensures ProcOK(c, Set(s, p, Choose(c, s, s.procs[p], a)), p)
  {
  }

  lemma OwnProc(c: Config, s: Shared, a: Action)
    requires Inv(c, s)
    ensures a.p in Step(c, s, a).procs ==> ProcOK(c, Step(c, s, a), a.p)
  {
    if a.p in s.procs {
      assert ProcOK(c, s, a.p);
      if a.Begin? {
      } else if Choosing(s.procs[a.p].pc) {
        ChooseKeepsProc(c, s, a.p, a);
      } else {
        ActKeepsProc(c, s, a.p, a);
      }
    }
  }

  lemma ActKeepsContainer(c: Config, s: Shared, p: Pid, a: Action, n: Name)
    requires p in s.procs && ProcOK(c, s, p) && !Choosing(s.procs[p].pc) && (n in s.lxd ==> ContainerOK(c, s, n))
    requires var t := Act(c, s, p, s.procs[p], a); n in t.lxd && t.lxd[n].owner == Some(p)
    ensures ContainerOK(c, Act(c, s, p, s.procs[p], a), n)
  {
    ActKeepsOld(c, s, p, a);
    ActOwns(c, s, p, a, n);
    var t := Act(c, s, p, s.procs[p], a);
    assert IP(c, t.procs[p]) == IP(c, s.procs[p]);
    assert AwayFromOld(c, s, s.procs[p]);
  }

  /** A container of p after a step of p is the one from before, or the one just launched. */
  lemma ActOwns(c: Config, s: Shared, p: Pid, a: Action, n: Name)
    requires p in s.procs && !Choosing(s.procs[p].pc) && (HasContainer(s.procs[p].pc) ==> s.procs[p].name in s.lxd)
    requires var t := Act(c, s, p, s.procs[p], a); n in t.lxd && t.lxd[n].owner == Some(p)
    ensures var q, t := s.procs[p], Act(c, s, p, s.procs[p], a);
            && ((n in s.lxd && t.lxd[n] == s.lxd[n])
                  || (q.pc.Checked? && n == q.name && t.lxd[n] == Container(IP(c, q), Some(p))))
            && p in t.procs && (t.procs[p].pc.Checked? ==> t == s)
  {
  }

  lemma OwnContainers(c: Config, s: Shared, a: Action, n: Name)
    requires Inv(c, s) && n in Step(c, s, a).lxd && Step(c, s, a).lxd[n].owner == Some(a.p)
    ensures ContainerOK(c, Step(c, s, a), n)
  {
    if n in s.lxd { assert ContainerOK(c, s, n); }
    if a.p in s.procs {
      assert ProcOK(c, s, a.p);
      if !a.Begin? && !Choosing(s.procs[a.p].pc) { ActKeepsContainer(c, s, a.p, a, n); }
    }
  }

  lemma StepKeepsInv(c: Config, s: Shared, a: Action)
    requires Inv(c, s)
    ensures Inv(c, Step(c, s, a))
  {
    var t := Step(c, s, a);
    StepKeepsRowsUnique(c, s, a);
    StepIsOwn(c, s, a);
    OthersKeep(c, s, t, a.p);
    OwnProc(c, s, a);
    forall n | n in t.lxd && t.lxd[n].owner == Some(a.p) ensures ContainerOK(c, t, n) { OwnContainers(c, s, a, n); }
  }

  lemma {:induction false} RunsKeepInv(c: Config, s: Shared, h: seq<Action>)
    requires Inv(c, s)
    ensures Inv(c, Run(c, s, h))
  {
    if h != [] {
      RunsKeepInv(c, s, h[..|h| - 1]);
      StepKeepsInv(c, Run(c, s, h[..|h| - 1]), h[|h| - 1]);
    }
  }

  // ---- what the race cannot break ----

  lemma StartHolds(c: Config, s: Shared)
    requires Start(s)
    ensures Inv(c, s) && Clean(s)
  {
  }

  /** However the Adds interleave and whatever fails, no two rows share a name, an index or an SSH port. */
  lemma {:induction false} RaceKeepsRowsUnique(c: Config, s: Shared, h: seq<Action>)
    requires Start(s)
    ensures UniqueRows(Run(c, s, h).rows)
  {
    StartHolds(c, s);
    RunsKeepInv(c, s, h);
  }

  /** At any point of any run, the next step of an Add removes no container and no row but its own. */
  lemma RollbackRemovesOnlyOwn(c: Config, s: Shared, h: seq<Action>, a: Action)
    requires Start(s)
    ensures var before, after := Run(c, s, h), Run(c, s, h + [a]);
            && (forall n :: n in before.lxd && n !in after.lxd ==> before.lxd[n].owner == Some(a.p))
            && (forall i :: i in before.rows && i !in after.rows ==> before.rows[i].owner == Some(a.p))
  {
    StartHolds(c, s);
    RunsKeepInv(c, s, h);
    assert (h + [a])[..|h|] == h;
    StepIsOwn(c, Run(c, s, h), a);
  }

  /** A container whose Add has no row for it: still on its way, rolling back, or left behind. */
  predicate Rowless(s: Shared, n: Name)
    requires n in s.lxd
  {
    s.lxd[n].owner.Some? && (s.lxd[n].owner.value in s.procs ==> !HasRow(s.procs[s.lxd[n].owner.value].pc))
  }

  lemma SharedNeedsRowless(c: Config, s: Shared, m: Name, n: Name)
    requires Inv(c, s) && m in s.lxd && n in s.lxd && m != n
    requires s.lxd[m].ip.Some? && s.lxd[m].ip == s.lxd[n].ip
    ensures Rowless(s, m) || Rowless(s, n)
  {
    assert ContainerOK(c, s, m) && ContainerOK(c, s, n);
    if !Rowless(s, m) && !Rowless(s, n) {
      var p, r := s.lxd[m].owner.value, s.lxd[n].owner.value;
      assert ProcOK(c, s, p) && ProcOK(c, s, r);
      Allocation.ContainerIPInjective(c.subnet, s.procs[p].idx, s.procs[r].idx);
      assert false;
    }
  }

  /** Once every Add has ended: succeeded or failed. */
  predicate Ended(s: Shared) { forall p :: p in s.procs ==> s.procs[p].pc.Done? || s.procs[p].pc.Failed? }

  /**
   Whatever fails, when two live containers share an address after all Adds
   have ended, one of them was left behind by a failed Add.
   */
  lemma OnlyLeftoversShare(c: Config, s: Shared, h: seq<Action>, m: Name, n: Name)
    requires Start(s) && Ended(Run(c, s, h))
    requires var t := Run(c, s, h);
             m in t.lxd && n in t.lxd && m != n && t.lxd[m].ip.Some? && t.lxd[m].ip == t.lxd[n].ip
    ensures var t := Run(c, s, h);
            exists k :: k in {m, n} && t.lxd[k].owner.Some? && t.lxd[k].owner.value in t.procs
                && t.procs[t.lxd[k].owner.value].pc.Failed?
  {
    var t := Run(c, s, h);
    StartHolds(c, s);
    RunsKeepInv(c, s, h);
    SharedNeedsRowless(c, t, m, n);
    assert ContainerOK(c, t, m) && ContainerOK(c, t, n);
    assert m in {m, n} && n in {m, n};
  }

  // ---- launches all-or-nothing, rollback calls that work ----

  /** The action's call works: no read, launch, insert, write, reload or rollback call fails. */
  predicate AllWork(a: Action) {
    match a
    case PickIdx(_, draw) => draw.Some?
    case PickPort(_, picks) => |picks| >= 32
    case Check(_, listOk) => listOk
    case Launch(_, launch) => launch.Created?
    case Insert(_, _, ok) => ok
    case Write(_, ok) => ok
    case Abort(_) => false
    case RemoveContainer(_, remove) => remove.Removed?
    case RemoveFile(_, ok) => ok
    case RemoveRow(_, ok) => ok
    case _ => true
  }

  /** What the results below ask for: forward steps may fail, launches and rollbacks may not leave anything. */
  predicate Tidy(a: Action) {
    match a
    case Launch(_, launch) => !launch.FailedAfterCreate?
    case RemoveContainer(_, remove) => !remove.Kept?
    case RemoveRow(_, ok) => ok
    case _ => true
  }

  ghost predicate CleanLxd(s: Shared) {
    forall n :: n in s.lxd && s.lxd[n].owner.Some? ==>
      s.lxd[n].owner.value in s.procs && var q := s.procs[s.lxd[n].owner.value]; q.name == n && HasContainer(q.pc)
  }

  ghost predicate CleanRows(s: Shared) {
    forall i :: i in s.rows && s.rows[i].owner.Some? ==>
      s.rows[i].owner.value in s.procs && var q := s.procs[s.rows[i].owner.value]; q.row == Some(i) && !q.pc.Failed?
  }

  /** An Add that has failed owns nothing any more. */
  ghost predicate Clean(s: Shared) { CleanLxd(s) && CleanRows(s) }

  lemma ActKeepsCleanLxd(c: Config, s: Shared, p: Pid, a: Action)
    requires p in s.procs && HoldsContainer(c, s, p) && !Choosing(s.procs[p].pc) && CleanLxd(s) && Tidy(a)
    ensures CleanLxd(Act(c, s, p, s.procs[p], a))
  {
  }

  lemma ActKeepsCleanRows(c: Config, s: Shared, p: Pid, a: Action)
    requires p in s.procs && HoldsRow(s, p) && !Choosing(s.procs[p].pc) && CleanRows(s) && Tidy(a)
    ensures CleanRows(Act(c, s, p, s.procs[p], a))
  {
  }

  lemma ActKeepsClean(c: Config, s: Shared, p: Pid, a: Action)
    requires p in s.procs && ProcOK(c, s, p) && !Choosing(s.procs[p].pc) && Clean(s) && Tidy(a)
    ensures Clean(Act(c, s, p, s.procs[p], a))
  {
    ActKeepsCleanLxd(c, s, p, a);
    ActKeepsCleanRows(c, s, p, a);
  }

  lemma StepKeepsClean(c: Config, s: Shared, a: Action)
    requires Inv(c, s) && Clean(s) && Tidy(a)
    ensures Clean(Step(c, s, a))
  {
    if a.p in s.procs {
      assert ProcOK(c, s, a.p);
      if !a.Begin? && !Choosing(s.procs[a.p].pc) { ActKeepsClean(c, s, a.p, a); }
    }
  }

  lemma {:induction false} RunsKeepClean(c: Config, s: Shared, h: seq<Action>)
    requires Inv(c, s) && Clean(s) && forall i :: 0 <= i < |h| ==> Tidy(h[i])
    ensures Inv(c, Run(c, s, h)) && Clean(Run(c, s, h))
  {
    RunsKeepInv(c, s, h);
    if h != [] {
      RunsKeepClean(c, s, h[..|h| - 1]);
      StepKeepsClean(c, Run(c, s, h[..|h| - 1]), h[|h| - 1]);
    }
  }

  /**
   Launches being all-or-nothing and rollback calls working, once every Add has
   ended: no two live containers share an address; a failed Add has left no
   container and no row; a successful one has both, with its own index, port
   and address.
   */
  lemma TidyRaceSettles(c: Config, s: Shared, h: seq<Action>)
    requires Start(s) && Ended(Run(c, s, h)) && forall i :: 0 <= i < |h| ==> Tidy(h[i])
    ensures var t := Run(c, s, h);
            && (forall m, n :: m in t.lxd && n in t.lxd && m != n && t.lxd[m].ip.Some? ==> t.lxd[m].ip != t.lxd[n].ip)
            && (forall n :: n in t.lxd && t.lxd[n].owner.Some? ==>
                  t.lxd[n].owner.value in t.procs && t.procs[t.lxd[n].owner.value].pc.Done?)
            && (forall i :: i in t.rows && t.rows[i].owner.Some? ==>
                  t.rows[i].owner.value in t.procs && t.procs[t.rows[i].owner.value].pc.Done?)
            && (forall p :: p in t.procs && t.procs[p].pc.Done? ==>
                  var q := t.procs[p];
                  && q.name in t.lxd && t.lxd[q.name] == Container(IP(c, q), Some(p))
                  && q.row.Some? && q.row.value in t.rows && t.rows[q.row.value] == Row(q.name, q.idx, q.port, Some(p)))
  {
    var t := Run(c, s, h);
    StartHolds(c, s);
    RunsKeepClean(c, s, h);
    forall m, n | m in t.lxd && n in t.lxd && m != n && t.lxd[m].ip.Some? ensures t.lxd[m].ip != t.lxd[n].ip {
      if t.lxd[m].ip == t.lxd[n].ip { SharedNeedsRowless(c, t, m, n); }
    }
    forall p | p in t.procs && t.procs[p].pc.Done? ensures ProcOK(c, t, p) {}
  }

  // ---- nft files, which are keyed by name alone ----

  predicate Published(q: Proc) { q.pc.Written? || q.pc.Done? }

  ghost predicate HasFile(s: Shared, p: Pid)
    requires p in s.procs
  {
    s.procs[p].name in s.files && s.files[s.procs[p].name] == p
  }

  ghost predicate Namesake(s: Shared, p: Pid)
    requires p in s.procs
  {
    exists r :: r in s.procs && r != p && s.procs[r].name == s.procs[p].name
  }

  /** The action removes a published Add's file: an Add of the same name is at that point of its rollback. */
  predicate Takes(s: Shared, p: Pid, a: Action) {
    && p in s.procs && Published(s.procs[p])
    && a.RemoveFile? && a.ok && a.p in s.procs && s.procs[a.p].pc.UndoFile? && s.procs[a.p].name == s.procs[p].name
  }

  ghost predicate Taken(c: Config, s: Shared, h: seq<Action>, p: Pid) {
    exists i :: 0 <= i < |h| && Takes(Run(c, s, h[..i]), p, h[i])
  }

  /** Not yet published. */
  predicate Before(pc: Pc) { Choosing(pc) || pc.Checked? || pc.Launched? || pc.Inserted? }

  lemma TakenSnoc(c: Config, s: Shared, h: seq<Action>, p: Pid)
    requires h != []
    ensures var before, a := h[..|h| - 1], h[|h| - 1];
            Taken(c, s, h, p) <==> Taken(c, s, before, p) || Takes(Run(c, s, before), p, a)
  {
    var before := h[..|h| - 1];
    forall i | 0 <= i < |before| ensures before[..i] == h[..i] && before[i] == h[i] {}
    if Taken(c, s, before, p) {
      var i :| 0 <= i < |before| && Takes(Run(c, s, before[..i]), p, before[i]);
      assert Takes(Run(c, s, h[..i]), p, h[i]);
    }
  }

  lemma ChooseStays(c: Config, s: Shared, q: Proc, a: Action)
    requires Choosing(q.pc)
    ensures var q' := Choose(c, s, q, a);
            q'.name == q.name && q'.row == q.row && (Choosing(q'.pc) || q'.pc.Checked? || q'.pc.Failed?)
  {
  }

  /** How a step moves the files. */
  function FilesAfter(s: Shared, q: Proc, a: Action): map<Name, Pid> {
    if a.RemoveFile? && a.ok && q.pc.UndoFile? then s.files - {q.name}
    else if a.Write? && a.ok && q.pc.Inserted? then s.files[q.name := a.p] else s.files
  }

  lemma ActTouchesFiles(c: Config, s: Shared, p: Pid, a: Action)
    requires p in s.procs && !Choosing(s.procs[p].pc) && c.v4Forward && a.p == p
    ensures Act(c, s, p, s.procs[p], a).files == FilesAfter(s, s.procs[p], a)
  {
  }

  /** How a step of an Add past its checks moves its own progress. */
  lemma ActProgresses(c: Config, s: Shared, p: Pid, a: Action)
    requires p in s.procs && !Choosing(s.procs[p].pc) && c.v4Forward
    ensures var q, t := s.procs[p], Act(c, s, p, s.procs[p], a);
            && p in t.procs && t.procs[p].name == q.name
            && (!Before(q.pc) ==> !Before(t.procs[p].pc))
            && (Published(t.procs[p]) && !Published(q) ==> q.pc.Inserted? && a.Write? && a.ok)
  {
  }

  /** What a step does to the files, and to the progress of the Add that takes it. */
  ghost predicate Moves(s: Shared, t: Shared, a: Action) {
    && OwnProcs(s, t, a.p)
    && t.files == (if a.p in s.procs then FilesAfter(s, s.procs[a.p], a) else s.files)
    && (a.p in s.procs ==>
          && a.p in t.procs && t.procs[a.p].name == s.procs[a.p].name
          && (!Before(s.procs[a.p].pc) ==> !Before(t.procs[a.p].pc)))
    && (a.p in t.procs && Published(t.procs[a.p]) ==>
          a.p in s.procs && (Published(s.procs[a.p]) || (s.procs[a.p].pc.Inserted? && a.Write? && a.ok)))
  }

  lemma StepTouchesFiles(c: Config, s: Shared, a: Action)
    requires Inv(c, s) && c.v4Forward
    ensures Moves(s, Step(c, s, a), a)
  {
    StepIsOwn(c, s, a);
    if a.p in s.procs && !a.Begin? {
      if Choosing(s.procs[a.p].pc) {
        ChooseStays(c, s, s.procs[a.p], a);
      } else {
        ActTouchesFiles(c, s, a.p, a);
        ActProgresses(c, s, a.p, a);
      }
    }
  }

  /** Two Adds with rows have different names. */
  lemma RowsDiffer(c: Config, s: Shared, p: Pid, r: Pid)
    requires Inv(c, s) && p in s.procs && r in s.procs && p != r && HasRow(s.procs[p].pc) && HasRow(s.procs[r].pc)
    ensures s.procs[p].name != s.procs[r].name
  {
    assert ProcOK(c, s, p) && ProcOK(c, s, r);
  }

  /** A published Add's file in the next state: there if it was there and this step does not take it. */
  lemma StepFileExact(c: Config, s: Shared, t: Shared, a: Action, p: Pid)
    requires Inv(c, s) && Moves(s, t, a)
    requires p in s.procs && Published(s.procs[p]) && p in t.procs && Published(t.procs[p])
    ensures HasFile(t, p) <==> HasFile(s, p) && !Takes(s, p, a)
  {
    if a.p != p && a.p in s.procs && s.procs[a.p].pc.Inserted? { RowsDiffer(c, s, p, a.p); }
  }

  /** An Add whose file a step takes, or has been taken, is past publishing and has a namesake. */
  lemma TakenStep(s: Shared, t: Shared, a: Action, p: Pid)
    requires Moves(s, t, a)
    requires Takes(s, p, a) || (p in s.procs && !Before(s.procs[p].pc) && Namesake(s, p))
    ensures p in t.procs && !Before(t.procs[p].pc) && Namesake(t, p)
  {
    if Takes(s, p, a) { assert a.p != p; }
    var r :| r in s.procs && r != p && s.procs[r].name == s.procs[p].name;
    assert r in t.procs && t.procs[r].name == t.procs[p].name;
  }

  lemma {:induction false} TakenFacts(c: Config, s: Shared, h: seq<Action>, p: Pid)
    requires Start(s) && c.v4Forward && Taken(c, s, h, p)
    ensures var t := Run(c, s, h); p in t.procs && !Before(t.procs[p].pc) && Namesake(t, p)
  {
    var before, a := h[..|h| - 1], h[|h| - 1];
    TakenSnoc(c, s, h, p);
    StartHolds(c, s);
    RunsKeepInv(c, s, before);
    StepTouchesFiles(c, Run(c, s, before), a);
    if Taken(c, s, before, p) { TakenFacts(c, s, before, p); }
    TakenStep(Run(c, s, before), Run(c, s, h), a, p);
  }

  /**
   However the Adds interleave and whatever fails, an Add that has published
   its rules has its nft file if and only if no Add of the same name has since
   reached the file removal of its own rollback.
   */
  lemma {:induction false} FileKeptExact(c: Config, s: Shared, h: seq<Action>, p: Pid)
    requires Start(s) && c.v4Forward
    requires p in Run(c, s, h).procs && Published(Run(c, s, h).procs[p])
    ensures HasFile(Run(c, s, h), p) <==> !Taken(c, s, h, p)
  {
    assert h != [];
    var before, a := h[..|h| - 1], h[|h| - 1];
    StartHolds(c, s);
    RunsKeepInv(c, s, before);
    TakenSnoc(c, s, h, p);
    StepTouchesFiles(c, Run(c, s, before), a);
    assert p in Run(c, s, before).procs;
    if Published(Run(c, s, before).procs[p]) {
      FileKeptExact(c, s, before, p);
      StepFileExact(c, Run(c, s, before), Run(c, s, h), a, p);
    } else if Taken(c, s, before, p) {
      TakenFacts(c, s, before, p);
      assert false;
    }
  }

  /** So once all Adds have ended, a successful one has its file unless another Add of the same name has failed. */
  lemma SuccessKeepsFile(c: Config, s: Shared, h: seq<Action>, p: Pid)
    requires Start(s) && c.v4Forward && Ended(Run(c, s, h))
    requires p in Run(c, s, h).procs && Run(c, s, h).procs[p].pc.Done?
    ensures var t := Run(c, s, h);
            || HasFile(t, p)
            || (exists r ::
                  r in t.procs && r != p && t.procs[r].name == t.procs[p].name && t.procs[r].pc.Failed?)
  {
    var t := Run(c, s, h);
    FileKeptExact(c, s, h, p);
    if !HasFile(t, p) {
      TakenFacts(c, s, h, p);
      StartHolds(c, s);
      RunsKeepInv(c, s, h);
      var r :| r in t.procs && r != p && t.procs[r].name == t.procs[p].name;
      if t.procs[r].pc.Done? {
        RowsDiffer(c, t, p, r);
        assert false;
      }
    }
  }

  // ---- IPv6 blocks, which no column keeps unique ----

  /** Past the block check, with no row yet. */
  predicate InWindow(pc: Pc) { pc.Cleared? || pc.Checked? || pc.Launched? }

  predicate Overlap(s: Shared, p: Pid, r: Pid) {
    p in s.procs && r in s.procs && InWindow(s.procs[p].pc) && InWindow(s.procs[r].pc)
  }

  /** At some moment both Adds had passed the block check and neither had a row. */
  ghost predicate Overlapped(c: Config, s: Shared, h: seq<Action>, p: Pid, r: Pid) {
    exists i :: 0 <= i <= |h| && Overlap(Run(c, s, h[..i]), p, r)
  }

  /** Past the block check, without a row or with it, even one that a rollback could not delete. */
  predicate Reserved(s: Shared, p: Pid)
    requires p in s.procs
  {
    var q := s.procs[p];
    InWindow(q.pc) || (q.row.Some? && q.row.value in s.rows && s.rows[q.row.value].owner == Some(p))
  }

  /** A row's owner knows its id and has its name. */
  ghost predicate RowsOwned(s: Shared) {
    forall i :: i in s.rows && s.rows[i].owner.Some? ==>
      && s.rows[i].owner.value in s.procs
      && var q := s.procs[s.rows[i].owner.value]; q.row == Some(i) && q.name == s.rows[i].name
  }

  lemma ActKeepsRowsOwned(c: Config, s: Shared, p: Pid, a: Action)
    requires p in s.procs && HoldsRow(s, p) && !Choosing(s.procs[p].pc) && RowsOwned(s)
    ensures RowsOwned(Act(c, s, p, s.procs[p], a))
  {
  }

  lemma StepKeepsRowsOwned(c: Config, s: Shared, a: Action)
    requires Inv(c, s) && RowsOwned(s)
    ensures RowsOwned(Step(c, s, a))
  {
    if a.p in s.procs && !a.Begin? {
      assert ProcOK(c, s, a.p);
      if Choosing(s.procs[a.p].pc) { ChooseStays(c, s, s.procs[a.p], a); } else { ActKeepsRowsOwned(c, s, a.p, a); }
    }
  }

  lemma {:induction false} RunsKeepRowsOwned(c: Config, s: Shared, h: seq<Action>)
    requires Start(s)
    ensures Inv(c, Run(c, s, h)) && RowsOwned(Run(c, s, h))
  {
    StartHolds(c, s);
    RunsKeepInv(c, s, h);
    if h != [] {
      RunsKeepRowsOwned(c, s, h[..|h| - 1]);
      StepKeepsRowsOwned(c, Run(c, s, h[..|h| - 1]), h[|h| - 1]);
    }
  }

  ghost predicate Twins(c: Config, s: Shared, p: Pid, r: Pid) {
    && p != r && p in s.procs && r in s.procs && Reserved(s, p) && Reserved(s, r)
    && c.prefix.Some? && s.procs[p].name != s.procs[r].name && c.Block(s.procs[p].name) == c.Block(s.procs[r].name)
  }

  lemma ActReserves(c: Config, s: Shared, p: Pid, a: Action)
    requires p in s.procs && !Choosing(s.procs[p].pc)
    ensures var t := Act(c, s, p, s.procs[p], a);
            p in t.procs && t.procs[p].name == s.procs[p].name && (Reserved(t, p) ==> Reserved(s, p))
  {
  }

  /** An Add that reserves its block anew has passed the check in this step. */
  lemma StepReserves(c: Config, s: Shared, a: Action)
    requires Inv(c, s)
    requires a.p in Step(c, s, a).procs && Reserved(Step(c, s, a), a.p)
    requires a.p in s.procs ==> !Reserved(s, a.p)
    ensures InWindow(Step(c, s, a).procs[a.p].pc) && !BlockRefused(c, s, Step(c, s, a).procs[a.p], None)
  {
    if a.p in s.procs && !a.Begin? {
      assert ProcOK(c, s, a.p);
      if Choosing(s.procs[a.p].pc) {
        var q := s.procs[a.p];
        ChooseStays(c, s, q, a);
        assert InWindow(Choose(c, s, q, a).pc) && q.pc.Ported? && a.CheckBlock?;
        assert !BlockRefused(c, s, q, a.gateway);
      } else {
        ActReserves(c, s, a.p, a);
      }
    }
  }

  /** A step as far as blocks go: one Add moves, names stay, and a block reserved anew has passed the check. */
  ghost predicate Reserves(c: Config, s: Shared, t: Shared, p: Pid) {
    && OwnOnly(s, t, p)
    && (forall r :: r in s.procs ==> r in t.procs && t.procs[r].name == s.procs[r].name)
    && (p in t.procs && Reserved(t, p) && (p in s.procs ==> !Reserved(s, p)) ==>
          InWindow(t.procs[p].pc) && !BlockRefused(c, s, t.procs[p], None))
  }

  lemma StepIsReserving(c: Config, s: Shared, a: Action)
    requires Inv(c, s)
    ensures Reserves(c, s, Step(c, s, a), a.p)
  {
    var t := Step(c, s, a);
    StepIsOwn(c, s, a);
    StepNames(c, s, a);
    if a.p in t.procs && Reserved(t, a.p) && (a.p in s.procs ==> !Reserved(s, a.p)) { StepReserves(c, s, a); }
  }

  /** New twins have both passed the check without a row in the table. */
  lemma NewTwins(c: Config, s: Shared, t: Shared, p: Pid, r: Pid)
    requires RowsOwned(s) && Reserves(c, s, t, p) && Twins(c, t, p, r) && !Twins(c, s, p, r)
    ensures Overlap(t, p, r)
  {
  }

  lemma StepNames(c: Config, s: Shared, a: Action)
    ensures forall r :: r in s.procs ==> r in Step(c, s, a).procs && Step(c, s, a).procs[r].name == s.procs[r].name
  {
    if a.p in s.procs && !a.Begin? {
      if Choosing(s.procs[a.p].pc) {
        ChooseStays(c, s, s.procs[a.p], a);
      } else {
        ActReserves(c, s, a.p, a);
        ActIsOwnProcs(c, s, a.p, a);
      }
    }
  }

  lemma OverlapsNow(c: Config, s: Shared, h: seq<Action>, p: Pid, r: Pid)
    requires Overlap(Run(c, s, h), p, r)
    ensures Overlapped(c, s, h, p, r)
  {
    assert h[..|h|] == h;
  }

  lemma OverlappedBefore(c: Config, s: Shared, h: seq<Action>, p: Pid, r: Pid)
    requires h != [] && Overlapped(c, s, h[..|h| - 1], p, r)
    ensures Overlapped(c, s, h, p, r)
  {
    var before := h[..|h| - 1];
    var i :| 0 <= i <= |before| && Overlap(Run(c, s, before[..i]), p, r);
    assert before[..i] == h[..i];
  }

  /** Twins after a step were twins before it, or have come to be by it. */
  lemma TwinsStep(c: Config, s: Shared, t: Shared, p: Pid, r: Pid, mover: Pid)
    requires RowsOwned(s) && Reserves(c, s, t, mover) && Twins(c, t, p, r)
    ensures Twins(c, s, p, r) || Overlap(t, p, r)
  {
    if !Twins(c, s, p, r) {
      if mover == p { NewTwins(c, s, t, p, r); } else if mover == r { NewTwins(c, s, t, r, p); }
    }
  }

  lemma {:induction false} TwinsOverlapped(c: Config, s: Shared, h: seq<Action>, p: Pid, r: Pid)
    requires Start(s) && Twins(c, Run(c, s, h), p, r)
    ensures Overlapped(c, s, h, p, r)
  {
    assert h != [];
    var before, a := h[..|h| - 1], h[|h| - 1];
    RunsKeepRowsOwned(c, s, before);
    StepIsReserving(c, Run(c, s, before), a);
    TwinsStep(c, Run(c, s, before), Run(c, s, h), p, r, a.p);
    if Overlap(Run(c, s, h), p, r) {
      OverlapsNow(c, s, h, p, r);
    } else {
      TwinsOverlapped(c, s, before, p, r);
      OverlappedBefore(c, s, h, p, r);
    }
  }

  /** No Add past the block check has the block of another name's row from before. */
  ghost predicate ApartFromOld(c: Config, s: Shared)
    requires c.prefix.Some?
  {
    forall p, i :: p in s.procs && Reserved(s, p) && i in s.rows && s.rows[i].owner.None? ==>
      s.rows[i].name == s.procs[p].name || c.Block(s.rows[i].name) != c.Block(s.procs[p].name)
  }

  lemma StepKeepsApart(c: Config, s: Shared, t: Shared, p: Pid)
    requires c.prefix.Some? && ApartFromOld(c, s) && Reserves(c, s, t, p)
    ensures ApartFromOld(c, t)
  {
  }

  lemma {:induction false} RunsKeepApart(c: Config, s: Shared, h: seq<Action>)
    requires Start(s) && c.prefix.Some?
    ensures ApartFromOld(c, Run(c, s, h))
  {
    if h != [] {
      StartHolds(c, s);
      RunsKeepInv(c, s, h[..|h| - 1]);
      RunsKeepApart(c, s, h[..|h| - 1]);
      StepIsReserving(c, Run(c, s, h[..|h| - 1]), h[|h| - 1]);
      StepKeepsApart(c, Run(c, s, h[..|h| - 1]), Run(c, s, h), h[|h| - 1].p);
    }
  }

  /** The rows from before do not share blocks. */
  ghost predicate OldBlocksDistinct(c: Config, s: Shared)
    requires c.prefix.Some?
  {
    forall i, j :: i in s.rows && j in s.rows && i != j && s.rows[i].owner.None? && s.rows[j].owner.None? ==>
      c.Block(s.rows[i].name) != c.Block(s.rows[j].name)
  }

  lemma {:induction false} RunsKeepOldRows(c: Config, s: Shared, h: seq<Action>)
    requires Start(s) && c.prefix.Some? && OldBlocksDistinct(c, s)
    ensures OldBlocksDistinct(c, Run(c, s, h))
  {
    if h != [] {
      StartHolds(c, s);
      RunsKeepInv(c, s, h[..|h| - 1]);
      RunsKeepOldRows(c, s, h[..|h| - 1]);
      StepIsOwn(c, Run(c, s, h[..|h| - 1]), h[|h| - 1]);
    }
  }

  /**
   Whatever fails, two rows share an IPv6 block only if both were inserted in
   the race, by Adds that at some moment had both passed the check with neither
   having inserted: nothing but timing keeps them apart.
   */
  lemma SharedBlockNeedsOverlap(c: Config, s: Shared, h: seq<Action>, i: nat, j: nat)
    requires Start(s) && c.prefix.Some? && OldBlocksDistinct(c, s) && i != j
    requires var rows := Run(c, s, h).rows;
             i in rows && j in rows && c.Block(rows[i].name) == c.Block(rows[j].name)
    ensures var rows := Run(c, s, h).rows;
            rows[i].owner.Some? && rows[j].owner.Some? && Overlapped(c, s, h, rows[i].owner.value, rows[j].owner.value)
  {
    var t := Run(c, s, h);
    RunsKeepRowsOwned(c, s, h);
    RunsKeepApart(c, s, h);
    RunsKeepOldRows(c, s, h);
    if t.rows[i].owner.Some? { assert Reserved(t, t.rows[i].owner.value); }
    if t.rows[j].owner.Some? { assert Reserved(t, t.rows[j].owner.value); }
    TwinsOverlapped(c, s, h, t.rows[i].owner.value, t.rows[j].owner.value);
  }
}
