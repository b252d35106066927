/**
 What needs some calls to work, exactly: over any run of operations with any
 calls failing, an agreement of two stores holds after every operation if and
 only if each operation, in the state it met, was one that keeps it.
 */
module RunsExact {
  import opened Wrappers
  import opened World
  import opened Allocation
  import opened Nat
  import opened Fleet
  import opened Runs
  import Domains
  import Plumbing
  import Quotas
  import Reconcile
  import Throttle
  import Traffic

  /** The states a run goes through, the first to the last. */
  ghost function States(c: Config, s: State, ops: seq<Op>): (r: seq<State>)
    ensures |r| == |ops| + 1
  {
    seq(|ops| + 1, i requires 0 <= i <= |ops| => Run(c, s, ops[..i]))
  }

  /** P holds from the start to the end. */
  ghost predicate Always<S>(states: seq<S>, P: S -> bool) { forall i :: 0 <= i < |states| ==> P(states[i]) }

  /** Every operation satisfies T in the state it meets. */
  ghost predicate Throughout<S, O>(states: seq<S>, ops: seq<O>, T: (S, O) -> bool)
    requires |states| == |ops| + 1
  {
    forall i :: 0 <= i < |ops| ==> T(states[i], ops[i])
  }

  lemma StatesStep(c: Config, s: State, ops: seq<Op>, i: nat)
    requires i < |ops|
    ensures States(c, s, ops)[0] == s && States(c, s, ops)[i + 1] == Step(c, States(c, s, ops)[i], ops[i])
  {
    assert ops[..i + 1][..i] == ops[..i];
  }

  /** Step by step, P carries over as long as T holds. */
  lemma {:induction false} CarriesOver<S, O>(states: seq<S>, ops: seq<O>, P: S -> bool, T: (S, O) -> bool, k: nat)
    requires |states| == |ops| + 1 && P(states[0]) && k <= |ops|
    requires forall i :: 0 <= i < |ops| ==> P(states[i]) ==> (P(states[i + 1]) <==> T(states[i], ops[i]))
    requires Throughout(states, ops, T)
    ensures P(states[k])
  {
    if k > 0 {
      CarriesOver(states, ops, P, T, k - 1);
      assert T(states[k - 1], ops[k - 1]);
    }
  }

  lemma StepsIff<S, O>(states: seq<S>, ops: seq<O>, P: S -> bool, T: (S, O) -> bool)
    requires |states| == |ops| + 1 && P(states[0])
    requires forall i :: 0 <= i < |ops| ==> P(states[i]) ==> (P(states[i + 1]) <==> T(states[i], ops[i]))
    ensures Always(states, P) <==> Throughout(states, ops, T)
  {
    if Always(states, P) {
      forall i | 0 <= i < |ops| ensures T(states[i], ops[i]) { assert P(states[i]) && P(states[i + 1]); }
    }
    if Throughout(states, ops, T) {
      forall k: nat | k < |states| ensures P(states[k]) { CarriesOver(states, ops, P, T, k); }
    }
  }

  /** What is exact for every step is exact for every run. */
  lemma RunIff(c: Config, s: State, ops: seq<Op>, P: State -> bool, T: (State, Op) -> bool)
    requires P(s)
    requires forall t: State, op: Op :: P(t) ==> (P(Step(c, t, op)) <==> T(t, op))
    ensures Always(States(c, s, ops), P) <==> Throughout(States(c, s, ops), ops, T)
  {
    var states := States(c, s, ops);
    assert states[0] == s by { assert ops[..0] == []; }
    forall i | 0 <= i < |ops| ensures P(states[i]) ==> (P(states[i + 1]) <==> T(states[i], ops[i])) {
      StatesStep(c, s, ops, i);
    }
    StepsIff(states, ops, P, T);
  }

  /** The same for what is exact only in a sound fleet, which every run keeps. */
  lemma FleetRunIff(c: Config, s: State, ops: seq<Op>, P: State -> bool, T: (State, Op) -> bool)
    requires FleetOK(c, s) && P(s)
    requires forall t: State, op: Op :: FleetOK(c, t) && P(t) ==> (P(Step(c, t, op)) <==> T(t, op))
    ensures Always(States(c, s, ops), P) <==> Throughout(States(c, s, ops), ops, T)
  {
    var states := States(c, s, ops);
    assert states[0] == s by { assert ops[..0] == []; }
    forall i | 0 <= i < |ops| ensures P(states[i]) ==> (P(states[i + 1]) <==> T(states[i], ops[i])) {
      StatesStep(c, s, ops, i);
      RunsKeepFleet(c, s, ops[..i]);
    }
    StepsIff(states, ops, P, T);
  }

  // ---- ndppd rules ----

  /** Del gets past the container. */
  predicate DelGoesOn(s: State, name: Name, f: DelFaults) { ValidName(name) && name in s.users && f.remove.Removed? }

  /** After a rollback or a Del, row and rule are either both there or both gone. */
  ghost predicate RulesTidy(c: Config, s: State, op: Op) {
    c.prefix.Some? ==>
      match op
      case Add(name, opt, f) =>
        AddPlan(c, s, name, opt, f).Ok? && f.launch.Created? && FailsAt(c, opt, f).Some? ==>
          (Plumbing.RowLeft(f, FailsAt(c, opt, f).value) <==> Plumbing.RuleLeft(f, FailsAt(c, opt, f).value))
      case Del(name, f) => DelGoesOn(s, name, f) ==> (f.rowDeleteOk <==> !f.unwire.NotWritten?)
      case _ => true
  }

  lemma StepKeepsRules(c: Config, s: State, op: Op)
    requires FleetOK(c, s) && Plumbing.RulesExact(c, s)
    ensures Plumbing.RulesExact(c, Step(c, s, op)) <==> RulesTidy(c, s, op)
  {
    match op
    case Add(name, opt, f) => if c.prefix.Some? { Plumbing.AddKeepsRules(c, s, name, opt, f); }
    case Del(name, f) =>
      if c.prefix.Some? {
        if DelGoesOn(s, name, f) { Plumbing.DelKeepsRules(c, s, name, f); }
        else { Plumbing.DelStoppedKeepsRules(c, s, name, f); }
      }
    case Reinstall(name, f) => Plumbing.ReinstallKeepsRules(c, s, name, f);
    case _ => StepQuiet(c, s, op);
  }

  /**
   The ndppd rules are the blocks of the current rows after every operation if
   and only if each rollback and each Del leaves row and rule together.
   */
  lemma RunsKeepRules(c: Config, s: State, ops: seq<Op>)
    requires FleetOK(c, s) && Plumbing.RulesExact(c, s)
    ensures Always(States(c, s, ops), t => Plumbing.RulesExact(c, t)) <==>
              Throughout(States(c, s, ops), ops, (t, op) => RulesTidy(c, t, op))
  {
    var P, T := t => Plumbing.RulesExact(c, t), (t, op) => RulesTidy(c, t, op);
    forall t: State, op: Op | FleetOK(c, t) && P(t)
        ensures P(Step(c, t, op)) <==> T(t, op) { StepKeepsRules(c, t, op); }
    FleetRunIff(c, s, ops, P, T);
  }

  // ---- nft files and the loaded ruleset ----

  /** A deleted row takes its file with it. */
  ghost predicate FilesTidy(c: Config, s: State, op: Op) {
    match op
    case Add(name, opt, f) => !Plumbing.FileLeft(c, s, name, opt, f)
    case Del(name, f) => DelGoesOn(s, name, f) ==> f.nftRemoveOk || !f.rowDeleteOk || name !in s.nftFiles
    case _ => true
  }

  lemma SameSlotsKeepFiles(c: Config, s: State, t: State)
    requires Plumbing.FilesOK(s) && SameSlots(s, t) && t.nftFiles == s.nftFiles && t.nftLive == s.nftLive
    ensures Plumbing.FilesOK(t)
  {
    forall n | n in s.users ensures UserRules(t.users[n]) == UserRules(s.users[n]) {
      assert t.users[n] == Quotas.SameSlot(s.users[n], t.users[n]);
    }
  }

  lemma DelOrStopKeepsFiles(c: Config, s: State, name: Name, f: DelFaults)
    requires FleetOK(c, s) && Plumbing.FilesOK(s)
    ensures Plumbing.FilesOK(DelState(c, s, name, f)) <==>
              (DelGoesOn(s, name, f) ==> f.nftRemoveOk || !f.rowDeleteOk || name !in s.nftFiles)
  {
    if DelGoesOn(s, name, f) { Plumbing.DelKeepsFiles(c, s, name, f); }
  }

  lemma StepKeepsFiles(c: Config, s: State, op: Op)
    requires FleetOK(c, s) && Plumbing.FilesOK(s)
    ensures Plumbing.FilesOK(Step(c, s, op)) <==> FilesTidy(c, s, op)
  {
    match op
    case Add(name, opt, f) => Plumbing.AddKeepsFiles(c, s, name, opt, f);
    case Del(name, f) => DelOrStopKeepsFiles(c, s, name, f);
    case Reinstall(name, f) => Throttle.ReinstallTouches(c, s, name, f);
    case _ =>
      StepQuiet(c, s, op);
      SameSlotsKeepFiles(c, s, Step(c, s, op));
  }

  /**
   Every nft file renders a row, and the loaded ruleset is a function of the
   packet, after every operation if and only if each deleted row takes its file
   with it.
   */
  lemma RunsKeepFiles(c: Config, s: State, ops: seq<Op>)
    requires FleetOK(c, s) && Plumbing.FilesOK(s)
    ensures Always(States(c, s, ops), t => Plumbing.FilesOK(t)) <==>
              Throughout(States(c, s, ops), ops, (t, op) => FilesTidy(c, t, op))
  {
    var P, T := t => Plumbing.FilesOK(t), (t, op) => FilesTidy(c, t, op);
    forall t: State, op: Op | FleetOK(c, t) && P(t)
        ensures P(Step(c, t, op)) <==> T(t, op) { StepKeepsFiles(c, t, op); }
    FleetRunIff(c, s, ops, P, T);
  }

  // ---- files in step with the rows, and where packets go ----

  predicate DelInStep(s: State, name: Name, f: DelFaults) {
    DelGoesOn(s, name, f) ==> (f.rowDeleteOk <==> f.nftRemoveOk) && (f.nftRemoveOk ==> f.reloadOk)
  }

  /** Row, file and loaded rules come and go together. */
  ghost predicate StepTidy(c: Config, s: State, op: Op) {
    match op
    case Add(name, opt, f) =>
      AddPlan(c, s, name, opt, f).Ok? && f.launch.Created? && FailsAt(c, opt, f).Some? ==>
        !Plumbing.PartsStep(f, FailsAt(c, opt, f).value)
    case Del(name, f) => DelInStep(s, name, f)
    case _ => true
  }

  lemma DelOrStopKeepsStep(c: Config, s: State, name: Name, f: DelFaults)
    requires Plumbing.InStep(s)
    ensures Plumbing.InStep(DelState(c, s, name, f)) <==> DelInStep(s, name, f)
  {
    if DelGoesOn(s, name, f) { Plumbing.DelKeepsStep(c, s, name, f); }
  }

  lemma SameSlotsKeepStep(s: State, t: State)
    requires Plumbing.InStep(s) && SameSlots(s, t) && t.nftFiles == s.nftFiles && t.nftLive == s.nftLive
    ensures Plumbing.InStep(t)
  {
    forall n | n in s.users ensures UserRules(t.users[n]) == UserRules(s.users[n]) {
      assert t.users[n] == Quotas.SameSlot(s.users[n], t.users[n]);
    }
  }

  lemma StepKeepsStep(c: Config, s: State, op: Op)
    requires Plumbing.InStep(s) && c.v4Forward
    ensures Plumbing.InStep(Step(c, s, op)) <==> StepTidy(c, s, op)
  {
    match op
    case Add(name, opt, f) => Plumbing.AddKeepsStep(c, s, name, opt, f);
    case Del(name, f) => DelOrStopKeepsStep(c, s, name, f);
    case Reinstall(name, f) => Throttle.ReinstallTouches(c, s, name, f);
    case _ =>
      StepQuiet(c, s, op);
      SameSlotsKeepStep(s, Step(c, s, op));
  }

  /**
   With forwarding on, the loaded rules are exactly those of the rows after
   every operation if and only if row, file and loaded rules come and go
   together in each.
   */
  lemma RunsKeepStep(c: Config, s: State, ops: seq<Op>)
    requires Plumbing.InStep(s) && c.v4Forward
    ensures Always(States(c, s, ops), t => Plumbing.InStep(t)) <==>
              Throughout(States(c, s, ops), ops, (t, op) => StepTidy(c, t, op))
  {
    var P, T := t => Plumbing.InStep(t), (t, op) => StepTidy(c, t, op);
    forall t: State, op: Op | P(t) ensures P(Step(c, t, op)) <==> T(t, op) { StepKeepsStep(c, t, op); }
    RunIff(c, s, ops, P, T);
  }

  /**
   In every state so reached, in whatever order the files are loaded, each user
   gets its SSH port and the 100 ports of its block by both protocols, and no
   other packet is forwarded.
   */
  lemma ReachableRouting(c: Config, ops: seq<Op>, order: seq<Name>, n: Name, proto: Proto, port: int)
    requires c.v4Forward && Throughout(States(c, EMPTY, ops), ops, (t, op) => StepTidy(c, t, op))
    requires forall n :: n in Run(c, EMPTY, ops).nftLive <==> n in order
    ensures var users := Run(c, EMPTY, ops).users;
            var found := Lookup(Chain(Run(c, EMPTY, ops).nftLive, order), proto, port);
            && (n in users && proto.Tcp? && port == users[n].sshPort ==> found == Some(Target(users[n].ip, 22)))
            && (n in users && users[n].startPort <= port <= users[n].startPort + 99 ==>
                  found == Some(Target(users[n].ip, port)))
            && ((forall m :: m in users ==>
                   !(proto.Tcp? && port == users[m].sshPort)
                       && !(users[m].startPort <= port <= users[m].startPort + 99))
                ==> found == None)
  {
    RunsKeepStep(c, EMPTY, ops);
    RunsKeepFleet(c, EMPTY, ops);
    var t := Run(c, EMPTY, ops);
    assert Plumbing.InStep(t) by {
      var states := States(c, EMPTY, ops);
      assert ops[..|ops|] == ops && states[|ops|] == t;
    }
    Routing(c, t.users, t.nftLive, order, proto, port);
  }

  // ---- Traefik directory ----

  /**
   The compensating database call of a failed domain operation works, and Del
   clears the files of the rows it drops.
   */
  predicate DirTidy(s: State, op: Op) {
    match op
    case Bind(name, d, on, f) => Domains.AddDomainError(s, name, d, f) == Some(FileFailed) ==> f.undoOk
    case Unbind(name, d, f) => Domains.DelDomainError(s, name, d, f) == Some(FileFailed) ==> f.undoOk
    case SetProtocol(name, d, on, f) => Domains.SetProtocolError(s, name, d, on, f) == Some(FileFailed) ==> f.undoOk
    case Del(name, f) =>
      DelGoesOn(s, name, f) ==>
        || !f.rowDeleteOk || DomainsOf(s, name) == {}
        || (f.sessionsOk && DomainsOf(s, name) !! f.stuckFiles)
    case _ => true
  }

  lemma SameTablesKeepDir(s: State, t: State)
    requires Domains.DirOK(s) && t.domains == s.domains && t.traefik == s.traefik
    requires forall n :: n in s.users ==> n in t.users && t.users[n].ip == s.users[n].ip
    ensures Domains.DirOK(t)
  {
  }

  lemma DelOrStopKeepsDir(c: Config, s: State, name: Name, f: DelFaults)
    requires Domains.DirOK(s)
    ensures Domains.DirOK(DelState(c, s, name, f)) <==> DirTidy(s, Del(name, f))
  {
    if DelGoesOn(s, name, f) { Reconcile.DelKeepsDir(c, s, name, f); }
    else { SameTablesKeepDir(s, DelState(c, s, name, f)); }
  }

  lemma BindingKeepsDir(c: Config, s: State, op: Op)
    requires Domains.DirOK(s) && Binding(op)
    ensures Domains.DirOK(Step(c, s, op)) <==> DirTidy(s, op)
  {
    match op
    case Bind(name, d, on, f) => Domains.AddDomainKeepsDir(s, name, d, on, f);
    case Unbind(name, d, f) => Domains.DelDomainKeepsDir(s, name, d, f);
    case SetProtocol(name, d, on, f) => Domains.SetProtocolKeepsDir(s, name, d, on, f);
  }

  lemma AddKeepsDir(c: Config, s: State, name: Name, opt: AddOptions, f: AddFaults)
    requires Domains.DirOK(s)
    ensures Domains.DirOK(AddState(c, s, name, opt, f))
  {
    AddTouches(c, s, name, opt, f);
    AddFrame(c, s, name, opt, f);
    var t := AddState(c, s, name, opt, f);
    if t.users != s.users { assert name !in s.users; }
    SameTablesKeepDir(s, t);
  }

  lemma UpdateKeepsDir(s: State, name: Name, q: Quotas.Request, f: Quotas.Faults)
    requires Domains.DirOK(s)
    ensures Domains.DirOK(Quotas.FullState(s, name, q, f))
  {
    Quotas.UpdateTouches(s, name, q, f);
    SameTablesKeepDir(s, Quotas.FullState(s, name, q, f));
  }

  lemma ReinstallKeepsDir(c: Config, s: State, name: Name, f: ReinstallFaults)
    requires Domains.DirOK(s)
    ensures Domains.DirOK(ReinstallState(c, s, name, f))
  {
    SameTablesKeepDir(s, ReinstallState(c, s, name, f));
  }

  lemma SampleKeepsDir(s: State, traffic: map<Name, Traffic.Usage>)
    requires Domains.DirOK(s)
    ensures Domains.DirOK(s.(traffic := traffic))
  {
    SameTablesKeepDir(s, s.(traffic := traffic));
  }

  lemma EnforceKeepsDir(s: State, f: Throttle.Faults)
    requires Domains.DirOK(s)
    ensures Domains.DirOK(Throttle.EnforceState(s, f))
  {
    SameTablesKeepDir(s, Throttle.EnforceState(s, f));
  }

  lemma StepKeepsDir(c: Config, s: State, op: Op)
    requires Domains.DirOK(s)
    ensures Domains.DirOK(Step(c, s, op)) <==> DirTidy(s, op)
  {
    match op
    case Add(name, opt, f) => AddKeepsDir(c, s, name, opt, f);
    case Del(name, f) => DelOrStopKeepsDir(c, s, name, f);
    case Reinstall(name, f) => ReinstallKeepsDir(c, s, name, f);
    case Update(name, q, f) => UpdateKeepsDir(s, name, q, f);
    case Sample(_, _, _) => SampleKeepsDir(s, Step(c, s, op).traffic);
    case Enforce(f) => EnforceKeepsDir(s, f);
    case Sync(f) => Reconcile.SyncKeepsDir(s, f);
    case Restart => SameTablesKeepDir(s, Throttle.Restarted(s));
    case _ => BindingKeepsDir(c, s, op);
  }

  /**
   The Traefik directory renders the domain table after every operation if and
   only if each failed domain operation is compensated and each Del clears the
   files of the rows it drops.
   */
  lemma RunsKeepDir(c: Config, s: State, ops: seq<Op>)
    requires Domains.DirOK(s)
    ensures Always(States(c, s, ops), t => Domains.DirOK(t)) <==>
              Throughout(States(c, s, ops), ops, (t, op) => DirTidy(t, op))
  {
    var P, T := t => Domains.DirOK(t), (t, op) => DirTidy(t, op);
    forall t: State, op: Op | P(t) ensures P(Step(c, t, op)) <==> T(t, op) { StepKeepsDir(c, t, op); }
    RunIff(c, s, ops, P, T);
  }

  // ---- throttle set ----

  /** A throttled user is not rebuilt nor half deleted, and no pass hides a write or misses a limit it must lift. */
  predicate ThrottleTidy(s: State, op: Op) {
    match op
    case Reinstall(name, f) => s.throttled.Some? && name in s.throttled.value ==> f.remove.Kept?
    case Del(name, f) =>
      s.throttled.Some? && ValidName(name) && name in s.throttled.value ==> f.remove.Kept? || DelError(s, name, f).None?
    case Enforce(f) => Throttle.NothingHidden(s, f)
    case _ => true
  }

  lemma SameLimitedKeeps(s: State, t: State)
    requires Throttle.ThrottleOK(s) && t.throttled == s.throttled && t.users.Keys == s.users.Keys
    requires forall n :: n in s.users ==> (Throttle.Limited(t.lxd, n) <==> Throttle.Limited(s.lxd, n))
    ensures Throttle.ThrottleOK(t)
  {
    assert Throttle.LimitedUsers(t) == Throttle.LimitedUsers(s);
  }

  lemma UpdateKeepsThrottle(s: State, name: Name, q: Quotas.Request, f: Quotas.Faults)
    requires Throttle.ThrottleOK(s)
    ensures Throttle.ThrottleOK(Quotas.FullState(s, name, q, f))
  {
    Quotas.UpdateTouches(s, name, q, f);
    SameLimitedKeeps(s, Quotas.FullState(s, name, q, f));
  }

  lemma DelKeepsThrottle(c: Config, s: State, name: Name, f: DelFaults)
    requires Throttle.ThrottleOK(s)
    ensures Throttle.ThrottleOK(DelState(c, s, name, f)) <==> ThrottleTidy(s, Del(name, f))
  {
    if ValidName(name) && s.throttled.Some? { Throttle.DelKeepsAgreement(c, s, name, f); }
  }

  lemma ReinstallKeepsThrottle(c: Config, s: State, name: Name, f: ReinstallFaults)
    requires Throttle.ThrottleOK(s)
    ensures Throttle.ThrottleOK(ReinstallState(c, s, name, f)) <==> ThrottleTidy(s, Reinstall(name, f))
  {
    Throttle.ReinstallTouches(c, s, name, f);
    if s.throttled.Some? { Throttle.ReinstallKeepsAgreement(c, s, name, f); }
  }

  lemma StepKeepsThrottle(c: Config, s: State, op: Op)
    requires Throttle.ThrottleOK(s)
    ensures Throttle.ThrottleOK(Step(c, s, op)) <==> ThrottleTidy(s, op)
  {
    match op
    case Add(name, opt, f) => Throttle.AddKeepsAgreement(c, s, name, opt, f);
    case Del(name, f) => DelKeepsThrottle(c, s, name, f);
    case Reinstall(name, f) => ReinstallKeepsThrottle(c, s, name, f);
    case Update(name, q, f) => UpdateKeepsThrottle(s, name, q, f);
    case Enforce(f) => Throttle.EnforceKeepsAgreement(s, f);
    case Sample(_, _, _) => SameLimitedKeeps(s, Step(c, s, op));
    case Sync(f) => SameLimitedKeeps(s, Reconcile.SyncState(s, f));
    case Restart =>
    case _ =>
      BindingTouches(c, s, op);
      SameLimitedKeeps(s, Step(c, s, op));
  }

  /**
   The throttle set is the set of limited users after every operation if and
   only if no throttled user is rebuilt or half deleted and no pass hides a
   write or misses a limit it must lift.
   */
  lemma RunsKeepThrottle(c: Config, s: State, ops: seq<Op>)
    requires Throttle.ThrottleOK(s)
    ensures Always(States(c, s, ops), t => Throttle.ThrottleOK(t)) <==>
              Throughout(States(c, s, ops), ops, (t, op) => ThrottleTidy(t, op))
  {
    var P, T := t => Throttle.ThrottleOK(t), (t, op) => ThrottleTidy(t, op);
    forall t: State, op: Op | P(t) ensures P(Step(c, t, op)) <==> T(t, op) { StepKeepsThrottle(c, t, op); }
    RunIff(c, s, ops, P, T);
  }

  // ---- limits ----

  /** No failed update of the user's quotas strands a value. */
  predicate LimitsTidy(s: State, op: Op, n: Name) {
    op.Update? && op.name == n ==> !Quotas.Strands(s, n, op.request, op.update)
  }

  lemma UpdateKeepsLimits(s: State, name: Name, q: Quotas.Request, f: Quotas.Faults, n: Name)
    requires Quotas.LimitsAgree(s, n)
    ensures Quotas.LimitsAgree(Quotas.FullState(s, name, q, f), n) <==> (n == name ==> !Quotas.Strands(s, n, q, f))
  {
    if n == name { Quotas.UpdateAgreesExact(s, name, q, f); } else { Quotas.UpdateTouches(s, name, q, f); }
  }

  lemma AddKeepsLimits(c: Config, s: State, name: Name, opt: AddOptions, f: AddFaults, n: Name)
    requires Quotas.LimitsAgree(s, n)
    ensures Quotas.LimitsAgree(AddState(c, s, name, opt, f), n)
  {
    AddTouches(c, s, name, opt, f);
  }

  lemma DelKeepsLimits(c: Config, s: State, name: Name, f: DelFaults, n: Name)
    requires Quotas.LimitsAgree(s, n)
    ensures Quotas.LimitsAgree(DelState(c, s, name, f), n)
  {
  }

  lemma ReinstallKeepsLimits(c: Config, s: State, name: Name, f: ReinstallFaults, n: Name)
    requires Quotas.LimitsAgree(s, n)
    ensures Quotas.LimitsAgree(ReinstallState(c, s, name, f), n)
  {
  }

  lemma SameLimitsKeep(s: State, t: State, n: Name)
    requires Quotas.LimitsAgree(s, n) && t.users == s.users && t.lxd.Keys == s.lxd.Keys
    requires n in s.lxd ==> t.lxd[n] == s.lxd[n].(rate := t.lxd[n].rate)
    ensures Quotas.LimitsAgree(t, n)
  {
  }

  lemma StepKeepsLimits(c: Config, s: State, op: Op, n: Name)
    requires Quotas.LimitsAgree(s, n)
    ensures Quotas.LimitsAgree(Step(c, s, op), n) <==> LimitsTidy(s, op, n)
  {
    match op
    case Add(name, opt, f) => AddKeepsLimits(c, s, name, opt, f, n);
    case Del(name, f) => DelKeepsLimits(c, s, name, f, n);
    case Reinstall(name, f) => ReinstallKeepsLimits(c, s, name, f, n);
    case Update(name, q, f) => UpdateKeepsLimits(s, name, q, f, n);
    case Sample(_, _, _) => SameLimitsKeep(s, Step(c, s, op), n);
    case Enforce(f) => SameLimitsKeep(s, Throttle.EnforceState(s, f), n);
    case Sync(f) => SameLimitsKeep(s, Reconcile.SyncState(s, f), n);
    case Restart => SameLimitsKeep(s, Throttle.Restarted(s), n);
    case _ =>
      BindingTouches(c, s, op);
      SameLimitsKeep(s, Step(c, s, op), n);
  }

  /**
   A container has the CPU, memory and disk its row says after every operation
   if and only if no failed update of its quotas strands a value in LXD.
   */
  lemma RunsKeepLimits(c: Config, s: State, ops: seq<Op>, n: Name)
    requires Quotas.LimitsAgree(s, n)
    ensures Always(States(c, s, ops), t => Quotas.LimitsAgree(t, n)) <==>
              Throughout(States(c, s, ops), ops, (t, op) => LimitsTidy(t, op, n))
  {
    var P, T := t => Quotas.LimitsAgree(t, n), (t, op) => LimitsTidy(t, op, n);
    forall t: State, op: Op | P(t) ensures P(Step(c, t, op)) <==> T(t, op) { StepKeepsLimits(c, t, op, n); }
    RunIff(c, s, ops, P, T);
  }

  // ---- a run to a ruleset that sends a port two ways ----

  const SMALL := AddOptions(10, 64, 1, 0)

  predicate AllWell(f: AddFaults) {
    && !f.poolFull && f.listOk && f.launch.Created? && f.provisionOk && f.configureOk
    && f.insertOk && f.quotaOk && f.nftWriteOk && f.reloadOk
  }

  /** On an empty panel with IPv6 off, an Add whose calls all work succeeds in the slot and on the port drawn. */
  lemma LoneAddSucceeds(c: Config, s: State, name: Name, f: AddFaults, p: Plan)
    requires c.prefix.None? && ContainerIP(c.subnet, p.idx) == Ok(p.ip)
    requires s.users == map[] && s.lxd == map[] && ValidName(name) && AllWell(f)
    requires PickIdx(UsedIdx(s.users), f.draw) == Ok(p.idx) && PickPort(UsedPorts(s.users), f.picks) == Ok(p.sshPort)
    ensures AddState(c, s, name, SMALL, f) == Added(c, s, name, p, SMALL)
    ensures AddResult(c, s, name, SMALL, f) == Ok(NewRow(p, SMALL, 0))
  {
    assert AddPlan(c, s, name, SMALL, f) == Ok(p);
    assert FailsAt(c, SMALL, f).None?;
  }

  /** Two Adds on an empty table that draw different slots and one port. */
  ghost predicate SamePort(c: Config, add: AddFaults, again: AddFaults, p: Plan, q: Plan) {
    && AllWell(add) && AllWell(again) && p.idx != q.idx && p.sshPort == q.sshPort
    && ContainerIP(c.subnet, p.idx) == Ok(p.ip) && ContainerIP(c.subnet, q.idx) == Ok(q.ip)
    && (forall used: set<int> :: used == {} ==>
          && PickIdx(used, add.draw) == Ok(p.idx) && PickPort(used, add.picks) == Ok(p.sshPort)
          && PickIdx(used, again.draw) == Ok(q.idx) && PickPort(used, again.picks) == Ok(q.sshPort))
  }

  lemma SamePortDraws(c: Config, used: set<int>) returns (add: AddFaults, again: AddFaults, p: Plan, q: Plan)
    requires c.subnet.ones == 24 && used == {}
    ensures SamePort(c, add, again, p, q)
  {
    var one, two := FirstSlots(used);
    FirstPickIs(used, [0], 0);
    var undo := CleanupFaults(Wired, Removed, true, true, true);
    add := AddFaults(Some(one), [0], false, None, true, Created, true, Wired, true, true, true, true, true, undo);
    again := add.(draw := Some(two));
    p := Plan(1, ContainerIP(c.subnet, 1).value, SSH_PORT_BASE);
    q := Plan(2, ContainerIP(c.subnet, 2).value, SSH_PORT_BASE);
  }

  lemma LeftoverSteps(c: Config, m: Name, n: Name, add: AddFaults, del: DelFaults, again: AddFaults, p: Plan, q: Plan)
    requires c.prefix.None? && c.v4Forward && m != n && ValidName(m) && ValidName(n) && SamePort(c, add, again, p, q)
    requires del.remove.Removed? && !del.nftRemoveOk && del.rowDeleteOk
    ensures !Functional(AddState(c, DelState(c, AddState(c, EMPTY, m, SMALL, add), m, del), n, SMALL, again).nftLive)
  {
    assert UsedIdx(EMPTY.users) == {} && UsedPorts(EMPTY.users) == {};
    LoneAddSucceeds(c, EMPTY, m, add, p);
    var s := Added(c, EMPTY, m, p, SMALL);
    var t := DelState(c, s, m, del);
    assert t.users == map[] && t.lxd == map[];
    assert UsedIdx(t.users) == {} && UsedPorts(t.users) == {};
    LoneAddSucceeds(c, t, n, again, q);
    AddKeepsFleet(c, EMPTY, m, SMALL, add);
    Plumbing.AddKeepsFiles(c, EMPTY, m, SMALL, add);
    Plumbing.LeftoverFileConflicts(c, s, m, del, n, SMALL, again);
  }

  lemma RunThree(c: Config, x: Op, y: Op, z: Op)
    ensures Run(c, EMPTY, [x, y, z]) == Step(c, Step(c, Step(c, EMPTY, x), y), z)
  {
    assert [x, y, z][..2] == [x, y] && [x, y][..1] == [x] && [x][..0] == [];
    assert Run(c, EMPTY, []) == EMPTY;
    assert Run(c, EMPTY, [x]) == Step(c, EMPTY, x);
    assert Run(c, EMPTY, [x, y]) == Step(c, Step(c, EMPTY, x), y);
  }

  /**
   Adding a user, deleting it with a file that cannot be removed, and adding
   another on the same SSH port leads an empty panel to a loaded ruleset that
   sends the port to two addresses. No other call fails.
   */
  lemma LeftoverRun(c: Config)
    requires c.subnet.ones == 24 && c.prefix.None? && c.v4Forward
    ensures exists add, del, again ::
              && AllWell(add) && AllWell(again) && del == DelFaults(Removed, Wired, false, true, true, true, {})
              && !Functional(Run(c, EMPTY, [Add("a", SMALL, add), Del("a", del), Add("b", SMALL, again)]).nftLive)
  {
    var add, again, p, q := SamePortDraws(c, {});
    var del := DelFaults(Removed, Wired, false, true, true, true, {});
    LeftoverSteps(c, "a", "b", add, del, again, p, q);
    RunThree(c, Add("a", SMALL, add), Del("a", del), Add("b", SMALL, again));
  }
}
