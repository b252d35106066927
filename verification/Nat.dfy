/** The DNAT rules: one file of rules per user, included in some order, first match wins. */
module Nat {
  import opened Wrappers
  import opened World
  import opened Allocation

  type Files = map<Name, seq<Rule>>

  /** Where a packet goes: an address and a port. */
  datatype Target = Target(ip: IPv4, port: int)

  /** The prerouting rules WriteUser renders for a row. */
  function UserRules(u: User): seq<Rule> {
    var last := u.startPort + PORTS_PER_USER - 1;
    [Rule(Tcp, u.sshPort, u.sshPort, u.ip, Some(22)),
     Rule(Tcp, u.startPort, last, u.ip, None),
     Rule(Udp, u.startPort, last, u.ip, None)]
  }

  predicate Matches(r: Rule, proto: Proto, port: int) { r.proto == proto && r.first <= port <= r.last }

  function TargetOf(r: Rule, port: int): Target { Target(r.ip, if r.port.Some? then r.port.value else port) }

  /** First match wins along the chain. */
  function Lookup(rules: seq<Rule>, proto: Proto, port: int): Option<Target> {
    if rules == [] then None
    else if Matches(rules[0], proto, port) then Some(TargetOf(rules[0], port))
    else Lookup(rules[1..], proto, port)
  }

  /** The chain that results from including the files in the given order. */
  function Chain(files: Files, order: seq<Name>): seq<Rule>
    requires forall n :: n in order ==> n in files
  {
    if order == [] then [] else files[order[0]] + Chain(files, order[1..])
  }

  ghost predicate InFiles(files: Files, r: Rule) { exists n :: n in files && r in files[n] }

  /** No two rules send the same packet to different places. */
  ghost predicate Functional(files: Files) {
    forall r, s, proto, port :: InFiles(files, r) && InFiles(files, s) && Matches(r, proto, port)
        && Matches(s, proto, port)
      ==> TargetOf(r, port) == TargetOf(s, port)
  }

  lemma {:induction false} LookupFinds(rules: seq<Rule>, proto: Proto, port: int)
    ensures Lookup(rules, proto, port).None? <==> forall r :: r in rules ==> !Matches(r, proto, port)
    ensures Lookup(rules, proto, port).Some? ==>
              exists r :: r in rules && Matches(r, proto, port) && Lookup(rules, proto, port) == Some(TargetOf(r, port))
  {
    if rules != [] {
      LookupFinds(rules[1..], proto, port);
      assert rules == [rules[0]] + rules[1..];
      assert forall r :: r in rules <==> r == rules[0] || r in rules[1..];
    }
  }

  lemma {:induction false} ChainRules(files: Files, order: seq<Name>)
    requires forall n :: n in order ==> n in files
    ensures forall r :: r in Chain(files, order) <==> exists n :: n in order && r in files[n]
  {
    if order != [] {
      ChainRules(files, order[1..]);
      assert forall n :: n in order <==> n == order[0] || n in order[1..];
    }
  }

  /** With functional rules the order in which the files are included does not matter for any packet. */
  lemma OrderIrrelevant(files: Files, o1: seq<Name>, o2: seq<Name>, proto: Proto, port: int)
    requires Functional(files)
    requires forall n :: n in files <==> n in o1
    requires forall n :: n in files <==> n in o2
    ensures Lookup(Chain(files, o1), proto, port) == Lookup(Chain(files, o2), proto, port)
  {
    ChainRules(files, o1);
    ChainRules(files, o2);
    assert forall r :: r in Chain(files, o1) <==> InFiles(files, r);
    assert forall r :: r in Chain(files, o2) <==> InFiles(files, r);
    LookupFinds(Chain(files, o1), proto, port);
    LookupFinds(Chain(files, o2), proto, port);
  }

  // ---- the port scheme ----

  predicate InBlock(idx: int, port: int) {
    var start := USER_PORT_BASE + (idx - 1) * PORTS_PER_USER;
    start <= port < start + PORTS_PER_USER
  }

  /** The 200 blocks tile 10000..29999: each such port is in the block of exactly one index, any other port in none. */
  lemma BlocksTile(port: int)
    ensures 10000 <= port <= 29999 <==> exists idx :: 1 <= idx <= MAX_USERS && InBlock(idx, port)
    ensures forall i, j :: InBlock(i, port) && InBlock(j, port) ==> i == j
  {
    var idx := (port - USER_PORT_BASE) / PORTS_PER_USER + 1;
    assert InBlock(idx, port);
  }

  /** Every file renders the row of its name. */
  ghost predicate FilesFromRows(users: map<Name, User>, files: Files) {
    forall n :: n in files ==> n in users && files[n] == UserRules(users[n])
  }

  /** A packet a well-formed row's rules match is for its SSH port or for its block. */
  lemma RowTarget(c: Config, u: User, r: Rule, proto: Proto, port: int)
    requires RowOK(c, u) && r in UserRules(u) && Matches(r, proto, port)
    ensures TargetOf(r, port) == Target(u.ip, if port == u.sshPort then 22 else port)
    ensures port == u.sshPort || (port <= 29999 && InBlock(u.idx, port))
  {
    assert 1 <= u.idx <= MAX_USERS;
  }

  /** Rows whose rules cannot clash: an SSH port is shared only within one slot. */
  ghost predicate Compatible(c: Config, users: map<Name, User>) {
    && (forall n :: n in users ==> RowOK(c, users[n]))
    && (forall m, n :: m in users && n in users && m != n ==>
          users[m].idx == users[n].idx || users[m].sshPort != users[n].sshPort)
  }

  /** Files rendered from compatible rows, so from the rows of any well-formed table, are functional. */
  lemma TableFunctional(c: Config, users: map<Name, User>, files: Files)
    requires Compatible(c, users) && FilesFromRows(users, files)
    ensures Functional(files)
  {
    forall r, s, proto, port | InFiles(files, r) && InFiles(files, s) && Matches(r, proto, port)
        && Matches(s, proto, port)
      ensures TargetOf(r, port) == TargetOf(s, port)
    {
      var m :| m in files && r in files[m];
      var n :| n in files && s in files[n];
      RowTarget(c, users[m], r, proto, port);
      RowTarget(c, users[n], s, proto, port);
      BlocksTile(port);
    }
  }

  /** Two files that send one SSH port to different containers. */
  lemma SharedPortConflicts(files: Files, m: Name, u: User, n: Name, v: User)
    requires m in files && files[m] == UserRules(u) && n in files && files[n] == UserRules(v)
    requires u.sshPort == v.sshPort && u.ip != v.ip
    ensures !Functional(files)
  {
    var r, q := UserRules(u)[0], UserRules(v)[0];
    assert r in files[m] && q in files[n];
    assert InFiles(files, r) && InFiles(files, q);
    assert Matches(r, Tcp, u.sshPort) && Matches(q, Tcp, u.sshPort);
    assert TargetOf(r, u.sshPort) != TargetOf(q, u.sshPort);
  }

  /** Files rendered one by one from well-formed rows are functional if and only if the rows are compatible. */
  lemma RulesetExact(c: Config, rows: map<Name, User>, files: Files)
    requires rows.Keys == files.Keys && (forall n :: n in rows ==> RowOK(c, rows[n])) && FilesFromRows(rows, files)
    ensures Functional(files) <==> Compatible(c, rows)
  {
    if Compatible(c, rows) {
      TableFunctional(c, rows, files);
    } else {
      var m, n :| m in rows && n in rows && m != n && rows[m].idx != rows[n].idx && rows[m].sshPort == rows[n].sshPort;
      ContainerIPInjective(c.subnet, rows[m].idx, rows[n].idx);
      SharedPortConflicts(files, m, rows[m], n, rows[n]);
    }
  }

  // ---- where packets go ----

  /** The ports of a row: its SSH port by TCP, its block by both protocols. */
  predicate Serves(u: User, proto: Proto, port: int) {
    (proto.Tcp? && port == u.sshPort) || u.startPort <= port <= u.startPort + 99
  }

  /** A row's rules match exactly the ports of the row. */
  lemma RulesServe(u: User, proto: Proto, port: int)
    ensures Serves(u, proto, port) <==> exists r :: r in UserRules(u) && Matches(r, proto, port)
  {
    var rules := UserRules(u);
    if proto.Tcp? && port == u.sshPort {
      assert rules[0] in rules && Matches(rules[0], proto, port);
    } else if u.startPort <= port <= u.startPort + 99 {
      var r := if proto.Tcp? then rules[1] else rules[2];
      assert r in rules && Matches(r, proto, port);
    }
  }

  lemma ServedLookup(c: Config, users: map<Name, User>, files: Files, order: seq<Name>, n: Name, proto: Proto,
      port: int)
    requires TableOK(c, users) && files.Keys == users.Keys && FilesFromRows(users, files)
    requires (forall n :: n in files <==> n in order) && n in users && Serves(users[n], proto, port)
    ensures Lookup(Chain(files, order), proto, port) ==
            Some(Target(users[n].ip, if port == users[n].sshPort then 22 else port))
  {
    RulesServe(users[n], proto, port);
    var r :| r in UserRules(users[n]) && Matches(r, proto, port);
    ChainRules(files, order);
    LookupFinds(Chain(files, order), proto, port);
    TableFunctional(c, users, files);
    RowTarget(c, users[n], r, proto, port);
    assert r in Chain(files, order) && InFiles(files, r);
    var q :| q in Chain(files, order) && Matches(q, proto, port)
              && Lookup(Chain(files, order), proto, port) == Some(TargetOf(q, port));
    assert InFiles(files, q);
  }

  /**
   With the file of every row loaded, in any order: TCP to a user's SSH port
   goes to port 22 of its container; TCP and UDP to each of the 100 ports of
   its block go to the same port of its container; no other packet is
   forwarded.
   */
  lemma Routing(c: Config, users: map<Name, User>, files: Files, order: seq<Name>, proto: Proto, port: int)
    requires TableOK(c, users) && files.Keys == users.Keys && FilesFromRows(users, files)
    requires forall n :: n in files <==> n in order
    ensures var found := Lookup(Chain(files, order), proto, port);
            && (forall n :: n in users && proto.Tcp? && port == users[n].sshPort ==>
                  found == Some(Target(users[n].ip, 22)))
            && (forall n :: n in users && users[n].startPort <= port <= users[n].startPort + 99 ==>
                  found == Some(Target(users[n].ip, port)))
            && ((forall n :: n in users ==>
                   !(proto.Tcp? && port == users[n].sshPort)
                       && !(users[n].startPort <= port <= users[n].startPort + 99))
                ==> found == None)
  {
    forall n | n in users && Serves(users[n], proto, port)
      ensures Lookup(Chain(files, order), proto, port) ==
              Some(Target(users[n].ip, if port == users[n].sshPort then 22 else port))
    {
      ServedLookup(c, users, files, order, n, proto, port);
    }
    forall n | n in users && users[n].startPort <= port <= users[n].startPort + 99 ensures port != users[n].sshPort {
      assert RowOK(c, users[n]) && 1 <= users[n].idx <= MAX_USERS;
    }
    if forall n :: n in users ==> !Serves(users[n], proto, port) {
      NothingServed(users, files, order, proto, port);
    }
  }

  lemma NothingServed(users: map<Name, User>, files: Files, order: seq<Name>, proto: Proto, port: int)
    requires FilesFromRows(users, files) && forall n :: n in order ==> n in files
    requires forall n :: n in users ==> !Serves(users[n], proto, port)
    ensures Lookup(Chain(files, order), proto, port) == None
  {
    ChainRules(files, order);
    LookupFinds(Chain(files, order), proto, port);
    forall r | r in Chain(files, order) ensures !Matches(r, proto, port) {
      var n :| n in order && r in files[n];
      RulesServe(users[n], proto, port);
    }
  }
}
