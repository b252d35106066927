/** Picking an index, an address and an SSH port for a new user. */
module Allocation {
  import opened Wrappers
  import opened World

  // ---- IPv4 ----

  function ContainerIP(subnet: Subnet, idx: int): Result<IPv4, Error> {
    if subnet.ones != 24 then Err(NotSlash24)
    else if idx < 1 || idx > MAX_USERS then Err(IdxOutOfRange)
    else Ok(subnet.net.(d := (idx + 1) % 256))
  }

  /** In a /24 the container of slot idx has host number idx + 1; nothing else is accepted. */
  lemma ContainerIPExact(subnet: Subnet, idx: int)
    ensures ContainerIP(subnet, idx).Ok? <==> subnet.ones == 24 && 1 <= idx <= 200
    ensures ContainerIP(subnet, idx).Ok? ==>
              ContainerIP(subnet, idx).value == IPv4(subnet.net.a, subnet.net.b, subnet.net.c, idx + 1)
  {
  }

  /** Container addresses are distinct per index and never the network, gateway or broadcast address. */
  lemma ContainerIPInjective(subnet: Subnet, i: int, j: int)
    ensures ContainerIP(subnet, i).Ok? ==> 2 <= ContainerIP(subnet, i).value.d <= 254
    ensures ContainerIP(subnet, i).Ok? && ContainerIP(subnet, i) == ContainerIP(subnet, j) ==> i == j
  {
  }

  // ---- index ----

  function UsedIdx(users: map<Name, User>): set<int> { set n | n in users :: users[n].idx }

  /** The free indices 1..upTo in ascending order. */
  function FreeSlots(used: set<int>, upTo: nat): seq<int> {
    if upTo == 0 then [] else FreeSlots(used, upTo - 1) + if upTo in used then [] else [upTo]
  }

  function Draw(free: seq<int>, draw: Option<nat>): Result<int, Error> {
    if free == [] then Err(LimitReached)
    else if draw.None? then Err(RandomFailed)
    else Ok(free[draw.value % |free|])
  }

  /** draw is the random number source; None when it fails. */
  function PickIdx(used: set<int>, draw: Option<nat>): Result<int, Error> {
    Draw(FreeSlots(used, MAX_USERS), draw)
  }

  method NextFreeIdx(users: map<Name, User>, draw: Option<nat>) returns (r: Result<int, Error>)
    ensures r == PickIdx(UsedIdx(users), draw)
  {
    var used := {};
    var rows := users.Keys;
    while rows != {}
      invariant rows <= users.Keys
      invariant used == set n | n in users && n !in rows :: users[n].idx
    {
      var n :| n in rows;
      used := used + {users[n].idx};
      rows := rows - {n};
    }
    assert used == UsedIdx(users);
    var free := [];
    for i := 1 to MAX_USERS + 1
      invariant free == FreeSlots(used, i - 1)
    {
      if i !in used { free := free + [i]; }
    }
    if |free| == 0 { return Err(LimitReached); }
    if draw.None? { return Err(RandomFailed); }
    return Ok(free[draw.value % |free|]);
  }

  lemma {:induction false} FreeSlotsExact(used: set<int>, upTo: nat, i: int)
    ensures i in FreeSlots(used, upTo) <==> 1 <= i <= upTo && i !in used
  {
    if upTo > 0 { FreeSlotsExact(used, upTo - 1, i); }
  }

  /** A drawn index is free and in range, every free index can be drawn, and the limit error means all 200 are taken. */
  lemma PickIdxExact(used: set<int>, draw: Option<nat>)
    ensures var r := PickIdx(used, draw); r.Ok? ==> 1 <= r.value <= MAX_USERS && r.value !in used
    ensures forall i :: 1 <= i <= MAX_USERS && i !in used ==> exists d: nat :: PickIdx(used, Some(d)) == Ok(i)
    ensures PickIdx(used, draw) == Err(LimitReached) <==> forall i :: 1 <= i <= MAX_USERS ==> i in used
  {
    var free := FreeSlots(used, MAX_USERS);
    forall i: int ensures i in free <==> 1 <= i <= MAX_USERS && i !in used {
      FreeSlotsExact(used, MAX_USERS, i);
    }
    forall i | i in free ensures exists d: nat :: PickIdx(used, Some(d)) == Ok(i) {
      DrawReaches(free, i);
      var d: nat :| Draw(free, Some(d)) == Ok(i);
      assert PickIdx(used, Some(d)) == Ok(i);
    }
    if free != [] {
      assert free[0] in free;
      if draw.Some? { assert free[draw.value % |free|] in free; }
    }
  }

  /** A draw succeeds if and only if a slot is free and there is randomness. */
  lemma PickIdxOk(used: set<int>, draw: Option<nat>)
    ensures PickIdx(used, draw).Ok? <==> draw.Some? && exists i :: 1 <= i <= 200 && i !in used
  {
    PickIdxExact(used, draw);
  }

  lemma DrawReaches(free: seq<int>, i: int)
    requires i in free
    ensures exists d: nat :: Draw(free, Some(d)) == Ok(i)
  {
    var d: nat :| d < |free| && free[d] == i;
    assert d % |free| == d;
    assert Draw(free, Some(d)) == Ok(i);
  }

  // ---- counting ----

  function Interval(lo: int, n: nat): (r: set<int>)
    ensures forall i :: i in r <==> lo <= i < lo + n
  {
    if n == 0 then {} else Interval(lo, n - 1) + {lo + n - 1}
  }

  lemma {:induction false} IntervalSize(lo: int, n: nat)
    ensures |Interval(lo, n)| == n
  {
    if n > 0 {
      IntervalSize(lo, n - 1);
      assert lo + n - 1 !in Interval(lo, n - 1);
      assert Interval(lo, n) == Interval(lo, n - 1) + {lo + n - 1};
    }
  }

  lemma {:induction false} SubsetSize<T>(a: set<T>, b: set<T>)
    requires a <= b
    ensures |a| <= |b| && (|a| == |b| ==> a == b)
  {
    var rest := b - a;
    assert b == a + rest;
    assert |b| == |a| + |rest|;
  }

  /** A column without repeated values has as many values as the table has rows. */
  lemma {:induction false} ColumnSize(users: map<Name, User>, names: set<Name>)
    requires names <= users.Keys
    requires forall m, n :: m in names && n in names && users[m].idx == users[n].idx ==> m == n
    ensures |set n | n in names :: users[n].idx| == |names|
  {
    var column := set n | n in names :: users[n].idx;
    if names == {} {
      assert column <= {};
    } else {
      var m :| m in names;
      var rest := names - {m};
      ColumnSize(users, rest);
      assert column == (set n | n in rest :: users[n].idx) + {users[m].idx};
    }
  }

  // ---- SSH port ----

  function UsedPorts(users: map<Name, User>): set<int> { set n | n in users :: users[n].sshPort }

  function LowestFree(used: set<int>, p: int): Result<int, Error>
    requires SSH_PORT_BASE <= p <= SSH_PORT_BASE + SSH_PORT_COUNT
    decreases SSH_PORT_BASE + SSH_PORT_COUNT - p
  {
    if p == SSH_PORT_BASE + SSH_PORT_COUNT then Err(NoFreeSSHPort)
    else if p !in used then Ok(p)
    else LowestFree(used, p + 1)
  }

  /** picks are the random draws that succeed before the source fails; at most 32 are used. */
  function FirstPick(used: set<int>, picks: seq<nat>, i: nat): Result<int, Error>
    decreases |picks| - i
  {
    if i >= |picks| || i >= 32 then LowestFree(used, SSH_PORT_BASE)
    else if SSH_PORT_BASE + picks[i] % SSH_PORT_COUNT !in used then Ok(SSH_PORT_BASE + picks[i] % SSH_PORT_COUNT)
    else FirstPick(used, picks, i + 1)
  }

  function PickPort(used: set<int>, picks: seq<nat>): Result<int, Error> {
    if |used| >= SSH_PORT_COUNT then Err(SSHPoolExhausted) else FirstPick(used, picks, 0)
  }

  method AllocSSHPort(users: map<Name, User>, picks: seq<nat>) returns (r: Result<int, Error>)
    ensures r == PickPort(UsedPorts(users), picks)
  {
    var used := UsedPorts(users);
    if |used| >= SSH_PORT_COUNT {
      return Err(SSHPoolExhausted);
    }
    var i := 0;
    while i < 32 && i < |picks|
      invariant 0 <= i <= 32 && i <= |picks|
      invariant FirstPick(used, picks, 0) == FirstPick(used, picks, i)
    {
      var p := SSH_PORT_BASE + picks[i] % SSH_PORT_COUNT;
      if p !in used { return Ok(p); }
      i := i + 1;
    }
    for p := SSH_PORT_BASE to SSH_PORT_BASE + SSH_PORT_COUNT
      invariant FirstPick(used, picks, 0) == LowestFree(used, p)
    {
      if p !in used { return Ok(p); }
    }
    return Err(NoFreeSSHPort);
  }

  lemma {:induction false} LowestFreeExact(used: set<int>, p: int)
    requires SSH_PORT_BASE <= p <= SSH_PORT_BASE + SSH_PORT_COUNT
    ensures var r := LowestFree(used, p);
            && (r.Err? ==> r == Err(NoFreeSSHPort) && forall q :: p <= q < SSH_PORT_BASE + SSH_PORT_COUNT ==> q in used)
            && (r.Ok? ==> p <= r.value < SSH_PORT_BASE + SSH_PORT_COUNT && r.value !in used)
    decreases SSH_PORT_BASE + SSH_PORT_COUNT - p
  {
    if p < SSH_PORT_BASE + SSH_PORT_COUNT && p in used { LowestFreeExact(used, p + 1); }
  }

  lemma {:induction false} FirstPickExact(used: set<int>, picks: seq<nat>, i: nat)
    requires |used| < SSH_PORT_COUNT
    ensures var r := FirstPick(used, picks, i);
            r.Ok? && SSH_PORT_BASE <= r.value < SSH_PORT_BASE + SSH_PORT_COUNT && r.value !in used
    decreases |picks| - i
  {
    if i >= |picks| || i >= 32 {
      LowestFreeExact(used, SSH_PORT_BASE);
      if LowestFree(used, SSH_PORT_BASE).Err? {
        IntervalSize(SSH_PORT_BASE, SSH_PORT_COUNT);
        SubsetSize(Interval(SSH_PORT_BASE, SSH_PORT_COUNT), used);
        assert false;
      }
    } else if SSH_PORT_BASE + picks[i] % SSH_PORT_COUNT in used {
      FirstPickExact(used, picks, i + 1);
    }
  }

  /**
   Whatever the random picks, a free in-range port comes out whenever fewer
   than 2000 are used: the last error of allocSSHPort is unreachable. The pool
   error is exact on tables whose ports are all in range.
   */
  lemma PickPortExact(used: set<int>, picks: seq<nat>)
    ensures var r := PickPort(used, picks);
            && (|used| < SSH_PORT_COUNT ==>
                  r.Ok? && SSH_PORT_BASE <= r.value < SSH_PORT_BASE + SSH_PORT_COUNT && r.value !in used)
            && r != Err(NoFreeSSHPort)
    ensures used <= Interval(SSH_PORT_BASE, SSH_PORT_COUNT) ==>
              (PickPort(used, picks) == Err(SSHPoolExhausted) <==> used == Interval(SSH_PORT_BASE, SSH_PORT_COUNT))
  {
    if |used| < SSH_PORT_COUNT { FirstPickExact(used, picks, 0); }
    IntervalSize(SSH_PORT_BASE, SSH_PORT_COUNT);
    if used <= Interval(SSH_PORT_BASE, SSH_PORT_COUNT) {
      SubsetSize(used, Interval(SSH_PORT_BASE, SSH_PORT_COUNT));
    }
  }

  /** The port the i-th draw stands for. */
  function Drawn(picks: seq<nat>, i: nat): int
    requires i < |picks|
  {
    30000 + picks[i] % 2000
  }

  lemma {:induction false} FirstPickTakes(used: set<int>, picks: seq<nat>, i: nat, j: nat)
    requires i <= j < |picks| && j < 32 && Drawn(picks, j) !in used
    requires forall k :: i <= k < j ==> Drawn(picks, k) in used
    ensures FirstPick(used, picks, i) == Ok(Drawn(picks, j))
    decreases j - i
  {
    assert Drawn(picks, i) == SSH_PORT_BASE + picks[i] % SSH_PORT_COUNT;
    if i < j { FirstPickTakes(used, picks, i + 1, j); }
  }

  lemma {:induction false} FirstPickFalls(used: set<int>, picks: seq<nat>, i: nat)
    requires forall k :: i <= k < |picks| && k < 32 ==> Drawn(picks, k) in used
    ensures FirstPick(used, picks, i) == LowestFree(used, SSH_PORT_BASE)
    decreases |picks| - i
  {
    if i < |picks| && i < 32 {
      assert Drawn(picks, i) == SSH_PORT_BASE + picks[i] % SSH_PORT_COUNT;
      FirstPickFalls(used, picks, i + 1);
    }
  }

  lemma {:induction false} LowestIs(used: set<int>, p: int, q: int)
    requires 30000 <= p <= q < 32000 && q !in used && forall k :: p <= k < q ==> k in used
    ensures LowestFree(used, p) == Ok(q)
    decreases q - p
  {
    if p < q { LowestIs(used, p + 1, q); }
  }

  /** The first free port among the first 32 draws is taken, and failing all of them the lowest free one. */
  lemma PickPortTakes(used: set<int>, picks: seq<nat>, j: nat, q: int)
    requires |used| < 2000
    ensures j < |picks| && j < 32 && Drawn(picks, j) !in used
              && (forall k :: 0 <= k < j ==> Drawn(picks, k) in used) ==>
              PickPort(used, picks) == Ok(Drawn(picks, j))
    ensures (forall k :: 0 <= k < |picks| && k < 32 ==> Drawn(picks, k) in used) && 30000 <= q < 32000 && q !in used
            && (forall k :: 30000 <= k < q ==> k in used) ==>
              PickPort(used, picks) == Ok(q)
  {
    if j < |picks| && j < 32 && Drawn(picks, j) !in used && forall k :: 0 <= k < j ==> Drawn(picks, k) in used {
      FirstPickTakes(used, picks, 0, j);
    }
    if (forall k :: 0 <= k < |picks| && k < 32 ==> Drawn(picks, k) in used) && 30000 <= q < 32000 && q !in used
       && forall k :: 30000 <= k < q ==> k in used {
      FirstPickFalls(used, picks, 0);
      LowestIs(used, 30000, q);
    }
  }

  /** With no port used the first draw is taken. */
  lemma FirstPickIs(used: set<int>, picks: seq<nat>, k: nat)
    requires used == {} && picks != [] && picks[0] == k < SSH_PORT_COUNT
    ensures PickPort(used, picks) == Ok(SSH_PORT_BASE + k)
  {
    assert k % SSH_PORT_COUNT == k;
    assert FirstPick(used, picks, 0) == Ok(SSH_PORT_BASE + k);
  }

  /** Draws for the first two slots. */
  lemma FirstSlots(used: set<int>) returns (one: nat, two: nat)
    requires used == {}
    ensures PickIdx(used, Some(one)) == Ok(1) && PickIdx(used, Some(two)) == Ok(2)
  {
    PickIdxExact(used, None);
    assert 1 !in used && 2 !in used;
    one :| PickIdx(used, Some(one)) == Ok(1);
    two :| PickIdx(used, Some(two)) == Ok(2);
  }

  /** A port is found if and only if fewer than 2000 are used. */
  lemma PickPortOk(used: set<int>, picks: seq<nat>)
    ensures PickPort(used, picks).Ok? <==> |used| < 2000
  {
    PickPortExact(used, picks);
  }

  // ---- the users table ----

  predicate RowOK(c: Config, u: User) {
    && ContainerIP(c.subnet, u.idx) == Ok(u.ip)
    && SSH_PORT_BASE <= u.sshPort < SSH_PORT_BASE + SSH_PORT_COUNT
    && u.startPort == USER_PORT_BASE + (u.idx - 1) * PORTS_PER_USER
  }

  /** Every row well-formed, idx and ssh_port unique. */
  ghost predicate TableOK(c: Config, users: map<Name, User>) {
    && (forall n :: n in users ==> RowOK(c, users[n]))
    && (forall m, n :: m in users && n in users && m != n ==>
          users[m].idx != users[n].idx && users[m].sshPort != users[n].sshPort)
  }

  lemma RowCount(c: Config, users: map<Name, User>)
    requires TableOK(c, users)
    ensures |UsedIdx(users)| == |users| <= MAX_USERS
    ensures UsedIdx(users) <= Interval(1, MAX_USERS)
  {
    var used := UsedIdx(users);
    ColumnSize(users, users.Keys);
    assert used == (set n | n in users.Keys :: users[n].idx);
    IntervalSize(1, MAX_USERS);
    SubsetSize(used, Interval(1, MAX_USERS));
  }

  /** In a well-formed table the user limit is reported exactly at 200 rows. */
  lemma LimitExact(c: Config, users: map<Name, User>, draw: Option<nat>)
    requires TableOK(c, users)
    ensures PickIdx(UsedIdx(users), draw) == Err(LimitReached) <==> |users| == MAX_USERS
  {
    var used, all := UsedIdx(users), Interval(1, MAX_USERS);
    RowCount(c, users);
    IntervalSize(1, MAX_USERS);
    SubsetSize(used, all);
    PickIdxExact(used, draw);
    assert used == all <==> forall i :: 1 <= i <= MAX_USERS ==> i in used;
  }

  /** A well-formed table never runs out of SSH ports. */
  lemma PortsSuffice(c: Config, users: map<Name, User>, picks: seq<nat>)
    requires TableOK(c, users)
    ensures PickPort(UsedPorts(users), picks).Ok?
  {
    RowCount(c, users);
    PortCount(users, users.Keys);
    assert UsedPorts(users) == (set n | n in users.Keys :: users[n].sshPort);
    PickPortExact(UsedPorts(users), picks);
  }

  lemma {:induction false} PortCount(users: map<Name, User>, names: set<Name>)
    requires names <= users.Keys
    ensures |set n | n in names :: users[n].sshPort| <= |names|
  {
    var column := set n | n in names :: users[n].sshPort;
    if names == {} {
      assert column <= {};
    } else {
      var m :| m in names;
      var rest := names - {m};
      PortCount(users, rest);
      assert column == (set n | n in rest :: users[n].sshPort) + {users[m].sshPort};
    }
  }
}
