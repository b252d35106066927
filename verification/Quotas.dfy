/**
 Live quota changes: LXD first with an undo stack, the row last, the traffic
 quota written before and restored on failure. Closed form of the outcome for
 every combination of failing calls, and what it guarantees.
 */
module Quotas {
  import opened Wrappers
  import opened World
  import Cpu

  /** Values <= 0 (traffic < 0) leave the field alone. */
  datatype Request = Request(cpu: int, memMB: int, diskGB: int, trafficGB: int)

  datatype Faults = Faults(
    trafficOk: bool, cpu: Setting, mem: Setting, disk: Setting, rowOk: bool,
    undoCpu: Setting, undoMem: Setting, undoDisk: Setting, restoreOk: bool)

  function Pick(requested: int, current: int): int { if requested > 0 then requested else current }

  /** A field of the instance after one forward write. */
  function Forward(requested: int, current: int, outcome: Setting): int {
    if requested > 0 && !outcome.Refused? then requested else current
  }

  predicate StepOk(requested: int, outcome: Setting) { requested <= 0 || outcome.Applied? }

  /** A field of the instance after a failed update that got as far as writing it, or not. */
  function Backward(requested: int, live: int, stored: int, reached: bool, outcome: Setting, undo: Setting): int {
    if requested <= 0 || !reached || outcome.Refused? then live
    else if outcome.Applied? && !undo.Refused? then stored
    else requested
  }

  /** Whether the update got past the CPU write, and past the memory write. */
  predicate PastCpu(lxd: map<Name, Instance>, name: Name, q: Request, f: Faults) { StepOk(q.cpu, On(lxd, name, f.cpu)) }

  predicate PastMem(lxd: map<Name, Instance>, name: Name, q: Request, f: Faults) {
    PastCpu(lxd, name, q, f) && StepOk(q.memMB, On(lxd, name, f.mem))
  }

  predicate PastDisk(lxd: map<Name, Instance>, name: Name, q: Request, f: Faults) {
    PastMem(lxd, name, q, f) && StepOk(q.diskGB, On(lxd, name, f.disk))
  }

  function UpdateError(s: State, name: Name, q: Request, f: Faults): Option<Error> {
    if name !in s.users then Some(NoSuchUser)
    else if q.cpu > 0 && !Cpu.ValidCPU(q.cpu) then Some(InvalidCPU)
    else if 0 < q.diskGB < s.users[name].diskGB then Some(DiskCannotShrink)
    else if !PastDisk(s.lxd, name, q, f) then Some(LXDRefused)
    else if !f.rowOk then Some(DBFailed)
    else None
  }

  /** The instance after UpdateQuotas has run its writes and, on failure, its undo stack. */
  function InstanceAfter(s: State, name: Name, q: Request, f: Faults): Instance
    requires name in s.users && name in s.lxd
  {
    var u, i := s.users[name], s.lxd[name];
    match UpdateError(s, name, q, f)
    case None => i.(cpu := Pick(q.cpu, i.cpu), memMB := Pick(q.memMB, i.memMB), diskGB := Pick(q.diskGB, i.diskGB))
    case Some(e) =>
      if e.InvalidCPU? || e.DiskCannotShrink? then i
      else i.(
        cpu := Backward(q.cpu, i.cpu, u.cpu, true, f.cpu, f.undoCpu),
        memMB := Backward(q.memMB, i.memMB, u.memMB, PastCpu(s.lxd, name, q, f), f.mem, f.undoMem),
        diskGB := Backward(q.diskGB, i.diskGB, u.diskGB, PastMem(s.lxd, name, q, f), f.disk, f.undoDisk))
  }

  function RowAfter(u: User, q: Request): User {
    u.(cpu := Pick(q.cpu, u.cpu), memMB := Pick(q.memMB, u.memMB), diskGB := Pick(q.diskGB, u.diskGB))
  }

  function UpdateState(s: State, name: Name, q: Request, f: Faults): State {
    if name !in s.users then s
    else
      s.(lxd := if name in s.lxd then s.lxd[name := InstanceAfter(s, name, q, f)] else s.lxd,
         users := if UpdateError(s, name, q, f).None? then s.users[name := RowAfter(s.users[name], q)] else s.users)
  }

  function SetTraffic(s: State, name: Name, gb: int): State
    requires name in s.users
  {
    s.(users := s.users[name := s.users[name].(quotaGB := gb)])
  }

  /** UpdateQuotasAndTraffic. */
  function FullState(s: State, name: Name, q: Request, f: Faults): State {
    if name !in s.users || (q.trafficGB >= 0 && !f.trafficOk) then s
    else
      var begun := if q.trafficGB >= 0 then SetTraffic(s, name, q.trafficGB) else s;
      var done := UpdateState(begun, name, q, f);
      if UpdateError(begun, name, q, f).Some? && q.trafficGB >= 0 && f.restoreOk
      then SetTraffic(done, name, s.users[name].quotaGB) else done
  }

  function FullError(s: State, name: Name, q: Request, f: Faults): Option<Error> {
    if name !in s.users then Some(NoSuchUser)
    else if q.trafficGB >= 0 && !f.trafficOk then Some(DBFailed)
    else UpdateError(s, name, q, f)
  }

  // ---- guarantees ----

  /** The instance has the limits its row says. */
  predicate LimitsAgree(s: State, name: Name) {
    name in s.users && name in s.lxd ==>
      && s.lxd[name].cpu == s.users[name].cpu
      && s.lxd[name].memMB == s.users[name].memMB
      && s.lxd[name].diskGB == s.users[name].diskGB
  }

  /** What a successful update makes of one field: the value asked for, or the old one when none is. */
  predicate Takes(requested: int, before: int, after: int) {
    if requested > 0 then after == requested else after == before
  }

  /** A successful update puts the request into the row, keeps row and instance in agreement and touches nobody else. */
  lemma SuccessAgrees(s: State, name: Name, q: Request, f: Faults)
    requires LimitsAgree(s, name) && FullError(s, name, q, f).None?
    ensures var t := FullState(s, name, q, f);
            && name in s.users && name in t.users
            && (var u, v := s.users[name], t.users[name];
                && Takes(q.cpu, u.cpu, v.cpu) && Takes(q.memMB, u.memMB, v.memMB) && Takes(q.diskGB, u.diskGB, v.diskGB)
                && v.quotaGB == (if q.trafficGB >= 0 then q.trafficGB else u.quotaGB)
                && v == u.(cpu := v.cpu, memMB := v.memMB, diskGB := v.diskGB, quotaGB := v.quotaGB))
            && t == s.(users := s.users[name := t.users[name]], lxd := t.lxd)
            && t.lxd - {name} == s.lxd - {name} && (name in t.lxd <==> name in s.lxd)
            && (name in s.lxd ==>
                  var u := t.users[name];
                  t.lxd[name] == s.lxd[name].(cpu := u.cpu, memMB := u.memMB, diskGB := u.diskGB))
  {
  }

  /**
   An update succeeds if and only if it asks for a valid CPU quota and no smaller
   disk, and every call it makes works.
   */
  lemma SucceedsExact(s: State, name: Name, q: Request, f: Faults)
    ensures FullError(s, name, q, f).None? <==>
              && name in s.users
              && (q.trafficGB >= 0 ==> f.trafficOk)
              && (q.cpu > 0 ==> (q.cpu < 10 || q.cpu % 10 == 0) && name in s.lxd && f.cpu.Applied?)
              && (q.memMB > 0 ==> name in s.lxd && f.mem.Applied?)
              && (q.diskGB > 0 ==> q.diskGB >= s.users[name].diskGB && name in s.lxd && f.disk.Applied?)
              && f.rowOk
  {
    if name in s.users && q.trafficGB >= 0 { TrafficAside(s, name, q.trafficGB, q, f); }
  }

  /** The write took effect in LXD and was not taken back. */
  predicate LeftBehind(requested: int, outcome: Setting, undo: Setting) {
    requested > 0 && (outcome.AppliedWithError? || (outcome.Applied? && undo.Refused?))
  }

  /** The writes go in the order CPU, memory, disk, each only if none before it failed. */
  predicate CpuLeft(q: Request, f: Faults) { LeftBehind(q.cpu, f.cpu, f.undoCpu) }

  predicate MemLeft(q: Request, f: Faults) {
    (q.cpu > 0 ==> f.cpu.Applied?) && LeftBehind(q.memMB, f.mem, f.undoMem)
  }

  predicate DiskLeft(q: Request, f: Faults) {
    (q.cpu > 0 ==> f.cpu.Applied?) && (q.memMB > 0 ==> f.mem.Applied?) && LeftBehind(q.diskGB, f.disk, f.undoDisk)
  }

  /**
   A failed update never changes the row's CPU, memory or disk. Each field of
   the instance is the row's, except one whose write was left behind, which has
   the value asked for: its undo was refused, or its own error hid an applied
   change and so nothing was pushed on the undo stack.
   */
  lemma FailureExact(s: State, name: Name, q: Request, f: Faults)
    requires LimitsAgree(s, name) && name in s.lxd
    requires UpdateError(s, name, q, f) in {Some(LXDRefused), Some(DBFailed)}
    ensures var t, u := UpdateState(s, name, q, f), s.users[name];
            && t.users == s.users
            && t.lxd == s.lxd[name := t.lxd[name]]
            && t.lxd[name] == s.lxd[name].(
                 cpu := if CpuLeft(q, f) then q.cpu else u.cpu,
                 memMB := if MemLeft(q, f) then q.memMB else u.memMB,
                 diskGB := if DiskLeft(q, f) then q.diskGB else u.diskGB)
  {
  }

  /** The update reaches LXD, fails, and leaves some field of the instance at another value than the row's. */
  predicate Strands(s: State, name: Name, q: Request, f: Faults) {
    && name in s.users && name in s.lxd && (q.trafficGB >= 0 ==> f.trafficOk)
    && UpdateError(s, name, q, f) in {Some(LXDRefused), Some(DBFailed)}
    && var u := s.users[name];
       || (CpuLeft(q, f) && q.cpu != u.cpu)
       || (MemLeft(q, f) && q.memMB != u.memMB)
       || (DiskLeft(q, f) && q.diskGB != u.diskGB)
  }

  lemma UpdateStateExact(s: State, name: Name, q: Request, f: Faults)
    requires LimitsAgree(s, name) && (q.trafficGB >= 0 ==> f.trafficOk)
    ensures LimitsAgree(UpdateState(s, name, q, f), name) <==> !Strands(s, name, q, f)
  {
    if name in s.users && name in s.lxd && UpdateError(s, name, q, f) in {Some(LXDRefused), Some(DBFailed)} {
      FailureExact(s, name, q, f);
    }
  }

  lemma TrafficAside(s: State, name: Name, gb: int, q: Request, f: Faults)
    requires name in s.users
    ensures var t := SetTraffic(s, name, gb);
            && LimitsAgree(t, name) == LimitsAgree(s, name)
            && UpdateError(t, name, q, f) == UpdateError(s, name, q, f)
                  && Strands(t, name, q, f) == Strands(s, name, q, f)
  {
  }

  /** From agreement an update ends in agreement if and only if it strands nothing. */
  lemma UpdateAgreesExact(s: State, name: Name, q: Request, f: Faults)
    requires LimitsAgree(s, name)
    ensures LimitsAgree(FullState(s, name, q, f), name) <==> !Strands(s, name, q, f)
  {
    if name in s.users && (q.trafficGB >= 0 ==> f.trafficOk) {
      var begun := if q.trafficGB >= 0 then SetTraffic(s, name, q.trafficGB) else s;
      var done := UpdateState(begun, name, q, f);
      TrafficAside(s, name, q.trafficGB, q, f);
      UpdateStateExact(begun, name, q, f);
      if name in done.users { TrafficAside(done, name, s.users[name].quotaGB, q, f); }
    }
  }

  lemma FailureUpdateExact(s: State, name: Name, q: Request, f: Faults)
    requires LimitsAgree(s, name) && UpdateError(s, name, q, f).Some? && (q.trafficGB >= 0 ==> f.trafficOk)
    ensures UpdateState(s, name, q, f).users == s.users
    ensures UpdateState(s, name, q, f).lxd == s.lxd <==> !Strands(s, name, q, f)
  {
    var t := UpdateState(s, name, q, f);
    if name in s.users && name in s.lxd {
      assert t.lxd == s.lxd[name := InstanceAfter(s, name, q, f)];
      assert t.lxd == s.lxd <==> t.lxd[name] == s.lxd[name];
    }
  }

  /** A failed call in one piece: LXD as the update alone leaves it, and the traffic quota unless it was restored. */
  lemma FullFailure(s: State, name: Name, q: Request, f: Faults)
    requires name in s.users && (q.trafficGB >= 0 ==> f.trafficOk) && UpdateError(s, name, q, f).Some?
    ensures FullState(s, name, q, f) ==
            if q.trafficGB >= 0 && !f.restoreOk
            then SetTraffic(s, name, q.trafficGB).(lxd := UpdateState(s, name, q, f).lxd)
            else s.(lxd := UpdateState(s, name, q, f).lxd)
  {
    if q.trafficGB >= 0 {
      var begun := SetTraffic(s, name, q.trafficGB);
      TrafficAside(s, name, q.trafficGB, q, f);
      assert UpdateState(begun, name, q, f) == begun.(lxd := UpdateState(s, name, q, f).lxd);
      assert begun.users[name := begun.users[name].(quotaGB := s.users[name].quotaGB)] == s.users;
    }
  }

  /**
   A failed update changes nothing at all if and only if it strands no value in
   LXD and a traffic quota it has written with another value is restored.
   */
  lemma FailureRestoresAll(s: State, name: Name, q: Request, f: Faults)
    requires LimitsAgree(s, name) && FullError(s, name, q, f).Some?
    ensures FullState(s, name, q, f) == s <==>
              && !Strands(s, name, q, f)
              && (name in s.users && q.trafficGB >= 0 && f.trafficOk && q.trafficGB != s.users[name].quotaGB ==>
                    f.restoreOk)
  {
    if name in s.users && (q.trafficGB >= 0 ==> f.trafficOk) {
      FullFailure(s, name, q, f);
      FailureUpdateExact(s, name, q, f);
      var requoted := s.users[name := s.users[name].(quotaGB := q.trafficGB)];
      assert requoted == s.users <==> requoted[name] == s.users[name];
    }
  }

  /** From s to t only this row's limits and this instance's limits may have moved. */
  ghost predicate Touches(s: State, t: State, name: Name) {
    && t == s.(users := t.users, lxd := t.lxd)
    && t.users.Keys == s.users.Keys && t.lxd.Keys == s.lxd.Keys
    && (forall n :: n in s.users ==> t.users[n] == if n == name then SameSlot(s.users[n], t.users[n]) else s.users[n])
    && (forall n :: n in s.lxd ==> t.lxd[n] == if n == name then SameNic(s.lxd[n], t.lxd[n]) else s.lxd[n])
  }

  function SameSlot(u: User, v: User): User {
    v.(idx := u.idx, ip := u.ip, sshPort := u.sshPort, startPort := u.startPort)
  }

  function SameNic(i: Instance, j: Instance): Instance { j.(ip := i.ip, rate := i.rate) }

  lemma UpdateStateTouches(s: State, name: Name, q: Request, f: Faults)
    ensures Touches(s, UpdateState(s, name, q, f), name)
    ensures name in s.users ==> UpdateState(s, name, q, f).users[name].diskGB >= s.users[name].diskGB
    ensures name in s.users && UpdateError(s, name, q, f).Some? ==> UpdateState(s, name, q, f).users == s.users
  {
    if name in s.users && name in s.lxd {
      var i := InstanceAfter(s, name, q, f);
      assert i == SameNic(s.lxd[name], i);
    }
  }

  lemma SetTrafficTouches(s: State, name: Name, gb: int)
    requires name in s.users
    ensures Touches(s, SetTraffic(s, name, gb), name)
  {
  }

  /**
   Whatever fails, an update moves only this row and this instance, never
   shrinks the row's disk, and on failure moves nothing of the row but its
   traffic quota.
   */
  lemma UpdateTouches(s: State, name: Name, q: Request, f: Faults)
    ensures var t := FullState(s, name, q, f);
            && Touches(s, t, name)
            && (name in s.users ==> t.users[name].diskGB >= s.users[name].diskGB)
            && (name in s.users && FullError(s, name, q, f).Some? ==>
                  t.users[name] == s.users[name].(quotaGB := t.users[name].quotaGB))
  {
    if name in s.users && !(q.trafficGB >= 0 && !f.trafficOk) {
      var begun := if q.trafficGB >= 0 then SetTraffic(s, name, q.trafficGB) else s;
      var done := UpdateState(begun, name, q, f);
      UpdateStateTouches(begun, name, q, f);
      assert Touches(s, begun, name);
      TouchesCompose(s, begun, done, name);
      if UpdateError(begun, name, q, f).Some? && q.trafficGB >= 0 && f.restoreOk {
        SetTrafficTouches(done, name, s.users[name].quotaGB);
        TouchesCompose(s, done, SetTraffic(done, name, s.users[name].quotaGB), name);
      }
    }
  }

  lemma TouchesCompose(s: State, m: State, t: State, name: Name)
    requires Touches(s, m, name) && Touches(m, t, name)
    ensures Touches(s, t, name)
  {
  }

  datatype Update = Update(name: Name, request: Request, faults: Faults)

  type Updates = seq<Update>

  function RunUpdates(s: State, h: Updates): State {
    if h == [] then s
    else
      var last := h[|h| - 1];
      FullState(RunUpdates(s, h[..|h| - 1]), last.name, last.request, last.faults)
  }

  /** Over any run of updates, whatever fails, no row's disk size ever decreases. */
  lemma {:induction false} DiskNeverShrinks(s: State, h: Updates, n: Name)
    requires n in s.users
    ensures n in RunUpdates(s, h).users && RunUpdates(s, h).users[n].diskGB >= s.users[n].diskGB
  {
    if h != [] {
      DiskNeverShrinks(s, h[..|h| - 1], n);
      var last := h[|h| - 1];
      var before := RunUpdates(s, h[..|h| - 1]);
      UpdateTouches(before, last.name, last.request, last.faults);
      assert RunUpdates(s, h) == FullState(before, last.name, last.request, last.faults);
    }
  }
}
