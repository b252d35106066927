/**
 Runs of racing Adds that end badly, built step by step from an empty panel, and
 one kind of race that cannot.
 */
module AddRaceRuns {
  import opened Wrappers
  import opened World
  import opened AddRace
  import Allocation
  import Fleet
  import IPv6

  const NOTHING := Shared(map[], map[], map[], map[])

  /** t comes out of a run from nothing all of whose steps are among those that may be taken. */
  ghost predicate Reaches(c: Config, t: Shared, may: Action -> bool) {
    exists h :: Run(c, NOTHING, h) == t && forall i :: 0 <= i < |h| ==> may(h[i])
  }

  /** Every step whose call works may be taken. */
  ghost predicate Permits(may: Action -> bool) { forall a: Action :: AllWork(a) ==> may(a) }

  lemma Extend(c: Config, t: Shared, a: Action, may: Action -> bool)
    requires Reaches(c, t, may) && may(a)
    ensures Reaches(c, Step(c, t, a), may)
  {
    var h :| Run(c, NOTHING, h) == t && forall i :: 0 <= i < |h| ==> may(h[i]);
    assert (h + [a])[..|h|] == h;
    assert Run(c, NOTHING, h + [a]) == Step(c, t, a);
  }

  /** While nothing is inserted or launched, these draws give any Add the same index. */
  ghost predicate Draws(c: Config, idx: int, port: int, draw: Option<nat>, picks: seq<nat>) {
    && draw.Some? && |picks| >= 32 && Allocation.ContainerIP(c.subnet, idx).Ok?
    && (forall used: set<int> :: used == {} ==>
          Allocation.PickIdx(used, draw) == Ok(idx) && Allocation.PickPort(used, picks) == Ok(port))
  }

  /** An Add that has chosen before anything was launched or inserted. */
  lemma Chooses(c: Config, t: Shared, p: Pid, name: Name, idx: int, port: int, draw: Option<nat>, picks: seq<nat>,
                may: Action -> bool)
    requires Permits(may)
    requires Reaches(c, t, may) && p !in t.procs && t.rows == map[] && Draws(c, idx, port, draw, picks)
    ensures Reaches(c, Set(t, p, Proc(Ported, name, idx, port, None)), may)
  {
    var named, indexed := Proc(Named, name, 0, 0, None), Proc(Indexed, name, idx, 0, None);
    Extend(c, t, Begin(p, name), may);
    assert Step(c, t, Begin(p, name)) == Set(t, p, named);
    ChooseIdx(c, Set(t, p, named), named, idx, port, draw, picks, PickIdx(p, draw));
    Advance(c, t, p, named, PickIdx(p, draw), may);
    ChoosePort(c, Set(t, p, indexed), indexed, idx, port, draw, picks, PickPort(p, picks));
    Advance(c, t, p, indexed, PickPort(p, picks), may);
  }

  /** An Add that has passed its checks before anything was launched or inserted. */
  lemma PassChecks(c: Config, t: Shared, p: Pid, name: Name, idx: int, port: int, draw: Option<nat>, picks: seq<nat>,
                   may: Action -> bool)
    requires Permits(may)
    requires Reaches(c, t, may) && p !in t.procs && t.rows == map[] && t.lxd == map[]
    requires Draws(c, idx, port, draw, picks)
    ensures Reaches(c, Set(t, p, Proc(Checked, name, idx, port, None)), may)
  {
    var ported := Proc(Ported, name, idx, port, None);
    Chooses(c, t, p, name, idx, port, draw, picks, may);
    assert !BlockRefused(c, Set(t, p, ported), ported, None);
    Advance(c, t, p, ported, CheckBlock(p, None), may);
    var cleared := ported.(pc := Cleared);
    assert !Conflict(c, Set(t, p, cleared), cleared);
    Advance(c, t, p, cleared, Check(p, true), may);
  }

  lemma ChooseIdx(c: Config, s: Shared, q: Proc, idx: int, port: int, draw: Option<nat>, picks: seq<nat>, a: Action)
    requires Draws(c, idx, port, draw, picks) && s.rows == map[] && q.pc.Named? && a.PickIdx? && a.draw == draw
    ensures Choose(c, s, q, a) == q.(pc := Indexed, idx := idx)
  {
    assert UsedIdx(s) == {};
  }

  lemma ChoosePort(c: Config, s: Shared, q: Proc, idx: int, port: int, draw: Option<nat>, picks: seq<nat>, a: Action)
    requires Draws(c, idx, port, draw, picks) && s.rows == map[] && q.pc.Indexed? && a.PickPort? && a.picks == picks
    ensures Choose(c, s, q, a) == q.(pc := Ported, port := port)
  {
    assert UsedPorts(s) == {};
  }

  lemma Advance(c: Config, t: Shared, p: Pid, q: Proc, a: Action, may: Action -> bool)
    requires Reaches(c, Set(t, p, q), may) && a.p == p && !a.Begin? && Choosing(q.pc) && may(a)
    ensures Reaches(c, Set(t, p, Choose(c, Set(t, p, q), q, a)), may)
  {
    var before := Set(t, p, q);
    Extend(c, before, a, may);
    assert Step(c, before, a) == Set(t, p, Choose(c, before, q, a));
  }

  /** What an Add has chosen, and the draws that make it choose so. */
  datatype Choice = Choice(idx: int, port: int, draw: Option<nat>, picks: seq<nat>)

  ghost predicate Possible(c: Config, d: Choice) { Draws(c, d.idx, d.port, d.draw, d.picks) }

  function Ready(name: Name, d: Choice): Proc { Proc(Checked, name, d.idx, d.port, None) }

  function TwoReady(m: Name, d: Choice, n: Name, e: Choice): Shared {
    Shared(map[0 := Ready(m, d), 1 := Ready(n, e)], map[], map[], map[])
  }

  /** Two Adds that have both passed their checks, whatever each has drawn. */
  lemma BothChecked(c: Config, m: Name, d: Choice, n: Name, e: Choice, may: Action -> bool)
    requires Permits(may)
    requires Possible(c, d) && Possible(c, e)
    ensures Reaches(c, TwoReady(m, d, n, e), may)
  {
    assert Run(c, NOTHING, []) == NOTHING;
    PassChecks(c, NOTHING, 0, m, d.idx, d.port, d.draw, d.picks, may);
    var t := Set(NOTHING, 0, Ready(m, d));
    PassChecks(c, t, 1, n, e.idx, e.port, e.draw, e.picks, may);
    assert Set(t, 1, Ready(n, e)) == TwoReady(m, d, n, e);
  }

  lemma Move(c: Config, t: Shared, p: Pid, a: Action, may: Action -> bool)
    requires Reaches(c, t, may) && p in t.procs && a.p == p && !a.Begin? && !Choosing(t.procs[p].pc) && may(a)
    ensures Reaches(c, Act(c, t, p, t.procs[p], a), may)
  {
    Extend(c, t, a, may);
  }

  function RowOf(q: Proc, p: Pid): Row { Row(q.name, q.idx, q.port, Some(p)) }

  lemma EmptyInsertable(t: Shared, q: Proc)
    requires t.rows == map[]
    ensures Insertable(t, q)
  {
  }

  /** An Add with a free name, index and port launches and inserts. */
  lemma GetsRow(c: Config, t: Shared, p: Pid, q: Proc, id: nat, may: Action -> bool)
    requires Permits(may)
    requires Reaches(c, t, may) && p in t.procs && t.procs[p] == q && q.pc.Checked? && q.name !in t.lxd
    requires Insertable(t, q) && id !in t.rows
    ensures Reaches(c, Shared(t.procs[p := q.(pc := Inserted, row := Some(id))], t.rows[id := RowOf(q, p)],
                              t.lxd[q.name := Container(IP(c, q), Some(p))], t.files), may)
  {
    var t1 := Shared(t.procs[p := q.(pc := Launched)], t.rows, t.lxd[q.name := Container(IP(c, q), Some(p))], t.files);
    Move(c, t, p, Launch(p, Fleet.Created), may);
    assert Insertable(t1, q.(pc := Launched));
    Move(c, t1, p, Insert(p, id, true), may);
    assert t1.procs[p := q.(pc := Inserted, row := Some(id))] == t.procs[p := q.(pc := Inserted, row := Some(id))];
  }

  function Filed(c: Config, files: map<Name, Pid>, p: Pid, name: Name): map<Name, Pid> {
    if c.v4Forward then files[name := p] else files
  }

  lemma Files(c: Config, t: Shared, p: Pid, q: Proc, may: Action -> bool)
    requires Permits(may)
    requires Reaches(c, t, may) && p in t.procs && t.procs[p] == q && q.pc.Inserted?
    ensures Reaches(c, t.(procs := t.procs[p := q.(pc := Written)], files := Filed(c, t.files, p, q.name)), may)
  {
    Move(c, t, p, Write(p, true), may);
  }

  /** An Add with a row publishes it. */
  lemma Publishes(c: Config, t: Shared, p: Pid, q: Proc, may: Action -> bool)
    requires Permits(may)
    requires Reaches(c, t, may) && p in t.procs && t.procs[p] == q && q.pc.Inserted?
    ensures Reaches(c, t.(procs := t.procs[p := q.(pc := Done)], files := Filed(c, t.files, p, q.name)), may)
  {
    var t1 := t.(procs := t.procs[p := q.(pc := Written)], files := Filed(c, t.files, p, q.name));
    Files(c, t, p, q, may);
    Move(c, t1, p, Finish(p), may);
    assert t1.procs[p := q.(pc := Done)] == t.procs[p := q.(pc := Done)];
  }

  function Finished(q: Proc, id: nat): Proc { q.(pc := Done, row := Some(id)) }

  /** The world once the Add has gone through. */
  function Through(c: Config, t: Shared, p: Pid, q: Proc, id: nat): Shared {
    Shared(t.procs[p := Finished(q, id)], t.rows[id := RowOf(q, p)],
           t.lxd[q.name := Container(IP(c, q), Some(p))], Filed(c, t.files, p, q.name))
  }

  /** From its launch on, such an Add goes through. */
  lemma GoesThrough(c: Config, t: Shared, p: Pid, q: Proc, id: nat, may: Action -> bool)
    requires Permits(may)
    requires Reaches(c, t, may) && p in t.procs && t.procs[p] == q && q.pc.Checked? && q.name !in t.lxd
    requires Insertable(t, q) && id !in t.rows
    ensures Reaches(c, Through(c, t, p, q, id), may)
  {
    GetsRow(c, t, p, q, id, may);
    var q' := q.(pc := Inserted, row := Some(id));
    var box := t.lxd[q.name := Container(IP(c, q), Some(p))];
    var t' := Shared(t.procs[p := q'], t.rows[id := RowOf(q, p)], box, t.files);
    Publishes(c, t', p, q', may);
    assert t'.procs[p := q'.(pc := Done)] == t.procs[p := Finished(q, id)];
  }

  /** An Add launches and then fails: its rollback is about to delete the container. */
  lemma StartsUndo(c: Config, t: Shared, p: Pid, q: Proc, may: Action -> bool)
    requires Permits(may) && may(Abort(p))
    requires Reaches(c, t, may) && p in t.procs && t.procs[p] == q && q.pc.Checked? && t.lxd == map[]
    ensures var box := map[q.name := Container(IP(c, q), Some(p))];
            Reaches(c, t.(procs := t.procs[p := q.(pc := UndoContainer)], lxd := box), may)
  {
    var t1 := t.(procs := t.procs[p := q.(pc := Launched)], lxd := map[q.name := Container(IP(c, q), Some(p))]);
    Move(c, t, p, Launch(p, Fleet.Created), may);
    Move(c, t1, p, Abort(p), may);
    assert t1.procs[p := q.(pc := UndoContainer)] == t.procs[p := q.(pc := UndoContainer)];
  }

  lemma Unfiles(c: Config, t: Shared, p: Pid, q: Proc, may: Action -> bool)
    requires Permits(may)
    requires Reaches(c, t, may) && p in t.procs && t.procs[p] == q && q.pc.UndoFile?
    ensures Reaches(c, t.(procs := t.procs[p := q.(pc := UndoRow)], files := t.files - {q.name}), may)
  {
    Move(c, t, p, RemoveFile(p, true), may);
  }

  /** The end of a rollback with no row to delete. */
  lemma EndsUndo(c: Config, t: Shared, p: Pid, q: Proc, may: Action -> bool)
    requires Permits(may)
    requires Reaches(c, t, may) && p in t.procs && t.procs[p] == q && q.pc.UndoFile? && q.row.None?
    ensures Reaches(c, t.(procs := t.procs[p := q.(pc := Failed)], files := t.files - {q.name}), may)
  {
    var t1 := t.(procs := t.procs[p := q.(pc := UndoRow)], files := t.files - {q.name});
    Unfiles(c, t, p, q, may);
    Move(c, t1, p, RemoveRow(p, true), may);
    assert t1.procs[p := q.(pc := Failed)] == t.procs[p := q.(pc := Failed)];
  }

  /** What may happen when every call works but one launch, or one Add after its launch and then its rollback. */
  ghost function Slip(slip: Action): Action -> bool {
    a => AllWork(a) || a == slip || (slip.RemoveContainer? && a == Abort(slip.p))
  }

  /** The first Add fails and its container stays: its launch was partial, or the rollback could not delete it. */
  lemma LeavesContainer(c: Config, t: Shared, q: Proc, slip: Action)
    requires slip == Launch(0, Fleet.FailedAfterCreate) || slip == RemoveContainer(0, Fleet.Kept)
    requires Reaches(c, t, Slip(slip)) && 0 in t.procs && t.procs[0] == q && q.pc.Checked? && q.row.None?
    requires t.lxd == map[] && t.files == map[]
    ensures var box := map[q.name := Container(IP(c, q), Some(0))];
            Reaches(c, t.(procs := t.procs[0 := q.(pc := Failed)], lxd := box), Slip(slip))
  {
    var may := Slip(slip);
    if slip.Launch? {
      Move(c, t, 0, slip, may);
    } else {
      StartsUndo(c, t, 0, q, may);
      var t2 := t.(procs := t.procs[0 := q.(pc := UndoContainer)], lxd := map[q.name := Container(IP(c, q), Some(0))]);
      Move(c, t2, 0, slip, may);
      var t3 := t2.(procs := t2.procs[0 := q.(pc := UndoFile)]);
      EndsUndo(c, t3, 0, q.(pc := UndoFile), may);
      assert t3.procs[0 := q.(pc := Failed)] == t.procs[0 := q.(pc := Failed)] && t3.files - {q.name} == t.files;
    }
  }

  /**
   Both hypotheses on the race are needed. With one partial launch, or one
   failed Add whose rollback cannot delete its container, two Adds of different
   names can end with two live containers on one address, one of them of the
   Add that succeeded. Every other call works.
   */
  lemma LeftoverTakesAddress(c: Config, m: Name, n: Name, slip: Action)
    requires c.subnet.ones == 24 && m != n
    requires slip == Launch(0, Fleet.FailedAfterCreate) || slip == RemoveContainer(0, Fleet.Kept)
    ensures exists t :: Reaches(c, t, Slip(slip)) && Ended(t) && m in t.lxd && n in t.lxd && t.lxd[m].ip.Some?
              && t.lxd[m].ip == t.lxd[n].ip
              && t.lxd[n].owner == Some(1) && 1 in t.procs && t.procs[1].pc.Done?
  {
    var d, _ := TwoChoices(c, {});
    BothChecked(c, m, d, n, d, Slip(slip));
    var t, q, r := TwoReady(m, d, n, d), Ready(m, d), Ready(n, d);
    LeavesContainer(c, t, q, slip);
    var t1 := t.(procs := t.procs[0 := q.(pc := Failed)], lxd := map[m := Container(IP(c, q), Some(0))]);
    EmptyInsertable(t1, r);
    GoesThrough(c, t1, 1, r, 0, Slip(slip));
    assert IP(c, q) == IP(c, r);
    var end := Through(c, t1, 1, r, 0);
    assert end.lxd[m] == Container(IP(c, q), Some(0)) && end.lxd[n] == Container(IP(c, r), Some(1)) && Ended(end);
  }

  /** Draws for two different indices and ports. */
  lemma TwoChoices(c: Config, used: set<int>) returns (d: Choice, e: Choice)
    requires c.subnet.ones == 24 && used == {}
    ensures Possible(c, d) && Possible(c, e) && d.idx != e.idx && d.port != e.port
  {
    var one, two := Allocation.FirstSlots(used);
    var zeros: seq<nat>, ones: seq<nat> := seq(32, _ => 0), seq(32, _ => 1);
    d := Choice(1, SSH_PORT_BASE, Some(one), zeros);
    e := Choice(2, SSH_PORT_BASE + 1, Some(two), ones);
    Allocation.FirstPickIs(used, zeros, 0);
    Allocation.FirstPickIs(used, ones, 1);
  }

  // ---- Adds of one name ----

  function ThreeReady(n: Name, k: Name, d: Choice, e: Choice): Shared {
    Shared(map[0 := Ready(n, d), 1 := Ready(n, e), 2 := Ready(k, d)], map[], map[], map[])
  }

  lemma AllChecked(c: Config, n: Name, k: Name, d: Choice, e: Choice)
    requires Possible(c, d) && Possible(c, e)
    ensures Reaches(c, ThreeReady(n, k, d, e), AllWork)
  {
    BothChecked(c, n, d, n, e, AllWork);
    var t := TwoReady(n, d, n, e);
    PassChecks(c, t, 2, k, d.idx, d.port, d.draw, d.picks, AllWork);
    assert Set(t, 2, Ready(k, d)) == ThreeReady(n, k, d, e);
  }

  /** The first Add has launched; the third, of another name, has the index both drew. */
  function Outrun(c: Config, n: Name, k: Name, d: Choice, e: Choice): Shared {
    Shared(map[0 := Ready(n, d).(pc := Launched), 1 := Ready(n, e), 2 := Finished(Ready(k, d), 0)],
           map[0 := RowOf(Ready(k, d), 2)],
           map[n := Container(IP(c, Ready(n, d)), Some(0)), k := Container(IP(c, Ready(k, d)), Some(2))],
           Filed(c, map[], 2, k))
  }

  lemma Outruns(c: Config, n: Name, k: Name, d: Choice, e: Choice)
    requires Possible(c, d) && Possible(c, e) && n != k
    ensures Reaches(c, Outrun(c, n, k, d, e), AllWork)
  {
    AllChecked(c, n, k, d, e);
    var t, q, r := ThreeReady(n, k, d, e), Ready(n, d), Ready(k, d);
    Move(c, t, 0, Launch(0, Fleet.Created), AllWork);
    var t1 := Shared(map[0 := q.(pc := Launched), 1 := Ready(n, e), 2 := r], map[],
                     map[n := Container(IP(c, q), Some(0))], map[]);
    assert t.procs[0 := q.(pc := Launched)] == t1.procs && t.lxd[n := Container(IP(c, q), Some(0))] == t1.lxd;
    EmptyInsertable(t1, r);
    GoesThrough(c, t1, 2, r, 0, AllWork);
    assert Through(c, t1, 2, r, 0) == Outrun(c, n, k, d, e);
  }

  /** A refused INSERT is no failing call: the row it clashes with is there. */
  lemma InsertRefused(c: Config, t: Shared, p: Pid, q: Proc, id: nat)
    requires Reaches(c, t, AllWork) && p in t.procs && t.procs[p] == q && q.pc.Launched?
    requires id !in t.rows && !Insertable(t, q)
    ensures Reaches(c, t.(procs := t.procs[p := q.(pc := UndoContainer)]), AllWork)
  {
    Move(c, t, p, Insert(p, id, true), AllWork);
  }

  lemma DeletesContainer(c: Config, t: Shared, p: Pid, q: Proc)
    requires Reaches(c, t, AllWork) && p in t.procs && t.procs[p] == q && q.pc.UndoContainer?
    ensures Reaches(c, t.(procs := t.procs[p := q.(pc := UndoFile)], lxd := t.lxd - {q.name}), AllWork)
  {
    Move(c, t, p, RemoveContainer(p, Fleet.Removed), AllWork);
  }

  lemma NotInsertable(t: Shared, q: Proc, i: nat)
    requires i in t.rows && t.rows[i].idx == q.idx
    ensures !Insertable(t, q)
  {
    assert t.rows[i].idx in UsedIdx(t);
  }

  /** A launched Add whose index a row has taken gives its container up. */
  lemma GivesUp(c: Config, t: Shared, p: Pid, q: Proc, i: nat, id: nat)
    requires Reaches(c, t, AllWork) && p in t.procs && t.procs[p] == q && q.pc.Launched?
    requires i in t.rows && t.rows[i].idx == q.idx && id !in t.rows
    ensures Reaches(c, t.(procs := t.procs[p := q.(pc := UndoFile)], lxd := t.lxd - {q.name}), AllWork)
  {
    NotInsertable(t, q, i);
    InsertRefused(c, t, p, q, id);
    var t1 := t.(procs := t.procs[p := q.(pc := UndoContainer)]);
    DeletesContainer(c, t1, p, q.(pc := UndoContainer));
    assert t1.procs[p := q.(pc := UndoFile)] == t.procs[p := q.(pc := UndoFile)];
  }

  /**
   With every call working: an Add of another name takes the index the first
   Add of n has drawn, so the first one's INSERT is refused and it deletes its
   container; a second Add of n launches, inserts and publishes; then the first
   goes on to remove the nft file, by name. The second has succeeded, without
   rules.
   */
  lemma NamesakeRemovesFile(c: Config, n: Name, k: Name)
    requires c.subnet.ones == 24 && c.v4Forward && n != k
    ensures exists t :: Reaches(c, t, AllWork) && Ended(t) && 1 in t.procs && t.procs[1].pc.Done?
              && t.procs[1].name == n && n !in t.files
  {
    var d, e := TwoChoices(c, {});
    Outruns(c, n, k, d, e);
    var s, q, r := Outrun(c, n, k, d, e), Ready(n, d), Ready(n, e);
    GivesUp(c, s, 0, q.(pc := Launched), 0, 1);
    var t := s.(procs := s.procs[0 := q.(pc := UndoFile)], lxd := s.lxd - {n});
    assert Insertable(t, r);
    GoesThrough(c, t, 1, r, 1, AllWork);
    var t1 := Through(c, t, 1, r, 1);
    EndsUndo(c, t1, 0, q.(pc := UndoFile), AllWork);
    var end := t1.(procs := t1.procs[0 := q.(pc := Failed)], files := t1.files - {n});
    assert Ended(end) && n !in end.files && end.procs[1] == Finished(r, 1);
  }

  /** Only Adds of one name, none rolling back. */
  predicate NoneUndone(s: Shared, n: Name) {
    forall p :: p in s.procs ==>
      s.procs[p].name == n && !s.procs[p].pc.UndoContainer? && !s.procs[p].pc.UndoFile? && !s.procs[p].pc.UndoRow?
  }

  /** Every row is that of an Add that has not rolled back. */
  predicate RowsHeld(s: Shared) {
    forall i :: i in s.rows ==>
      s.rows[i].owner.Some? && s.rows[i].owner.value in s.procs && HasRow(s.procs[s.rows[i].owner.value].pc)
  }

  predicate OneName(s: Shared, n: Name) { NoneUndone(s, n) && RowsHeld(s) }

  /** An Add of the only name that holds the container meets an empty table. */
  lemma AloneInserts(c: Config, s: Shared, n: Name, p: Pid)
    requires Inv(c, s) && OneName(s, n) && p in s.procs && s.procs[p].pc.Launched?
    ensures s.rows == map[]
  {
    assert ProcOK(c, s, p);
    forall r | r in s.procs ensures !HasRow(s.procs[r].pc) { assert ProcOK(c, s, r); }
    assert forall i :: i !in s.rows;
  }

  lemma ActUndoesNone(c: Config, s: Shared, p: Pid, a: Action, n: Name)
    requires NoneUndone(s, n) && p in s.procs && !Choosing(s.procs[p].pc) && AllWork(a)
    requires s.procs[p].pc.Launched? ==> Insertable(s, s.procs[p])
    ensures NoneUndone(Act(c, s, p, s.procs[p], a), n)
  {
  }

  lemma ActHoldsRows(c: Config, s: Shared, p: Pid, a: Action, n: Name)
    requires OneName(s, n) && p in s.procs && !Choosing(s.procs[p].pc) && AllWork(a)
    requires s.procs[p].pc.Launched? ==> Insertable(s, s.procs[p])
    ensures RowsHeld(Act(c, s, p, s.procs[p], a))
  {
  }

  lemma ActKeepsOneName(c: Config, s: Shared, p: Pid, a: Action, n: Name)
    requires Inv(c, s) && OneName(s, n) && p in s.procs && !Choosing(s.procs[p].pc) && AllWork(a)
    ensures OneName(Act(c, s, p, s.procs[p], a), n)
  {
    if s.procs[p].pc.Launched? {
      AloneInserts(c, s, n, p);
      EmptyInsertable(s, s.procs[p]);
    }
    ActUndoesNone(c, s, p, a, n);
    ActHoldsRows(c, s, p, a, n);
  }

  lemma StepKeepsOneName(c: Config, s: Shared, a: Action, n: Name)
    requires Inv(c, s) && OneName(s, n) && AllWork(a) && (a.Begin? ==> a.name == n)
    ensures OneName(Step(c, s, a), n)
  {
    if a.p in s.procs && !a.Begin? {
      if Choosing(s.procs[a.p].pc) { ChooseStays(c, s, s.procs[a.p], a); } else { ActKeepsOneName(c, s, a.p, a, n); }
    }
  }

  lemma {:induction false} RunsKeepOneName(c: Config, h: seq<Action>, n: Name)
    requires forall i :: 0 <= i < |h| ==> AllWork(h[i]) && (h[i].Begin? ==> h[i].name == n)
    ensures Inv(c, Run(c, NOTHING, h)) && OneName(Run(c, NOTHING, h), n)
  {
    StartHolds(c, NOTHING);
    RunsKeepInv(c, NOTHING, h);
    if h != [] {
      RunsKeepOneName(c, h[..|h| - 1], n);
      StepKeepsOneName(c, Run(c, NOTHING, h[..|h| - 1]), h[|h| - 1], n);
    }
  }

  /**
   The Add of another name is needed: with every call working, any number of
   Adds of one name on an empty panel never roll back, and a published one
   always has its file.
   */
  lemma OneNameKeepsFile(c: Config, h: seq<Action>, n: Name, p: Pid)
    requires c.v4Forward && forall i :: 0 <= i < |h| ==> AllWork(h[i]) && (h[i].Begin? ==> h[i].name == n)
    requires p in Run(c, NOTHING, h).procs
    ensures var q := Run(c, NOTHING, h).procs[p];
            && !q.pc.UndoContainer? && !q.pc.UndoFile? && !q.pc.UndoRow?
            && (Published(q) ==> HasFile(Run(c, NOTHING, h), p))
  {
    RunsKeepOneName(c, h, n);
    if Published(Run(c, NOTHING, h).procs[p]) {
      FileKeptExact(c, NOTHING, h, p);
      if Taken(c, NOTHING, h, p) {
        var i :| 0 <= i < |h| && Takes(Run(c, NOTHING, h[..i]), p, h[i]);
        RunsKeepOneName(c, h[..i], n);
        assert false;
      }
    }
  }

  // ---- Adds of one block ----

  /**
   Two names with one IPv6 block, added in two processes at once: both pass the
   block check, and with every call working both end with a row on that block.
   */
  lemma BlockTwinsBothSucceed(c: Config, m: Name, n: Name)
    requires c.subnet.ones == 24 && c.prefix.Some? && m != n && c.Block(m) == c.Block(n)
    ensures exists t :: Reaches(c, t, AllWork) && Ended(t) && 0 in t.procs && 1 in t.procs
              && t.procs[0].pc.Done? && t.procs[0].name == m && t.procs[1].pc.Done? && t.procs[1].name == n
  {
    var d, e := TwoChoices(c, {});
    BothChecked(c, m, d, n, e, AllWork);
    var t, q, r := TwoReady(m, d, n, e), Ready(m, d), Ready(n, e);
    EmptyInsertable(t, q);
    GoesThrough(c, t, 0, q, 0, AllWork);
    var t1 := Through(c, t, 0, q, 0);
    assert t1.rows == map[0 := RowOf(q, 0)] && Insertable(t1, r);
    GoesThrough(c, t1, 1, r, 1, AllWork);
    assert Ended(Through(c, t1, 1, r, 1));
  }
}
