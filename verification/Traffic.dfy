/** Monthly transfer totals: the counter-delta upsert and what it may add up to over a run. */
module Traffic {
  import opened Wrappers
  import opened Text

  /** One direction of a stored row: bytes this period, and the last counter seen. */
  datatype Meter = Meter(total: int, last: int)

  /** A row of the traffic table. */
  datatype Usage = Usage(period: string, up: Meter, down: Meter)

  /** What a reading adds: the growth since the last one, or after a reset all of it. */
  function Delta(m: Meter, reading: int): int { if reading >= m.last then reading - m.last else reading }

  /** The CASE expressions of the upsert for one direction. */
  function Advance(m: Meter, samePeriod: bool, reading: int): Meter {
    Meter((if samePeriod then m.total else 0) + Delta(m, reading), reading)
  }

  function Upsert(row: Option<Usage>, period: string, rx: int, tx: int): Usage {
    match row
    case None => Usage(period, Meter(0, tx), Meter(0, rx))
    case Some(u) => Usage(period, Advance(u.up, u.period == period, tx), Advance(u.down, u.period == period, rx))
  }

  /** Cumulative counters of one running container. */
  datatype Counters = Counters(rx: nat, tx: nat)

  /**
   One sampling pass over the table: each user with live counters whose update
   works is advanced, everybody else's row stays as it is.
   */
  function SampleAll(table: map<string, Usage>, users: set<string>, live: map<string, Counters>, period: string,
      fails: set<string>): map<string, Usage> {
    map n | n in table.Keys + (users * live.Keys - fails)
      :: if n in users && n in live && n !in fails
         then Upsert(if n in table then Some(table[n]) else None, period, live[n].rx, live[n].tx)
         else table[n]
  }

  /** Sampling one more user. */
  lemma SampleStep(table: map<string, Usage>, done: set<string>, n: string, live: map<string, Counters>,
      period: string, fails: set<string>)
    requires n !in done
    ensures var t := SampleAll(table, done, live, period, fails);
            && (n in t <==> n in table) && (n in table ==> t[n] == table[n])
            && SampleAll(table, done + {n}, live, period, fails) ==
                 if n in live && n !in fails
                 then t[n := Upsert(if n in table then Some(table[n]) else None, period, live[n].rx, live[n].tx)] else t
  {
  }

  // ---- runs of one direction of one container ----

  /** Between samples a container moves bytes and may restart; a sample reads its live counter. */
  datatype Event = Move(bytes: nat) | Restart | Sample(period: string)

  datatype State = State(counter: int, period: string, meter: Meter)

  function Step(s: State, e: Event): State {
    match e
    case Move(n) => s.(counter := s.counter + n)
    case Restart => s.(counter := 0)
    case Sample(p) => State(s.counter, p, Advance(s.meter, s.period == p, s.counter))
  }

  function Run(s: State, evs: seq<Event>): State {
    if evs == [] then s else Step(Run(s, evs[..|evs| - 1]), evs[|evs| - 1])
  }

  /** Bytes really moved in a run. */
  function Moved(evs: seq<Event>): nat {
    if evs == [] then 0
    else Moved(evs[..|evs| - 1]) + if evs[|evs| - 1].Move? then evs[|evs| - 1].bytes else 0
  }

  /** Bytes really moved after the run's last sample. */
  function Since(evs: seq<Event>): nat {
    if evs == [] || evs[|evs| - 1].Sample? then 0
    else Since(evs[..|evs| - 1]) + if evs[|evs| - 1].Move? then evs[|evs| - 1].bytes else 0
  }

  predicate Sampled(evs: seq<Event>) { exists e :: e in evs && e.Sample? }

  /** A state right after a sample: the baseline is the live counter. */
  predicate JustSampled(s: State) { s.counter == s.meter.last >= 0 }

  /** The counter has grown from the baseline by what was moved, or was reset and holds at most that. */
  lemma {:induction false} CounterBound(s: State, evs: seq<Event>)
    requires JustSampled(s)
    ensures var t := Run(s, evs);
            && 0 <= t.meter.last && 0 <= t.counter
            && (t.counter == t.meter.last + Since(evs) || t.counter <= Since(evs))
            && ((forall e :: e in evs ==> !e.Restart?) ==> t.counter == t.meter.last + Since(evs))
  {
    if evs != [] { CounterBound(s, evs[..|evs| - 1]); }
  }

  /**
   Each sample adds at most the bytes really moved since the previous one, and
   exactly those when the container did not restart in between.
   */
  lemma SampleAddsAtMostMoved(s: State, evs: seq<Event>, period: string)
    requires JustSampled(s) && forall e :: e in evs ==> !e.Sample?
    ensures var t := Run(s, evs);
            var added := Step(t, Sample(period)).meter.total - if t.period == period then t.meter.total else 0;
            && 0 <= added <= Moved(evs)
            && ((forall e :: e in evs ==> !e.Restart?) ==> added == Moved(evs))
  {
    CounterBound(s, evs);
    SinceIsMoved(evs);
  }

  lemma {:induction false} SinceIsMoved(evs: seq<Event>)
    requires forall e :: e in evs ==> !e.Sample?
    ensures Since(evs) == Moved(evs)
  {
    if evs != [] {
      assert evs[|evs| - 1] in evs;
      SinceIsMoved(evs[..|evs| - 1]);
    }
  }

  /**
   A period never over-counts: from the last sample of another period (or the
   row's insertion) on, through any transfers, restarts and samples of period
   p, the total stays within the bytes really moved since; without restarts it
   is exactly the bytes moved up to the last sample, that is the last counter
   minus the first.
   */
  lemma {:induction false} PeriodNeverOverCounts(s: State, evs: seq<Event>, p: string)
    requires JustSampled(s) && (s.period != p || s.meter.total == 0)
    requires forall e :: e in evs && e.Sample? ==> e.period == p
    requires Sampled(evs)
    ensures var t := Run(s, evs);
            && t.period == p
            && 0 <= t.meter.total <= Moved(evs) - Since(evs)
            && ((forall e :: e in evs ==> !e.Restart?) ==>
                  t.meter.total == Moved(evs) - Since(evs) == t.meter.last - s.counter)
  {
    var before, e := evs[..|evs| - 1], evs[|evs| - 1];
    assert forall x :: x in before ==> x in evs;
    assert evs == before + [e];
    CounterBound(s, before);
    if Sampled(before) {
      PeriodNeverOverCounts(s, before, p);
    } else {
      assert e in evs && e.Sample?;
      SinceIsMoved(before);
      Unsampled(s, before);
    }
  }

  lemma {:induction false} Unsampled(s: State, evs: seq<Event>)
    requires forall e :: e in evs ==> !e.Sample?
    ensures Run(s, evs).meter == s.meter && Run(s, evs).period == s.period
  {
    if evs != [] {
      assert evs[|evs| - 1] in evs;
      Unsampled(s, evs[..|evs| - 1]);
    }
  }

  /** The deltas all samples of a run add, whatever period each falls in. */
  function Charged(s: State, evs: seq<Event>): int {
    if evs == [] then 0
    else
      var before, e := evs[..|evs| - 1], evs[|evs| - 1];
      Charged(s, before) + if e.Sample? then Delta(Run(s, before).meter, Run(s, before).counter) else 0
  }

  /**
   Over a whole run, through any transfers, restarts and changes of month, the
   deltas add up to at most the bytes really moved before the last sample;
   without restarts they telescope to the last counter read minus the first.
   */
  lemma {:induction false} DeltasTelescope(s: State, evs: seq<Event>)
    requires JustSampled(s)
    ensures 0 <= Charged(s, evs) <= Moved(evs) - Since(evs)
    ensures (forall e :: e in evs ==> !e.Restart?) ==>
              Charged(s, evs) == Moved(evs) - Since(evs) == Run(s, evs).meter.last - s.counter
  {
    if evs != [] {
      var before := evs[..|evs| - 1];
      assert forall x :: x in before ==> x in evs;
      DeltasTelescope(s, before);
      CounterBound(s, before);
      assert (forall e :: e in evs ==> !e.Restart?) ==> evs[|evs| - 1] in evs && !evs[|evs| - 1].Restart?;
    }
  }

  // ---- the whole table ----

  /**
   What happens on the host: transfers, restarts, and sampling passes that miss
   stopped containers and failed updates.
   */
  datatype HostEvent =
    | Transfer(name: string, rx: nat, tx: nat)
    | Reboot(name: string)
    | Pass(period: string, stopped: set<string>, fails: set<string>)

  datatype Host = Host(live: map<string, Counters>, table: map<string, Usage>)

  function HostStep(h: Host, users: set<string>, e: HostEvent): Host {
    match e
    case Transfer(n, rx, tx) =>
      if n in h.live then h.(live := h.live[n := Counters(h.live[n].rx + rx, h.live[n].tx + tx)]) else h
    case Reboot(n) => if n in h.live then h.(live := h.live[n := Counters(0, 0)]) else h
    case Pass(period, stopped, fails) => h.(table := SampleAll(h.table, users, h.live - stopped, period, fails))
  }

  function HostRun(h: Host, users: set<string>, evs: seq<HostEvent>): Host {
    if evs == [] then h else HostStep(HostRun(h, users, evs[..|evs| - 1]), users, evs[|evs| - 1])
  }

  /** What a host event means for one user and one direction. */
  function Seen(e: HostEvent, n: string, down: bool): seq<Event> {
    match e
    case Transfer(m, rx, tx) => if m == n then [Move(if down then rx else tx)] else []
    case Reboot(m) => if m == n then [Restart] else []
    case Pass(period, stopped, fails) => if n in stopped || n in fails then [] else [Sample(period)]
  }

  function View(evs: seq<HostEvent>, n: string, down: bool): seq<Event> {
    if evs == [] then [] else View(evs[..|evs| - 1], n, down) + Seen(evs[|evs| - 1], n, down)
  }

  function Direction(h: Host, n: string, down: bool): State
    requires n in h.live && n in h.table
  {
    if down then State(h.live[n].rx, h.table[n].period, h.table[n].down)
    else State(h.live[n].tx, h.table[n].period, h.table[n].up)
  }

  lemma RowStep(h: Host, users: set<string>, e: HostEvent, n: string, down: bool)
    requires n in h.live && n in h.table && n in users
    ensures var t, seen := HostStep(h, users, e), Seen(e, n, down);
            && n in t.live && n in t.table
            && Direction(t, n, down) == if seen == [] then Direction(h, n, down)
                  else Step(Direction(h, n, down), seen[0])
  {
  }

  lemma Snoc(view: seq<Event>, seen: seq<Event>)
    requires |seen| <= 1
    ensures if seen == [] then view + seen == view
            else (view + seen)[..|view + seen| - 1] == view && (view + seen)[|view + seen| - 1] == seen[0]
  {
  }

  lemma MovedSnoc(view: seq<Event>, seen: seq<Event>)
    requires |seen| <= 1
    ensures Moved(view + seen) == Moved(view) + if seen != [] && seen[0].Move? then seen[0].bytes else 0
  {
    Snoc(view, seen);
  }

  /** Each user's row evolves as its own counters, passes and restarts say, whatever else the passes do. */
  lemma {:induction false} RowsAreIndependent(h: Host, users: set<string>, evs: seq<HostEvent>, n: string, down: bool)
    requires n in h.live && n in h.table && n in users
    ensures var t := HostRun(h, users, evs);
            n in t.live && n in t.table && Direction(t, n, down) == Run(Direction(h, n, down), View(evs, n, down))
  {
    if evs != [] {
      RowsAreIndependent(h, users, evs[..|evs| - 1], n, down);
      RowStep(HostRun(h, users, evs[..|evs| - 1]), users, evs[|evs| - 1], n, down);
      Snoc(View(evs[..|evs| - 1], n, down), Seen(evs[|evs| - 1], n, down));
    }
  }

  /** Bytes an event really moves for a user in one direction. */
  function Bytes(e: HostEvent, n: string, down: bool): nat {
    if e.Transfer? && e.name == n then if down then e.rx else e.tx else 0
  }

  function Transferred(evs: seq<HostEvent>, n: string, down: bool): nat {
    if evs == [] then 0 else Transferred(evs[..|evs| - 1], n, down) + Bytes(evs[|evs| - 1], n, down)
  }

  predicate Reaches(e: HostEvent, n: string) { e.Pass? && n !in e.stopped && n !in e.fails }

  lemma SeenFacts(e: HostEvent, n: string, down: bool)
    ensures |Seen(e, n, down)| <= 1
    ensures Seen(e, n, down) != [] && Seen(e, n, down)[0].Sample? <==> Reaches(e, n)
    ensures Bytes(e, n, down) ==
              if Seen(e, n, down) != [] && Seen(e, n, down)[0].Move? then Seen(e, n, down)[0].bytes else 0
  {
  }

  lemma {:induction false} ViewMoves(evs: seq<HostEvent>, n: string, down: bool)
    ensures Moved(View(evs, n, down)) == Transferred(evs, n, down)
  {
    if evs != [] {
      var view, seen := View(evs[..|evs| - 1], n, down), Seen(evs[|evs| - 1], n, down);
      ViewMoves(evs[..|evs| - 1], n, down);
      SeenFacts(evs[|evs| - 1], n, down);
      MovedSnoc(view, seen);
      assert View(evs, n, down) == view + seen;
    }
  }

  lemma {:induction false} ViewFacts(evs: seq<HostEvent>, n: string, down: bool, p: string)
    requires forall e :: e in evs && e.Pass? ==> e.period == p
    ensures forall e :: e in View(evs, n, down) ==> (e.Sample? ==> e.period == p) && (e.Restart? ==> Reboot(n) in evs)
    ensures (exists e :: e in evs && Reaches(e, n)) ==> Sampled(View(evs, n, down))
  {
    if evs != [] {
      var before, e := evs[..|evs| - 1], evs[|evs| - 1];
      assert evs == before + [e];
      ViewFacts(before, n, down, p);
      assert View(evs, n, down) == View(before, n, down) + Seen(e, n, down);
      if Reaches(e, n) { assert Seen(e, n, down)[0] in View(evs, n, down); }
    }
  }

  /** The row has just been sampled, with nothing counted yet in the period. */
  predicate Fresh(h: Host, n: string, p: string)
    requires n in h.live && n in h.table
  {
    && JustSampled(Direction(h, n, true)) && JustSampled(Direction(h, n, false))
    && (h.table[n].period != p || h.table[n].up.total == h.table[n].down.total == 0)
  }

  lemma DirectionNeverOverCounts(h: Host, users: set<string>, evs: seq<HostEvent>, n: string, p: string, down: bool)
    requires n in h.live && n in h.table && n in users && Fresh(h, n, p)
    requires forall e :: e in evs && e.Pass? ==> e.period == p
    requires exists e :: e in evs && Reaches(e, n)
    ensures var t := HostRun(h, users, evs);
            && n in t.live && n in t.table && t.table[n].period == p
            && 0 <= Direction(t, n, down).meter.total <= Transferred(evs, n, down)
            && (Reaches(evs[|evs| - 1], n) && Reboot(n) !in evs ==>
                  Direction(t, n, down).meter.total == Transferred(evs, n, down))
  {
    var start, view := Direction(h, n, down), View(evs, n, down);
    ViewMoves(evs, n, down);
    ViewFacts(evs, n, down, p);
    RowsAreIndependent(h, users, evs, n, down);
    PeriodNeverOverCounts(start, view, p);
    if Reaches(evs[|evs| - 1], n) { Snoc(View(evs[..|evs| - 1], n, down), Seen(evs[|evs| - 1], n, down)); }
  }

  lemma ListedNeverOverCounts(h: Host, users: set<string>, evs: seq<HostEvent>, n: string, p: string)
    requires n in h.live && n in h.table && n in users && Fresh(h, n, p)
    requires forall e :: e in evs && e.Pass? ==> e.period == p
    requires exists e :: e in evs && Reaches(e, n)
    ensures var t, moved := HostRun(h, users, evs), Transferred(evs, n, true) + Transferred(evs, n, false);
            && n in t.table && t.table[n].period == p
            && 0 <= t.table[n].up.total + t.table[n].down.total <= moved
            && (Reaches(evs[|evs| - 1], n) && Reboot(n) !in evs ==>
                  t.table[n].up.total + t.table[n].down.total == moved)
  {
    DirectionNeverOverCounts(h, users, evs, n, p, true);
    DirectionNeverOverCounts(h, users, evs, n, p, false);
  }

  /** By how much a table change raises a user's total; a new row or a new period counts from zero. */
  function Gain(before: map<string, Usage>, after: map<string, Usage>, n: string, down: bool): int {
    if n !in after then 0
    else
      var now := if down then after[n].down else after[n].up;
      now.total - if n in before && before[n].period == after[n].period
                  then (if down then before[n].down else before[n].up).total else 0
  }

  /** Everything a run of the host charges a user in one direction, over all months. */
  function HostCharged(h: Host, users: set<string>, evs: seq<HostEvent>, n: string, down: bool): int {
    if evs == [] then 0
    else
      var before := HostRun(h, users, evs[..|evs| - 1]);
      var after := HostStep(before, users, evs[|evs| - 1]);
      HostCharged(h, users, evs[..|evs| - 1], n, down)
      + if evs[|evs| - 1].Pass? then Gain(before.table, after.table, n, down) else 0
  }

  lemma ChargedSnoc(s: State, view: seq<Event>, seen: seq<Event>)
    requires |seen| <= 1
    ensures Charged(s, view + seen) == Charged(s, view)
              + if seen != [] && seen[0].Sample? then Delta(Run(s, view).meter, Run(s, view).counter) else 0
  {
    Snoc(view, seen);
  }

  lemma PassGain(h: Host, users: set<string>, e: HostEvent, n: string, down: bool)
    requires n in h.live && n in h.table && n in users && e.Pass?
    ensures Gain(h.table, HostStep(h, users, e).table, n, down) ==
            if Reaches(e, n) then Delta(Direction(h, n, down).meter, Direction(h, n, down).counter) else 0
  {
  }

  /** The last event charges what its sample adds. */
  lemma HostChargedStep(h: Host, users: set<string>, evs: seq<HostEvent>, n: string, down: bool)
    requires evs != [] && n in users
    requires var t := HostRun(h, users, evs[..|evs| - 1]); n in t.live && n in t.table
    ensures var t := Direction(HostRun(h, users, evs[..|evs| - 1]), n, down);
            HostCharged(h, users, evs, n, down) == HostCharged(h, users, evs[..|evs| - 1], n, down)
              + if Reaches(evs[|evs| - 1], n) then Delta(t.meter, t.counter) else 0
  {
    if evs[|evs| - 1].Pass? { PassGain(HostRun(h, users, evs[..|evs| - 1]), users, evs[|evs| - 1], n, down); }
  }

  lemma {:induction false} HostChargedIs(h: Host, users: set<string>, evs: seq<HostEvent>, n: string, down: bool)
    requires n in h.live && n in h.table && n in users
    ensures HostCharged(h, users, evs, n, down) == Charged(Direction(h, n, down), View(evs, n, down))
  {
    if evs != [] {
      var before, e := evs[..|evs| - 1], evs[|evs| - 1];
      var view, seen := View(before, n, down), Seen(e, n, down);
      HostChargedIs(h, users, before, n, down);
      RowsAreIndependent(h, users, before, n, down);
      HostChargedStep(h, users, evs, n, down);
      SeenFacts(e, n, down);
      ChargedSnoc(Direction(h, n, down), view, seen);
      assert View(evs, n, down) == view + seen;
    }
  }

  lemma {:induction false} ViewRestarts(evs: seq<HostEvent>, n: string, down: bool)
    requires Reboot(n) !in evs
    ensures forall e :: e in View(evs, n, down) ==> !e.Restart?
  {
    if evs != [] {
      assert Reboot(n) !in evs[..|evs| - 1] && evs[|evs| - 1] in evs;
      ViewRestarts(evs[..|evs| - 1], n, down);
    }
  }

  lemma ListedNeverOverCharges(h: Host, users: set<string>, evs: seq<HostEvent>, n: string, down: bool)
    requires n in h.live && n in h.table && n in users && JustSampled(Direction(h, n, down))
    ensures var t := HostRun(h, users, evs);
            && n in t.live && n in t.table
            && 0 <= HostCharged(h, users, evs, n, down) <= Transferred(evs, n, down)
            && (Reboot(n) !in evs ==>
                  HostCharged(h, users, evs, n, down) ==
                  Direction(t, n, down).meter.last - Direction(h, n, down).counter)
  {
    RowsAreIndependent(h, users, evs, n, down);
    HostChargedIs(h, users, evs, n, down);
    ViewMoves(evs, n, down);
    DeltasTelescope(Direction(h, n, down), View(evs, n, down));
    if Reboot(n) !in evs { ViewRestarts(evs, n, down); }
  }

  // ---- from the first sample on ----

  /** The events that count for a user: all of them with a row, else those after the first pass that reaches it. */
  function Counted(h: Host, evs: seq<HostEvent>, n: string): seq<HostEvent> {
    if n in h.table then evs else AfterFirst(evs, n)
  }

  function AfterFirst(evs: seq<HostEvent>, n: string): seq<HostEvent> {
    if evs == [] then [] else if Reaches(evs[0], n) then evs[1..] else AfterFirst(evs[1..], n)
  }

  /**
   The first pass that reaches a user charges nothing: the row it inserts has
   the period, zero totals, and the counters as they are as its baseline.
   */
  lemma FirstSample(h: Host, users: set<string>, e: HostEvent, n: string, down: bool)
    requires n in h.live && n !in h.table && n in users && Reaches(e, n)
    ensures var t := HostStep(h, users, e);
            && t.live == h.live && n in t.table
            && t.table[n] == Usage(e.period, Meter(0, h.live[n].tx), Meter(0, h.live[n].rx))
            && Gain(h.table, t.table, n, down) == 0
  {
  }

  /** A step that does not reach a user without a row gives it none. */
  lemma MissedStep(h: Host, users: set<string>, e: HostEvent, n: string)
    requires n in h.live && n !in h.table && !Reaches(e, n)
    ensures var t := HostStep(h, users, e); n in t.live && n !in t.table
  {
  }

  /** A run step by step from its front. */
  lemma {:induction false} RunFront(h: Host, users: set<string>, evs: seq<HostEvent>, n: string, down: bool)
    requires evs != []
    ensures var t := HostStep(h, users, evs[0]);
            && HostRun(h, users, evs) == HostRun(t, users, evs[1..])
            && HostCharged(h, users, evs, n, down) ==
               (if evs[0].Pass? then Gain(h.table, t.table, n, down) else 0) + HostCharged(t, users, evs[1..], n, down)
  {
    if |evs| == 1 {
      assert evs[..0] == [] && evs[1..] == [];
      assert HostRun(h, users, []) == h;
    } else {
      RunFront(h, users, evs[..|evs| - 1], n, down);
      assert evs[..|evs| - 1][1..] == evs[1..][..|evs| - 2];
      assert evs[1..][|evs| - 2] == evs[|evs| - 1];
    }
  }

  predicate Reached(evs: seq<HostEvent>, n: string) { exists e :: e in evs && Reaches(e, n) }

  /** The host right after the first pass that reaches a user. */
  function Inserted(h: Host, users: set<string>, evs: seq<HostEvent>, n: string): Host
    decreases |evs|
  {
    if evs == [] then h
    else if Reaches(evs[0], n) then HostStep(h, users, evs[0])
    else Inserted(HostStep(h, users, evs[0]), users, evs[1..], n)
  }

  /** A row just inserted by a pass of the run. */
  ghost predicate JustInserted(g: Host, evs: seq<HostEvent>, n: string) {
    && n in g.live && n in g.table
    && g.table[n].up == Meter(0, g.live[n].tx) && g.table[n].down == Meter(0, g.live[n].rx)
    && exists e :: e in evs && Reaches(e, n) && g.table[n].period == e.period
  }

  lemma ReachedFront(evs: seq<HostEvent>, n: string)
    requires evs != []
    ensures Reached(evs, n) <==> Reaches(evs[0], n) || Reached(evs[1..], n)
  {
    assert forall e :: e in evs <==> e == evs[0] || e in evs[1..];
  }

  /** Until the first pass that reaches a user without a row, nothing is charged and there is no row. */
  lemma {:induction false} UntilFirst(h: Host, users: set<string>, evs: seq<HostEvent>, n: string, down: bool)
    requires n in h.live && n !in h.table && n in users
    ensures var g, rest := Inserted(h, users, evs, n), AfterFirst(evs, n);
            if Reached(evs, n) then
              && JustInserted(g, evs, n) && HostRun(h, users, evs) == HostRun(g, users, rest)
              && HostCharged(h, users, evs, n, down) == HostCharged(g, users, rest, n, down)
            else
              && n in HostRun(h, users, evs).live && n !in HostRun(h, users, evs).table
              && HostCharged(h, users, evs, n, down) == 0 && rest == []
    decreases |evs|
  {
    if evs != [] {
      RunFront(h, users, evs, n, down);
      ReachedFront(evs, n);
      if Reaches(evs[0], n) {
        FirstSample(h, users, evs[0], n, down);
        assert evs[0] in evs;
      } else {
        MissedStep(h, users, evs[0], n);
        UntilFirst(HostStep(h, users, evs[0]), users, evs[1..], n, down);
      }
    }
  }

  /**
   Over any run of the host, across any number of months, a user is charged in
   each direction at most what really moved, counted from the start if the
   table has the user and from the first pass that reaches it if not; without a
   restart since then, exactly the last counter stored minus the first.
   */
  lemma RunNeverOverCharges(h: Host, users: set<string>, evs: seq<HostEvent>, n: string, down: bool)
    requires n in h.live && n in users && (n in h.table ==> JustSampled(Direction(h, n, down)))
    ensures var t, counted := HostRun(h, users, evs), Counted(h, evs, n);
            && (n in t.table <==> n in h.table || Reached(evs, n)) && n in t.live
            && 0 <= HostCharged(h, users, evs, n, down) <= Transferred(counted, n, down)
            && (n in t.table && Reboot(n) !in counted ==>
                  var first := if n in h.table then h else Inserted(h, users, evs, n);
                  && n in first.live
                  && HostCharged(h, users, evs, n, down) ==
                     Direction(t, n, down).meter.last - if down then first.live[n].rx else first.live[n].tx)
  {
    if n in h.table {
      ListedNeverOverCharges(h, users, evs, n, down);
    } else {
      UntilFirst(h, users, evs, n, down);
      if Reached(evs, n) {
        ListedNeverOverCharges(Inserted(h, users, evs, n), users, AfterFirst(evs, n), n, down);
      }
    }
  }

  /** A row that no pass reaches, or of nobody in the users table, stays as it is. */
  lemma {:induction false} UnreachedRow(h: Host, users: set<string>, evs: seq<HostEvent>, n: string)
    requires n in h.live && n in h.table && (n in users ==> !Reached(evs, n))
    ensures var t := HostRun(h, users, evs); n in t.live && n in t.table && t.table[n] == h.table[n]
  {
    if evs != [] {
      assert evs[|evs| - 1] in evs && forall e :: e in evs[..|evs| - 1] ==> e in evs;
      UnreachedRow(h, users, evs[..|evs| - 1], n);
    }
  }

  /**
   In a period the table charges a user at most the bytes really moved in both
   directions since it was first listed, through any transfers, restarts and
   passes, including passes that miss the user; exactly those once a pass has
   reached the user last and the container has not restarted since.
   */
  lemma TableNeverOverCounts(h: Host, users: set<string>, evs: seq<HostEvent>, n: string, p: string)
    requires n in h.live && n in users && (n in h.table ==> Fresh(h, n, p))
    requires forall e :: e in evs && e.Pass? ==> e.period == p
    requires Reached(evs, n)
    ensures var t, counted := HostRun(h, users, evs), Counted(h, evs, n);
            var moved := Transferred(counted, n, true) + Transferred(counted, n, false);
            && n in t.table && t.table[n].period == p
            && 0 <= t.table[n].up.total + t.table[n].down.total <= moved
            && (counted != [] && Reaches(counted[|counted| - 1], n) && Reboot(n) !in counted ==>
                  t.table[n].up.total + t.table[n].down.total == moved)
  {
    if n in h.table {
      ListedNeverOverCounts(h, users, evs, n, p);
    } else {
      UntilFirst(h, users, evs, n, true);
      var g, rest := Inserted(h, users, evs, n), AfterFirst(evs, n);
      AfterFirstWithin(evs, n);
      if Reached(rest, n) {
        ListedNeverOverCounts(g, users, rest, n, p);
      } else {
        UnreachedRow(g, users, rest, n);
        if rest != [] { assert rest[|rest| - 1] in rest; }
      }
    }
  }

  lemma {:induction false} AfterFirstWithin(evs: seq<HostEvent>, n: string)
    ensures forall e :: e in AfterFirst(evs, n) ==> e in evs
  {
    if evs != [] { AfterFirstWithin(evs[1..], n); }
  }

  // ---- where the hypotheses are needed ----

  /**
   A failed state read is recorded as a running container with counter 0. The
   next good read then counts the whole counter: too much by exactly the old
   baseline, so it over-counts if and only if that baseline was not zero.
   */
  lemma FailedReadOverCounts(m: Meter, counter: int)
    requires 0 <= m.last <= counter
    ensures var after := Advance(Advance(m, true, 0), true, counter);
            var moved := counter - m.last;
            after.total == m.total + moved + m.last && (after.total > m.total + moved <==> m.last != 0)
  {
  }

  /**
   Two samplers that are not serialised may store a later reading before an
   earlier one of the same uptime. Both together then over-count if and only
   if the earlier reading is smaller and not zero.
   */
  lemma OutOfOrderOverCounts(m: Meter, earlier: int, later: int)
    requires 0 <= m.last <= earlier <= later
    ensures var after := Advance(Advance(m, true, later), true, earlier);
            after.total > m.total + (later - m.last) <==> 0 < earlier < later
  {
  }

  // ---- the quota comparison ----

  /** uint64 arithmetic: the shift by 30 bits drops what passes bit 63. */
  predicate ShouldThrottle(used: nat, quotaGB: int) {
    quotaGB > 0 && used >= (quotaGB * 0x4000_0000) % TWO_64
  }

  /**
   No quota means never throttled. With one, the comparison means "used has
   reached the quota" for every 64-bit usage exactly when the quota is below
   2^34 GiB.
   */
  lemma ShouldThrottleExact(quotaGB: int)
    ensures quotaGB <= 0 ==> forall used: nat :: !ShouldThrottle(used, quotaGB)
    ensures quotaGB > 0 ==>
              ((forall used: nat :: used < TWO_64 ==>
                  (ShouldThrottle(used, quotaGB) <==> used >= quotaGB * 0x4000_0000))
               <==> quotaGB < 0x4_0000_0000)
  {
    if quotaGB >= 0x4_0000_0000 {
      assert ShouldThrottle(TWO_64 - 1, quotaGB);
    }
  }

  /** upload + download in uint64. */
  function UsedBytes(u: Option<Usage>): nat {
    if u.None? then 0 else (u.value.up.total + u.value.down.total) % TWO_64
  }
}
