/** The enforcement pass: NIC limits, the in-memory throttle set, and their agreement. */
module Throttle {
  import opened Wrappers
  import opened World
  import opened Fleet
  import Traffic

  /** The names whose NIC limit cannot be read in a pass, and the writes that do not simply go through. */
  datatype Faults = Faults(readFails: set<Name>, writes: map<Name, Setting>)

  const NO_FAULTS := Faults({}, map[])

  predicate Limited(lxd: map<Name, Instance>, n: Name) { n in lxd && lxd[n].rate != "" }

  predicate Over(s: State, n: Name)
    requires n in s.users
  {
    Traffic.ShouldThrottle(Traffic.UsedBytes(if n in s.traffic then Some(s.traffic[n]) else None), s.users[n].quotaGB)
  }

  /** The throttle set a pass works from: the one in memory, or after a restart the one read off the containers. */
  function Primed(s: State, f: Faults): set<Name> {
    if s.throttled.Some? then s.throttled.value
    else set n | n in s.users && n !in f.readFails && Limited(s.lxd, n)
  }

  /** The users whose limit a pass wants to change. */
  function Wanted(s: State, f: Faults): set<Name> {
    set n | n in s.users && Over(s, n) != (n in Primed(s, f))
  }

  /** How a pass's write of a user's limit goes. */
  function Outcome(s: State, f: Faults, n: Name): Setting {
    On(s.lxd, n, if n in f.writes then f.writes[n] else Applied)
  }

  /** The users whose container it does patch. */
  function Writes(s: State, f: Faults): set<Name> {
    set n | n in Wanted(s, f) && !Outcome(s, f, n).Refused?
  }

  /** The users whose patch was reported as done, and so goes into the throttle set. */
  function Recorded(s: State, f: Faults): set<Name> {
    set n | n in Wanted(s, f) && Outcome(s, f, n).Applied?
  }

  /** The users whose change it reports as failed. */
  function Failures(s: State, f: Faults): set<Name> { Wanted(s, f) - Recorded(s, f) }

  function Rate(over: bool): string { if over then THROTTLE_RATE else "" }

  /** The instances once the limits of some users are patched to what their quotas ask for. */
  function Patched(s: State, w: set<Name>): map<Name, Instance>
    requires w <= s.users.Keys
  {
    map n | n in s.lxd :: if n in w then s.lxd[n].(rate := Rate(Over(s, n))) else s.lxd[n]
  }

  /** The throttle set that records some of those patches. */
  function Tracked(s: State, f: Faults, r: set<Name>): set<Name>
    requires r <= s.users.Keys
  {
    set n | n in Primed(s, f) + r && (n in r ==> Over(s, n))
  }

  function EnforceState(s: State, f: Faults): State {
    s.(lxd := Patched(s, Writes(s, f)), throttled := Some(Tracked(s, f, Recorded(s, f))))
  }

  /** The pass before its first turn, and after the last. */
  lemma TurnsBegin(s: State, f: Faults)
    ensures Patched(s, Writes(s, f) - s.users.Keys) == s.lxd
    ensures Tracked(s, f, Recorded(s, f) - s.users.Keys) == Primed(s, f)
    ensures Wanted(s, f) - s.users.Keys == Failures(s, f) - s.users.Keys == {}
  {
  }

  lemma TurnsEnd(s: State, f: Faults, left: set<Name>)
    requires left == {}
    ensures Writes(s, f) - left == Writes(s, f) && Recorded(s, f) - left == Recorded(s, f)
    ensures Wanted(s, f) - left == Wanted(s, f) && Failures(s, f) - left == Failures(s, f)
  {
  }

  /** One user's turn in the pass. */
  lemma Turn(s: State, f: Faults, left: set<Name>, n: Name)
    requires n in left && left <= s.users.Keys
    ensures var w, w' := Writes(s, f) - left, Writes(s, f) - (left - {n});
            Patched(s, w') ==
            if n in Writes(s, f) then Patched(s, w)[n := Patched(s, w)[n].(rate := Rate(Over(s, n)))] else Patched(s, w)
    ensures var r, r' := Recorded(s, f) - left, Recorded(s, f) - (left - {n});
            && (n in Tracked(s, f, r) <==> n in Primed(s, f))
            && Tracked(s, f, r') ==
               if n !in Recorded(s, f) then Tracked(s, f, r)
               else if Over(s, n) then Tracked(s, f, r) + {n} else Tracked(s, f, r) - {n}
    ensures Wanted(s, f) - (left - {n}) == if n in Wanted(s, f) then Wanted(s, f) - left + {n} else Wanted(s, f) - left
    ensures Failures(s, f) - (left - {n}) != {} <==> Failures(s, f) - left != {} || n in Failures(s, f)
  {
    Peel(Writes(s, f), left, n);
    Peel(Recorded(s, f), left, n);
    Peel(Wanted(s, f), left, n);
    Peel(Failures(s, f), left, n);
  }

  /** Taking one element off what is left to do. */
  lemma Peel<T>(all: set<T>, left: set<T>, x: T)
    requires x in left
    ensures all - (left - {x}) == if x in all then all - left + {x} else all - left
  {
  }

  // ---- agreement ----

  function LimitedUsers(s: State): set<Name> { set n | n in s.users && Limited(s.lxd, n) }

  /** The throttle set, once there is one, is the set of users whose container carries a limit. */
  predicate ThrottleOK(s: State) { s.throttled.Some? ==> s.throttled.value == LimitedUsers(s) }

  /**
   A pass in which every LXD call works, started with no throttle set or with
   one that agrees, leaves every user's container limited if and only if the
   user has used up the quota, and the set agreeing.
   */
  lemma EnforceConverges(s: State, n: Name)
    requires ThrottleOK(s)
    ensures var t := EnforceState(s, NO_FAULTS);
            && t == s.(lxd := t.lxd, throttled := t.throttled)
            && t.throttled == Some(LimitedUsers(t))
            && (n in s.users && n in s.lxd ==> (Limited(t.lxd, n) <==> Over(s, n)))
            && (n in s.lxd && n !in s.users ==> t.lxd[n] == s.lxd[n])
  {
    var t := EnforceState(s, NO_FAULTS);
    forall m | m in s.users ensures m in t.throttled.value <==> Limited(t.lxd, m) {
    }
    assert t.throttled.value == LimitedUsers(t);
  }

  /** Totals and quota fit their 64-bit columns. */
  predicate InRange(s: State, n: Name)
    requires n in s.users
  {
    && s.users[n].quotaGB < 0x4_0000_0000
    && (n in s.traffic ==> 0 <= s.traffic[n].up.total + s.traffic[n].down.total < 0x1_0000_0000_0000_0000)
  }

  /** Upload plus download of the month, nothing without a row. */
  function Moved(s: State, n: Name): int {
    if n in s.traffic then s.traffic[n].up.total + s.traffic[n].down.total else 0
  }

  /**
   In the columns' range a clean pass, from agreement or in a new process,
   leaves a live user limited if and only if there is a quota and upload plus
   download has reached it, and a limit it sets is the configured rate.
   */
  lemma EnforceMeansQuota(s: State, n: Name)
    requires ThrottleOK(s) && n in s.users && n in s.lxd && InRange(s, n)
    ensures var t := EnforceState(s, NO_FAULTS);
            && n in t.lxd
            && (t.lxd[n].rate != "" <==> s.users[n].quotaGB > 0 && Moved(s, n) >= s.users[n].quotaGB * 0x4000_0000)
            && t.lxd[n].rate in {"", s.lxd[n].rate, "1Mbit"}
            && (s.lxd[n].rate == "" && t.lxd[n].rate != "" ==> t.lxd[n].rate == "1Mbit")
            && t.lxd[n] == s.lxd[n].(rate := t.lxd[n].rate)
  {
    EnforceConverges(s, n);
    Traffic.ShouldThrottleExact(s.users[n].quotaGB);
  }

  /**
   A pass of a process that knows the limits leaves a container right if and
   only if it was right or its patch took effect.
   */
  lemma LaterPassExact(s: State, f: Faults, n: Name)
    requires s.throttled.Some? && ThrottleOK(s) && n in s.users && n in s.lxd
    ensures (Limited(EnforceState(s, f).lxd, n) <==> Over(s, n)) <==>
              (Limited(s.lxd, n) <==> Over(s, n)) || !Outcome(s, f, n).Refused?
  {
    assert n in s.throttled.value <==> Limited(s.lxd, n);
  }

  /** A second pass right after makes no LXD write and changes nothing. */
  lemma RepeatPassIsSilent(s: State)
    requires ThrottleOK(s)
    ensures var t := EnforceState(s, NO_FAULTS); Writes(t, NO_FAULTS) == {} && EnforceState(t, NO_FAULTS) == t
  {
    var t := EnforceState(s, NO_FAULTS);
    forall n | n in s.users && n in s.lxd ensures n !in Writes(t, NO_FAULTS) {
      EnforceConverges(s, n);
      assert Over(t, n) == Over(s, n);
    }
    var t' := EnforceState(t, NO_FAULTS);
    assert t'.lxd == t.lxd;
    assert t'.throttled.value == t.throttled.value;
  }

  /**
   What happens to a user depends on nobody else's calls: two passes that agree
   on the user's own calls end alike for it.
   */
  lemma FaultsAreIsolated(s: State, f: Faults, g: Faults, n: Name)
    requires (n in f.readFails <==> n in g.readFails) && Outcome(s, f, n) == Outcome(s, g, n)
    ensures var t, u := EnforceState(s, f), EnforceState(s, g);
            && (n in t.lxd <==> n in u.lxd) && (n in t.lxd ==> t.lxd[n] == u.lxd[n])
            && (n in t.throttled.value <==> n in u.throttled.value)
            && (n in Failures(s, f) <==> n in Failures(s, g))
  {
  }

  /**
   Nothing in the pass can part the throttle set from the containers: no wanted
   write errs after taking effect, and on the first pass after a restart every
   limited user whose limit could not be read is over quota and is written anew.
   */
  predicate NothingHidden(s: State, f: Faults) {
    forall n :: n in s.users && n in s.lxd ==>
      && (n in Wanted(s, f) ==> !Outcome(s, f, n).AppliedWithError?)
      && (s.throttled.None? && n in f.readFails && Limited(s.lxd, n) ==> Over(s, n) && Outcome(s, f, n).Applied?)
  }

  /** From agreement, or from no throttle set, a pass ends in agreement if and only if nothing in it was hidden. */
  lemma EnforceKeepsAgreement(s: State, f: Faults)
    requires ThrottleOK(s)
    ensures ThrottleOK(EnforceState(s, f)) <==> NothingHidden(s, f)
  {
    var t := EnforceState(s, f);
    forall n | n in s.users && n in s.lxd
      ensures (n in t.throttled.value <==> n in LimitedUsers(t)) <==>
                && (n in Wanted(s, f) ==> !Outcome(s, f, n).AppliedWithError?)
                && (s.throttled.None? && n in f.readFails && Limited(s.lxd, n) ==>
                      Over(s, n) && Outcome(s, f, n).Applied?)
    {
      UserAgreesExact(s, f, n);
    }
    forall n ensures !(n in s.users && n in s.lxd) ==> (n in t.throttled.value <==> n in LimitedUsers(t)) {
    }
  }

  lemma UserAgreesExact(s: State, f: Faults, n: Name)
    requires ThrottleOK(s) && n in s.users && n in s.lxd
    ensures var t := EnforceState(s, f);
            (n in t.throttled.value <==> n in LimitedUsers(t)) <==>
              && (n in Wanted(s, f) ==> !Outcome(s, f, n).AppliedWithError?)
              && (s.throttled.None? && n in f.readFails && Limited(s.lxd, n) ==>
                    Over(s, n) && Outcome(s, f, n).Applied?)
  {
    assert s.throttled.Some? ==> (n in Primed(s, f) <==> Limited(s.lxd, n));
  }

  // ---- passes that change nothing ----

  function RunPasses(s: State, passes: seq<Faults>): State {
    if passes == [] then s else EnforceState(RunPasses(s, passes[..|passes| - 1]), passes[|passes| - 1])
  }

  /** The throttle set says what the quota asks for, whatever the container carries. */
  predicate Settled(s: State, n: Name)
    requires n in s.users
  {
    s.throttled.Some? && (n in s.throttled.value <==> Over(s, n))
  }

  /** A settled user is never written again, so a container that carries the wrong limit keeps it. */
  lemma {:induction false} SettledStays(s: State, n: Name, passes: seq<Faults>)
    requires n in s.users && Settled(s, n)
    ensures var t := RunPasses(s, passes);
            && t.users == s.users && t.traffic == s.traffic && t.lxd.Keys == s.lxd.Keys && Settled(t, n)
            && (n in s.lxd ==> t.lxd[n] == s.lxd[n])
  {
    if passes != [] { SettledStays(s, n, passes[..|passes| - 1]); }
  }

  /**
   A limit written or cleared with an error reported: as long as the user stays
   on the same side of the quota the next clean pass puts the container right,
   and only then. Once the user has crossed over, by new traffic or quota or a
   new month, no number of passes of this process ever does.
   */
  lemma HiddenWriteSticks(s: State, f: Faults, n: Name, later: State, passes: seq<Faults>)
    requires n in s.users && n in s.lxd && n in Wanted(s, f) && Outcome(s, f, n).AppliedWithError?
    requires later == EnforceState(s, f).(users := later.users, traffic := later.traffic) && n in later.users
    ensures (Limited(EnforceState(later, NO_FAULTS).lxd, n) <==> Over(later, n)) <==> (Over(later, n) <==> Over(s, n))
    ensures Over(later, n) != Over(s, n) ==> (Limited(RunPasses(later, passes).lxd, n) <==> !Over(later, n))
  {
    assert n in later.throttled.value <==> n in Primed(s, f);
    assert Limited(later.lxd, n) <==> Over(s, n);
    if Over(later, n) != Over(s, n) { SettledStays(later, n, passes); }
  }

  // ---- after a restart of the process ----

  /** A new process knows nothing of the limits it has set. */
  function Restarted(s: State): State { s.(throttled := None) }

  /**
   The first pass of a process, whatever limits it finds, leaves a user's
   container right if and only if it was right, or the patch took effect and,
   where a limit had to go, the limit could be read.
   */
  lemma FirstPassExact(s: State, f: Faults, n: Name)
    requires s.throttled.None? && n in s.users && n in s.lxd
    ensures (Limited(EnforceState(s, f).lxd, n) <==> Over(s, n)) <==>
              || (Limited(s.lxd, n) <==> Over(s, n))
              || (!Outcome(s, f, n).Refused? && (Over(s, n) || n !in f.readFails))
  {
  }

  /**
   So a restart and one clean pass repair whatever an earlier process has left:
   a rebuilt container without its limit, a hidden write, a stale entry.
   */
  lemma RestartRepairs(s: State, n: Name)
    ensures var t := EnforceState(Restarted(s), NO_FAULTS);
            && t.throttled == Some(LimitedUsers(t))
            && (n in s.users && n in s.lxd ==> (Limited(t.lxd, n) <==> Over(s, n)))
  {
    EnforceConverges(Restarted(s), n);
    if n in s.users { assert Over(Restarted(s), n) == Over(s, n); }
  }

  // ---- other operations ----

  /** A new user whose container carries no limit. */
  lemma NewcomerKeeps(s: State, t: State, name: Name)
    requires ThrottleOK(s) && t.throttled == s.throttled && name !in s.users && name !in s.lxd && !Limited(t.lxd, name)
    requires t.users.Keys == s.users.Keys || t.users.Keys == s.users.Keys + {name}
    requires forall n :: n != name ==> (Limited(t.lxd, n) <==> Limited(s.lxd, n))
    ensures ThrottleOK(t)
  {
    assert LimitedUsers(t) == LimitedUsers(s);
  }

  /** Add keeps the agreement whatever fails. */
  lemma AddKeepsAgreement(c: Config, s: State, name: Name, opt: AddOptions, f: AddFaults)
    requires ThrottleOK(s)
    ensures ThrottleOK(AddState(c, s, name, opt, f))
  {
    AddTouches(c, s, name, opt, f);
    AddFrame(c, s, name, opt, f);
    if AddPlan(c, s, name, opt, f).Ok? {
      PlanChecks(c, s, name, opt, f);
      NewcomerKeeps(s, AddState(c, s, name, opt, f), name);
    }
  }

  lemma LoserDrops(s: State, t: State, name: Name)
    requires t.lxd == s.lxd - {name} && (t.users == s.users || t.users == s.users - {name})
    ensures LimitedUsers(t) == LimitedUsers(s) - {name}
  {
  }

  /**
   Del keeps the agreement exactly when the user was not throttled, or the
   container stayed, or Del went all the way through: an error after the
   container is gone leaves the user's entry in the throttle set.
   */
  lemma DelKeepsAgreement(c: Config, s: State, name: Name, f: DelFaults)
    requires ThrottleOK(s) && s.throttled.Some? && ValidName(name)
    ensures ThrottleOK(DelState(c, s, name, f)) <==>
              (name !in s.throttled.value || f.remove.Kept? || DelError(s, name, f).None?)
  {
    if name in s.users && !f.remove.Kept? {
      LoserDrops(s, DelState(c, s, name, f), name);
    }
  }

  /** Reinstall touches the user's own container, which comes back unlimited if it comes back, and the ndppd rules. */
  lemma ReinstallTouches(c: Config, s: State, name: Name, f: ReinstallFaults)
    ensures var t := ReinstallState(c, s, name, f);
            && t == s.(lxd := t.lxd, ndppd := t.ndppd)
            && t.lxd - {name} == s.lxd - {name}
            && (if name !in s.users || f.remove.Kept? then t == s else !Limited(t.lxd, name))
  {
  }

  /**
   Reinstall keeps the agreement exactly when the user was not throttled or the
   old container stayed: the rebuilt one has no limit but keeps its entry.
   */
  lemma ReinstallKeepsAgreement(c: Config, s: State, name: Name, f: ReinstallFaults)
    requires ThrottleOK(s) && s.throttled.Some?
    ensures ThrottleOK(ReinstallState(c, s, name, f)) <==> (name !in s.throttled.value || f.remove.Kept?)
  {
    var t := ReinstallState(c, s, name, f);
    ReinstallTouches(c, s, name, f);
    if name in s.users && !f.remove.Kept? {
      forall n | n != name ensures Limited(t.lxd, n) <==> Limited(s.lxd, n) {
        assert n in t.lxd <==> n in t.lxd - {name};
        assert n in s.lxd <==> n in s.lxd - {name};
        if n in s.lxd { assert (t.lxd - {name})[n] == (s.lxd - {name})[n]; }
      }
      assert LimitedUsers(t) == LimitedUsers(s) - {name};
    }
  }

  /**
   After reinstalling, a throttled user still over quota runs unlimited, and no
   later pass of this process limits it.
   */
  lemma ReinstallEscapesThrottle(c: Config, s: State, name: Name, f: ReinstallFaults, passes: seq<Faults>)
    requires name in s.users && s.throttled.Some? && name in s.throttled.value && Over(s, name)
    requires ReinstallError(c, s, name, f).None?
    ensures !Limited(RunPasses(ReinstallState(c, s, name, f), passes).lxd, name)
  {
    var t := ReinstallState(c, s, name, f);
    ReinstallTouches(c, s, name, f);
    assert Over(t, name) == Over(s, name);
    SettledStays(t, name, passes);
  }
}
