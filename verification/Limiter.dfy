/** The fixed-window login limiter both panels carry (5 attempts per minute per IP). */
module Limiter {

  datatype LoginRecord = LoginRecord(start: int, count: nat)
  type Table = map<string, LoginRecord>

  datatype Policy = Policy(limit: nat, win: int, maxIPs: nat)

  const PANEL := Policy(5, 60_000_000_000, 10000)

  // ---- one attempt, one sweep ----

  predicate Stale(p: Policy, r: LoginRecord, now: int) { now - r.start >= p.win }

  function Record(p: Policy, t: Table, ip: string, now: int): LoginRecord {
    if ip !in t || Stale(p, t[ip], now) then LoginRecord(now, 1)
    else LoginRecord(t[ip].start, t[ip].count + 1)
  }

  predicate Admits(p: Policy, t: Table, ip: string, now: int) {
    ip !in t || Stale(p, t[ip], now) || t[ip].count < p.limit
  }

  function Pruned(p: Policy, t: Table, now: int): Table {
    if |t| < p.maxIPs then t else map ip | ip in t && !Stale(p, t[ip], now) :: t[ip]
  }

  class LoginLimiter {
    var byIP: Table
    const policy: Policy

    constructor (policy: Policy)
      ensures byIP == map[] && this.policy == policy
    {
      byIP := map[];
      this.policy := policy;
    }

    method Allowed(ip: string, now: int) returns (ok: bool)
      modifies this
      ensures ok == Admits(policy, old(byIP), ip, now)
      ensures byIP == old(byIP)[ip := Record(policy, old(byIP), ip, now)]
    {
      if ip !in byIP || now - byIP[ip].start >= policy.win {
        byIP := byIP[ip := LoginRecord(now, 1)];
        return true;
      }
      var w := byIP[ip];
      w := w.(count := w.count + 1);
      byIP := byIP[ip := w];
      if w.count > policy.limit {
        return false;
      }
      return true;
    }

    method Prune(now: int)
      modifies this
      ensures byIP == Pruned(policy, old(byIP), now)
      ensures |old(byIP)| < policy.maxIPs ==> byIP == old(byIP)
      ensures |old(byIP)| >= policy.maxIPs ==>
                forall ip :: ip in byIP <==> ip in old(byIP) && now - old(byIP)[ip].start < policy.win
    {
      if |byIP| < policy.maxIPs {
        return;
      }
      var todo := byIP.Keys;
      while todo != {}
        invariant todo <= old(byIP).Keys
        invariant byIP == map ip | ip in old(byIP)
                    && (ip in todo || !Stale(policy, old(byIP)[ip], now)) :: old(byIP)[ip]
      {
        var ip :| ip in todo;
        if now - byIP[ip].start >= policy.win {
          byIP := byIP - {ip};
        }
        todo := todo - {ip};
      }
    }
  }

  // ---- histories ----

  datatype Event = Login(ip: string, at: int) | Sweep(at: int)

  predicate Chronological(evs: seq<Event>) {
    forall i, j :: 0 <= i < j < |evs| ==> evs[i].at <= evs[j].at
  }

  function After(p: Policy, t: Table, e: Event): Table {
    match e
    case Login(ip, at) => t[ip := Record(p, t, ip, at)]
    case Sweep(at) => Pruned(p, t, at)
  }

  /** The answers to the login attempts of a history, in order. */
  function Answers(p: Policy, t: Table, evs: seq<Event>): seq<bool>
    decreases |evs|
  {
    if evs == [] then []
    else
      (if evs[0].Login? then [Admits(p, t, evs[0].ip, evs[0].at)] else [])
      + Answers(p, After(p, t, evs[0]), evs[1..])
  }

  function Logins(evs: seq<Event>): (r: seq<Event>)
    ensures forall e :: e in r ==> e.Login? && e in evs
  {
    if evs == [] then []
    else (if evs[0].Login? then [evs[0]] else []) + Logins(evs[1..])
  }

  // ---- pruning is invisible ----

  /** The pruned table lacks only records that are stale from now on. */
  ghost predicate Thinned(p: Policy, full: Table, thin: Table, now: int) {
    && (forall ip :: ip in thin ==> ip in full && full[ip] == thin[ip])
    && (forall ip :: ip in full && ip !in thin ==> Stale(p, full[ip], now))
  }

  lemma {:induction false} ThinnedAnswers(p: Policy, full: Table, thin: Table, now: int, evs: seq<Event>)
    requires Thinned(p, full, thin, now)
    requires Chronological(evs) && (evs != [] ==> now <= evs[0].at)
    ensures Answers(p, thin, evs) == Answers(p, full, Logins(evs))
    decreases |evs|
  {
    if evs != [] {
      var e := evs[0];
      if e.Login? {
        assert Logins(evs) == [e] + Logins(evs[1..]);
        assert (Logins(evs))[1..] == Logins(evs[1..]);
        ThinnedAnswers(p, After(p, full, e), After(p, thin, e), e.at, evs[1..]);
      } else {
        assert Logins(evs) == Logins(evs[1..]);
        ThinnedAnswers(p, full, After(p, thin, e), e.at, evs[1..]);
      }
    }
  }

  /** Sweeps may be inserted anywhere in any number: no attempt gets a different answer. */
  lemma PruneInvisible(p: Policy, t: Table, evs: seq<Event>)
    requires Chronological(evs)
    ensures Answers(p, t, evs) == Answers(p, t, Logins(evs))
  {
    if evs != [] { ThinnedAnswers(p, t, t, evs[0].at, evs); }
  }

  // ---- the rate bound ----

  /** How many attempts of ip were admitted in [from, until). */
  function Admitted(logins: seq<Event>, answers: seq<bool>, ip: string, from: int, until: int): nat
    requires |logins| == |answers| && forall e :: e in logins ==> e.Login?
  {
    if logins == [] then 0
    else (if answers[0] && logins[0].ip == ip && from <= logins[0].at < until then 1 else 0)
         + Admitted(logins[1..], answers[1..], ip, from, until)
  }

  lemma {:induction false} AnswersLength(p: Policy, t: Table, evs: seq<Event>)
    ensures |Answers(p, t, evs)| == |Logins(evs)|
    decreases |evs|
  {
    if evs != [] { AnswersLength(p, After(p, t, evs[0]), evs[1..]); }
  }

  lemma {:induction false} LoginsChronological(evs: seq<Event>)
    requires Chronological(evs)
    ensures Chronological(Logins(evs))
  {
    if evs != [] {
      LoginsChronological(evs[1..]);
      forall e | e in Logins(evs[1..]) ensures evs[0].at <= e.at {
        var k :| 0 <= k < |evs[1..]| && evs[1..][k] == e;
        assert evs[k + 1] == e;
      }
    }
  }

  lemma {:induction false} NoneAfter(logins: seq<Event>, answers: seq<bool>, ip: string, from: int, until: int)
    requires |logins| == |answers| && forall e :: e in logins ==> e.Login? && e.at >= until
    ensures Admitted(logins, answers, ip, from, until) == 0
  {
    if logins != [] {
      assert logins[0] in logins;
      NoneAfter(logins[1..], answers[1..], ip, from, until);
    }
  }

  function Sub(a: nat, b: nat): nat { if a > b then a - b else 0 }

  /** What ip can still get admitted in [s, s + win), given its record and that only attempts from now on follow. */
  function Budget(p: Policy, t: Table, ip: string, s: int, now: int): nat {
    if ip !in t || now < s then 2 * p.limit
    else if t[ip].start < s then Sub(p.limit, t[ip].count) + p.limit
    else Sub(p.limit, t[ip].count)
  }

  /** One attempt inside the interval spends what it is admitted for. */
  lemma BudgetStep(p: Policy, t: Table, ip: string, s: int, now: int, who: string, at: int)
    requires p.limit >= 1 && now <= at < s + p.win
    ensures (if who == ip && s <= at && Admits(p, t, who, at) then 1 else 0)
            + Budget(p, t[who := Record(p, t, who, at)], ip, s, at) <= Budget(p, t, ip, s, now)
  {
  }

  lemma {:induction false} WithinBudget(p: Policy, t: Table, evs: seq<Event>, answers: seq<bool>, ip: string, s: int,
      now: int)
    requires p.limit >= 1
    requires Chronological(evs) && (evs != [] ==> now <= evs[0].at)
    requires forall e :: e in evs ==> e.Login?
    requires answers == Answers(p, t, evs) && |answers| == |evs|
    ensures Admitted(evs, answers, ip, s, s + p.win) <= Budget(p, t, ip, s, now)
    decreases |evs|
  {
    if evs != [] {
      var e, rest := evs[0], evs[1..];
      assert e in evs;
      if e.at >= s + p.win {
        forall x | x in evs ensures x.at >= s + p.win {
          var k :| 0 <= k < |evs| && evs[k] == x;
        }
        NoneAfter(evs, answers, ip, s, s + p.win);
      } else {
        var t' := After(p, t, e);
        assert answers[1..] == Answers(p, t', rest);
        WithinBudget(p, t', rest, answers[1..], ip, s, e.at);
        BudgetStep(p, t, ip, s, now, e.ip, e.at);
      }
    }
  }

  /**
   Over any history, with any sweeps, one IP gets at most 2 * limit attempts
   admitted in any half-open interval as long as the window.
   */
  lemma AtMostTwiceTheLimit(p: Policy, t: Table, evs: seq<Event>, ip: string, s: int)
    requires p.limit >= 1 && Chronological(evs)
    ensures |Logins(evs)| == |Answers(p, t, evs)|
    ensures Admitted(Logins(evs), Answers(p, t, evs), ip, s, s + p.win) <= 2 * p.limit
  {
    PruneInvisible(p, t, evs);
    AnswersLength(p, t, evs);
    var logins := Logins(evs);
    LoginsChronological(evs);
    WithinBudget(p, t, logins, Answers(p, t, logins), ip, s, if logins == [] then 0 else logins[0].at);
  }

  // ---- the other side: what is never refused ----

  /** The attempts of ip in the first k of a history, from a time on. */
  function Attempts(logins: seq<Event>, k: nat, ip: string, from: int): nat
    requires k <= |logins| && forall e :: e in logins ==> e.Login?
  {
    if k == 0 then 0
    else Attempts(logins, k - 1, ip, from) + if logins[k - 1].ip == ip && logins[k - 1].at >= from then 1 else 0
  }

  /** The table after the first k attempts. */
  function TableAt(p: Policy, t: Table, logins: seq<Event>, k: nat): Table
    requires k <= |logins|
  {
    if k == 0 then t else After(p, TableAt(p, t, logins, k - 1), logins[k - 1])
  }

  lemma {:induction false} AnswerAt(p: Policy, t: Table, logins: seq<Event>, k: nat)
    requires k < |logins| && forall e :: e in logins ==> e.Login?
    ensures k < |Answers(p, t, logins)|
    ensures Answers(p, t, logins)[k] == Admits(p, TableAt(p, t, logins, k), logins[k].ip, logins[k].at)
    decreases k
  {
    assert logins[0] in logins;
    if k > 0 {
      var rest := logins[1..];
      forall e | e in rest ensures e.Login? { assert e in logins; }
      AnswerAt(p, After(p, t, logins[0]), rest, k - 1);
      TableAtFront(p, t, logins, k);
    }
  }

  lemma {:induction false} TableAtFront(p: Policy, t: Table, logins: seq<Event>, k: nat)
    requires 0 < k <= |logins|
    ensures TableAt(p, t, logins, k) == TableAt(p, After(p, t, logins[0]), logins[1..], k - 1)
  {
    if k > 1 { TableAtFront(p, t, logins, k - 1); }
  }

  /** No record, or one that is stale when the history begins. */
  predicate Unmarked(p: Policy, t: Table, ip: string, now: int) { ip !in t || Stale(p, t[ip], now) }

  /** A record is stale from before, or opened by now and counting no more than the attempts made since. */
  predicate Counting(p: Policy, u: Table, logins: seq<Event>, k: nat, ip: string)
    requires 0 < |logins| && k <= |logins| && forall e :: e in logins ==> e.Login?
  {
    ip in u ==>
      || Stale(p, u[ip], logins[0].at)
      || (k > 0 && u[ip].start <= logins[k - 1].at && u[ip].count <= Attempts(logins, k, ip, u[ip].start))
  }

  lemma CountingStep(p: Policy, u: Table, logins: seq<Event>, k: nat, ip: string)
    requires k < |logins| && Chronological(logins) && forall e :: e in logins ==> e.Login?
    requires Counting(p, u, logins, k, ip)
    ensures Counting(p, After(p, u, logins[k]), logins, k + 1, ip)
  {
    assert logins[k] in logins && logins[0].at <= logins[k].at;
    if k > 0 { assert logins[k - 1].at <= logins[k].at; }
  }

  lemma {:induction false} CountBounded(p: Policy, t: Table, logins: seq<Event>, k: nat, ip: string)
    requires 0 < |logins| && k <= |logins| && Chronological(logins) && forall e :: e in logins ==> e.Login?
    requires Unmarked(p, t, ip, logins[0].at)
    ensures Counting(p, TableAt(p, t, logins, k), logins, k, ip)
  {
    if k > 0 {
      CountBounded(p, t, logins, k - 1, ip);
      CountingStep(p, TableAt(p, t, logins, k - 1), logins, k - 1, ip);
    }
  }

  lemma {:induction false} AttemptsShrink(logins: seq<Event>, k: nat, ip: string, from: int, later: int)
    requires k <= |logins| && from <= later && forall e :: e in logins ==> e.Login?
    ensures Attempts(logins, k, ip, later) <= Attempts(logins, k, ip, from)
  {
    if k > 0 { AttemptsShrink(logins, k - 1, ip, from, later); }
  }

  lemma LoginAdmitted(p: Policy, t: Table, logins: seq<Event>, k: nat, ip: string, at: int)
    requires k < |logins| && Chronological(logins) && forall e :: e in logins ==> e.Login?
    requires logins[k] == Login(ip, at) && Unmarked(p, t, ip, logins[0].at)
    requires Attempts(logins, k, ip, at - p.win + 1) < p.limit
    ensures k < |Answers(p, t, logins)| && Answers(p, t, logins)[k]
  {
    AnswerAt(p, t, logins, k);
    CountBounded(p, t, logins, k, ip);
    var u := TableAt(p, t, logins, k);
    assert logins[0].at <= at;
    if ip in u && !Stale(p, u[ip], at) {
      assert !Stale(p, u[ip], logins[0].at);
      AttemptsShrink(logins, k, ip, at - p.win + 1, u[ip].start);
    }
  }

  /**
   Over any history of other addresses and sweeps, an attempt is refused only
   if the same address has already made limit attempts less than a window ago.
   So from no record or a stale one the first limit attempts within a window
   are all admitted.
   */
  lemma RefusedOnlyAfterLimit(p: Policy, t: Table, evs: seq<Event>, logins: seq<Event>, k: nat, ip: string, at: int)
    requires Chronological(evs) && logins == Logins(evs) && k < |logins| && logins[k] == Login(ip, at)
    requires Unmarked(p, t, ip, logins[0].at)
    ensures k < |Answers(p, t, evs)|
    ensures !Answers(p, t, evs)[k] ==> Attempts(logins, k, ip, at - p.win + 1) >= p.limit
  {
    PruneInvisible(p, t, evs);
    LoginsChronological(evs);
    AnswerAt(p, t, logins, k);
    if Attempts(logins, k, ip, at - p.win + 1) < p.limit { LoginAdmitted(p, t, logins, k, ip, at); }
  }
}
