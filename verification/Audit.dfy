/** The bounded audit log and the paging the admin page walks it with. */
module Audit {

  const RETENTION: nat := 5000
  const DEFAULT_CHUNK: nat := 500
  const MAX_CHUNK := 1000

  datatype Entry = Entry(id: nat, actor: string, action: string)

  /** How one AddAuditLog call goes: fully, inserted but not counted or not pruned, or refused. */
  datatype Outcome = Complete | PruneFailed | CountFailed | InsertFailed

  /** The table in id order, as every query of it sees it. */
  class AuditTable {
    var rows: seq<Entry>
    var nextId: nat
    const retention: nat

    constructor (retention: nat)
      ensures rows == [] && nextId == 1 && this.retention == retention
    {
      rows := [];
      nextId := 1;
      this.retention := retention;
    }

    method AddAuditLog(actor: string, action: string, outcome: Outcome) returns (ok: bool)
      modifies this
      ensures Log(rows, nextId) == Insert(retention, Log(old(rows), old(nextId)), actor, action, outcome)
      ensures ok <==> outcome.Complete? || (outcome.PruneFailed? && |rows| <= retention)
    {
      if outcome.InsertFailed? {
        return false;
      }
      rows := rows + [Entry(nextId, actor, action)];
      nextId := nextId + 1;
      if outcome.CountFailed? {
        return false;
      }
      var n := |rows|;
      if n <= retention {
        return true;
      }
      if outcome.PruneFailed? {
        return false;
      }
      rows := rows[1..];
      return true;
    }

    /** ORDER BY id DESC LIMIT limit OFFSET offset. */
    method ListAuditLog(offset: nat, limit: nat) returns (chunk: seq<Entry>)
      ensures chunk == Page(rows, offset, limit)
    {
      chunk := [];
      while |chunk| < limit && offset + |chunk| < |rows|
        invariant |chunk| <= limit && (|chunk| > 0 ==> offset + |chunk| <= |rows|)
        invariant chunk == NewestFirst(rows)[Min(offset, |rows|)..Min(offset, |rows|) + |chunk|]
      {
        chunk := chunk + [rows[|rows| - 1 - offset - |chunk|]];
      }
    }

    /** One /audit/api answer: the chunk and whether more rows follow it. */
    method HandleAuditAPI(offset: int, limit: int) returns (chunk: seq<Entry>, more: bool, total: nat)
      ensures total == |rows|
      ensures chunk == Page(rows, ClampOffset(offset), ChunkSize(limit))
      ensures more <==> ClampOffset(offset) + |chunk| < |rows|
    {
      var from: nat := if offset < 0 then 0 else offset;
      var size: nat := DEFAULT_CHUNK;
      if limit > 0 && limit <= MAX_CHUNK {
        size := limit;
      }
      var listed := ListAuditLog(from, size);
      total := |rows|;
      chunk := [];
      for i := 0 to |listed|
        invariant chunk == listed[..i]
      {
        chunk := chunk + [listed[i]];
      }
      more := from + |listed| < total;
    }

    /** The browser's scrolling: fetch from offset 0, advance by what came, stop when no more follows. */
    method ScrollAll(limit: int) returns (all: seq<Entry>)
      ensures all == NewestFirst(rows)
    {
      all := [];
      var more := true;
      while more
        invariant |all| <= |rows| && all == NewestFirst(rows)[..|all|]
        invariant !more ==> |all| == |rows|
        decreases |rows| - |all| + if more then 1 else 0
      {
        var chunk, m, _ := HandleAuditAPI(|all|, limit);
        PageExtends(rows, |all|, ChunkSize(limit));
        all := all + chunk;
        more := m;
      }
    }
  }

  function Min(a: nat, b: nat): nat { if a < b then a else b }

  function ClampOffset(offset: int): nat { if offset < 0 then 0 else offset }

  function ChunkSize(limit: int): (size: nat)
    ensures size > 0
  {
    if 0 < limit <= MAX_CHUNK then limit else DEFAULT_CHUNK
  }

  function NewestFirst(rows: seq<Entry>): (r: seq<Entry>)
    ensures |r| == |rows| && forall i :: 0 <= i < |r| ==> r[i] == rows[|rows| - 1 - i]
  {
    seq(|rows|, i requires 0 <= i < |rows| => rows[|rows| - 1 - i])
  }

  function Page(rows: seq<Entry>, offset: nat, limit: nat): seq<Entry> {
    var from := Min(offset, |rows|);
    NewestFirst(rows)[from..Min(from + limit, |rows|)]
  }

  lemma PageExtends(rows: seq<Entry>, offset: nat, limit: nat)
    requires offset <= |rows|
    ensures NewestFirst(rows)[..offset] + Page(rows, offset, limit) == NewestFirst(rows)[..Min(offset + limit, |rows|)]
  {
  }

  // ---- retention over a history of inserts ----

  datatype Log = Log(rows: seq<Entry>, nextId: nat)

  predicate Unpruned(outcome: Outcome) { outcome.PruneFailed? || outcome.CountFailed? }

  function Insert(retention: nat, log: Log, actor: string, action: string, outcome: Outcome): Log {
    if outcome.InsertFailed? then log
    else
      var rows := log.rows + [Entry(log.nextId, actor, action)];
      Log(if |rows| <= retention || Unpruned(outcome) then rows else rows[1..], log.nextId + 1)
  }

  type History = seq<(string, string, Outcome)>

  function Run(retention: nat, h: History): Log {
    if h == [] then Log([], 1)
    else
      var last := h[|h| - 1];
      Insert(retention, Run(retention, h[..|h| - 1]), last.0, last.1, last.2)
  }

  /** Every entry ever inserted, numbered from 1 in insertion order. */
  function Inserted(h: History): seq<Entry> {
    if h == [] then []
    else
      var before := Inserted(h[..|h| - 1]);
      var last := h[|h| - 1];
      if last.2.InsertFailed? then before else before + [Entry(|before| + 1, last.0, last.1)]
  }

  /** Inserts whose count or prune failed while the table was at the cap; each leaves one row too many for good. */
  function Overdue(retention: nat, h: History): nat {
    if h == [] then 0
    else
      var before := h[..|h| - 1];
      Overdue(retention, before)
      + if Unpruned(h[|h| - 1].2) && |Run(retention, before).rows| >= retention then 1 else 0
  }

  function Last(s: seq<Entry>, n: nat): seq<Entry>
    requires n <= |s|
  {
    s[|s| - n..]
  }

  /** The log holds the newest entries: the cap and the overdue ones, or all there are. */
  predicate Newest(retention: nat, all: seq<Entry>, overdue: nat, log: Log) {
    && (overdue > 0 ==> |all| >= retention + overdue)
    && log == Log(Last(all, Min(|all|, retention + overdue)), |all| + 1)
  }

  lemma InsertKeepsNewest(retention: nat, all: seq<Entry>, overdue: nat, log: Log, actor: string, action: string,
      outcome: Outcome)
    requires Newest(retention, all, overdue, log) && !outcome.InsertFailed?
    ensures Newest(retention, all + [Entry(|all| + 1, actor, action)],
                   overdue + if Unpruned(outcome) && |log.rows| >= retention then 1 else 0,
                   Insert(retention, log, actor, action, outcome))
  {
    var e, n := Entry(|all| + 1, actor, action), |log.rows|;
    assert Last(all, n) + [e] == Last(all + [e], n + 1);
    assert Last(all + [e], n + 1)[1..] == Last(all + [e], n);
  }

  /**
   After any history the table is a run of the newest entries in id order:
   min(n, cap) of them, plus one for each count or prune that failed at the cap.
   */
  lemma {:induction false} KeepsNewest(retention: nat, h: History)
    ensures Newest(retention, Inserted(h), Overdue(retention, h), Run(retention, h))
  {
    if h != [] {
      var before, last := h[..|h| - 1], h[|h| - 1];
      KeepsNewest(retention, before);
      if !last.2.InsertFailed? {
        InsertKeepsNewest(retention, Inserted(before), Overdue(retention, before), Run(retention, before),
                          last.0, last.1, last.2);
      }
    }
  }

  /** When every insert and prune succeeds the table is exactly the newest min(n, 5000) entries. */
  lemma {:induction false} RetentionExact(h: History)
    requires forall i :: 0 <= i < |h| ==> h[i].2.Complete?
    ensures |Inserted(h)| == |h|
    ensures Run(RETENTION, h).rows == Last(Inserted(h), Min(|h|, RETENTION))
  {
    CompleteCounts(RETENTION, h);
    KeepsNewest(RETENTION, h);
  }

  lemma {:induction false} CompleteCounts(retention: nat, h: History)
    requires forall i :: 0 <= i < |h| ==> h[i].2.Complete?
    ensures |Inserted(h)| == |h| && Overdue(retention, h) == 0
  {
    if h != [] { CompleteCounts(retention, h[..|h| - 1]); }
  }
}
