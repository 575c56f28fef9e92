/**
 * Sequences of start and finish requests: what no run of the service can
 * undo (a row, its start time, a solve, a flag) and what every run keeps
 * (well-formed rows, a complete audit table when its writes succeed).
 */
module ProgressTraces {
  import opened Wrappers
  import opened Progress

  datatype Request =
    | StartRequest(userId: Option<string>, problemId: Option<string>, now: Timestamp, faults: Faults)
    | FinishRequest(userId: Option<string>, problemId: Option<string>, solved: Option<bool>, now: Timestamp, faults: Faults)

  function Apply(t: Tables, q: Request, threshold: Threshold): Tables {
    match q
    case StartRequest(u, p, now, f) => StartStep(t, u, p, now, f).tables
    case FinishRequest(u, p, s, now, f) => FinishStep(t, u, p, s, now, f, threshold).tables
  }

  /** The tables after the requests, handled one after another. */
  function Run(t: Tables, qs: seq<Request>, threshold: Threshold): Tables
    decreases |qs|
  {
    if qs == [] then t else Run(Apply(t, qs[0], threshold), qs[1..], threshold)
  }

  /** What one request keeps of an existing row. */
  predicate Keeps(before: Row, after: Row) {
    && after.startTs == before.startTs
    && (before.flagged ==> after.flagged)
    && (before.solved ==> after == before)
  }

  lemma ApplyKeepsRows(t: Tables, q: Request, threshold: Threshold, k: Key)
    requires k in t.progress
    ensures k in Apply(t, q, threshold).progress
    ensures Keeps(t.progress[k], Apply(t, q, threshold).progress[k])
  {
  }

  /**
   * Rows are never deleted; a row's start time is never overwritten; a
   * flag is never cleared; a solved row never changes again.
   */
  lemma {:induction false} RunKeepsRows(t: Tables, qs: seq<Request>, threshold: Threshold, k: Key)
    requires k in t.progress
    ensures k in Run(t, qs, threshold).progress
    ensures Keeps(t.progress[k], Run(t, qs, threshold).progress[k])
    decreases |qs|
  {
    if qs != [] {
      var t' := Apply(t, qs[0], threshold);
      ApplyKeepsRows(t, qs[0], threshold, k);
      RunKeepsRows(t', qs[1..], threshold, k);
    }
  }

  /** Every row stays well formed (durations never negative), and audit entries exist only for rows. */
  lemma {:induction false} RunKeepsTablesOk(t: Tables, qs: seq<Request>, threshold: Threshold)
    requires TablesOk(t)
    ensures TablesOk(Run(t, qs, threshold))
    decreases |qs|
  {
    if qs != [] {
      match qs[0] {
        case StartRequest(u, p, now, f) => StartStepKeepsTablesOk(t, u, p, now, f);
        case FinishRequest(u, p, s, now, f) => FinishStepKeepsTablesOk(t, u, p, s, now, f, threshold);
      }
      RunKeepsTablesOk(Apply(t, qs[0], threshold), qs[1..], threshold);
    }
  }

  predicate AuditSucceeds(q: Request) {
    !q.faults.auditFails
  }

  lemma ApplyKeepsAuditComplete(t: Tables, q: Request, threshold: Threshold)
    requires AuditComplete(t) && AuditSucceeds(q)
    ensures AuditComplete(Apply(t, q, threshold))
  {
    if q.FinishRequest? && Present(q.userId) && Present(q.problemId) {
      var key := Key(q.userId.value, q.problemId.value);
      if key in t.progress && !t.progress[key].solved {
        var d := DecideSolve(t.progress[key], q.now, q.solved.GetOr(true), threshold);
        assert d.reason.Some? ==> d.row.flaggedAt == Some(q.now);
      }
    }
  }

  /**
   * As long as no audit upsert fails, every flagged row has its audit
   * entry, carrying the row's flag time: each new flag reason is recorded.
   */
  lemma {:induction false} RunKeepsAuditComplete(t: Tables, qs: seq<Request>, threshold: Threshold)
    requires AuditComplete(t)
    requires forall i :: 0 <= i < |qs| ==> AuditSucceeds(qs[i])
    ensures AuditComplete(Run(t, qs, threshold))
    decreases |qs|
  {
    if qs != [] {
      ApplyKeepsAuditComplete(t, qs[0], threshold);
      assert forall i :: 0 <= i < |qs[1..]| ==> AuditSucceeds(qs[1..][i]) by {
        forall i | 0 <= i < |qs[1..]| ensures AuditSucceeds(qs[1..][i]) {
          assert qs[1..][i] == qs[i + 1];
        }
      }
      RunKeepsAuditComplete(Apply(t, qs[0], threshold), qs[1..], threshold);
    }
  }

  /**
   * The service starts from empty tables, where every row is created lazily
   * by a request: after any run of requests whose audit writes succeed, every
   * row is well formed and every flagged row has its audit entry.
   */
  lemma RunFromEmptyTables(qs: seq<Request>, threshold: Threshold)
    requires forall i :: 0 <= i < |qs| ==> AuditSucceeds(qs[i])
    ensures TablesOk(Run(Tables(map[], map[]), qs, threshold))
    ensures AuditComplete(Run(Tables(map[], map[]), qs, threshold))
  {
    RunKeepsTablesOk(Tables(map[], map[]), qs, threshold);
    RunKeepsAuditComplete(Tables(map[], map[]), qs, threshold);
  }
}
