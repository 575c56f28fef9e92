/**
 * The progress-tracking service of the contest server: the `user_progress`
 * table (one row per user and problem), the `flagged_problems` audit table,
 * and the three endpoints that read and write them: start, finish and the
 * list of a user's solved problems.
 *
 * Timestamps are integer milliseconds; the handlers' clock read is the `now`
 * parameter. Failures of the database client are the `Faults` parameter.
 */
module Progress {
  import opened Wrappers
  import Decimal
  import Helper

  type Timestamp = int

  /** The anti-cheat threshold in seconds: a positive integer. */
  type Threshold = t: int | t > 0 witness 600

  /** `ANTICHEAT_THRESHOLD_SECONDS` when the environment does not set it. */
  const DefaultThreshold: Threshold := 600

  /** The unique key of both tables. */
  datatype Key = Key(userId: string, problemId: string)

  /** A row of `user_progress`, without its key. */
  datatype Row = Row(
    startTs: Option<Timestamp>,
    endTs: Option<Timestamp>,
    durationSeconds: Option<int>,
    solved: bool,
    solvedAt: Option<Timestamp>,
    flagged: bool,
    flaggedAt: Option<Timestamp>)

  /** A row of `flagged_problems`, without its key. */
  datatype FlagEntry = FlagEntry(reason: string, flaggedAt: Timestamp)

  datatype Tables = Tables(progress: map<Key, Row>, flags: map<Key, FlagEntry>)

  /**
   * Which database calls of one request fail: the select, the insert or
   * update of `user_progress`, and the upsert into `flagged_problems`.
   */
  datatype Faults = Faults(readFails: bool, writeFails: bool, auditFails: bool)

  const NoFaults := Faults(false, false, false)

  datatype StartMode = TimeStarted | AlreadyStarted

  datatype StartResponse =
    | StartOk(startTs: Option<Timestamp>, mode: StartMode)
    | StartFailed(status: int, error: string)

  /** The three `note`s of a successful finish, and the error responses. */
  datatype FinishResponse =
    | InsertedNoStartFlagged(progress: Row)
    | AlreadySolvedNoChange(progress: Row)
    | UpdatedFirstSolve(progress: Row, flagged: bool, durationSeconds: Option<int>)
    | FinishFailed(status: int, error: string)

  datatype SolvedResponse =
    | SolvedOk(solvedProblemIds: seq<string>)
    | SolvedFailed(status: int, error: string)

  datatype StartOutcome = StartOutcome(tables: Tables, response: StartResponse)
  datatype FinishOutcome = FinishOutcome(tables: Tables, response: FinishResponse)

  /** A request field is usable when present and truthy (not the empty string). */
  predicate Present(id: Option<string>) {
    id.Some? && id.value != ""
  }

  const MissingIdsError := "user_id and problem_id are required"
  const FetchError := "Failed to fetch progress"
  const CreateError := "Failed to create progress"
  const UpdateError := "Failed to update progress"
  const MissingStartReason := "Solved without starting (missing start_ts)"
  const MissingStartInRowReason := "Solved without starting (missing start_ts in existing row)"

  function DurationReason(d: int, threshold: Threshold): string {
    "duration " + Decimal.IntToString(d) + "s < threshold " + Decimal.IntToString(threshold) + "s"
  }

  /** The finish handler's local `calcDuration`, written as it is there. */
  function CalcDuration(start: Option<Timestamp>, end: Option<Timestamp>): (r: Option<int>)
    ensures r == Helper.SecondsBetween(start, end)
  {
    match (start, end)
    case (Some(s), Some(e)) => Some(Max(0, Helper.RoundToSeconds(e - s)))
    case _ => None
  }

  /** The row `start` inserts. */
  function StartedRow(now: Timestamp): Row {
    Row(Some(now), None, None, false, None, false, None)
  }

  /** The row `finish` inserts when the user never started the problem. */
  function UnstartedRow(endTs: Timestamp, solved: bool): Row {
    Row(None, Some(endTs), None, solved, if solved then Some(endTs) else None, true, Some(endTs))
  }

  /** The new row of a finish on an unsolved row, and the reason it was newly flagged, if any. */
  datatype SolveDecision = SolveDecision(row: Row, reason: Option<string>)

  /**
   * The anti-cheat evaluation of a finish on an existing, unsolved row: the
   * start time is kept, the finish time, solve state and a never-negative
   * duration are recorded, a flag once set stays set, and a new reason
   * stamps the flag with the finish time.
   */
  function DecideSolve(e: Row, endTs: Timestamp, solved: bool, threshold: Threshold): (d: SolveDecision)
    ensures d.row.startTs == e.startTs && d.row.endTs == Some(endTs) && d.row.solved == solved
    ensures d.row.solvedAt == (if solved then Some(endTs) else None)
    ensures d.row.durationSeconds.Some? <==> e.startTs.Some?
    ensures d.row.durationSeconds.Some? ==> d.row.durationSeconds.value >= 0
    ensures d.row.flagged <==> e.flagged || d.reason.Some?
    ensures d.reason.Some? ==> d.row.flaggedAt == Some(endTs)
    ensures d.reason.None? ==> d.row.flaggedAt == e.flaggedAt
    ensures e.startTs.None? ==> d.reason == Some(MissingStartInRowReason)
  {
    var duration := CalcDuration(e.startTs, Some(endTs));
    var flag :=
      if e.startTs.None? then (true, Some(endTs), Some(MissingStartInRowReason))
      else if duration.Some? && duration.value < threshold && !e.flagged
      then (true, Some(endTs), Some(DurationReason(duration.value, threshold)))
      else (e.flagged, e.flaggedAt, None);
    SolveDecision(
      e.(endTs := Some(endTs), durationSeconds := duration, solved := solved,
         solvedAt := if solved then Some(endTs) else None,
         flagged := flag.0, flaggedAt := flag.1),
      flag.2)
  }

  /** The audit upsert; a failing one leaves the table as it was. */
  function RecordFlag(flags: map<Key, FlagEntry>, key: Key, reason: string, at: Timestamp, faults: Faults): map<Key, FlagEntry> {
    if faults.auditFails then flags else flags[key := FlagEntry(reason, at)]
  }

  /**
   * `POST /api/progress/start`: its effect on the tables and its response.
   * It never touches the audit table or an existing row; the only change it
   * can make is a fresh row, started now, for the request's key.
   */
  function StartStep(t: Tables, userId: Option<string>, problemId: Option<string>, now: Timestamp, faults: Faults): (r: StartOutcome)
    ensures r.tables.flags == t.flags
    ensures r.tables != t ==>
      && Present(userId) && Present(problemId)
      && Key(userId.value, problemId.value) !in t.progress
      && r.tables.progress == t.progress[Key(userId.value, problemId.value) := StartedRow(now)]
      && r.response == StartOk(Some(now), TimeStarted)
    ensures r.response.StartOk? ==>
      && Present(userId) && Present(problemId)
      && Key(userId.value, problemId.value) in r.tables.progress
      && r.response.startTs == r.tables.progress[Key(userId.value, problemId.value)].startTs
  {
    if !Present(userId) || !Present(problemId) then StartOutcome(t, StartFailed(400, MissingIdsError))
    else if faults.readFails then StartOutcome(t, StartFailed(500, FetchError))
    else
      var key := Key(userId.value, problemId.value);
      if key in t.progress then StartOutcome(t, StartOk(t.progress[key].startTs, AlreadyStarted))
      else if faults.writeFails then StartOutcome(t, StartFailed(500, CreateError))
      else StartOutcome(t.(progress := t.progress[key := StartedRow(now)]), StartOk(Some(now), TimeStarted))
  }

  /**
   * `POST /api/progress/finish`: its effect on the tables and its response.
   * `solved` is the request's field; when it is omitted it is true.
   */
  function FinishStep(t: Tables, userId: Option<string>, problemId: Option<string>, solved: Option<bool>,
                      now: Timestamp, faults: Faults, threshold: Threshold): (r: FinishOutcome)
    ensures r.response.FinishFailed? ==> r.tables == t
    ensures t.progress.Keys <= r.tables.progress.Keys
    ensures forall k :: k in r.tables.progress && (k !in t.progress || r.tables.progress[k] != t.progress[k]) ==>
      Present(userId) && Present(problemId) && k == Key(userId.value, problemId.value)
    ensures forall k :: k in t.progress && t.progress[k].solved ==> r.tables.progress[k] == t.progress[k]
    ensures forall k :: k in r.tables.flags && (k !in t.flags || r.tables.flags[k] != t.flags[k]) ==>
      Present(userId) && Present(problemId) && k == Key(userId.value, problemId.value)
  {
    if !Present(userId) || !Present(problemId) then FinishOutcome(t, FinishFailed(400, MissingIdsError))
    else if faults.readFails then FinishOutcome(t, FinishFailed(500, FetchError))
    else
      var key := Key(userId.value, problemId.value);
      var solvedFlag := solved.GetOr(true);
      if key !in t.progress then
        if faults.writeFails then FinishOutcome(t, FinishFailed(500, CreateError))
        else
          var row := UnstartedRow(now, solvedFlag);
          FinishOutcome(
            Tables(t.progress[key := row], RecordFlag(t.flags, key, MissingStartReason, now, faults)),
            InsertedNoStartFlagged(row))
      else
        var e := t.progress[key];
        if e.solved then FinishOutcome(t, AlreadySolvedNoChange(e))
        else if faults.writeFails then FinishOutcome(t, FinishFailed(500, UpdateError))
        else
          var d := DecideSolve(e, now, solvedFlag, threshold);
          var flags := if d.row.flagged && d.reason.Some?
                       then RecordFlag(t.flags, key, d.reason.value, d.row.flaggedAt.GetOr(now), faults)
                       else t.flags;
          FinishOutcome(Tables(t.progress[key := d.row], flags),
                        UpdatedFirstSolve(d.row, d.row.flagged, d.row.durationSeconds))
  }

  /** The problem ids of the user's solved rows. */
  ghost function SolvedIds(progress: map<Key, Row>, userId: string): set<string> {
    set k | k in progress && k.userId == userId && progress[k].solved :: k.problemId
  }

  /** The problem ids of the user's solved rows among the given keys. */
  ghost function SolvedIdsAmong(progress: map<Key, Row>, keys: set<Key>, userId: string): set<string> {
    set k | k in keys && k in progress && k.userId == userId && progress[k].solved :: k.problemId
  }

  predicate Distinct(s: seq<string>) {
    forall i, j :: 0 <= i < j < |s| ==> s[i] != s[j]
  }

  /** What every row the service writes satisfies. */
  predicate RowOk(r: Row) {
    && (r.flagged <==> r.flaggedAt.Some?)
    && (r.startTs.None? ==> r.flagged)
    && (r.durationSeconds.Some? ==> r.durationSeconds.value >= 0 && r.startTs.Some? && r.endTs.Some?)
    && (r.solved ==> r.endTs.Some? && r.solvedAt == r.endTs)
  }

  /** Every row is well formed, and audit entries exist only for rows. */
  predicate TablesOk(t: Tables) {
    && (forall k :: k in t.progress ==> RowOk(t.progress[k]))
    && t.flags.Keys <= t.progress.Keys
  }

  /**
   * When no database call fails: every flagged row has its audit entry, with
   * the row's flag time.
   */
  predicate AuditComplete(t: Tables) {
    forall k :: k in t.progress && t.progress[k].flagged ==>
      k in t.flags && t.progress[k].flaggedAt == Some(t.flags[k].flaggedAt)
  }

  lemma StartStepKeepsTablesOk(t: Tables, userId: Option<string>, problemId: Option<string>, now: Timestamp, faults: Faults)
    requires TablesOk(t)
    ensures TablesOk(StartStep(t, userId, problemId, now, faults).tables)
  {
  }

  lemma FinishStepKeepsTablesOk(t: Tables, userId: Option<string>, problemId: Option<string>, solved: Option<bool>,
                                now: Timestamp, faults: Faults, threshold: Threshold)
    requires TablesOk(t)
    ensures TablesOk(FinishStep(t, userId, problemId, solved, now, faults, threshold).tables)
  {
    if Present(userId) && Present(problemId) && !faults.readFails {
      var key := Key(userId.value, problemId.value);
      if key in t.progress && !t.progress[key].solved && !faults.writeFails {
        var e := t.progress[key];
        assert RowOk(e);
        var d := DecideSolve(e, now, solved.GetOr(true), threshold);
        assert RowOk(d.row);
      }
    }
  }

  /** The two tables, held by the server's database client. */
  class ProgressService {
    var progress: map<Key, Row>
    var flags: map<Key, FlagEntry>
    const threshold: Threshold

    function Snapshot(): Tables
      reads this
    {
      Tables(progress, flags)
    }

    ghost predicate Valid()
      reads this
    {
      TablesOk(Snapshot())
    }

    constructor (threshold: Threshold)
      ensures Valid() && this.threshold == threshold
      ensures progress == map[] && flags == map[]
    {
      this.threshold := threshold;
      progress := map[];
      flags := map[];
    }

    /** Records that the user opened the problem, unless a row already exists. */
    method Start(userId: Option<string>, problemId: Option<string>, now: Timestamp, faults: Faults)
      returns (r: StartResponse)
      requires Valid()
      modifies this
      ensures Valid()
      ensures StartStep(old(Snapshot()), userId, problemId, now, faults) == StartOutcome(Snapshot(), r)
    {
      StartStepKeepsTablesOk(Snapshot(), userId, problemId, now, faults);
      if !Present(userId) || !Present(problemId) {
        return StartFailed(400, MissingIdsError);
      }
      var startTs := now;
      if faults.readFails {
        return StartFailed(500, FetchError);
      }
      var key := Key(userId.value, problemId.value);
      if key in progress {
        return StartOk(progress[key].startTs, AlreadyStarted);
      }
      if faults.writeFails {
        return StartFailed(500, CreateError);
      }
      progress := progress[key := StartedRow(startTs)];
      return StartOk(Some(startTs), TimeStarted);
    }

    /** Records that the user finished the problem, flagging suspicious timing. */
    method Finish(userId: Option<string>, problemId: Option<string>, solved: Option<bool>, now: Timestamp, faults: Faults)
      returns (r: FinishResponse)
      requires Valid()
      modifies this
      ensures Valid()
      ensures FinishStep(old(Snapshot()), userId, problemId, solved, now, faults, threshold) == FinishOutcome(Snapshot(), r)
    {
      FinishStepKeepsTablesOk(Snapshot(), userId, problemId, solved, now, faults, threshold);
      if !Present(userId) || !Present(problemId) {
        return FinishFailed(400, MissingIdsError);
      }
      var solvedFlag := solved.GetOr(true);
      var endTs := now;
      if faults.readFails {
        return FinishFailed(500, FetchError);
      }
      var key := Key(userId.value, problemId.value);

      // Case 1: no row at all, the user never called start.
      if key !in progress {
        var inserted := UnstartedRow(endTs, solvedFlag);
        if faults.writeFails {
          return FinishFailed(500, CreateError);
        }
        progress := progress[key := inserted];
        if !faults.auditFails {
          flags := flags[key := FlagEntry(MissingStartReason, endTs)];
        }
        return InsertedNoStartFlagged(inserted);
      }

      // Case 2: already solved, nothing changes.
      var existing := progress[key];
      if existing.solved {
        return AlreadySolvedNoChange(existing);
      }

      // Case 3: the first solve of a started row.
      var originalStartTs := existing.startTs;
      var durationSeconds := CalcDuration(originalStartTs, Some(endTs));
      var flagged := existing.flagged;
      var flaggedAt := existing.flaggedAt;
      var flagReason: Option<string> := None;
      if originalStartTs.None? {
        flagged := true;
        flaggedAt := Some(endTs);
        flagReason := Some(MissingStartInRowReason);
      } else if durationSeconds.Some? && durationSeconds.value < threshold && !flagged {
        flagged := true;
        flaggedAt := Some(endTs);
        flagReason := Some(DurationReason(durationSeconds.value, threshold));
      }
      if faults.writeFails {
        return FinishFailed(500, UpdateError);
      }
      var updated := existing.(endTs := Some(endTs), durationSeconds := durationSeconds, solved := solvedFlag,
                               solvedAt := if solvedFlag then Some(endTs) else None,
                               flagged := flagged, flaggedAt := flaggedAt);
      progress := progress[key := updated];
      if flagged && flagReason.Some? && !faults.auditFails {
        flags := flags[key := FlagEntry(flagReason.value, flaggedAt.GetOr(endTs))];
      }
      return UpdatedFirstSolve(updated, flagged, durationSeconds);
    }

    /**
     * `GET /api/progress/solved`: the problem ids of the user's solved rows,
     * each once, in the order the database returns them (unspecified here).
     */
    method SolvedProblemIds(userId: Option<string>, readFails: bool) returns (r: SolvedResponse)
      ensures !Present(userId) ==> r == SolvedFailed(400, "user_id is required")
      ensures Present(userId) && readFails ==> r == SolvedFailed(500, "Failed to fetch solved problems")
      ensures r.SolvedOk? <==> Present(userId) && !readFails
      ensures r.SolvedOk? ==> Distinct(r.solvedProblemIds)
      ensures r.SolvedOk? ==> (set id | id in r.solvedProblemIds) == SolvedIds(progress, userId.value)
    {
      if !Present(userId) {
        return SolvedFailed(400, "user_id is required");
      }
      if readFails {
        return SolvedFailed(500, "Failed to fetch solved problems");
      }
      var user := userId.value;
      var remaining := progress.Keys;
      var ids: seq<string> := [];
      ghost var done: set<Key> := {};
      while remaining != {}
        invariant remaining !! done && remaining + done == progress.Keys
        invariant Distinct(ids)
        invariant (set id | id in ids) == SolvedIdsAmong(progress, done, user)
        decreases remaining
      {
        var k :| k in remaining;
        ghost var before := SolvedIdsAmong(progress, done, user);
        if k.userId == user && progress[k].solved {
          assert k.problemId !in before;
          assert SolvedIdsAmong(progress, done + {k}, user) == before + {k.problemId};
          ids := ids + [k.problemId];
        } else {
          assert SolvedIdsAmong(progress, done + {k}, user) == before;
        }
        remaining := remaining - {k};
        done := done + {k};
      }
      assert done == progress.Keys;
      return SolvedOk(ids);
    }
  }
}
