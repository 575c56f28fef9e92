/**
 * What one start or finish request does to the two tables, case by case,
 * as the handlers promise it.
 */
module ProgressProperties {
  import opened Wrappers
  import opened Progress
  import Helper

  /** A request without a user id or problem id gets a 400 and touches nothing. */
  lemma MissingIdsRejected(t: Tables, userId: Option<string>, problemId: Option<string>, solved: Option<bool>,
                           now: Timestamp, faults: Faults, threshold: Threshold)
    requires !Present(userId) || !Present(problemId)
    ensures StartStep(t, userId, problemId, now, faults) == StartOutcome(t, StartFailed(400, MissingIdsError))
    ensures FinishStep(t, userId, problemId, solved, now, faults, threshold) == FinishOutcome(t, FinishFailed(400, MissingIdsError))
  {
  }

  /**
   * A failing select, insert or update leaves both tables as they were and,
   * for a request with both ids, answers 500 with the error of the step that
   * failed: the select first, then the insert of a missing row or the update
   * of an unsolved one. A write that is never attempted (an existing row on
   * start, a solved row on finish) cannot fail.
   */
  lemma StoreFailuresChangeNothing(t: Tables, userId: Option<string>, problemId: Option<string>, solved: Option<bool>,
                                   now: Timestamp, faults: Faults, threshold: Threshold)
    requires faults.readFails || faults.writeFails
    ensures StartStep(t, userId, problemId, now, faults).tables == t
    ensures FinishStep(t, userId, problemId, solved, now, faults, threshold).tables == t
    ensures Present(userId) && Present(problemId) && faults.readFails ==>
      && StartStep(t, userId, problemId, now, faults).response == StartFailed(500, FetchError)
      && FinishStep(t, userId, problemId, solved, now, faults, threshold).response == FinishFailed(500, FetchError)
    ensures Present(userId) && Present(problemId) && !faults.readFails && Key(userId.value, problemId.value) !in t.progress ==>
      && StartStep(t, userId, problemId, now, faults).response == StartFailed(500, CreateError)
      && FinishStep(t, userId, problemId, solved, now, faults, threshold).response == FinishFailed(500, CreateError)
    ensures Present(userId) && Present(problemId) && !faults.readFails && Key(userId.value, problemId.value) in t.progress
            && !t.progress[Key(userId.value, problemId.value)].solved ==>
      FinishStep(t, userId, problemId, solved, now, faults, threshold).response == FinishFailed(500, UpdateError)
  {
  }

  /** The first start inserts exactly one row, started now, unsolved and unflagged. */
  lemma StartInsertsRow(t: Tables, userId: Option<string>, problemId: Option<string>, now: Timestamp, faults: Faults)
    requires Present(userId) && Present(problemId) && !faults.readFails && !faults.writeFails
    requires Key(userId.value, problemId.value) !in t.progress
    ensures var key := Key(userId.value, problemId.value);
      var o := StartStep(t, userId, problemId, now, faults);
      && o.response == StartOk(Some(now), TimeStarted)
      && o.tables.flags == t.flags
      && o.tables.progress.Keys == t.progress.Keys + {key}
      && o.tables.progress[key] == Row(Some(now), None, None, false, None, false, None)
      && forall k :: k in t.progress ==> o.tables.progress[k] == t.progress[k]
  {
  }

  /** A start on an existing row, solved or not, changes nothing and reports that row's start. */
  lemma StartOnExistingRow(t: Tables, userId: Option<string>, problemId: Option<string>, now: Timestamp, faults: Faults)
    requires Present(userId) && Present(problemId) && !faults.readFails
    requires Key(userId.value, problemId.value) in t.progress
    ensures StartStep(t, userId, problemId, now, faults)
         == StartOutcome(t, StartOk(t.progress[Key(userId.value, problemId.value)].startTs, AlreadyStarted))
  {
  }

  /** However much later, a second start reports the first start's time. */
  lemma RepeatedStartKeepsStartTime(t: Tables, userId: Option<string>, problemId: Option<string>,
                                    now1: Timestamp, now2: Timestamp, faults2: Faults)
    requires Present(userId) && Present(problemId) && !faults2.readFails
    requires Key(userId.value, problemId.value) !in t.progress
    ensures var first := StartStep(t, userId, problemId, now1, NoFaults);
      var second := StartStep(first.tables, userId, problemId, now2, faults2);
      second == StartOutcome(first.tables, StartOk(Some(now1), AlreadyStarted))
  {
  }

  /**
   * A finish without any row inserts a flagged row with no start and no
   * duration, and records the missing-start reason in the audit table
   * unless that upsert fails.
   */
  lemma FinishWithoutRow(t: Tables, userId: Option<string>, problemId: Option<string>, solved: Option<bool>,
                         now: Timestamp, faults: Faults, threshold: Threshold)
    requires Present(userId) && Present(problemId) && !faults.readFails && !faults.writeFails
    requires Key(userId.value, problemId.value) !in t.progress
    ensures var key := Key(userId.value, problemId.value);
      var s := solved.GetOr(true);
      var row := Row(None, Some(now), None, s, if s then Some(now) else None, true, Some(now));
      var o := FinishStep(t, userId, problemId, solved, now, faults, threshold);
      && o.response == InsertedNoStartFlagged(row)
      && o.tables.progress == t.progress[key := row]
      && o.tables.flags == if faults.auditFails then t.flags else t.flags[key := FlagEntry(MissingStartReason, now)]
  {
  }

  /**
   * The audit upsert is best effort: whether it fails changes neither the
   * response nor the progress table; a failing one leaves the audit table alone.
   */
  lemma AuditFailureKeepsResponse(t: Tables, userId: Option<string>, problemId: Option<string>, solved: Option<bool>,
                                  now: Timestamp, faults: Faults, threshold: Threshold)
    ensures var ok := FinishStep(t, userId, problemId, solved, now, faults.(auditFails := false), threshold);
      var failed := FinishStep(t, userId, problemId, solved, now, faults.(auditFails := true), threshold);
      && ok.response == failed.response
      && ok.tables.progress == failed.tables.progress
      && failed.tables.flags == t.flags
  {
  }

  /** A finish on a solved row changes nothing and returns the row. */
  lemma FinishOnSolvedRow(t: Tables, userId: Option<string>, problemId: Option<string>, solved: Option<bool>,
                          now: Timestamp, faults: Faults, threshold: Threshold)
    requires Present(userId) && Present(problemId)
    requires Key(userId.value, problemId.value) in t.progress && t.progress[Key(userId.value, problemId.value)].solved
    ensures var o := FinishStep(t, userId, problemId, solved, now, faults, threshold);
      && o.tables == t
      && (!faults.readFails ==> o.response == AlreadySolvedNoChange(t.progress[Key(userId.value, problemId.value)]))
  {
  }

  /** After a finish that solved the problem, any later finish is a no-op. */
  lemma FinishIdempotentAfterSolve(t: Tables, userId: Option<string>, problemId: Option<string>,
                                   now1: Timestamp, faults1: Faults,
                                   solved2: Option<bool>, now2: Timestamp, faults2: Faults, threshold: Threshold)
    requires Present(userId) && Present(problemId)
    requires var first := FinishStep(t, userId, problemId, Some(true), now1, faults1, threshold);
      !first.response.FinishFailed?
    ensures var first := FinishStep(t, userId, problemId, Some(true), now1, faults1, threshold);
      var second := FinishStep(first.tables, userId, problemId, solved2, now2, faults2, threshold);
      && second.tables == first.tables
      && (!faults2.readFails ==> second.response.AlreadySolvedNoChange?)
  {
  }

  /**
   * The first solve of a row updates only its end, duration, solved fields
   * and flag fields: start time, key and all other rows stay.
   */
  lemma FinishUpdatesRow(t: Tables, userId: Option<string>, problemId: Option<string>, solved: Option<bool>,
                         now: Timestamp, faults: Faults, threshold: Threshold)
    requires Present(userId) && Present(problemId) && !faults.readFails && !faults.writeFails
    requires var key := Key(userId.value, problemId.value);
      key in t.progress && !t.progress[key].solved
    ensures var key := Key(userId.value, problemId.value);
      var e := t.progress[key];
      var s := solved.GetOr(true);
      var o := FinishStep(t, userId, problemId, solved, now, faults, threshold);
      && o.tables.progress.Keys == t.progress.Keys
      && (forall k :: k in t.progress && k != key ==> o.tables.progress[k] == t.progress[k])
      && var r := o.tables.progress[key];
      && r.startTs == e.startTs
      && r.endTs == Some(now)
      && r.durationSeconds == Helper.SecondsBetween(e.startTs, Some(now))
      && r.solved == s && r.solvedAt == (if s then Some(now) else None)
      && (e.flagged ==> r.flagged)
      && o.response == UpdatedFirstSolve(r, r.flagged, r.durationSeconds)
  {
  }

  /** An unsolved row without a start is (re)flagged now, with the missing-start reason. */
  lemma FinishFlagsMissingStart(t: Tables, userId: Option<string>, problemId: Option<string>, solved: Option<bool>,
                                now: Timestamp, faults: Faults, threshold: Threshold)
    requires Present(userId) && Present(problemId) && !faults.readFails && !faults.writeFails
    requires var key := Key(userId.value, problemId.value);
      key in t.progress && !t.progress[key].solved && t.progress[key].startTs.None?
    ensures var key := Key(userId.value, problemId.value);
      var o := FinishStep(t, userId, problemId, solved, now, faults, threshold);
      && o.tables.progress[key].flagged
      && o.tables.progress[key].flaggedAt == Some(now)
      && o.tables.progress[key].durationSeconds.None?
      && o.tables.flags == RecordFlag(t.flags, key, MissingStartInRowReason, now, faults)
  {
  }

  /** A started, unflagged row solved in under the threshold is flagged now, with the duration reason. */
  lemma FinishFlagsShortDuration(t: Tables, userId: Option<string>, problemId: Option<string>, solved: Option<bool>,
                                 now: Timestamp, faults: Faults, threshold: Threshold)
    requires Present(userId) && Present(problemId) && !faults.readFails && !faults.writeFails
    requires var key := Key(userId.value, problemId.value);
      && key in t.progress && !t.progress[key].solved && !t.progress[key].flagged
      && t.progress[key].startTs.Some?
      && Helper.SecondsBetween(t.progress[key].startTs, Some(now)).value < threshold
    ensures var key := Key(userId.value, problemId.value);
      var d := Helper.SecondsBetween(t.progress[key].startTs, Some(now)).value;
      var o := FinishStep(t, userId, problemId, solved, now, faults, threshold);
      && o.tables.progress[key].flagged
      && o.tables.progress[key].flaggedAt == Some(now)
      && o.tables.flags == RecordFlag(t.flags, key, DurationReason(d, threshold), now, faults)
  {
  }

  /** A started, unflagged row solved at or over the threshold stays unflagged and gets no audit entry. */
  lemma FinishLongDurationNotFlagged(t: Tables, userId: Option<string>, problemId: Option<string>, solved: Option<bool>,
                                     now: Timestamp, faults: Faults, threshold: Threshold)
    requires Present(userId) && Present(problemId) && !faults.readFails && !faults.writeFails
    requires var key := Key(userId.value, problemId.value);
      && key in t.progress && !t.progress[key].solved && !t.progress[key].flagged
      && t.progress[key].startTs.Some?
      && Helper.SecondsBetween(t.progress[key].startTs, Some(now)).value >= threshold
    ensures var key := Key(userId.value, problemId.value);
      var o := FinishStep(t, userId, problemId, solved, now, faults, threshold);
      && !o.tables.progress[key].flagged
      && o.tables.progress[key].flaggedAt == t.progress[key].flaggedAt
      && o.tables.flags == t.flags
  {
  }

  /** A started row that is already flagged keeps its flag and flag time, and gets no new audit entry. */
  lemma FinishKeepsEarlierFlag(t: Tables, userId: Option<string>, problemId: Option<string>, solved: Option<bool>,
                               now: Timestamp, faults: Faults, threshold: Threshold)
    requires Present(userId) && Present(problemId) && !faults.readFails && !faults.writeFails
    requires var key := Key(userId.value, problemId.value);
      && key in t.progress && !t.progress[key].solved && t.progress[key].flagged
      && t.progress[key].startTs.Some?
    ensures var key := Key(userId.value, problemId.value);
      var o := FinishStep(t, userId, problemId, solved, now, faults, threshold);
      && o.tables.progress[key].flagged
      && o.tables.progress[key].flaggedAt == t.progress[key].flaggedAt
      && o.tables.flags == t.flags
  {
  }

  /**
   * On a first solve a flag reason arises
   * exactly when the row has no start, or it was unflagged and solved under
   * the threshold; a reason stamps the flag with the finish time.
   */
  lemma AuditIffFlagReason(e: Row, now: Timestamp, solved: bool, threshold: Threshold)
    ensures var d := DecideSolve(e, now, solved, threshold);
      var dur := Helper.SecondsBetween(e.startTs, Some(now));
      && (d.reason.Some? <==> e.startTs.None? || (dur.value < threshold && !e.flagged))
      && (d.reason.Some? ==> d.row.flagged && d.row.flaggedAt == Some(now))
      && (d.reason.None? ==> d.row.flagged == e.flagged && d.row.flaggedAt == e.flaggedAt)
  {
  }

  /** With a 600 s threshold, a solve 300 s after the start is flagged with a reason naming 300 and 600. */
  lemma ThresholdExampleFlagged(start: Timestamp)
    ensures var e := StartedRow(start);
      var d := DecideSolve(e, start + 300000, true, DefaultThreshold);
      d.row.flagged && d.reason == Some("duration 300s < threshold 600s") && d.row.durationSeconds == Some(300)
  {
    var e := StartedRow(start);
    assert Helper.SecondsBetween(Some(start), Some(start + 300000)) == Some(300);
    DurationReasonExample();
  }

  lemma DurationReasonExample()
    ensures DurationReason(300, DefaultThreshold) == "duration 300s < threshold 600s"
  {
    assert Decimal.IntToString(300) == "300" by {
      assert Decimal.NatToString(30) == "30" by {
        assert Decimal.NatToString(3) == "3";
      }
    }
    assert Decimal.IntToString(600) == "600" by {
      assert Decimal.NatToString(60) == "60" by {
        assert Decimal.NatToString(6) == "6";
      }
    }
  }

  /** With a 600 s threshold, a solve 900 s after the start is not flagged. */
  lemma ThresholdExampleNotFlagged(start: Timestamp)
    ensures var d := DecideSolve(StartedRow(start), start + 900000, true, DefaultThreshold);
      !d.row.flagged && d.reason.None? && d.row.durationSeconds == Some(900)
  {
  }

  /**
   * Start at t0, finish 5 s later: the solve is flagged with duration 5;
   * any later finish reports already solved and changes nothing.
   */
  lemma EndToEndScenario(userId: string, problemId: string, t0: Timestamp, later: Timestamp)
    requires userId != "" && problemId != ""
    ensures var s := StartStep(Tables(map[], map[]), Some(userId), Some(problemId), t0, NoFaults);
      var f1 := FinishStep(s.tables, Some(userId), Some(problemId), None, t0 + 5000, NoFaults, DefaultThreshold);
      var f2 := FinishStep(f1.tables, Some(userId), Some(problemId), None, later, NoFaults, DefaultThreshold);
      && s.response == StartOk(Some(t0), TimeStarted)
      && f1.response.UpdatedFirstSolve? && f1.response.flagged && f1.response.durationSeconds == Some(5)
      && f2.response.AlreadySolvedNoChange? && f2.tables == f1.tables
  {
    assert Helper.SecondsBetween(Some(t0), Some(t0 + 5000)) == Some(5);
  }
}
