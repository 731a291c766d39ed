/**
 * The run log's operations as one client runs them, transaction after transaction: rows updated in
 * place, events inserted, the reconciler's loops. EventLog has the interleavings.
 */
module RunLog {
  import opened Prelude
  import opened Json
  import opened EventLog
  import opened EventLogSafety

  class ForgeRunLog {
    var rows: map<Id, Row>
    var log: seq<Event>

    function State(): Db
      reads this
    {
      Db(rows, log, map[], map[])
    }

    ghost predicate Valid()
      reads this
    {
      RunsOk(rows, log)
    }

    constructor ()
      ensures Valid() && rows == map[] && log == []
    {
      rows, log := map[], [];
    }

    /** Advances one row and inserts its event. */
    method Advance(run: Id, row: Row, body: Body)
      requires Valid() && run in rows && row.workspace == rows[run].workspace && row.sequence == rows[run].sequence + 1
      modifies this
      ensures Valid()
      ensures rows == old(rows)[run := row] && log == old(log) + [Event(run, row.workspace, row.sequence, body)]
    {
      AdvanceKeepsRuns(rows, log, run, row, body);
      rows := rows[run := row];
      log := log + [Event(run, row.workspace, row.sequence, body)];
    }

    /** transitionRunAndAppendEvent: the version decides whether anything happens. */
    method TransitionRunAndAppendEvent(workspace: Id, run: Id, expected: nat, next: Runs.RunState, body: Body)
      returns (r: Result<Event, Refusal>)
      requires Valid()
      modifies this
      ensures Valid()
      ensures if !old(HasRun(State(), run, workspace)) then r == Err(NotFound) && rows == old(rows) && log == old(log)
              else if old(rows[run].version) != expected then r == Err(StaleVersion) && rows == old(rows) && log == old(log)
              else
                && rows == old(rows[run := Row(workspace, next, expected + 1, rows[run].sequence + 1, rows[run].heartbeat)])
                && r == Ok(Event(run, workspace, old(rows[run].sequence) + 1, body)) && log == old(log) + [r.value]
    {
      if !HasRun(State(), run, workspace) { return Err(NotFound); }
      if rows[run].version != expected { return Err(StaleVersion); }
      Advance(run, Moved(rows[run], next), body);
      r := Ok(log[|log| - 1]);
    }

    /** The sink's append: an event already there under the correlation id is returned, or refused. */
    method AppendProviderEvent(workspace: Id, run: Id, body: Body, le: Order) returns (r: Result<Event, Refusal>)
      requires Valid() && body.correlation.Some?
      modifies this
      ensures Valid()
      ensures var replay := exists i :: 0 <= i < |old(log)| && IsReplayOf(old(log)[i], Append(workspace, run, body));
              if !old(HasRun(State(), run, workspace)) then r == Err(NotFound) && rows == old(rows) && log == old(log)
              else if replay then
                && rows == old(rows) && log == old(log)
                && (r.Ok? ==> r.value in log && IsReplayOf(r.value, Append(workspace, run, body)) && Digest(r.value.body, le) == Digest(body, le))
                && (r.Err? ==> r.error == Conflict && exists e :: e in log && IsReplayOf(e, Append(workspace, run, body))
                                                               && Digest(e.body, le) != Digest(body, le))
              else if old(rows[run].sequence) > MAX_SAFE then r == Err(BadSequence) && rows == old(rows) && log == old(log)
              else
                && r == Ok(Event(run, workspace, old(rows[run].sequence) + 1, body)) && log == old(log) + [r.value]
                && rows == old(rows[run := rows[run].(sequence := rows[run].sequence + 1)])
    {
      if !HasRun(State(), run, workspace) { return Err(NotFound); }
      var request := Append(workspace, run, body);
      for i := 0 to |log|
        invariant rows == old(rows) && log == old(log)
        invariant forall j :: 0 <= j < i ==> !IsReplayOf(log[j], request)
      {
        if IsReplayOf(log[i], request) {
          if Digest(log[i].body, le) != Digest(body, le) { return Err(Conflict); }
          return Ok(log[i]);
        }
      }
      if rows[run].sequence > MAX_SAFE { return Err(BadSequence); }
      Advance(run, rows[run].(sequence := rows[run].sequence + 1), body);
      r := Ok(log[|log| - 1]);
    }

    /** failStaleRuns: one update over the stale rows, then one event per row it changed. */
    method FailStaleRuns(before: int, only: Option<Id>) returns (failed: seq<Id>)
      requires Valid()
      modifies this
      ensures Valid() && NoDup(failed)
      ensures rows.Keys == old(rows).Keys
      ensures forall r :: r in failed <==> r in old(rows) && WasStale(old(rows)[r], before, only)
      ensures forall r :: r in old(rows) ==>
                rows[r] == if r in failed
                           then Row(old(rows)[r].workspace, Runs.Failed, old(rows)[r].version + 1, old(rows)[r].sequence + 1, old(rows)[r].heartbeat)
                           else old(rows)[r]
      ensures forall r :: r in rows ==> !WasStale(rows[r], before, only)
      ensures old(log) <= log && |log| == |old(log)| + |failed|
      ensures forall k :: 0 <= k < |failed| ==> log[|old(log)| + k] == FailedEvent(failed[k], StaleBody(), old(rows))
    {
      failed := StaleRuns(rows, FailStale(before, only));
      ghost var was := rows;
      UpdateRows(failed);
      InsertFailures(failed, StaleBody(), was);
      forall r | r in was ensures IsStale(was[r], FailStale(before, only)) <==> WasStale(was[r], before, only) {
        StaleRows(was[r], before, only);
      }
      forall r | r in was ensures rows[r] == if r in failed then Moved(was[r], Runs.Failed) else was[r] {
        RowAfterUpdate(failed, r, was);
      }
      RowsFailedKeys(failed, |failed|, was);
    }

    /** The loop over the updated rows, one event each. */
    method InsertFailures(ids: seq<Id>, body: Body, ghost before: map<Id, Row>)
      requires NoDup(ids) && (forall r :: r in ids ==> r in before) && rows == before + RowsFailed(ids, |ids|, before)
      requires RunsOk(before, log)
      modifies this`log
      ensures Valid()
      ensures old(log) <= log && |log| == |old(log)| + |ids|
      ensures forall k :: 0 <= k < |ids| ==> log[|old(log)| + k] == FailedEvent(ids[k], body, before)
    {
      ghost var advanced := before;
      assert before + RowsFailed(ids, 0, before) == before;
      for i := 0 to |ids|
        invariant advanced == before + RowsFailed(ids, i, before)
        invariant RunsOk(advanced, log)
        invariant old(log) <= log && |log| == |old(log)| + i
        invariant forall k :: 0 <= k < i ==> log[|old(log)| + k] == FailedEvent(ids[k], body, before)
      {
        var run := ids[i];
        NextToFail(ids, i, before);
        AdvanceKeepsRuns(advanced, log, run, rows[run], body);
        advanced := advanced[run := rows[run]];
        log := log + [Event(run, rows[run].workspace, rows[run].sequence, body)];
      }
    }

    /** The update: every listed row fails, its version and sequence advanced. */
    method UpdateRows(ids: seq<Id>)
      requires NoDup(ids) && forall r :: r in ids ==> r in rows
      modifies this`rows
      ensures rows == old(rows) + RowsFailed(ids, |ids|, old(rows))
    {
      for i := 0 to |ids|
        invariant rows == old(rows) + RowsFailed(ids, i, old(rows))
      {
        NotYetFailed(ids, i, ids[i], old(rows));
        rows := rows[ids[i] := Moved(rows[ids[i]], Runs.Failed)];
      }
    }

    /** getEventsAfter: the page is the next stretch of the run's events. */
    method GetEventsAfter(workspace: Id, run: Id, after: int, limit: int) returns (r: Result<seq<Event>, Refusal>)
      requires Valid()
      ensures if after < 0 || !(1 <= limit <= 500) then r == Err(OutOfRange)
              else if !HasRun(State(), run, workspace) then r == Err(NotFound)
              else
                && r.Ok? && |r.value| <= limit
                && var es := Events(State(), run);
                   if after >= |es| then r.value == []
                   else after + |r.value| <= |es| && r.value == es[after..after + |r.value|]
                        && (|r.value| < limit ==> after + |r.value| == |es|)
    {
      if after < 0 || !(1 <= limit <= 500) { return Err(OutOfRange); }
      if !HasRun(State(), run, workspace) { return Err(NotFound); }
      assert RunOk(State(), run);
      var page: seq<Event> := [];
      for i := 0 to |log|
        invariant |page| <= limit && page == Cut(Of(log, i, run), after, limit)
      {
        if log[i].run == run {
          CutGrows(Of(log, i, run), after, limit, log[i]);
          StandsAtItsSequence(State(), i);
          assert Of(log, i + 1, run) == Of(log, i, run) + [log[i]];
        } else {
          assert Of(log, i + 1, run) == Of(log, i, run);
        }
        if log[i].run == run && log[i].workspace == workspace && log[i].sequence > after && |page| < limit {
          page := page + [log[i]];
        }
      }
      r := Ok(page);
    }
  }

  /** Every run's events are numbered 1 to its row's sequence. */
  ghost predicate RunsOk(rows: map<Id, Row>, log: seq<Event>) {
    forall r :: RunOk(Db(rows, log, map[], map[]), r)
  }

  function StaleBody(): Body {
    Body(Ascii("run.failed"), Ascii("system"), None, None,
         Obj([Entry(Ascii("failureCode"), Str(Ascii("STALE_HEARTBEAT")))]), Finite(false, [1], 1))
  }

  /** The event inserted for a row the update changed. */
  function FailedEvent(run: Id, body: Body, before: map<Id, Row>): Event
    requires run in before
  {
    Event(run, before[run].workspace, before[run].sequence + 1, body)
  }

  /** The first n listed rows, failed. */
  function RowsFailed(ids: seq<Id>, n: nat, rows: map<Id, Row>): map<Id, Row>
    requires n <= |ids| && forall r :: r in ids ==> r in rows
  {
    if n == 0 then map[] else RowsFailed(ids, n - 1, rows)[ids[n - 1] := Moved(rows[ids[n - 1]], Runs.Failed)]
  }

  lemma {:induction false} NotYetFailed(ids: seq<Id>, n: nat, r: Id, rows: map<Id, Row>)
    requires n <= |ids| && (forall x :: x in ids ==> x in rows) && forall k :: 0 <= k < n ==> ids[k] != r
    ensures r !in RowsFailed(ids, n, rows) && forall x :: x in RowsFailed(ids, n, rows) ==> x in rows
  {
    if n > 0 { NotYetFailed(ids, n - 1, r, rows); }
  }

  lemma {:induction false} RowsFailedAt(ids: seq<Id>, n: nat, k: nat, rows: map<Id, Row>)
    requires k < n <= |ids| && NoDup(ids) && forall x :: x in ids ==> x in rows
    ensures ids[k] in RowsFailed(ids, n, rows) && RowsFailed(ids, n, rows)[ids[k]] == Moved(rows[ids[k]], Runs.Failed)
    ensures forall x :: x in RowsFailed(ids, n, rows) ==> x in rows
  {
    if n == 1 {
      assert RowsFailed(ids, 0, rows) == map[];
    } else {
      RowsFailedAt(ids, n - 1, if k < n - 1 then k else 0, rows);
    }
  }

  lemma NextToFail(ids: seq<Id>, i: nat, rows: map<Id, Row>)
    requires NoDup(ids) && i < |ids| && forall x :: x in ids ==> x in rows
    ensures var before, after := rows + RowsFailed(ids, i, rows), rows + RowsFailed(ids, |ids|, rows);
            && before[ids[i]] == rows[ids[i]] && after[ids[i]] == Moved(rows[ids[i]], Runs.Failed)
            && before[ids[i] := after[ids[i]]] == rows + RowsFailed(ids, i + 1, rows)
  {
    RowsFailedAt(ids, |ids|, i, rows);
    NotYetFailed(ids, i, ids[i], rows);
  }

  lemma RowAfterUpdate(ids: seq<Id>, r: Id, rows: map<Id, Row>)
    requires NoDup(ids) && (forall x :: x in ids ==> x in rows) && r in rows
    ensures (rows + RowsFailed(ids, |ids|, rows))[r] == if r in ids then Moved(rows[r], Runs.Failed) else rows[r]
  {
    if r in ids {
      var k :| 0 <= k < |ids| && ids[k] == r;
      RowsFailedAt(ids, |ids|, k, rows);
    } else {
      NotYetFailed(ids, |ids|, r, rows);
    }
  }

  lemma {:induction false} RowsFailedKeys(ids: seq<Id>, n: nat, rows: map<Id, Row>)
    requires n <= |ids| && forall x :: x in ids ==> x in rows
    ensures RowsFailed(ids, n, rows).Keys <= rows.Keys
  {
    if n > 0 { RowsFailedKeys(ids, n - 1, rows); }
  }

  /** The ids of the rows the update matches. */
  method StaleRuns(rows: map<Id, Row>, request: Request) returns (ids: seq<Id>)
    requires request.FailStale?
    ensures NoDup(ids) && forall r :: r in ids <==> r in rows && IsStale(rows[r], request)
  {
    ids := [];
    var todo := rows.Keys;
    while todo != {}
      invariant todo <= rows.Keys && NoDup(ids)
      invariant forall r :: r in ids <==> r in rows && r !in todo && IsStale(rows[r], request)
      decreases |todo|
    {
      var r :| r in todo;
      todo := todo - {r};
      if IsStale(rows[r], request) { ids := ids + [r]; }
    }
  }

  lemma AdvanceKeepsRuns(rows: map<Id, Row>, log: seq<Event>, run: Id, row: Row, body: Body)
    requires RunsOk(rows, log) && run in rows
    requires row.workspace == rows[run].workspace && row.sequence == rows[run].sequence + 1
    ensures RunsOk(rows[run := row], log + [Event(run, row.workspace, row.sequence, body)])
  {
    var more := [Event(run, row.workspace, row.sequence, body)];
    var s, t := Db(rows, log, map[], map[]), Db(rows[run := row], log + more, map[], map[]);
    forall r ensures RunOk(t, r) {
      assert RunOk(s, r);
      OfAppend(log, more, 1, r);
      assert Of(more, 0, r) == [];
    }
  }

  lemma StandsAtItsSequence(s: Db, i: nat)
    requires i < |s.log| && s.log[i].run in s.rows && RunOk(s, s.log[i].run)
    ensures s.log[i].sequence == |Of(s.log, i, s.log[i].run)| + 1
    ensures s.log[i].workspace == s.rows[s.log[i].run].workspace
  {
    var run := s.log[i].run;
    OfIsPrefix(s.log, i + 1, |s.log|, run);
    assert Of(s.log, i + 1, run)[|Of(s.log, i, run)|] == s.log[i];
  }

  /** Of events numbered from one, those after a sequence, no more than a limit. */
  function Cut(es: seq<Event>, after: nat, limit: nat): seq<Event> {
    if |es| <= after then [] else es[after..if |es| - after < limit then |es| else after + limit]
  }

  lemma CutGrows(es: seq<Event>, after: nat, limit: nat, e: Event)
    ensures Cut(es + [e], after, limit)
            == if |es| >= after && |Cut(es, after, limit)| < limit then Cut(es, after, limit) + [e] else Cut(es, after, limit)
  {
  }

  lemma {:induction false} OfIsPrefix(log: seq<Event>, m: nat, n: nat, r: Id)
    requires m <= n <= |log|
    ensures Of(log, m, r) <= Of(log, n, r)
  {
    if m < n { OfIsPrefix(log, m, n - 1, r); }
  }
}
