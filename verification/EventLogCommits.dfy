/**
 * The three writers and the reader when nobody is in their way: each gets from its begin to its
 * commit, statement by statement, and what it commits or answers is what it was asked for.
 */
module EventLogCommits {
  import opened Prelude
  import opened Json
  import opened CanonicalJson
  import opened EventLog
  import opened EventLogSafety

  /** A row nobody has locked stays unlocked when a transaction begins on it. */
  lemma FreeStaysFree(s: Db, t: Id, x: Txn, r: Id)
    requires Free(s, r) && (Active(x) ==> r !in x.held)
    ensures Free(To(s, t, x), r)
  {
  }

  /** With its one row updated, a transaction inserts its event and commits both. */
  lemma WriteAndCommit(b: Db, t: Id, q: Request, run: Id, row: Row, body: Body, le: Order) returns (c: Db, d: Db)
    requires t in b.txns && b.txns[t] == Txn(q, Writing, map[run := row], [run], []) && Writes(q, body)
    ensures Next(b, c, le) && Next(c, d, le)
    ensures d.rows == b.rows[run := row] && d.log == b.log + [Event(run, row.workspace, row.sequence, body)]
    ensures d.txns == b.txns[t := Txn(q, Done(None), map[], [], [])]
  {
    var event := Event(run, row.workspace, row.sequence, body);
    c := To(b, t, Txn(q, Writing, map[run := row], [run], [event]));
    d := c.(rows := c.rows + map[run := row], log := c.log + [event], txns := c.txns[t := Txn(q, Done(None), map[], [], [])]);
    InsertsItsEvent(b, c, t, q, run, row, body);
    assert TxnStep(b, c, t, le);
    assert Commit(c, d, t) && TxnStep(c, d, t, le);
  }

  lemma InsertsItsEvent(b: Db, c: Db, t: Id, q: Request, run: Id, row: Row, body: Body)
    requires t in b.txns && b.txns[t] == Txn(q, Writing, map[run := row], [run], []) && Writes(q, body)
    requires c == To(b, t, Txn(q, Writing, map[run := row], [run], [Event(run, row.workspace, row.sequence, body)]))
    ensures InsertEvent(b, c, t, body)
  {
    var x := b.txns[t];
    assert x.order[|x.pending|] == run && x.held[run] == row;
    assert x.pending + [Event(run, row.workspace, row.sequence, body)] == [Event(run, row.workspace, row.sequence, body)];
  }

  /** A transition that expects the run's version commits: one row moved, one event behind all others. */
  lemma TransitionCommits(s: Db, t: Id, q: Request, body: Body, le: Order) returns (a: Db, b: Db, c: Db, d: Db)
    requires t !in s.txns && q.Transition? && Valid(q.body.payload) && Writes(q, body)
    requires HasRun(s, q.run, q.workspace) && s.rows[q.run].version == q.expected && Free(s, q.run)
    ensures Next(s, a, le) && Next(a, b, le) && Next(b, c, le) && Next(c, d, le)
    ensures d.rows == s.rows[q.run := Row(q.workspace, q.next, q.expected + 1, s.rows[q.run].sequence + 1, s.rows[q.run].heartbeat)]
    ensures d.log == s.log + [Event(q.run, q.workspace, s.rows[q.run].sequence + 1, body)]
    ensures t in d.txns && d.txns[t].phase == Done(None)
  {
    var row := Row(q.workspace, q.next, q.expected + 1, s.rows[q.run].sequence + 1, s.rows[q.run].heartbeat);
    a, b := TransitionUpdatesItsRow(s, t, q, row, le);
    c, d := WriteAndCommit(b, t, q, q.run, row, body, le);
  }

  lemma TransitionUpdatesItsRow(s: Db, t: Id, q: Request, row: Row, le: Order) returns (a: Db, b: Db)
    requires t !in s.txns && q.Transition? && Valid(q.body.payload)
    requires HasRun(s, q.run, q.workspace) && s.rows[q.run].version == q.expected && Free(s, q.run)
    requires row == Row(q.workspace, q.next, q.expected + 1, s.rows[q.run].sequence + 1, s.rows[q.run].heartbeat)
    ensures Next(s, a, le) && Next(a, b, le)
    ensures b == To(s, t, Txn(q, Writing, map[q.run := row], [q.run], []))
  {
    a := To(s, t, Txn(q, Begun, map[], [], []));
    b := To(a, t, Txn(q, Writing, map[q.run := row], [q.run], []));
    FreeStaysFree(s, t, Txn(q, Begun, map[], [], []), q.run);
    assert Begin(s, a, t, q) && TxnStep(s, a, t, le);
    assert TransitionUpdates(a, b, t) && TxnStep(a, b, t, le);
  }

  /** On another version, or another workspace's run, it is refused at once, for that reason. */
  lemma TransitionIsRefused(s: Db, t: Id, q: Request, le: Order) returns (a: Db, b: Db)
    requires t !in s.txns && q.Transition? && Valid(q.body.payload)
    requires !(HasRun(s, q.run, q.workspace) && s.rows[q.run].version == q.expected)
    ensures Next(s, a, le) && Next(a, b, le) && b.rows == s.rows && b.log == s.log && t in b.txns
    ensures b.txns[t].phase
            == Refused(if q.run in s.rows && s.rows[q.run].workspace == q.workspace then StaleVersion else NotFound)
  {
    a := To(s, t, Txn(q, Begun, map[], [], []));
    b := Give(a, t, if HasRun(s, q.run, q.workspace) then StaleVersion else NotFound);
    assert Begin(s, a, t, q) && TxnStep(s, a, t, le);
    assert TransitionUpdates(a, b, t) && TxnStep(a, b, t, le);
  }

  /** An event of that run and workspace under that correlation id. */
  predicate SentBefore(e: Event, q: Request)
    requires q.Append?
  {
    e.run == q.run && e.workspace == q.workspace && e.body.correlation == q.body.correlation
  }

  /** The sink's append under a new correlation id commits one event, and only the row's sequence moves. */
  lemma AppendCommits(s: Db, t: Id, q: Request, body: Body, le: Order) returns (a: Db, b: Db, c: Db, d: Db, e: Db)
    requires t !in s.txns && q.Append? && q.body.correlation.Some? && Valid(q.body.payload) && Writes(q, body)
    requires HasRun(s, q.run, q.workspace) && s.rows[q.run].sequence <= 9007199254740991 && Free(s, q.run)
    requires forall i :: 0 <= i < |s.log| ==> !SentBefore(s.log[i], q)
    ensures Next(s, a, le) && Next(a, b, le) && Next(b, c, le) && Next(c, d, le) && Next(d, e, le)
    ensures e.rows == s.rows[q.run := s.rows[q.run].(sequence := s.rows[q.run].sequence + 1)]
    ensures e.log == s.log + [Event(q.run, q.workspace, s.rows[q.run].sequence + 1, body)]
    ensures t in e.txns && e.txns[t].phase == Done(None)
  {
    var row := s.rows[q.run].(sequence := s.rows[q.run].sequence + 1);
    a := To(s, t, Txn(q, Begun, map[], [], []));
    b := To(a, t, Txn(q, Locked, map[q.run := s.rows[q.run]], [], []));
    c := To(b, t, Txn(q, Writing, map[q.run := row], [q.run], []));
    AppendLocks(s, a, b, t, q, le);
    AppendUpdatesItsRow(b, c, t, q, le);
    d, e := WriteAndCommit(c, t, q, q.run, row, body, le);
  }

  lemma AppendLocks(s: Db, a: Db, b: Db, t: Id, q: Request, le: Order)
    requires t !in s.txns && q.Append? && q.body.correlation.Some? && Valid(q.body.payload)
    requires HasRun(s, q.run, q.workspace) && Free(s, q.run)
    requires a == To(s, t, Txn(q, Begun, map[], [], [])) && b == To(a, t, Txn(q, Locked, map[q.run := s.rows[q.run]], [], []))
    ensures Next(s, a, le) && Next(a, b, le)
  {
    FreeStaysFree(s, t, Txn(q, Begun, map[], [], []), q.run);
    assert Begin(s, a, t, q) && TxnStep(s, a, t, le);
    assert SinkLock(a, b, t) && TxnStep(a, b, t, le);
  }

  lemma AppendUpdatesItsRow(b: Db, c: Db, t: Id, q: Request, le: Order)
    requires q.Append? && q.run in b.rows && b.rows[q.run].sequence <= MAX_SAFE
    requires t in b.txns && b.txns[t] == Txn(q, Locked, map[q.run := b.rows[q.run]], [], [])
    requires forall i :: 0 <= i < |b.log| ==> !IsReplayOf(b.log[i], q)
    requires c == To(b, t, Txn(q, Writing, map[q.run := b.rows[q.run].(sequence := b.rows[q.run].sequence + 1)], [q.run], []))
    ensures Next(b, c, le)
  {
    var x := b.txns[t];
    assert x.held[q.run := x.held[q.run].(sequence := x.held[q.run].sequence + 1)]
        == map[q.run := b.rows[q.run].(sequence := b.rows[q.run].sequence + 1)];
    assert SinkUpdates(b, c, t) && TxnStep(b, c, t, le);
  }

  /** An unsafe sequence number is refused, and so is a run of another workspace. */
  lemma AppendIsRefused(s: Db, t: Id, q: Request, le: Order) returns (a: Db, b: Db, c: Db)
    requires t !in s.txns && q.Append? && q.body.correlation.Some? && Valid(q.body.payload)
    requires HasRun(s, q.run, q.workspace) ==>
               Free(s, q.run) && s.rows[q.run].sequence >= 9007199254740992
               && forall i :: 0 <= i < |s.log| ==> !SentBefore(s.log[i], q)
    ensures Next(s, a, le) && Next(a, b, le) && (HasRun(s, q.run, q.workspace) ==> Next(b, c, le)) && (!HasRun(s, q.run, q.workspace) ==> c == b)
    ensures c.rows == s.rows && c.log == s.log && t in c.txns
    ensures c.txns[t].phase == Refused(if HasRun(s, q.run, q.workspace) then BadSequence else NotFound)
  {
    a := To(s, t, Txn(q, Begun, map[], [], []));
    assert Begin(s, a, t, q) && TxnStep(s, a, t, le);
    if HasRun(s, q.run, q.workspace) {
      b := To(a, t, Txn(q, Locked, map[q.run := s.rows[q.run]], [], []));
      AppendLocks(s, a, b, t, q, le);
      c := Give(b, t, BadSequence);
      assert SinkUpdates(b, c, t) && TxnStep(b, c, t, le);
    } else {
      b := Give(a, t, NotFound);
      c := b;
      assert SinkLock(a, b, t) && TxnStep(a, b, t, le);
    }
  }

  /** An event sent again is answered with the one in the log, and nothing is written. */
  lemma ReplayAnswers(s: Db, t: Id, q: Request, i: nat, le: Order) returns (a: Db, b: Db, c: Db, d: Db)
    requires t !in s.txns && q.Append? && q.body.correlation.Some? && Valid(q.body.payload)
    requires HasRun(s, q.run, q.workspace) && Free(s, q.run)
    requires i < |s.log| && s.log[i].run == q.run && s.log[i].workspace == q.workspace
    requires s.log[i].body == q.body
    ensures Next(s, a, le) && Next(a, b, le) && Next(b, c, le) && Next(c, d, le)
    ensures d.rows == s.rows && d.log == s.log && t in d.txns && d.txns[t].phase == Done(Some(s.log[i]))
  {
    a := To(s, t, Txn(q, Begun, map[], [], []));
    b := To(a, t, Txn(q, Locked, map[q.run := s.rows[q.run]], [], []));
    AppendLocks(s, a, b, t, q, le);
    c, d := FindAndCommit(b, t, q, i, le);
  }

  lemma FindAndCommit(b: Db, t: Id, q: Request, i: nat, le: Order) returns (c: Db, d: Db)
    requires q.Append? && q.run in b.rows && t in b.txns && b.txns[t] == Txn(q, Locked, map[q.run := b.rows[q.run]], [], [])
    requires i < |b.log| && IsReplayOf(b.log[i], q) && b.log[i].body == q.body
    ensures Next(b, c, le) && Next(c, d, le)
    ensures d.rows == b.rows && d.log == b.log && t in d.txns && d.txns[t].phase == Done(Some(b.log[i]))
  {
    c := To(b, t, Txn(q, Found(b.log[i]), map[q.run := b.rows[q.run]], [], []));
    d := c.(rows := c.rows + map[q.run := b.rows[q.run]], log := c.log + [],
            txns := c.txns[t := Txn(q, Done(Some(b.log[i])), map[], [], [])]);
    assert SinkFinds(b, c, t, i, le) && TxnStep(b, c, t, le);
    assert Commit(c, d, t) && TxnStep(c, d, t, le);
    assert c.rows + map[q.run := b.rows[q.run]] == b.rows;
  }

  /** A lone stale run is found, failed and logged. */
  lemma StaleRunIsFailed(s: Db, t: Id, before: int, only: Option<Id>, r: Id, le: Order)
    returns (a: Db, b: Db, c: Db, d: Db, e: Db, f: Db)
    requires t !in s.txns && r in s.rows && WasStale(s.rows[r], before, only) && Free(s, r)
    requires forall q :: q in s.rows && q != r ==> !WasStale(s.rows[q], before, only)
    ensures Next(s, a, le) && Next(a, b, le) && Next(b, c, le) && Next(c, d, le) && Next(d, e, le) && Next(e, f, le)
    ensures var row := Row(s.rows[r].workspace, Runs.Failed, s.rows[r].version + 1, s.rows[r].sequence + 1, s.rows[r].heartbeat);
            f.rows == s.rows[r := row] && f.log == s.log + [FailureOf(r, row)]
  {
    var q, row := FailStale(before, only), Moved(s.rows[r], Runs.Failed);
    a := To(s, t, Txn(q, Begun, map[], [], []));
    b := To(a, t, Txn(q, Scanning({r}), map[], [], []));
    c := To(b, t, Txn(q, Scanning({}), map[r := row], [r], []));
    d := To(c, t, Txn(q, Writing, map[r := row], [r], []));
    StaleRunIsScanned(s, a, b, c, t, q, r, le);
    assert StaleScanned(c, d, t) && TxnStep(c, d, t, le);
    e, f := WriteAndCommit(d, t, q, r, row, FailureOf(r, row).body, le);
  }

  lemma StaleRunIsScanned(s: Db, a: Db, b: Db, c: Db, t: Id, q: Request, r: Id, le: Order)
    requires t !in s.txns && q.FailStale? && r in s.rows && WasStale(s.rows[r], q.before, q.only) && Free(s, r)
    requires forall x :: x in s.rows && x != r ==> !WasStale(s.rows[x], q.before, q.only)
    requires a == To(s, t, Txn(q, Begun, map[], [], [])) && b == To(a, t, Txn(q, Scanning({r}), map[], [], []))
    requires c == To(b, t, Txn(q, Scanning({}), map[r := Moved(s.rows[r], Runs.Failed)], [r], []))
    ensures Next(s, a, le) && Next(a, b, le) && Next(b, c, le)
  {
    forall x | x in s.rows ensures IsStale(s.rows[x], q) <==> x == r { StaleRows(s.rows[x], q.before, q.only); }
    assert StaleIds(s.rows, q) == {r};
    FreeStaysFree(s, t, Txn(q, Begun, map[], [], []), r);
    FreeStaysFree(a, t, Txn(q, Scanning({r}), map[], [], []), r);
    assert Begin(s, a, t, q) && TxnStep(s, a, t, le);
    assert StaleScan(a, b, t) && TxnStep(a, b, t, le);
    var x := b.txns[t];
    var y := x.(phase := Scanning(x.phase.todo - {r}), order := x.order + [r], held := x.held[r := Moved(s.rows[r], Runs.Failed)]);
    assert {r} - {r} == {};
    assert y == Txn(q, Scanning({}), map[r := Moved(s.rows[r], Runs.Failed)], [r], []);
    assert IsStale(b.rows[r], x.request);
    assert StaleVisit(b, c, t, r) && TxnStep(b, c, t, le);
  }

  /** A reader of a run can always read on, with every limit from 1 to 500. */
  lemma PageCanBeRead(s: Db, p: Id, limit: nat) returns (page: seq<Event>, t: Db)
    requires Inv(s) && p in s.readers && 1 <= limit <= 500 && HasRun(s, s.readers[p].run, s.readers[p].workspace)
    ensures ReadPage(s, t, p, limit, page) && (forall le: Order :: Next(s, t, le))
    ensures var d, es := s.readers[p], Events(s, s.readers[p].run);
            && t.readers[p].cursor == (if |es| <= d.cursor + limit then |es| else d.cursor + limit)
            && t.readers[p].got == es[..t.readers[p].cursor]
  {
    assert ReaderOk(s, p) && RunOk(s, s.readers[p].run);
    page, t := StretchCanBeRead(s, p, limit);
    assert t.readers[p].got == s.readers[p].got + page;
  }

  lemma StretchCanBeRead(s: Db, p: Id, limit: nat) returns (page: seq<Event>, t: Db)
    requires p in s.readers && 1 <= limit <= 500 && HasRun(s, s.readers[p].run, s.readers[p].workspace)
    requires RunOk(s, s.readers[p].run) && s.readers[p].cursor <= |Events(s, s.readers[p].run)|
    ensures ReadPage(s, t, p, limit, page) && (forall le: Order :: Next(s, t, le))
    ensures var d, es := s.readers[p], Events(s, s.readers[p].run);
            var end := if |es| <= d.cursor + limit then |es| else d.cursor + limit;
            && page == es[d.cursor..end] && p in t.readers && t.readers[p].got == d.got + page && t.readers[p].cursor == end
  {
    var d, es := s.readers[p], Events(s, s.readers[p].run);
    var end := if |es| <= d.cursor + limit then |es| else d.cursor + limit;
    page := es[d.cursor..end];
    OwnEvents(s.log, d.run);
    StretchIsPage(s.log, es, d, limit, end);
    t := s.(readers := s.readers[p := d.(got := d.got + page, cursor := if page == [] then d.cursor else page[|page| - 1].sequence)]);
    assert ReadPage(s, t, p, limit, page);
  }

  lemma StretchIsPage(log: seq<Event>, es: seq<Event>, d: Reader, limit: nat, end: nat)
    requires (forall e :: e in es <==> e in log && e.run == d.run) && Numbered(es, d.run, d.workspace)
    requires d.cursor <= |es| && end == if |es| <= d.cursor + limit then |es| else d.cursor + limit
    ensures IsPage(log, d, limit, es[d.cursor..end])
  {
    var page := es[d.cursor..end];
    forall k | 0 <= k < |page| ensures page[k] in log && Wanted(page[k], d) && page[k].sequence == d.cursor + k + 1 {
      assert page[k] == es[d.cursor + k];
    }
    forall n | d.cursor <= n < end ensures es[n] in page { assert page[n - d.cursor] == es[n]; }
    forall e | e in log && Wanted(e, d) && e !in page ensures e.sequence > end {
      var n :| 0 <= n < |es| && es[n] == e;
    }
    NextInOrderIsPage(log, d, limit, page);
  }

  /** Consecutive events right after the cursor, with nothing wanted left out before the limit. */
  lemma NextInOrderIsPage(log: seq<Event>, d: Reader, limit: nat, page: seq<Event>)
    requires |page| <= limit
    requires forall k :: 0 <= k < |page| ==> page[k] in log && Wanted(page[k], d) && page[k].sequence == d.cursor + k + 1
    requires forall e :: e in log && Wanted(e, d) && e !in page ==> |page| == limit && e.sequence > d.cursor + |page|
    ensures IsPage(log, d, limit, page)
  {
  }

  lemma OwnEvents(log: seq<Event>, r: Id)
    ensures forall e :: e in Of(log, |log|, r) <==> e in log && e.run == r
  {
    assert log[..|log|] == log;
    forall e ensures e in Of(log, |log|, r) <==> e in log && e.run == r {
      OfMembers(log, |log|, r, e);
    }
  }
}
