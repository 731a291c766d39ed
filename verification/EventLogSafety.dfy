/** What every interleaving of the event-log writers and readers keeps. */
module EventLogSafety {
  import opened Prelude
  import opened Json
  import opened CanonicalJson
  import opened EventLog

  // ---------------------------------------------------------------- the invariant

  /** A run's committed sequences are exactly 1..event_sequence, in commit order. */
  predicate RunOk(s: Db, r: Id) {
    if r in s.rows
    then |Events(s, r)| == s.rows[r].sequence && Numbered(Events(s, r), r, s.rows[r].workspace)
    else Events(s, r) == []
  }

  predicate HeldOk(s: Db, x: Txn, r: Id) {
    r in x.held ==>
      && r in s.rows && x.held[r].workspace == s.rows[r].workspace && x.held[r].version >= s.rows[r].version
      && x.held[r].sequence == s.rows[r].sequence + (if r in x.order then 1 else 0)
  }

  /** What holds of a transaction whichever writer it is. */
  ghost predicate Shape(s: Db, x: Txn) {
    && (forall r :: HeldOk(s, x, r))
    && NoDup(x.order) && (forall k :: 0 <= k < |x.order| ==> x.order[k] in x.held)
    && |x.pending| <= |x.order|
    && (forall k :: 0 <= k < |x.pending| ==>
          && x.pending[k].run == x.order[k]
          && x.pending[k].sequence == x.held[x.order[k]].sequence
          && x.pending[k].workspace == x.held[x.order[k]].workspace
          && Writes(x.request, x.pending[k].body))
    && (!Active(x) ==> x.held == map[] && x.order == [])
    && (x.phase == Begun ==> x.held == map[] && x.order == [])
    && (x.phase != Writing ==> x.pending == [])
  }

  ghost predicate NoReplay(log: seq<Event>, x: Txn) {
    forall i :: 0 <= i < |log| ==> !IsReplayOfTxn(log[i], x)
  }

  /** What holds of each writer. */
  ghost predicate ByKind(s: Db, x: Txn) {
    match x.request
    case Append(workspace, run, body) =>
      && body.correlation.Some? && Valid(body.payload)
      && (x.phase == Locked ==> x.order == [] && HasRun(s, run, workspace) && x.held == map[run := s.rows[run]])
      && (x.phase == Writing ==>
            && x.order == [run] && HasRun(s, run, workspace) && NoReplay(s.log, x)
            && x.held == map[run := s.rows[run].(sequence := s.rows[run].sequence + 1)])
      && (x.phase.Found? ==> x.phase.event in s.log && IsReplayOf(x.phase.event, x.request) && x.order == [])
      && (x.phase.Done? && x.phase.found.Some? ==>
            x.phase.found.value in s.log && IsReplayOf(x.phase.found.value, x.request))
      && !x.phase.Scanning?
    case Transition(workspace, run, expected, next, body) =>
      && (x.phase == Writing ==>
            && x.order == [run] && HasRun(s, run, workspace) && s.rows[run].version == expected
            && x.held == map[run := Moved(s.rows[run], next)])
      && (x.phase.Done? ==> x.phase.found == None && run in s.rows && s.rows[run].version > expected)
      && !x.phase.Scanning? && !x.phase.Found? && x.phase != Locked
    case FailStale(before, only) =>
      && (forall r :: r in x.held ==>
            r in x.order && r in s.rows && IsStale(s.rows[r], x.request) && x.held[r] == Moved(s.rows[r], Runs.Failed))
      && !x.phase.Found? && x.phase != Locked && (x.phase.Done? ==> x.phase.found == None)
  }

  ghost predicate TxnOk(s: Db, t: Id) {
    t in s.txns ==> Shape(s, s.txns[t]) && ByKind(s, s.txns[t])
  }

  /** Row locks are exclusive. */
  ghost predicate Apart(s: Db, t: Id, u: Id) {
    t in s.txns && u in s.txns && t != u ==> forall r :: r in s.txns[t].held ==> r !in s.txns[u].held
  }

  /** A transition committed against this version of this run. */
  predicate Moves(s: Db, t: Id, r: Id, version: nat) {
    && t in s.txns && s.txns[t].phase.Done? && s.txns[t].request.Transition?
    && s.txns[t].request.run == r && s.txns[t].request.expected == version
  }

  ghost predicate OnceEach(s: Db, t: Id, u: Id) {
    t != u ==> forall r, v :: Moves(s, t, r, v) ==> !Moves(s, u, r, v)
  }

  predicate Uses(e: Event, r: Id, c: Text) {
    e.run == r && e.body.correlation == Some(c)
  }

  /** No transition of the run carries the correlation id. */
  ghost predicate SinkOnly(s: Db, r: Id, c: Text) {
    forall t :: t in s.txns && s.txns[t].request.Transition? && s.txns[t].request.run == r ==>
      s.txns[t].request.body.correlation != Some(c)
  }

  ghost predicate AtMostOnce(log: seq<Event>, r: Id, c: Text) {
    forall i, j :: 0 <= i < j < |log| && Uses(log[i], r, c) ==> !Uses(log[j], r, c)
  }

  ghost predicate CorrelationOk(s: Db, r: Id, c: Text) {
    SinkOnly(s, r, c) ==> AtMostOnce(s.log, r, c)
  }

  /** A reader has got every event up to its cursor exactly once, in order. */
  predicate ReaderOk(s: Db, p: Id) {
    p in s.readers ==>
      var d := s.readers[p];
      d.cursor <= |Events(s, d.run)| && d.got == Events(s, d.run)[..d.cursor]
  }

  ghost predicate Inv(s: Db) {
    && (forall r :: RunOk(s, r))
    && (forall t :: TxnOk(s, t))
    && (forall t, u :: Apart(s, t, u))
    && (forall t, u :: OnceEach(s, t, u))
    && (forall r, c :: CorrelationOk(s, r, c))
    && (forall p :: ReaderOk(s, p))
  }

  // ---------------------------------------------------------------- a statement inside a transaction

  /** Only this transaction changes; any row it newly locks was free. */
  ghost predicate Local(s: Db, s': Db, t: Id) {
    && t in s'.txns && s' == To(s, t, s'.txns[t]) && !s'.txns[t].phase.Done?
    && (t in s.txns ==> s'.txns[t].request == s.txns[t].request && !s.txns[t].phase.Done?)
    && forall r :: r in s'.txns[t].held ==> (t in s.txns && r in s.txns[t].held) || Free(s, r)
  }

  lemma LocalApart(s: Db, s': Db, t: Id)
    requires Inv(s) && Local(s, s', t)
    ensures forall a, b :: Apart(s', a, b)
  {
    forall a, b ensures Apart(s', a, b) {
      assert Apart(s, a, b) && TxnOk(s, a) && TxnOk(s, b);
    }
  }

  lemma LocalOthers(s: Db, s': Db, t: Id)
    requires Inv(s) && Local(s, s', t)
    ensures forall u :: u != t ==> TxnOk(s', u)
  {
    forall u | u != t ensures TxnOk(s', u) {
      assert TxnOk(s, u);
      if u in s.txns {
        forall r ensures HeldOk(s', s'.txns[u], r) { assert HeldOk(s, s.txns[u], r); }
      }
    }
  }

  lemma LocalLog(s: Db, s': Db, t: Id)
    requires Inv(s) && Local(s, s', t)
    ensures forall r :: RunOk(s', r)
    ensures forall p :: ReaderOk(s', p)
    ensures forall r, c :: CorrelationOk(s', r, c)
    ensures forall a, b :: OnceEach(s', a, b)
  {
    forall r ensures RunOk(s', r) { assert RunOk(s, r); }
    forall p ensures ReaderOk(s', p) { assert ReaderOk(s, p); }
    forall r, c ensures CorrelationOk(s', r, c) {
      assert CorrelationOk(s, r, c);
      if SinkOnly(s', r, c) { LocalSinkOnly(s, s', t, r, c); }
    }
    forall a, b ensures OnceEach(s', a, b) {
      assert OnceEach(s, a, b);
      assert forall r, v :: Moves(s', a, r, v) ==> Moves(s, a, r, v);
      assert forall r, v :: Moves(s', b, r, v) ==> Moves(s, b, r, v);
    }
  }

  lemma LocalSinkOnly(s: Db, s': Db, t: Id, r: Id, c: Text)
    requires Local(s, s', t) && SinkOnly(s', r, c)
    ensures SinkOnly(s, r, c)
  {
    forall u | u in s.txns && s.txns[u].request.Transition? && s.txns[u].request.run == r
      ensures s.txns[u].request.body.correlation != Some(c)
    {
      assert u in s'.txns && s'.txns[u].request == s.txns[u].request;
    }
  }

  lemma LocalKeepsInv(s: Db, s': Db, t: Id)
    requires Inv(s) && Local(s, s', t) && TxnOk(s', t)
    ensures Inv(s')
  {
    LocalApart(s, s', t);
    LocalOthers(s, s', t);
    LocalLog(s, s', t);
  }

  lemma SmallStepsKeepInv(s: Db, s': Db, t: Id)
    requires Inv(s)
    requires Interrupt(s, s', t) || SinkLock(s, s', t) || StaleScan(s, s', t) || StaleScanned(s, s', t)
    ensures Inv(s')
  {
    assert TxnOk(s, t);
    assert Local(s, s', t);
    SmallStepTxn(s, s', t);
    LocalKeepsInv(s, s', t);
  }

  lemma SmallStepTxn(s: Db, s': Db, t: Id)
    requires Inv(s)
    requires Interrupt(s, s', t) || SinkLock(s, s', t) || StaleScan(s, s', t) || StaleScanned(s, s', t)
    ensures TxnOk(s', t)
  {
    assert TxnOk(s, t);
    forall r ensures HeldOk(s', s'.txns[t], r) { assert HeldOk(s, s.txns[t], r); }
  }

  lemma BeginKeepsInv(s: Db, s': Db, t: Id, q: Request)
    requires Inv(s) && Begin(s, s', t, q)
    ensures Inv(s')
  {
    LocalKeepsInv(s, s', t);
  }

  lemma FindKeepsInv(s: Db, s': Db, t: Id, i: nat, le: Order)
    requires Inv(s) && SinkFinds(s, s', t, i, le)
    ensures Inv(s')
  {
    assert TxnOk(s, t);
    assert Local(s, s', t);
    assert TxnOk(s', t) by {
      forall r ensures HeldOk(s', s'.txns[t], r) { assert HeldOk(s, s.txns[t], r); }
    }
    LocalKeepsInv(s, s', t);
  }

  lemma SinkUpdateKeepsInv(s: Db, s': Db, t: Id)
    requires Inv(s) && SinkUpdates(s, s', t)
    ensures Inv(s')
  {
    assert TxnOk(s, t);
    assert Local(s, s', t);
    assert TxnOk(s', t) by {
      forall r ensures HeldOk(s', s'.txns[t], r) { assert HeldOk(s, s.txns[t], r); }
    }
    LocalKeepsInv(s, s', t);
  }

  lemma TransitionUpdateKeepsInv(s: Db, s': Db, t: Id)
    requires Inv(s) && TransitionUpdates(s, s', t)
    ensures Inv(s')
  {
    assert TxnOk(s, t);
    assert Local(s, s', t);
    assert TxnOk(s', t);
    LocalKeepsInv(s, s', t);
  }

  lemma VisitKeepsInv(s: Db, s': Db, t: Id, r: Id)
    requires Inv(s) && StaleVisit(s, s', t, r)
    ensures Inv(s')
  {
    assert TxnOk(s, t);
    assert r !in s.txns[t].held;
    assert Local(s, s', t);
    assert TxnOk(s', t) by {
      forall q ensures HeldOk(s', s'.txns[t], q) { assert HeldOk(s, s.txns[t], q); }
    }
    LocalKeepsInv(s, s', t);
  }

  lemma InsertKeepsInv(s: Db, s': Db, t: Id, body: Body)
    requires Inv(s) && InsertEvent(s, s', t, body)
    ensures Inv(s')
  {
    assert TxnOk(s, t);
    assert Local(s, s', t);
    assert TxnOk(s', t) by {
      forall r ensures HeldOk(s', s'.txns[t], r) { assert HeldOk(s, s.txns[t], r); }
    }
    LocalKeepsInv(s, s', t);
  }

  // ---------------------------------------------------------------- commit

  lemma CommitEvents(s: Db, s': Db, t: Id, r: Id)
    requires Inv(s) && Commit(s, s', t)
    ensures var x := s.txns[t];
            && (r !in x.order ==> Events(s', r) == Events(s, r))
            && (forall k :: 0 <= k < |x.order| && x.order[k] == r ==>
                  k < |x.pending| && Events(s', r) == Events(s, r) + [x.pending[k]])
  {
    assert TxnOk(s, t);
    var x := s.txns[t];
    OfAppend(s.log, x.pending, |x.pending|, r);
    assert |x.pending| == |x.order| && NoDup(x.order);
    PendingOf(x.pending, x.order, r);
  }

  /** One pending event for each run in order: a run's part of them. */
  lemma PendingOf(pending: seq<Event>, order: seq<Id>, r: Id)
    requires |pending| == |order| && NoDup(order) && forall k :: 0 <= k < |order| ==> pending[k].run == order[k]
    ensures r !in order ==> Of(pending, |pending|, r) == []
    ensures forall k :: 0 <= k < |order| && order[k] == r ==> Of(pending, |pending|, r) == [pending[k]]
  {
    if r !in order { OfNone(pending, |pending|, r); }
    forall k | 0 <= k < |order| && order[k] == r ensures Of(pending, |pending|, r) == [pending[k]] {
      OfOne(pending, |pending|, k, r);
    }
  }

  lemma CommitRun(s: Db, s': Db, t: Id, r: Id)
    requires Inv(s) && Commit(s, s', t)
    ensures RunOk(s', r)
  {
    assert TxnOk(s, t) && RunOk(s, r);
    assert HeldOk(s, s.txns[t], r);
    CommitEvents(s, s', t, r);
    if r in s.txns[t].order {
      var k :| 0 <= k < |s.txns[t].order| && s.txns[t].order[k] == r;
      assert Events(s', r) == Events(s, r) + [s.txns[t].pending[k]];
    }
  }

  lemma CommitRows(s: Db, s': Db, t: Id)
    requires Inv(s) && Commit(s, s', t)
    ensures forall r :: r in s.rows ==> r in s'.rows && s'.rows[r].version >= s.rows[r].version
    ensures forall r :: r !in s.txns[t].held && r in s.rows ==> s'.rows[r] == s.rows[r]
  {
    assert TxnOk(s, t);
    forall r | r in s.rows ensures r in s'.rows && s'.rows[r].version >= s.rows[r].version {
      assert HeldOk(s, s.txns[t], r);
    }
  }

  lemma CommitNoReplay(s: Db, s': Db, t: Id, u: Id)
    requires Inv(s) && Commit(s, s', t) && u in s.txns && u != t
    requires s.txns[u].request.Append? && s.txns[u].phase == Writing
    ensures NoReplay(s'.log, s.txns[u])
  {
    assert TxnOk(s, u) && TxnOk(s, t) && Apart(s, t, u);
    var x := s.txns[t];
    assert s.txns[u].order[0] in s.txns[u].held;
    forall i | 0 <= i < |s'.log| ensures !IsReplayOfTxn(s'.log[i], s.txns[u]) {
      if i >= |s.log| {
        var k := i - |s.log|;
        assert s'.log[i] == x.pending[k] && x.order[k] in x.held;
      }
    }
  }

  lemma CommitOther(s: Db, s': Db, t: Id, u: Id)
    requires Inv(s) && Commit(s, s', t) && u != t
    ensures TxnOk(s', u)
  {
    assert TxnOk(s, u) && Apart(s, u, t);
    CommitRows(s, s', t);
    if u in s.txns {
      forall r ensures HeldOk(s', s'.txns[u], r) { assert HeldOk(s, s.txns[u], r); }
      if s.txns[u].request.Append? && s.txns[u].phase == Writing { CommitNoReplay(s, s', t, u); }
      if !s.txns[u].request.FailStale? && (s.txns[u].phase == Writing || s.txns[u].phase == Locked) {
        LocksItsRun(s, u);
      }
    }
  }

  lemma LocksItsRun(s: Db, t: Id)
    requires TxnOk(s, t) && t in s.txns && !s.txns[t].request.FailStale?
    requires s.txns[t].phase == Writing || s.txns[t].phase == Locked
    ensures s.txns[t].request.run in s.txns[t].held
  {
    if s.txns[t].phase == Writing { assert s.txns[t].order[0] in s.txns[t].held; }
  }

  lemma CommitSelf(s: Db, s': Db, t: Id)
    requires Inv(s) && Commit(s, s', t)
    ensures TxnOk(s', t)
  {
    assert TxnOk(s, t);
    var x := s.txns[t];
    assert forall r :: HeldOk(s', s'.txns[t], r);
    if x.request.Transition? {
      assert x.phase == Writing;
      assert s'.rows[x.request.run] == Moved(s.rows[x.request.run], x.request.next);
    }
  }

  lemma CommitOnce(s: Db, s': Db, t: Id, a: Id, b: Id)
    requires Inv(s) && Commit(s, s', t)
    ensures OnceEach(s', a, b)
  {
    assert OnceEach(s, a, b);
    if a != b {
      forall r, v | Moves(s', a, r, v) ensures !Moves(s', b, r, v) {
        CommitMoves(s, s', t, a, r, v);
        CommitMoves(s, s', t, b, r, v);
      }
    }
  }

  /** What committed earlier has moved the version on; what commits now finds it in place. */
  lemma CommitMoves(s: Db, s': Db, t: Id, a: Id, r: Id, v: nat)
    requires Inv(s) && Commit(s, s', t)
    ensures Moves(s', a, r, v) ==>
      && r in s.rows
      && if a == t then s.rows[r].version == v else Moves(s, a, r, v) && s.rows[r].version > v
  {
    assert TxnOk(s, a);
  }

  lemma CommitCorrelation(s: Db, s': Db, t: Id, r: Id, c: Text)
    requires Inv(s) && Commit(s, s', t)
    ensures CorrelationOk(s', r, c)
  {
    assert TxnOk(s, t) && CorrelationOk(s, r, c);
    var x := s.txns[t];
    if SinkOnly(s', r, c) {
      forall u | u in s.txns && s.txns[u].request.Transition? && s.txns[u].request.run == r
        ensures s.txns[u].request.body.correlation != Some(c)
      {
        assert s'.txns[u].request == s.txns[u].request;
      }
      assert AtMostOnce(s.log, r, c);
      if exists k :: 0 <= k < |x.pending| && Uses(x.pending[k], r, c) {
        CommitUses(s, t, r, c);
      }
    }
  }

  /** Only the sink inserts under a sink-only correlation id, and only after finding none. */
  lemma CommitUses(s: Db, t: Id, r: Id, c: Text)
    requires Inv(s) && t in s.txns && CanCommit(s.txns[t]) && SinkOnly(s, r, c)
    requires exists k :: 0 <= k < |s.txns[t].pending| && Uses(s.txns[t].pending[k], r, c)
    ensures |s.txns[t].pending| == 1 && forall i :: 0 <= i < |s.log| ==> !Uses(s.log[i], r, c)
  {
    assert TxnOk(s, t) && RunOk(s, r);
    var x := s.txns[t];
    var k :| 0 <= k < |x.pending| && Uses(x.pending[k], r, c);
    assert x.request.Append?;
    forall i | 0 <= i < |s.log| ensures !Uses(s.log[i], r, c) {
      EventsOfRun(s, i);
      assert !IsReplayOfTxn(s.log[i], x);
    }
  }

  /** A committed event belongs to its run's workspace. */
  lemma EventsOfRun(s: Db, i: nat)
    requires Inv(s) && i < |s.log|
    ensures s.log[i].run in s.rows && s.log[i] in Events(s, s.log[i].run)
    ensures s.log[i].workspace == s.rows[s.log[i].run].workspace
  {
    var r := s.log[i].run;
    assert s.log[..|s.log|] == s.log;
    OfMembers(s.log, |s.log|, r, s.log[i]);
    assert RunOk(s, r);
  }

  lemma CommitReader(s: Db, s': Db, t: Id, p: Id)
    requires Inv(s) && Commit(s, s', t)
    ensures ReaderOk(s', p)
  {
    assert ReaderOk(s, p) && TxnOk(s, t);
    if p in s.readers {
      var r := s.readers[p].run;
      CommitEvents(s, s', t, r);
      assert Events(s, r) <= Events(s', r);
    }
  }

  lemma CommitKeepsInv(s: Db, s': Db, t: Id)
    requires Inv(s) && Commit(s, s', t)
    ensures Inv(s')
  {
    forall r ensures RunOk(s', r) { CommitRun(s, s', t, r); }
    CommitSelf(s, s', t);
    forall u ensures TxnOk(s', u) { if u != t { CommitOther(s, s', t, u); } }
    forall a, b ensures Apart(s', a, b) { assert Apart(s, a, b); }
    forall a, b ensures OnceEach(s', a, b) { CommitOnce(s, s', t, a, b); }
    forall r, c ensures CorrelationOk(s', r, c) { CommitCorrelation(s, s', t, r, c); }
    forall p ensures ReaderOk(s', p) { CommitReader(s, s', t, p); }
  }

  // ---------------------------------------------------------------- rows and readers

  lemma RowStepKeepsInv(s: Db, s': Db, r: Id, row: Row)
    requires Inv(s) && s' == s.(rows := s.rows[r := row])
    requires if r in s.rows then Free(s, r) && row == s.rows[r].(heartbeat := row.heartbeat) else row.sequence == 0
    ensures Inv(s')
  {
    forall q ensures RunOk(s', q) { assert RunOk(s, q); }
    forall t ensures TxnOk(s', t) {
      assert TxnOk(s, t);
      if t in s.txns {
        forall q ensures HeldOk(s', s'.txns[t], q) { assert HeldOk(s, s.txns[t], q); }
        assert r !in s.txns[t].held by { assert HeldOk(s, s.txns[t], r); }
        if !s.txns[t].request.FailStale? && (s.txns[t].phase == Writing || s.txns[t].phase == Locked) {
          LocksItsRun(s, t);
        }
      }
    }
    forall a, b ensures Apart(s', a, b) { assert Apart(s, a, b); }
    forall a, b ensures OnceEach(s', a, b) {
      assert OnceEach(s, a, b);
      assert forall q, v :: Moves(s', a, q, v) == Moves(s, a, q, v);
      assert forall q, v :: Moves(s', b, q, v) == Moves(s, b, q, v);
    }
    forall q, c ensures CorrelationOk(s', q, c) { assert CorrelationOk(s, q, c); assert SinkOnly(s', q, c) == SinkOnly(s, q, c); }
    forall p ensures ReaderOk(s', p) { assert ReaderOk(s, p); }
  }

  /** Of a run numbered without gaps, the page is the next stretch of its events. */
  lemma PageIsNext(s: Db, d: Reader, limit: nat, page: seq<Event>)
    requires Inv(s) && 1 <= limit && HasRun(s, d.run, d.workspace) && IsPage(s.log, d, limit, page)
    requires d.cursor <= |Events(s, d.run)|
    ensures d.cursor + |page| <= |Events(s, d.run)|
    ensures page == Events(s, d.run)[d.cursor..d.cursor + |page|]
    ensures |page| < limit ==> d.cursor + |page| == |Events(s, d.run)|
  {
    var es := Events(s, d.run);
    assert RunOk(s, d.run);
    forall k | 0 <= k < |page| ensures d.cursor + k < |es| && page[k] == es[d.cursor + k] {
      PageAt(s, d, limit, page, k);
    }
    if page != [] { PageAt(s, d, limit, page, |page| - 1); }
    if d.cursor + |page| < |es| {
      var e := es[d.cursor + |page|];
      WantedIsLogged(s, d, d.cursor + |page|);
      assert e !in page;
    }
  }

  lemma WantedIsLogged(s: Db, d: Reader, n: nat)
    requires Inv(s) && HasRun(s, d.run, d.workspace) && d.cursor <= n < |Events(s, d.run)|
    ensures Events(s, d.run)[n] in s.log && Wanted(Events(s, d.run)[n], d)
  {
    assert RunOk(s, d.run);
    assert s.log[..|s.log|] == s.log;
    OfMembers(s.log, |s.log|, d.run, Events(s, d.run)[n]);
  }

  lemma PageElement(s: Db, d: Reader, limit: nat, page: seq<Event>, k: nat)
    requires Inv(s) && HasRun(s, d.run, d.workspace) && IsPage(s.log, d, limit, page) && k < |page|
    ensures d.cursor < page[k].sequence <= |Events(s, d.run)|
    ensures page[k] == Events(s, d.run)[page[k].sequence - 1]
  {
    assert RunOk(s, d.run);
    assert s.log[..|s.log|] == s.log;
    OfMembers(s.log, |s.log|, d.run, page[k]);
  }

  lemma {:induction false} PageAt(s: Db, d: Reader, limit: nat, page: seq<Event>, k: nat)
    requires Inv(s) && HasRun(s, d.run, d.workspace) && IsPage(s.log, d, limit, page) && k < |page|
    ensures d.cursor + k < |Events(s, d.run)| && page[k] == Events(s, d.run)[d.cursor + k]
  {
    var es := Events(s, d.run);
    PageElement(s, d, limit, page, k);
    assert RunOk(s, d.run);
    if k > 0 {
      PageAt(s, d, limit, page, k - 1);
      assert page[k - 1].sequence == d.cursor + k;
    }
    assert d.cursor + k < page[k].sequence;
    var e := es[d.cursor + k];
    WantedIsLogged(s, d, d.cursor + k);
    assert e in page;
    var j :| 0 <= j < |page| && page[j] == e;
    LaterInPage(page, j, k);
  }

  lemma LaterInPage(page: seq<Event>, j: nat, k: nat)
    requires forall a, b :: 0 <= a < b < |page| ==> page[a].sequence < page[b].sequence
    requires j < |page| && k < |page| && (k > 0 ==> page[k - 1].sequence < page[j].sequence)
    ensures j >= k && page[k].sequence <= page[j].sequence
  {
  }

  /** The reader after a page that is the next stretch of a gapless run. */
  lemma PageAdvances(es: seq<Event>, got: seq<Event>, cursor: nat, page: seq<Event>, r: Id, workspace: Id)
    requires cursor + |page| <= |es| && got == es[..cursor] && page == es[cursor..cursor + |page|] && Numbered(es, r, workspace)
    ensures got + page == es[..cursor + |page|]
    ensures page != [] ==> page[|page| - 1].sequence == cursor + |page|
  {
    if page != [] { assert page[|page| - 1] == es[cursor + |page| - 1]; }
  }

  lemma ReadKeepsInv(s: Db, s': Db, p: Id, limit: nat, page: seq<Event>)
    requires Inv(s) && ReadPage(s, s', p, limit, page)
    ensures Inv(s')
  {
    var d := s.readers[p];
    assert ReaderOk(s, p) && RunOk(s, d.run);
    PageIsNext(s, d, limit, page);
    PageReaderOk(s, s', p, page);
    ReaderStepKeepsInv(s, s', p);
  }

  lemma PageReaderOk(s: Db, s': Db, p: Id, page: seq<Event>)
    requires p in s.readers && ReaderOk(s, p) && s.readers[p].run in s.rows && RunOk(s, s.readers[p].run)
    requires var d := s.readers[p];
             && d.cursor + |page| <= |Events(s, d.run)| && page == Events(s, d.run)[d.cursor..d.cursor + |page|]
             && s'.log == s.log && p in s'.readers
             && s'.readers[p] == d.(got := d.got + page, cursor := if page == [] then d.cursor else page[|page| - 1].sequence)
    ensures ReaderOk(s', p)
  {
    var d := s.readers[p];
    PageAdvances(Events(s, d.run), d.got, d.cursor, page, d.run, s.rows[d.run].workspace);
  }

  lemma ReaderStepKeepsInv(s: Db, s': Db, p: Id)
    requires Inv(s) && p in s'.readers && s' == s.(readers := s.readers[p := s'.readers[p]]) && ReaderOk(s', p)
    ensures Inv(s')
  {
    forall q ensures RunOk(s', q) { assert RunOk(s, q); }
    forall t ensures TxnOk(s', t) {
      assert TxnOk(s, t);
      if t in s.txns {
        forall q ensures HeldOk(s', s'.txns[t], q) { assert HeldOk(s, s.txns[t], q); }
      }
    }
    forall a, b ensures Apart(s', a, b) { assert Apart(s, a, b); }
    forall a, b ensures OnceEach(s', a, b) {
      assert OnceEach(s, a, b);
      assert forall q, v :: Moves(s', a, q, v) == Moves(s, a, q, v);
      assert forall q, v :: Moves(s', b, q, v) == Moves(s, b, q, v);
    }
    forall q, c ensures CorrelationOk(s', q, c) { assert CorrelationOk(s, q, c); assert SinkOnly(s', q, c) == SinkOnly(s, q, c); }
    forall q ensures ReaderOk(s', q) { assert ReaderOk(s, q); }
  }

  // ---------------------------------------------------------------- every run

  lemma TxnStepKeepsInv(s: Db, s': Db, t: Id, le: Order)
    requires Inv(s) && TxnStep(s, s', t, le)
    ensures Inv(s')
  {
    if Statement(s, s', t) {
      if Commit(s, s', t) { CommitKeepsInv(s, s', t); }
      else if SinkUpdates(s, s', t) { SinkUpdateKeepsInv(s, s', t); }
      else if TransitionUpdates(s, s', t) { TransitionUpdateKeepsInv(s, s', t); }
      else { SmallStepsKeepInv(s, s', t); }
    } else if q :| Begin(s, s', t, q) {
      BeginKeepsInv(s, s', t, q);
    } else if i :| SinkFinds(s, s', t, i, le) {
      FindKeepsInv(s, s', t, i, le);
    } else if r :| StaleVisit(s, s', t, r) {
      VisitKeepsInv(s, s', t, r);
    } else {
      var body :| InsertEvent(s, s', t, body);
      InsertKeepsInv(s, s', t, body);
    }
  }

  lemma NextKeepsInv(s: Db, s': Db, le: Order)
    requires Inv(s) && Next(s, s', le)
    ensures Inv(s')
  {
    if t :| TxnStep(s, s', t, le) {
      TxnStepKeepsInv(s, s', t, le);
    } else if r, w :| NewRun(s, s', r, w) {
      RowStepKeepsInv(s, s', r, s'.rows[r]);
    } else if r, now :| Beat(s, s', r, now) {
      RowStepKeepsInv(s, s', r, s'.rows[r]);
    } else if p, w, r :| OpenReader(s, s', p, w, r) {
      ReaderStepKeepsInv(s, s', p);
    } else {
      var p, limit, page :| ReadPage(s, s', p, limit, page);
      ReadKeepsInv(s, s', p, limit, page);
    }
  }

  lemma {:induction false} EveryRunKeepsInv(states: seq<Db>, le: Order)
    requires RunFrom(states, le)
    ensures Inv(states[|states| - 1])
  {
    if |states| == 1 {
      assert forall r :: RunOk(EMPTY, r);
    } else {
      EveryRunKeepsInv(states[..|states| - 1], le);
      NextKeepsInv(states[|states| - 2], states[|states| - 1], le);
    }
  }

  // ---------------------------------------------------------------- what a reader of the code may rely on

  /** Every run's sequences, at every moment of every run of the system. */
  lemma SequencesAreGapless(states: seq<Db>, r: Id, le: Order)
    requires RunFrom(states, le)
    ensures var s := states[|states| - 1];
            r in s.rows ==>
              |Events(s, r)| == s.rows[r].sequence && Numbered(Events(s, r), r, s.rows[r].workspace)
  {
    EveryRunKeepsInv(states, le);
    assert RunOk(states[|states| - 1], r);
  }

  /** Nothing is visible before the commit, and then all of it: only a commit touches the log. */
  lemma OnlyCommitsWrite(s: Db, s': Db, le: Order)
    requires Next(s, s', le)
    ensures s.log <= s'.log
    ensures s'.log != s.log ==> exists t :: Commit(s, s', t)
  {
  }

  lemma CommittedAppend(s: Db, s': Db, t: Id)
    requires Inv(s) && Commit(s, s', t) && s.txns[t].request.Append? && s.txns[t].phase == Writing
    ensures var q := s.txns[t].request;
            && HasRun(s, q.run, q.workspace)
            && s'.rows == s.rows[q.run := s.rows[q.run].(sequence := s.rows[q.run].sequence + 1)]
            && exists payload :: Equivalent(q.body.payload, payload)
                 && s'.log == s.log + [Event(q.run, q.workspace, s.rows[q.run].sequence + 1, q.body.(payload := payload))]
  {
    assert TxnOk(s, t);
    var x := s.txns[t];
    assert Stores(x.request.body, x.pending[0].body) && Equivalent(x.request.body.payload, x.pending[0].body.payload);
    assert x.pending == [x.pending[0]];
  }

  /** What a transition commits, it commits against the version it expected. */
  lemma CommittedTransition(s: Db, s': Db, t: Id)
    requires Inv(s) && Commit(s, s', t) && s.txns[t].request.Transition?
    ensures var q := s.txns[t].request;
            && HasRun(s, q.run, q.workspace) && s.rows[q.run].version == q.expected
            && s'.rows == s.rows[q.run := Row(q.workspace, q.next, q.expected + 1, s.rows[q.run].sequence + 1, s.rows[q.run].heartbeat)]
            && exists payload :: Equivalent(q.body.payload, payload)
                 && s'.log == s.log + [Event(q.run, q.workspace, s.rows[q.run].sequence + 1, q.body.(payload := payload))]
  {
    assert TxnOk(s, t);
    var x := s.txns[t];
    assert Stores(x.request.body, x.pending[0].body) && Equivalent(x.request.body.payload, x.pending[0].body.payload);
    assert x.pending == [x.pending[0]];
  }

  /** Neither ended nor a draft, and its last heartbeat before the deadline, in the workspace asked for if one was. */
  predicate WasStale(row: Row, before: int, only: Option<Id>) {
    && row.state !in {Runs.Draft, Runs.Completed, Runs.Failed, Runs.Cancelled, Runs.Expired}
    && row.heartbeat.Some? && row.heartbeat.value < before && (only == None || only == Some(row.workspace))
  }

  lemma StaleRows(row: Row, before: int, only: Option<Id>)
    ensures IsStale(row, FailStale(before, only)) <==> WasStale(row, before, only)
  {
    Runs.ActiveAndCancellable(row.state);
  }

  /** The event of a failed run, numbered as its row is. */
  function FailureOf(run: Id, row: Row): Event {
    Event(run, row.workspace, row.sequence,
          Body(Ascii("run.failed"), Ascii("system"), None, None,
               Obj([Entry(Ascii("failureCode"), Str(Ascii("STALE_HEARTBEAT")))]), Finite(false, [1], 1)))
  }

  /** failStaleRuns fails runs that are stale when it commits, one event each, and touches no other. */
  lemma CommittedFailStale(s: Db, s': Db, t: Id, r: Id)
    requires Inv(s) && Commit(s, s', t) && s.txns[t].request.FailStale? && r in s.rows
    ensures if r in s.txns[t].order
            then
              && WasStale(s.rows[r], s.txns[t].request.before, s.txns[t].request.only)
              && s'.rows[r] == Row(s.rows[r].workspace, Runs.Failed, s.rows[r].version + 1, s.rows[r].sequence + 1, s.rows[r].heartbeat)
              && !WasStale(s'.rows[r], s.txns[t].request.before, s.txns[t].request.only)
              && Events(s', r) == Events(s, r) + [FailureOf(r, s'.rows[r])]
            else s'.rows[r] == s.rows[r] && Events(s', r) == Events(s, r)
  {
    assert TxnOk(s, t);
    var x := s.txns[t];
    CommitEvents(s, s', t, r);
    assert HeldOk(s, x, r);
    if r in x.order {
      var k :| 0 <= k < |x.order| && x.order[k] == r;
      assert Events(s', r) == Events(s, r) + [x.pending[k]];
      StaleRows(s.rows[r], x.request.before, x.request.only);
    }
  }

  /** A finished transaction stays finished: what was refused never commits later. */
  lemma FinishedIsFinal(s: Db, s': Db, t: Id, le: Order)
    requires Next(s, s', le) && t in s.txns && !Active(s.txns[t])
    ensures t in s'.txns && s'.txns[t] == s.txns[t]
  {
    if u :| TxnStep(s, s', u, le) {
      TxnStepTouchesOne(s, s', u, t, le);
    }
  }

  lemma StatementTouchesOne(s: Db, s': Db, u: Id, t: Id)
    requires Statement(s, s', u) && t in s.txns && !Active(s.txns[t])
    ensures t in s'.txns && s'.txns[t] == s.txns[t]
  {
    assert t != u;
  }

  lemma TxnStepTouchesOne(s: Db, s': Db, u: Id, t: Id, le: Order)
    requires TxnStep(s, s', u, le) && t in s.txns && !Active(s.txns[t])
    ensures t in s'.txns && s'.txns[t] == s.txns[t]
  {
    if Statement(s, s', u) {
      StatementTouchesOne(s, s', u, t);
    } else if q :| Begin(s, s', u, q) {
    } else if i :| SinkFinds(s, s', u, i, le) {
    } else if r :| StaleVisit(s, s', u, r) {
    }
  }

  lemma {:induction false} FinishedStays(states: seq<Db>, t: Id, k: nat, j: nat, le: Order)
    requires RunFrom(states, le) && k <= j < |states| && t in states[k].txns && !Active(states[k].txns[t])
    ensures t in states[j].txns && states[j].txns[t] == states[k].txns[t]
  {
    if k < j {
      FinishedStays(states, t, k, j - 1, le);
      FinishedIsFinal(states[j - 1], states[j], t, le);
    }
  }

  lemma OwnStepWritesOnlyByCommit(s: Db, s': Db, t: Id, le: Order)
    requires TxnStep(s, s', t, le) && (s'.rows != s.rows || s'.log != s.log)
    ensures t in s'.txns && s'.txns[t].phase.Done?
  {
    if Statement(s, s', t) {
      StatementWritesOnlyByCommit(s, s', t);
    }
  }

  lemma StatementWritesOnlyByCommit(s: Db, s': Db, t: Id)
    requires Statement(s, s', t) && (s'.rows != s.rows || s'.log != s.log)
    ensures t in s'.txns && s'.txns[t].phase.Done?
  {
    assert Commit(s, s', t);
  }

  /**
   * A transition whose UPDATE meets another version, or another workspace's run, is refused for
   * that reason at every later moment of the run, and no step of it has changed or will change data.
   */
  lemma StaleTransitionChangesNothing(states: seq<Db>, t: Id, k: nat, le: Order)
    requires RunFrom(states, le) && k + 1 < |states|
    requires TransitionUpdates(states[k], states[k + 1], t)
    requires var s, q := states[k], states[k].txns[t].request; !(HasRun(s, q.run, q.workspace) && s.rows[q.run].version == q.expected)
    ensures forall j :: k < j < |states| ==>
              t in states[j].txns && states[j].txns[t].phase
              == Refused(if HasRun(states[k], states[k].txns[t].request.run, states[k].txns[t].request.workspace)
                         then StaleVersion else NotFound)
    ensures forall i, j :: 0 <= i && j == i + 1 && j < |states| && TxnStep(states[i], states[j], t, le) ==>
              states[j].rows == states[i].rows && states[j].log == states[i].log
  {
    forall j | k < j < |states| ensures t in states[j].txns && states[j].txns[t] == states[k + 1].txns[t] {
      FinishedStays(states, t, k + 1, j, le);
    }
    forall i, j | 0 <= i && j == i + 1 && j < |states| && TxnStep(states[i], states[j], t, le)
      ensures states[j].rows == states[i].rows && states[j].log == states[i].log
    {
      if states[j].rows != states[i].rows || states[j].log != states[i].log {
        OwnStepWritesOnlyByCommit(states[i], states[j], t, le);
        FinishedStays(states, t, j, |states| - 1, le);
      }
    }
  }

  /** Of the transitions expecting one version of one run, at most one ever commits. */
  lemma AtMostOneTransitionPerVersion(states: seq<Db>, t: Id, u: Id, le: Order)
    requires RunFrom(states, le)
    requires var s := states[|states| - 1];
             && t in s.txns && u in s.txns && s.txns[t].phase.Done? && s.txns[u].phase.Done?
             && s.txns[t].request.Transition? && s.txns[u].request.Transition?
             && s.txns[t].request.run == s.txns[u].request.run
             && s.txns[t].request.expected == s.txns[u].request.expected
    ensures t == u
  {
    EveryRunKeepsInv(states, le);
    var s := states[|states| - 1];
    assert OnceEach(s, t, u);
    assert Moves(s, t, s.txns[t].request.run, s.txns[t].request.expected);
    assert Moves(s, u, s.txns[t].request.run, s.txns[t].request.expected);
  }

  /** A correlation id that only the sink uses is in the log at most once. */
  lemma CorrelationIsUnique(states: seq<Db>, r: Id, c: Text, le: Order)
    requires RunFrom(states, le) && SinkOnly(states[|states| - 1], r, c)
    ensures AtMostOnce(states[|states| - 1].log, r, c)
  {
    EveryRunKeepsInv(states, le);
    assert CorrelationOk(states[|states| - 1], r, c);
  }

  /** The sink returns an event that is in the log, of its run and under its correlation id. */
  lemma ReturnedReplayIsLogged(states: seq<Db>, t: Id, le: Order)
    requires RunFrom(states, le)
    requires var s := states[|states| - 1]; t in s.txns && s.txns[t].phase.Done? && s.txns[t].phase.found.Some?
    ensures var s := states[|states| - 1];
            && s.txns[t].request.Append? && s.txns[t].phase.found.value in s.log
            && IsReplayOf(s.txns[t].phase.found.value, s.txns[t].request)
  {
    EveryRunKeepsInv(states, le);
    assert TxnOk(states[|states| - 1], t);
  }

  /** Whatever the limits and whatever commits between the pages, a reader misses and repeats nothing. */
  lemma ReaderGetsEveryEventOnce(states: seq<Db>, p: Id, le: Order)
    requires RunFrom(states, le) && p in states[|states| - 1].readers
    ensures var s := states[|states| - 1];
            var d := s.readers[p];
            d.cursor <= |Events(s, d.run)| && d.got == Events(s, d.run)[..d.cursor]
  {
    EveryRunKeepsInv(states, le);
    assert ReaderOk(states[|states| - 1], p);
  }

  /** A page shorter than its limit means caught up with what is committed. */
  lemma ShortPageIsTheEnd(s: Db, s': Db, p: Id, limit: nat, page: seq<Event>)
    requires Inv(s) && ReadPage(s, s', p, limit, page)
    ensures |page| == if |Events(s, s.readers[p].run)| - s.readers[p].cursor < limit
                      then |Events(s, s.readers[p].run)| - s.readers[p].cursor else limit
    ensures |page| < limit ==> s'.readers[p].got == Events(s', s'.readers[p].run)
  {
    var d := s.readers[p];
    assert ReaderOk(s, p) && RunOk(s, d.run);
    PageIsNext(s, d, limit, page);
    PageEnds(Events(s, d.run), d.got, d.cursor, page, limit);
  }

  lemma PageEnds(es: seq<Event>, got: seq<Event>, cursor: nat, page: seq<Event>, limit: nat)
    requires cursor + |page| <= |es| && got == es[..cursor] && page == es[cursor..cursor + |page|]
    ensures cursor + |page| == |es| ==> got + page == es
  {
  }

  // ---------------------------------------------------------------- digests

  const FIELD_NAMES: seq<Text> :=
    [Ascii("type"), Ascii("actorType"), Ascii("actorId"), Ascii("correlationId"), Ascii("payload"), Ascii("schemaVersion")]

  lemma FieldNamesDiffer()
    ensures forall i, j :: 0 <= i < j < |FIELD_NAMES| ==> FIELD_NAMES[i] != FIELD_NAMES[j]
  {
    assert Ascii("actorId")[0] == 'a' as int && Ascii("payload")[0] == 'p' as int;
    assert Ascii("correlationId")[0] == 'c' as int && Ascii("schemaVersion")[0] == 's' as int;
    assert forall i :: 0 <= i < |FIELD_NAMES| ==> |FIELD_NAMES[i]| == [4, 9, 7, 13, 7, 13][i];
  }

  /** The locale tells the six field names apart. */
  predicate SeparatesFieldNames(le: Order) {
    forall i, j :: 0 <= i < |FIELD_NAMES| && 0 <= j < |FIELD_NAMES| && i != j ==> !Tied(FIELD_NAMES[i], FIELD_NAMES[j], le)
  }

  predicate SameEvent(a: Body, b: Body) {
    a == b.(payload := a.payload) && Equivalent(a.payload, b.payload)
  }

  lemma FieldsMatch(a: Body, b: Body, i: nat)
    requires Equivalent(Obj(DigestFields(a)), Obj(DigestFields(b))) && i < 6
    ensures Equivalent(DigestFields(a)[i].value, DigestFields(b)[i].value)
  {
    FieldNamesDiffer();
    assert HasEntry(DigestFields(b), DigestFields(a)[i]);
    assert DigestFields(a)[i].key == FIELD_NAMES[i];
    var j :| 0 <= j < 6 && DigestFields(a)[i].key == DigestFields(b)[j].key
      && Equivalent(DigestFields(a)[i].value, DigestFields(b)[j].value);
    assert DigestFields(b)[j].key == FIELD_NAMES[j];
  }

  lemma EquivalentFieldsGiveSameEvent(a: Body, b: Body)
    requires Equivalent(Obj(DigestFields(a)), Obj(DigestFields(b)))
    ensures SameEvent(a, b)
  {
    FieldsMatch(a, b, 0);
    FieldsMatch(a, b, 1);
    FieldsMatch(a, b, 2);
    FieldsMatch(a, b, 3);
    FieldsMatch(a, b, 4);
    FieldsMatch(a, b, 5);
  }

  lemma SameEventGivesEquivalentFields(a: Body, b: Body)
    requires SameEvent(a, b)
    ensures Equivalent(Obj(DigestFields(a)), Obj(DigestFields(b)))
  {
    var fs, gs := DigestFields(a), DigestFields(b);
    forall i | 0 <= i < 6 ensures HasEntry(gs, fs[i]) {
      assert fs[i].key == gs[i].key;
      EquivalentReflexive(gs[i].value);
      assert i != 4 ==> fs[i].value == gs[i].value;
    }
  }

  lemma DigestFieldsNoTies(a: Body, le: Order)
    requires Valid(a.payload) && NoTies(a.payload, le) && SeparatesFieldNames(le)
    ensures Valid(Obj(DigestFields(a))) && NoTies(Obj(DigestFields(a)), le)
  {
    FieldNamesDiffer();
    var fs := DigestFields(a);
    forall i | 0 <= i < 6 ensures fs[i].key == FIELD_NAMES[i] && Valid(fs[i].value) && NoTies(fs[i].value, le) {
    }
  }

  /** Two events with one digest differ at most in the order of payload keys, whatever the locale. */
  lemma SameDigestIsSameEvent(a: Body, b: Body, le: Order)
    requires Digest(a, le) == Digest(b, le)
    ensures SameEvent(a, b)
  {
    SameTextIsEquivalent(Obj(DigestFields(a)), Obj(DigestFields(b)), le);
    EquivalentFieldsGiveSameEvent(a, b);
  }

  /** And conversely, where the locale ties no two keys of the payload. */
  lemma SameDigestIffSameEvent(a: Body, b: Body, le: Order)
    requires TotalPreorder(le) && SeparatesFieldNames(le)
    requires Valid(a.payload) && Valid(b.payload) && NoTies(a.payload, le)
    ensures Digest(a, le) == Digest(b, le) <==> SameEvent(a, b)
  {
    if Digest(a, le) == Digest(b, le) { SameDigestIsSameEvent(a, b, le); }
    if SameEvent(a, b) { SameEventGivesEquivalentFields(a, b); }
    DigestFieldsNoTies(a, le);
    FieldNamesDiffer();
    assert Valid(Obj(DigestFields(b))) by {
      forall i | 0 <= i < 6 ensures DigestFields(b)[i].key == FIELD_NAMES[i] && Valid(DigestFields(b)[i].value) {
      }
    }
    SameTextIffEquivalent(Obj(DigestFields(a)), Obj(DigestFields(b)), le);
  }

  /**
   * Sending an event again: whatever order jsonb gave its payload's keys, the lookup returns the
   * logged event, and nothing is written. Sending another event under its id is refused.
   */
  lemma ReplayReturnsTheLoggedEvent(s: Db, s': Db, t: Id, i: nat, le: Order)
    requires TotalPreorder(le) && SeparatesFieldNames(le) && SinkFinds(s, s', t, i, le)
    requires Valid(s.txns[t].request.body.payload) && Valid(s.log[i].body.payload)
    requires NoTies(s.log[i].body.payload, le)
    ensures s'.rows == s.rows && s'.log == s.log
    ensures s'.txns[t].phase ==
            if SameEvent(s.log[i].body, s.txns[t].request.body) then Found(s.log[i]) else Refused(Conflict)
  {
    SameDigestIffSameEvent(s.log[i].body, s.txns[t].request.body, le);
  }
}
