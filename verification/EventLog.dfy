/**
 * The per-run event log of the PostgreSQL store: three kinds of transaction write it, each split
 * into its statements, any number of them interleaved, each able to fail between statements.
 * A statement that updates or locks a row waits for the row's lock and sees the last committed
 * row; what a transaction wrote becomes visible when it commits.
 */
module EventLog {
  import opened Prelude
  import opened Json
  import Runs

  type Id = nat

  datatype Row = Row(workspace: Id, state: Runs.RunState, version: nat, sequence: nat, heartbeat: Option<int>)

  /** What a caller gives of an event. */
  datatype Body = Body(
    kind: Text, actorType: Text, actorId: Option<Text>, correlation: Option<Text>, payload: Json, schema: Number)

  datatype Event = Event(run: Id, workspace: Id, sequence: nat, body: Body)

  datatype Request =
    | Append(workspace: Id, run: Id, body: Body)
    | Transition(workspace: Id, run: Id, expected: nat, next: Runs.RunState, body: Body)
    | FailStale(before: int, only: Option<Id>)

  datatype Refusal = NotFound | StaleVersion | Conflict | BadSequence | OutOfRange | Interrupted

  datatype Phase =
    | Begun
    | Locked                          // sink: the run row is selected for update
    | Scanning(todo: set<Id>)         // failStaleRuns: rows its UPDATE has still to visit
    | Writing                         // rows updated, events being inserted
    | Found(event: Event)             // sink: a replay, about to return what is there
    | Done(found: Option<Event>)
    | Refused(reason: Refusal)

  /** `held` are the locked rows as this transaction sees them; `order` the runs whose sequence it advanced. */
  datatype Txn = Txn(request: Request, phase: Phase, held: map<Id, Row>, order: seq<Id>, pending: seq<Event>)

  /** A caller of getEventsAfter, feeding each page's last sequence into the next call. */
  datatype Reader = Reader(workspace: Id, run: Id, cursor: nat, got: seq<Event>)

  datatype Db = Db(rows: map<Id, Row>, log: seq<Event>, txns: map<Id, Txn>, readers: map<Id, Reader>)

  // ---------------------------------------------------------------- digests

  function Ascii(s: string): Text {
    seq(|s|, i requires 0 <= i < |s| => if s[i] as int < 0x10000 then s[i] as int else 0)
  }

  function Nullable(t: Option<Text>): Json {
    if t.Some? then Str(t.value) else Null
  }

  function DigestFields(b: Body): seq<Entry<Json>> {
    [Entry(Ascii("type"), Str(b.kind)), Entry(Ascii("actorType"), Str(b.actorType)),
     Entry(Ascii("actorId"), Nullable(b.actorId)), Entry(Ascii("correlationId"), Nullable(b.correlation)),
     Entry(Ascii("payload"), b.payload), Entry(Ascii("schemaVersion"), Num(b.schema))]
  }

  /** eventDigest, with the text in place of its SHA-256. */
  function Digest(b: Body, le: Order): Text {
    StableSerialize(Obj(DigestFields(b)), le)
  }

  /** What a jsonb column gives back: the same value, its object keys in an order of its own. */
  predicate Stores(given: Body, stored: Body) {
    Valid(stored.payload) && Equivalent(given.payload, stored.payload) && stored == given.(payload := stored.payload)
  }

  // ---------------------------------------------------------------- the statements

  predicate Active(x: Txn) {
    !x.phase.Done? && !x.phase.Refused?
  }

  /** No running transaction has the row locked. */
  predicate Free(s: Db, r: Id) {
    forall u :: u in s.txns && Active(s.txns[u]) ==> r !in s.txns[u].held
  }

  predicate In(s: Db, t: Id, phase: Phase) {
    t in s.txns && s.txns[t].phase == phase
  }

  function To(s: Db, t: Id, x: Txn): Db {
    s.(txns := s.txns[t := x])
  }

  predicate Allowed(q: Request) {
    match q
    case Append(_, _, body) => body.correlation.Some? && Valid(body.payload)
    case Transition(_, _, _, _, body) => Valid(body.payload)
    case FailStale(_, _) => true
  }

  predicate Begin(s: Db, s': Db, t: Id, q: Request) {
    t !in s.txns && Allowed(q) && s' == To(s, t, Txn(q, Begun, map[], [], []))
  }

  function Give(s: Db, t: Id, reason: Refusal): Db
    requires t in s.txns
  {
    To(s, t, s.txns[t].(phase := Refused(reason), held := map[], order := [], pending := []))
  }

  /** A statement fails, or the transaction is chosen as a deadlock victim. */
  predicate Interrupt(s: Db, s': Db, t: Id) {
    t in s.txns && Active(s.txns[t]) && s' == Give(s, t, Interrupted)
  }

  predicate HasRun(s: Db, r: Id, workspace: Id) {
    r in s.rows && s.rows[r].workspace == workspace
  }

  /** SELECT ... FOR UPDATE. */
  predicate SinkLock(s: Db, s': Db, t: Id) {
    && In(s, t, Begun) && s.txns[t].request.Append?
    && var q := s.txns[t].request;
       if HasRun(s, q.run, q.workspace)
       then
         && Free(s, q.run)
         && s' == To(s, t, s.txns[t].(phase := Locked, held := map[q.run := s.rows[q.run]]))
       else s' == Give(s, t, NotFound)
  }

  predicate IsReplayOf(e: Event, q: Request)
    requires q.Append?
  {
    e.run == q.run && e.workspace == q.workspace && e.body.correlation == q.body.correlation
  }

  const MAX_SAFE: nat := 9007199254740991

  /** The lookup found an event under this correlation id: LIMIT 1 takes any one. */
  predicate SinkFinds(s: Db, s': Db, t: Id, i: nat, le: Order) {
    && In(s, t, Locked) && i < |s.log| && IsReplayOfTxn(s.log[i], s.txns[t])
    && s' == if Digest(s.log[i].body, le) == Digest(s.txns[t].request.body, le)
             then To(s, t, s.txns[t].(phase := Found(s.log[i])))
             else Give(s, t, Conflict)
  }

  predicate IsReplayOfTxn(e: Event, x: Txn) {
    x.request.Append? && IsReplayOf(e, x.request)
  }

  /** The lookup found nothing: the row's sequence is advanced. */
  predicate SinkUpdates(s: Db, s': Db, t: Id) {
    && In(s, t, Locked) && s.txns[t].request.Append?
    && (forall i :: 0 <= i < |s.log| ==> !IsReplayOfTxn(s.log[i], s.txns[t]))
    && var x := s.txns[t];
       var r := x.request.run;
       && r in x.held
       && s' == if x.held[r].sequence > MAX_SAFE then Give(s, t, BadSequence)
                else To(s, t, x.(phase := Writing, order := [r],
                                 held := x.held[r := x.held[r].(sequence := x.held[r].sequence + 1)]))
  }

  function Moved(row: Row, next: Runs.RunState): Row {
    row.(state := next, version := row.version + 1, sequence := row.sequence + 1)
  }

  /** UPDATE ... WHERE version = expected, or the error that tells why no row matched. */
  predicate TransitionUpdates(s: Db, s': Db, t: Id) {
    && In(s, t, Begun) && s.txns[t].request.Transition?
    && var q := s.txns[t].request;
       if !HasRun(s, q.run, q.workspace) then s' == Give(s, t, NotFound)
       else if s.rows[q.run].version != q.expected then s' == Give(s, t, StaleVersion)
       else
         && Free(s, q.run)
         && s' == To(s, t, s.txns[t].(phase := Writing, order := [q.run],
                                      held := map[q.run := Moved(s.rows[q.run], q.next)]))
  }

  predicate IsStale(row: Row, q: Request)
    requires q.FailStale?
  {
    && Runs.Active(row.state) && row.heartbeat.Some? && row.heartbeat.value < q.before
    && (q.only.Some? ==> row.workspace == q.only.value)
  }

  function StaleIds(rows: map<Id, Row>, q: Request): set<Id>
    requires q.FailStale?
  {
    set r | r in rows && IsStale(rows[r], q)
  }

  /** The UPDATE starts on the rows stale in its snapshot. */
  predicate StaleScan(s: Db, s': Db, t: Id) {
    && In(s, t, Begun) && s.txns[t].request.FailStale?
    && s' == To(s, t, s.txns[t].(phase := Scanning(StaleIds(s.rows, s.txns[t].request))))
  }

  /** It takes one row's lock, and looks again at what is committed there. */
  predicate StaleVisit(s: Db, s': Db, t: Id, r: Id) {
    && t in s.txns && s.txns[t].phase.Scanning? && s.txns[t].request.FailStale?
    && r in s.txns[t].phase.todo && r in s.rows && Free(s, r)
    && var x := s.txns[t];
       var left := Scanning(x.phase.todo - {r});
       s' == To(s, t, if IsStale(s.rows[r], x.request)
                      then x.(phase := left, order := x.order + [r],
                              held := x.held[r := Moved(s.rows[r], Runs.Failed)])
                      else x.(phase := left))
  }

  predicate StaleScanned(s: Db, s': Db, t: Id) {
    In(s, t, Scanning({})) && s' == To(s, t, s.txns[t].(phase := Writing))
  }

  /** The body of the event inserted for a run the transaction advanced. */
  predicate Writes(q: Request, body: Body) {
    match q
    case Append(_, _, given) => Stores(given, body)
    case Transition(_, _, _, _, given) => Stores(given, body)
    case FailStale(_, _) =>
      body == Body(Ascii("run.failed"), Ascii("system"), None, None,
                   Obj([Entry(Ascii("failureCode"), Str(Ascii("STALE_HEARTBEAT")))]), Finite(false, [1], 1))
  }

  /** INSERT INTO forge_run_events, for the next run in order; (run, sequence) is unique there. */
  predicate InsertEvent(s: Db, s': Db, t: Id, body: Body) {
    && In(s, t, Writing)
    && var x := s.txns[t];
       && |x.pending| < |x.order|
       && var r := x.order[|x.pending|];
          && r in x.held && Writes(x.request, body)
          && s' == To(s, t, x.(pending := x.pending + [Event(r, x.held[r].workspace, x.held[r].sequence, body)]))
  }

  predicate CanCommit(x: Txn) {
    x.phase.Found? || (x.phase == Writing && |x.pending| == |x.order|)
  }

  predicate Commit(s: Db, s': Db, t: Id) {
    && t in s.txns && CanCommit(s.txns[t])
    && var x := s.txns[t];
       s' == s.(rows := s.rows + x.held, log := s.log + x.pending,
                txns := s.txns[t := x.(phase := Done(if x.phase.Found? then Some(x.phase.event) else None),
                                       held := map[], order := [], pending := [])])
  }

  // ---------------------------------------------------------------- around the writers

  predicate NewRun(s: Db, s': Db, r: Id, workspace: Id) {
    r !in s.rows && s' == s.(rows := s.rows[r := Row(workspace, Runs.Queued, 0, 0, None)])
  }

  predicate Beat(s: Db, s': Db, r: Id, now: int) {
    r in s.rows && Free(s, r) && s' == s.(rows := s.rows[r := s.rows[r].(heartbeat := Some(now))])
  }

  predicate OpenReader(s: Db, s': Db, p: Id, workspace: Id, r: Id) {
    p !in s.readers && s' == s.(readers := s.readers[p := Reader(workspace, r, 0, [])])
  }

  predicate Wanted(e: Event, d: Reader) {
    e.run == d.run && e.workspace == d.workspace && e.sequence > d.cursor
  }

  /** ORDER BY sequence ASC LIMIT limit, of the committed events after the cursor. */
  ghost predicate IsPage(log: seq<Event>, d: Reader, limit: nat, page: seq<Event>) {
    && |page| <= limit
    && (forall k :: 0 <= k < |page| ==> page[k] in log && Wanted(page[k], d))
    && (forall k, l :: 0 <= k < l < |page| ==> page[k].sequence < page[l].sequence)
    && (forall e :: e in log && Wanted(e, d) && e !in page ==>
          |page| == limit && forall k :: 0 <= k < |page| ==> page[k].sequence < e.sequence)
  }

  ghost predicate ReadPage(s: Db, s': Db, p: Id, limit: nat, page: seq<Event>) {
    && p in s.readers && 1 <= limit <= 500
    && var d := s.readers[p];
       && HasRun(s, d.run, d.workspace) && IsPage(s.log, d, limit, page)
       && s' == s.(readers := s.readers[p :=
            d.(got := d.got + page, cursor := if page == [] then d.cursor else page[|page| - 1].sequence)])
  }

  predicate Statement(s: Db, s': Db, t: Id) {
    || Interrupt(s, s', t) || SinkLock(s, s', t) || SinkUpdates(s, s', t) || TransitionUpdates(s, s', t)
    || StaleScan(s, s', t) || StaleScanned(s, s', t) || Commit(s, s', t)
  }

  ghost predicate TxnStep(s: Db, s': Db, t: Id, le: Order) {
    || Statement(s, s', t)
    || (exists q :: Begin(s, s', t, q))
    || (exists i :: SinkFinds(s, s', t, i, le))
    || (exists r :: StaleVisit(s, s', t, r))
    || (exists body :: InsertEvent(s, s', t, body))
  }

  ghost predicate Next(s: Db, s': Db, le: Order) {
    || (exists t :: TxnStep(s, s', t, le))
    || (exists r, w :: NewRun(s, s', r, w))
    || (exists r, now :: Beat(s, s', r, now))
    || (exists p, w, r :: OpenReader(s, s', p, w, r))
    || (exists p, limit, page :: ReadPage(s, s', p, limit, page))
  }

  const EMPTY := Db(map[], [], map[], map[])

  ghost predicate RunFrom(states: seq<Db>, le: Order) {
    && states != [] && states[0] == EMPTY
    && forall i, j :: 0 <= i && j == i + 1 && j < |states| ==> Next(states[i], states[j], le)
  }

  // ---------------------------------------------------------------- one run's events

  /** The events of one run among the first n of the log, in commit order. */
  function Of(log: seq<Event>, n: nat, r: Id): seq<Event>
    requires n <= |log|
  {
    if n == 0 then []
    else Of(log, n - 1, r) + (if log[n - 1].run == r then [log[n - 1]] else [])
  }

  function Events(s: Db, r: Id): seq<Event> {
    Of(s.log, |s.log|, r)
  }

  /** Numbered 1, 2, 3, ... in commit order, all of the run and its workspace. */
  predicate Numbered(es: seq<Event>, r: Id, workspace: Id) {
    forall k :: 0 <= k < |es| ==> es[k].run == r && es[k].workspace == workspace && es[k].sequence == k + 1
  }

  lemma {:induction false} OfAppend(log: seq<Event>, more: seq<Event>, n: nat, r: Id)
    requires n <= |more|
    ensures Of(log + more, |log| + n, r) == Of(log, |log|, r) + Of(more, n, r)
  {
    if n == 0 {
      OfPrefix(log, more, |log|, r);
    } else {
      OfAppend(log, more, n - 1, r);
      assert (log + more)[|log| + n - 1] == more[n - 1];
    }
  }

  lemma {:induction false} OfPrefix(log: seq<Event>, more: seq<Event>, n: nat, r: Id)
    requires n <= |log|
    ensures Of(log + more, n, r) == Of(log, n, r)
  {
    if n > 0 {
      OfPrefix(log, more, n - 1, r);
      assert (log + more)[n - 1] == log[n - 1];
    }
  }

  lemma {:induction false} OfMembers(log: seq<Event>, n: nat, r: Id, e: Event)
    requires n <= |log|
    ensures e in Of(log, n, r) <==> e.run == r && e in log[..n]
  {
    if n > 0 {
      OfMembers(log, n - 1, r, e);
      assert log[..n] == log[..n - 1] + [log[n - 1]];
    }
  }

  lemma {:induction false} OfNone(log: seq<Event>, n: nat, r: Id)
    requires n <= |log| && forall i :: 0 <= i < n ==> log[i].run != r
    ensures Of(log, n, r) == []
  {
    if n > 0 { OfNone(log, n - 1, r); }
  }

  lemma {:induction false} OfOne(log: seq<Event>, n: nat, i: nat, r: Id)
    requires i < n <= |log| && log[i].run == r
    requires forall j :: 0 <= j < n && j != i ==> log[j].run != r
    ensures Of(log, n, r) == [log[i]]
  {
    if i == n - 1 { OfNone(log, n - 1, r); } else { OfOne(log, n - 1, i, r); }
  }
}
