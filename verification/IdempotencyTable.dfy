/**
 * The PostgreSQL idempotency table. A claim is an INSERT that does nothing on conflict and, where
 * it did nothing, a SELECT; a completion is one UPDATE of the pending row. Each statement sees and
 * leaves the committed table, and any number of calls interleave between statements.
 */
module IdempotencyTable {
  import opened Prelude
  import opened Json
  import opened CanonicalJson

  type Id = nat

  /** The unique constraint: workspace, operation, idempotency key. */
  datatype Key = Key(workspace: Id, operation: string, key: string)

  datatype Response = Response(body: Json, resource: Option<Id>)

  /** The request hash is kept as the text it digests; `response` is none while pending. */
  datatype Row = Row(request: Text, response: Option<Response>)

  datatype Answer = Claimed | Pending | Completed(response: Response) | Conflict | Vanished

  datatype Call =
    | Missed(key: Key, request: Json)                     // the INSERT did nothing
    | Answered(key: Key, request: Json, answer: Answer)
    | Completion(key: Key, given: Response, done: bool)

  datatype Db = Db(rows: map<Key, Row>, calls: map<Id, Call>)

  // ---------------------------------------------------------------- steps

  predicate ClaimInsert(s: Db, t: Db, c: Id, key: Key, request: Json, le: Order) {
    && c !in s.calls
    && t == if key in s.rows then s.(calls := s.calls[c := Missed(key, request)])
            else Db(s.rows[key := Row(StableSerialize(request, le), None)], s.calls[c := Answered(key, request, Claimed)])
  }

  function AnswerFor(rows: map<Key, Row>, key: Key, request: Json, le: Order): Answer {
    if key !in rows then Vanished
    else if rows[key].request != StableSerialize(request, le) then Conflict
    else if rows[key].response.Some? then Completed(rows[key].response.value)
    else Pending
  }

  predicate ClaimSelect(s: Db, t: Db, c: Id, le: Order) {
    && c in s.calls && s.calls[c].Missed?
    && var call := s.calls[c];
       t == s.(calls := s.calls[c := Answered(call.key, call.request, AnswerFor(s.rows, call.key, call.request, le))])
  }

  /** jsonb gives the response back with its keys in an order of its own. */
  predicate StoredAs(given: Response, stored: Response) {
    Equivalent(given.body, stored.body) && given.resource == stored.resource
  }

  predicate Complete(s: Db, t: Db, c: Id, key: Key, given: Response, stored: Response) {
    && c !in s.calls && StoredAs(given, stored)
    && t == if key in s.rows && s.rows[key].response.None?
            then Db(s.rows[key := s.rows[key].(response := Some(stored))], s.calls[c := Completion(key, given, true)])
            else s.(calls := s.calls[c := Completion(key, given, false)])
  }

  ghost predicate Next(s: Db, t: Db, le: Order) {
    || (exists c, key, request :: ClaimInsert(s, t, c, key, request, le))
    || (exists c :: ClaimSelect(s, t, c, le))
    || (exists c, key, given, stored :: Complete(s, t, c, key, given, stored))
  }

  const EMPTY := Db(map[], map[])

  ghost predicate RunFrom(states: seq<Db>, le: Order) {
    && states != [] && states[0] == EMPTY
    && forall i, j :: 0 <= i && j == i + 1 && j < |states| ==> Next(states[i], states[j], le)
  }

  // ---------------------------------------------------------------- the invariant

  predicate CallOk(s: Db, c: Id, le: Order) {
    c in s.calls ==>
      match s.calls[c]
      case Missed(key, _) => key in s.rows
      case Answered(key, request, answer) =>
        && key in s.rows
        && (answer == Conflict <==> s.rows[key].request != StableSerialize(request, le))
        && (answer.Completed? ==> s.rows[key].response == Some(answer.response))
        && answer != Vanished
      case Completion(key, given, done) =>
        done ==> key in s.rows && s.rows[key].response.Some? && StoredAs(given, s.rows[key].response.value)
  }

  /** The call that made a key's row, and the call that completed it. */
  predicate Owns(s: Db, c: Id, key: Key) {
    c in s.calls && s.calls[c].Answered? && s.calls[c].key == key && s.calls[c].answer == Claimed
  }

  predicate Finishes(s: Db, c: Id, key: Key) {
    c in s.calls && s.calls[c].Completion? && s.calls[c].key == key && s.calls[c].done
  }

  ghost predicate OneEach(s: Db, c: Id, d: Id) {
    c != d ==> forall key :: !(Owns(s, c, key) && Owns(s, d, key)) && !(Finishes(s, c, key) && Finishes(s, d, key))
  }

  ghost predicate RowOk(s: Db, key: Key) {
    key in s.rows ==>
      && (exists c :: Owns(s, c, key))
      && (s.rows[key].response.Some? ==> exists c :: Finishes(s, c, key))
  }

  ghost predicate Inv(s: Db, le: Order) {
    && (forall c :: CallOk(s, c, le))
    && (forall c, d :: OneEach(s, c, d))
    && (forall key :: RowOk(s, key))
  }

  /** Every step adds or answers one call, and keeps every row's request and response. */
  predicate Grows(s: Db, t: Db, c: Id) {
    && (forall d :: d in s.calls && d != c ==> d in t.calls && t.calls[d] == s.calls[d])
    && (forall d :: d in t.calls && d != c ==> d in s.calls)
    && (forall k :: k in s.rows ==>
          k in t.rows && t.rows[k].request == s.rows[k].request
          && (s.rows[k].response.Some? ==> t.rows[k] == s.rows[k]))
  }

  lemma GrowsKeepsOthers(s: Db, t: Db, c: Id, d: Id, le: Order)
    requires Grows(s, t, c) && CallOk(s, d, le) && d != c
    ensures CallOk(t, d, le)
    ensures forall key :: Owns(t, d, key) == Owns(s, d, key) && Finishes(t, d, key) == Finishes(s, d, key)
  {
  }

  lemma StepKeepsInv(s: Db, t: Db, c: Id, le: Order)
    requires Inv(s, le) && Grows(s, t, c) && CallOk(t, c, le)
    requires c in s.calls ==> s.calls[c].Missed?
    requires forall key :: Owns(t, c, key) <==> key in t.rows && key !in s.rows
    requires forall key :: Finishes(t, c, key) <==>
               key in t.rows && t.rows[key].response.Some? && !(key in s.rows && s.rows[key].response.Some?)
    ensures Inv(t, le)
  {
    forall d ensures CallOk(t, d, le) {
      assert CallOk(s, d, le);
      if d != c { GrowsKeepsOthers(s, t, c, d, le); }
    }
    forall d, e ensures OneEach(t, d, e) {
      assert OneEach(s, d, e) && CallOk(s, d, le) && CallOk(s, e, le);
      if d != c { GrowsKeepsOthers(s, t, c, d, le); }
      if e != c { GrowsKeepsOthers(s, t, c, e, le); }
    }
    forall key ensures RowOk(t, key) {
      assert RowOk(s, key);
      if key in s.rows {
        var d :| Owns(s, d, key);
        assert CallOk(s, d, le);
        assert Owns(t, d, key);
      }
      if key in s.rows && s.rows[key].response.Some? {
        var d :| Finishes(s, d, key);
        assert Finishes(t, d, key);
      }
    }
  }

  lemma ClaimKeepsInv(s: Db, t: Db, c: Id, key: Key, request: Json, le: Order)
    requires Inv(s, le) && ClaimInsert(s, t, c, key, request, le)
    ensures Inv(t, le)
  {
    StepKeepsInv(s, t, c, le);
  }

  lemma SelectKeepsInv(s: Db, t: Db, c: Id, le: Order)
    requires Inv(s, le) && ClaimSelect(s, t, c, le)
    ensures Inv(t, le)
  {
    assert CallOk(s, c, le);
    StepKeepsInv(s, t, c, le);
  }

  lemma CompleteKeepsInv(s: Db, t: Db, c: Id, key: Key, given: Response, stored: Response, le: Order)
    requires Inv(s, le) && Complete(s, t, c, key, given, stored)
    ensures Inv(t, le)
  {
    StepKeepsInv(s, t, c, le);
  }

  lemma NextKeepsInv(s: Db, t: Db, le: Order)
    requires Inv(s, le) && Next(s, t, le)
    ensures Inv(t, le)
  {
    if c, key, request :| ClaimInsert(s, t, c, key, request, le) {
      ClaimKeepsInv(s, t, c, key, request, le);
    } else if c :| ClaimSelect(s, t, c, le) {
      SelectKeepsInv(s, t, c, le);
    } else {
      var c, key, given, stored :| Complete(s, t, c, key, given, stored);
      CompleteKeepsInv(s, t, c, key, given, stored, le);
    }
  }

  lemma {:induction false} EveryRunKeepsInv(states: seq<Db>, le: Order)
    requires RunFrom(states, le)
    ensures Inv(states[|states| - 1], le)
  {
    if |states| > 1 {
      EveryRunKeepsInv(states[..|states| - 1], le);
      NextKeepsInv(states[|states| - 2], states[|states| - 1], le);
    }
  }

  // ---------------------------------------------------------------- results

  /** Of all the claims of a key, at any time, exactly one is told to go ahead. */
  lemma ExactlyOneClaimIsGranted(states: seq<Db>, key: Key, le: Order)
    requires RunFrom(states, le) && key in states[|states| - 1].rows
    ensures var s := states[|states| - 1]; exists c :: Owns(s, c, key) && forall d :: Owns(s, d, key) ==> d == c
  {
    EveryRunKeepsInv(states, le);
    var s := states[|states| - 1];
    assert RowOk(s, key);
    var c :| Owns(s, c, key);
    forall d | Owns(s, d, key) ensures d == c { assert OneEach(s, c, d); }
  }

  /** No row is ever missing after a conflict, in any interleaving with completions. */
  lemma RecordNeverVanishes(states: seq<Db>, c: Id, le: Order)
    requires RunFrom(states, le) && c in states[|states| - 1].calls
    ensures states[|states| - 1].calls[c].Answered? ==> states[|states| - 1].calls[c].answer != Vanished
  {
    EveryRunKeepsInv(states, le);
    assert CallOk(states[|states| - 1], c, le);
  }

  /** A claim is refused exactly when its request is not the granted one up to object key order. */
  lemma RefusedIffOtherRequest(states: seq<Db>, c: Id, owner: Id, le: Order)
    requires RunFrom(states, le) && TotalPreorder(le)
    requires var s := states[|states| - 1];
             && c in s.calls && s.calls[c].Answered? && Owns(s, owner, s.calls[c].key)
             && Valid(s.calls[c].request) && Valid(s.calls[owner].request) && NoTies(s.calls[c].request, le)
    ensures var s := states[|states| - 1];
            s.calls[c].answer == Conflict <==> !Equivalent(s.calls[c].request, s.calls[owner].request)
  {
    EveryRunKeepsInv(states, le);
    var s := states[|states| - 1];
    assert CallOk(s, c, le) && CallOk(s, owner, le);
    SameTextIffEquivalent(s.calls[c].request, s.calls[owner].request, le);
  }

  /** Everyone told of a completion is told the one response that was completed, up to jsonb's key order. */
  lemma ReplaysAgree(states: seq<Db>, c: Id, finisher: Id, le: Order)
    requires RunFrom(states, le)
    requires var s := states[|states| - 1];
             && c in s.calls && s.calls[c].Answered? && s.calls[c].answer.Completed?
             && Finishes(s, finisher, s.calls[c].key)
    ensures var s := states[|states| - 1];
            && s.calls[c].key in s.rows && s.rows[s.calls[c].key].response == Some(s.calls[c].answer.response)
            && Equivalent(s.calls[finisher].given.body, s.calls[c].answer.response.body)
            && s.calls[finisher].given.resource == s.calls[c].answer.response.resource
  {
    EveryRunKeepsInv(states, le);
    assert CallOk(states[|states| - 1], c, le) && CallOk(states[|states| - 1], finisher, le);
  }

  /** A key is completed iff exactly one completion of it has succeeded. */
  lemma CompletedOnce(states: seq<Db>, key: Key, le: Order)
    requires RunFrom(states, le)
    ensures var s := states[|states| - 1];
            && (key in s.rows && s.rows[key].response.Some? <==> exists c :: Finishes(s, c, key))
            && (forall c, d :: Finishes(s, c, key) && Finishes(s, d, key) ==> c == d)
  {
    EveryRunKeepsInv(states, le);
    var s := states[|states| - 1];
    assert RowOk(s, key);
    if c :| Finishes(s, c, key) { assert CallOk(s, c, le); }
    forall c, d | Finishes(s, c, key) && Finishes(s, d, key) ensures c == d { assert OneEach(s, c, d); }
  }

  /** What the SELECT after a conflict answers: refused for another request, else what the row has come to. */
  lemma SelectAnswers(s: Db, t: Db, c: Id, le: Order)
    requires Inv(s, le) && ClaimSelect(s, t, c, le)
    ensures var key, request := s.calls[c].key, s.calls[c].request;
            && t.rows == s.rows && key in s.rows && c in t.calls && t.calls[c].Answered? && t.calls[c].key == key && t.calls[c].request == request
            && var other, response := s.rows[key].request != StableSerialize(request, le), s.rows[key].response;
               && (t.calls[c].answer == Conflict <==> other)
               && (t.calls[c].answer == Pending <==> !other && response == None)
               && (t.calls[c].answer.Completed? <==> !other && response.Some?)
               && (t.calls[c].answer.Completed? ==> response == Some(t.calls[c].answer.response))
  {
    assert CallOk(s, c, le);
  }

  /** Over a run: once a key is completed, every claim of the granted request that looks is given the response. */
  lemma CompletedKeyReplays(states: seq<Db>, t: Db, c: Id, owner: Id, finisher: Id, le: Order)
    requires RunFrom(states, le) && ClaimSelect(states[|states| - 1], t, c, le) && TotalPreorder(le)
    requires var s := states[|states| - 1];
             && Owns(s, owner, s.calls[c].key) && Finishes(s, finisher, s.calls[c].key)
             && Valid(s.calls[c].request) && Valid(s.calls[owner].request) && NoTies(s.calls[c].request, le)
             && Equivalent(s.calls[c].request, s.calls[owner].request)
    ensures var s := states[|states| - 1];
            && t.calls[c].Answered? && t.calls[c].answer.Completed?
            && Equivalent(s.calls[finisher].given.body, t.calls[c].answer.response.body)
            && s.calls[finisher].given.resource == t.calls[c].answer.response.resource
  {
    EveryRunKeepsInv(states, le);
    var s := states[|states| - 1];
    SelectAnswers(s, t, c, le);
    assert CallOk(s, owner, le) && CallOk(s, finisher, le);
    SameTextIffEquivalent(s.calls[c].request, s.calls[owner].request, le);
  }

  /** A claim is granted, a second one told to wait. */
  lemma ClaimedThenPending(key: Key, request: Json, le: Order)
    ensures Reachable(Db(map[key := Row(StableSerialize(request, le), None)],
                         map[0 := Answered(key, request, Claimed), 1 := Answered(key, request, Pending)]), le)
  {
    var text := StableSerialize(request, le);
    var s1 := Db(map[key := Row(text, None)], map[0 := Answered(key, request, Claimed)]);
    EmptyIsReachable(le);
    CanClaim(EMPTY, 0, key, request, le);
    CanClaim(s1, 1, key, request, le);
    CanLook(s1.(calls := map[0 := Answered(key, request, Claimed), 1 := Missed(key, request)]), 1, le);
  }

  /** And then the key is completed. */
  lemma ClaimedPendingCompleted(key: Key, request: Json, response: Response, le: Order)
    ensures Reachable(Db(map[key := Row(StableSerialize(request, le), Some(response))],
                         map[0 := Answered(key, request, Claimed), 1 := Answered(key, request, Pending), 2 := Completion(key, response, true)]), le)
  {
    ClaimedThenPending(key, request, le);
    CanComplete(Db(map[key := Row(StableSerialize(request, le), None)],
                   map[0 := Answered(key, request, Claimed), 1 := Answered(key, request, Pending)]), 2, key, response, le);
  }

  /** From then on the same request is given the response, and another completion fails. */
  lemma CompletedReplays(s: Db, c: Id, d: Id, key: Key, request: Json, given: Response, le: Order)
    requires Reachable(s, le) && c !in s.calls && d !in s.calls && c != d && key in s.rows
    requires s.rows[key].request == StableSerialize(request, le) && s.rows[key].response.Some?
    ensures Reachable(s.(calls := s.calls[c := Answered(key, request, Completed(s.rows[key].response.value))][d := Completion(key, given, false)]), le)
  {
    var s1 := s.(calls := s.calls[c := Missed(key, request)]);
    var s2 := s.(calls := s.calls[c := Answered(key, request, Completed(s.rows[key].response.value))]);
    CanClaim(s, c, key, request, le);
    CanLook(s1, c, le);
    assert s1.calls[c := Answered(key, request, Completed(s.rows[key].response.value))] == s2.calls;
    CanComplete(s2, d, key, given, le);
  }

  ghost predicate Reachable(s: Db, le: Order) {
    exists states :: RunFrom(states, le) && states[|states| - 1] == s
  }

  lemma EmptyIsReachable(le: Order)
    ensures Reachable(EMPTY, le)
  {
    assert RunFrom([EMPTY], le) && [EMPTY][|[EMPTY]| - 1] == EMPTY;
  }

  lemma Reach(s: Db, t: Db, le: Order)
    requires Reachable(s, le) && Next(s, t, le)
    ensures Reachable(t, le)
  {
    var states :| RunFrom(states, le) && states[|states| - 1] == s;
    var longer := states + [t];
    assert RunFrom(longer, le) && longer[|longer| - 1] == t;
  }

  lemma CanClaim(s: Db, c: Id, key: Key, request: Json, le: Order)
    requires Reachable(s, le) && c !in s.calls
    ensures Reachable(if key in s.rows then s.(calls := s.calls[c := Missed(key, request)])
                      else Db(s.rows[key := Row(StableSerialize(request, le), None)], s.calls[c := Answered(key, request, Claimed)]), le)
  {
    var t := if key in s.rows then s.(calls := s.calls[c := Missed(key, request)])
             else Db(s.rows[key := Row(StableSerialize(request, le), None)], s.calls[c := Answered(key, request, Claimed)]);
    assert ClaimInsert(s, t, c, key, request, le);
    Reach(s, t, le);
  }

  lemma CanLook(s: Db, c: Id, le: Order)
    requires Reachable(s, le) && c in s.calls && s.calls[c].Missed? && s.calls[c].key in s.rows
    ensures var row := s.rows[s.calls[c].key];
            var answer := if row.request != StableSerialize(s.calls[c].request, le) then Conflict
                          else if row.response.Some? then Completed(row.response.value) else Pending;
            Reachable(s.(calls := s.calls[c := Answered(s.calls[c].key, s.calls[c].request, answer)]), le)
  {
    var call := s.calls[c];
    var t := s.(calls := s.calls[c := Answered(call.key, call.request, AnswerFor(s.rows, call.key, call.request, le))]);
    assert ClaimSelect(s, t, c, le);
    Reach(s, t, le);
  }

  lemma CanComplete(s: Db, c: Id, key: Key, response: Response, le: Order)
    requires Reachable(s, le) && c !in s.calls
    ensures Reachable(if key in s.rows && s.rows[key].response == None
                      then Db(s.rows[key := Row(s.rows[key].request, Some(response))], s.calls[c := Completion(key, response, true)])
                      else s.(calls := s.calls[c := Completion(key, response, false)]), le)
  {
    EquivalentReflexive(response.body);
    var t := if key in s.rows && s.rows[key].response == None
             then Db(s.rows[key := Row(s.rows[key].request, Some(response))], s.calls[c := Completion(key, response, true)])
             else s.(calls := s.calls[c := Completion(key, response, false)]);
    assert Complete(s, t, c, key, response, response);
    Reach(s, t, le);
  }
}
