/**
 * executeIdempotent: calls that share a key share one attempt, while it runs and after it has
 * succeeded; a failed attempt's entry is removed by the call that started it. A step here is what
 * a call does between two awaits.
 */
module Idempotency {

  type Id = nat

  /** A request hash, taken as injective on canonical request texts. */
  type Hash = nat

  /** `${workspaceId}:${operation}:${idempotencyKey}` */
  type Key = string

  datatype Attempt = Attempt(key: Key, hash: Hash, status: Status)

  datatype Status = Pending | Succeeded(result: int) | FailedWith(error: int)

  datatype Entry = Entry(hash: Hash, attempt: Id)

  datatype Failure = DifferentRequest | Raised(error: int)

  datatype Call =
    | Waiting(key: Key, hash: Hash, attempt: Id, starter: bool)
    | Returned(key: Key, hash: Hash, attempt: Id, result: int)
    | Threw(key: Key, failure: Failure)

  /** The store's map, the promises it holds, and the calls under way or over. */
  datatype Sys = Sys(entries: map<Key, Entry>, attempts: map<Id, Attempt>, calls: map<Id, Call>)

  // ---------------------------------------------------------------- steps

  /** A call up to its await: it joins the live attempt, is refused, or starts an attempt `a`. */
  predicate Enter(s: Sys, t: Sys, c: Id, key: Key, hash: Hash, a: Id) {
    && c !in s.calls && a !in s.attempts
    && t == if key in s.entries then
              if s.entries[key].hash != hash then s.(calls := s.calls[c := Threw(key, DifferentRequest)])
              else s.(calls := s.calls[c := Waiting(key, hash, s.entries[key].attempt, false)])
            else
              s.(entries := s.entries[key := Entry(hash, a)],
                 attempts := s.attempts[a := Attempt(key, hash, Pending)],
                 calls := s.calls[c := Waiting(key, hash, a, true)])
  }

  /** The attempt's execute callback settles. */
  predicate Settle(s: Sys, t: Sys, a: Id, status: Status) {
    && a in s.attempts && s.attempts[a].status.Pending? && !status.Pending?
    && t == s.(attempts := s.attempts[a := s.attempts[a].(status := status)])
  }

  /** A waiting call goes on once its attempt is settled; a failure's starter removes the entry. */
  predicate Resume(s: Sys, t: Sys, c: Id) {
    && c in s.calls && s.calls[c].Waiting? && s.calls[c].attempt in s.attempts
    && var call := s.calls[c];
       match s.attempts[call.attempt].status
       case Pending => false
       case Succeeded(result) => t == s.(calls := s.calls[c := Returned(call.key, call.hash, call.attempt, result)])
       case FailedWith(error) =>
         t == s.(calls := s.calls[c := Threw(call.key, Raised(error))],
                 entries := if call.starter then s.entries - {call.key} else s.entries)
  }

  ghost predicate Next(s: Sys, t: Sys) {
    || (exists c, key, hash, a :: Enter(s, t, c, key, hash, a))
    || (exists a, status :: Settle(s, t, a, status))
    || (exists c :: Resume(s, t, c))
  }

  const START := Sys(map[], map[], map[])

  ghost predicate RunFrom(states: seq<Sys>) {
    && states != [] && states[0] == START
    && forall i, j :: 0 <= i && j == i + 1 && j < |states| ==> Next(states[i], states[j])
  }

  // ---------------------------------------------------------------- the invariant

  /** An entry is for the request of its attempt. */
  predicate EntryOk(s: Sys, key: Key) {
    key in s.entries ==>
      && s.entries[key].attempt in s.attempts
      && s.attempts[s.entries[key].attempt].key == key && s.attempts[s.entries[key].attempt].hash == s.entries[key].hash
  }

  predicate InPlace(s: Sys, a: Id) {
    a in s.attempts && s.attempts[a].key in s.entries && s.entries[s.attempts[a].key].attempt == a
  }

  /** A pending or successful attempt is its key's entry; so is a failed one until its starter has resumed. */
  predicate AttemptOk(s: Sys, a: Id) {
    a in s.attempts && !s.attempts[a].status.FailedWith? ==> InPlace(s, a)
  }

  predicate CallOk(s: Sys, c: Id) {
    c in s.calls ==>
      match s.calls[c]
      case Waiting(key, hash, a, starter) =>
        a in s.attempts && s.attempts[a].key == key && s.attempts[a].hash == hash && (starter ==> InPlace(s, a))
      case Returned(key, hash, a, result) =>
        a in s.attempts && s.attempts[a].key == key && s.attempts[a].hash == hash && s.attempts[a].status == Succeeded(result)
      case Threw(_, _) => true
  }

  predicate Starts(s: Sys, c: Id, a: Id) {
    c in s.calls && s.calls[c].Waiting? && s.calls[c].starter && s.calls[c].attempt == a
  }

  ghost predicate OneStarter(s: Sys, c: Id, d: Id) {
    c != d ==> forall a :: Starts(s, c, a) ==> !Starts(s, d, a)
  }

  ghost predicate Inv(s: Sys) {
    && (forall key :: EntryOk(s, key))
    && (forall a :: AttemptOk(s, a))
    && (forall c :: CallOk(s, c))
    && (forall c, d :: OneStarter(s, c, d))
  }

  lemma EnterKeepsInv(s: Sys, t: Sys, c: Id, key: Key, hash: Hash, a: Id)
    requires Inv(s) && Enter(s, t, c, key, hash, a)
    ensures Inv(t)
  {
    assert EntryOk(s, key);
    forall k ensures EntryOk(t, k) { assert EntryOk(s, k); }
    forall b ensures AttemptOk(t, b) { assert AttemptOk(s, b); }
    forall d ensures CallOk(t, d) { assert CallOk(s, d); }
    forall d, e ensures OneStarter(t, d, e) {
      assert OneStarter(s, d, e) && CallOk(s, d) && CallOk(s, e);
      assert forall b :: (d != c ==> Starts(t, d, b) == Starts(s, d, b)) && (e != c ==> Starts(t, e, b) == Starts(s, e, b));
    }
  }

  lemma SettleKeepsInv(s: Sys, t: Sys, a: Id, status: Status)
    requires Inv(s) && Settle(s, t, a, status)
    ensures Inv(t)
  {
    forall k ensures EntryOk(t, k) { assert EntryOk(s, k); }
    forall b ensures AttemptOk(t, b) { assert AttemptOk(s, b); }
    forall d ensures CallOk(t, d) { assert CallOk(s, d); }
    forall d, e ensures OneStarter(t, d, e) {
      assert OneStarter(s, d, e);
      assert forall b :: Starts(t, d, b) == Starts(s, d, b) && Starts(t, e, b) == Starts(s, e, b);
    }
  }

  lemma ResumeKeepsInv(s: Sys, t: Sys, c: Id)
    requires Inv(s) && Resume(s, t, c)
    ensures Inv(t)
  {
    assert CallOk(s, c);
    forall k ensures EntryOk(t, k) { assert EntryOk(s, k); }
    forall b ensures AttemptOk(t, b) { assert AttemptOk(s, b); }
    forall d ensures CallOk(t, d) {
      assert CallOk(s, d) && OneStarter(s, c, d);
      assert Starts(s, c, s.calls[c].attempt) ==> !Starts(s, d, s.calls[c].attempt) || c == d;
    }
    forall d, e ensures OneStarter(t, d, e) {
      assert OneStarter(s, d, e);
      assert forall b :: (Starts(t, d, b) ==> Starts(s, d, b)) && (Starts(t, e, b) ==> Starts(s, e, b));
    }
  }

  lemma NextKeepsInv(s: Sys, t: Sys)
    requires Inv(s) && Next(s, t)
    ensures Inv(t)
  {
    if c, key, hash, a :| Enter(s, t, c, key, hash, a) { EnterKeepsInv(s, t, c, key, hash, a); }
    else if a, status :| Settle(s, t, a, status) { SettleKeepsInv(s, t, a, status); }
    else {
      var c :| Resume(s, t, c);
      ResumeKeepsInv(s, t, c);
    }
  }

  lemma {:induction false} EveryRunKeepsInv(states: seq<Sys>)
    requires RunFrom(states)
    ensures Inv(states[|states| - 1])
  {
    if |states| > 1 {
      EveryRunKeepsInv(states[..|states| - 1]);
      NextKeepsInv(states[|states| - 2], states[|states| - 1]);
    }
  }

  // ---------------------------------------------------------------- results

  /** For each key at most one attempt ever succeeds. */
  lemma AtMostOneSuccess(states: seq<Sys>, a: Id, b: Id)
    requires RunFrom(states)
    requires var s := states[|states| - 1];
             && a in s.attempts && b in s.attempts && s.attempts[a].key == s.attempts[b].key
             && s.attempts[a].status.Succeeded? && s.attempts[b].status.Succeeded?
    ensures a == b
  {
    EveryRunKeepsInv(states);
    var s := states[|states| - 1];
    assert AttemptOk(s, a) && AttemptOk(s, b);
  }

  /** Nor do two attempts of one key ever run at once. */
  lemma AtMostOnePending(states: seq<Sys>, a: Id, b: Id)
    requires RunFrom(states)
    requires var s := states[|states| - 1];
             && a in s.attempts && b in s.attempts && s.attempts[a].key == s.attempts[b].key
             && !s.attempts[a].status.FailedWith? && !s.attempts[b].status.FailedWith?
    ensures a == b
  {
    EveryRunKeepsInv(states);
    var s := states[|states| - 1];
    assert AttemptOk(s, a) && AttemptOk(s, b);
  }

  /** Every call that returns on a key returns the same result, of the same request. */
  lemma ReturnersAgree(states: seq<Sys>, c: Id, d: Id)
    requires RunFrom(states)
    requires var s := states[|states| - 1];
             && c in s.calls && d in s.calls && s.calls[c].Returned? && s.calls[d].Returned? && s.calls[c].key == s.calls[d].key
    ensures var s := states[|states| - 1];
            && s.calls[c].result == s.calls[d].result && s.calls[c].hash == s.calls[d].hash
            && s.calls[c].attempt == s.calls[d].attempt
  {
    EveryRunKeepsInv(states);
    var s := states[|states| - 1];
    assert CallOk(s, c) && CallOk(s, d);
    AtMostOneSuccess(states, s.calls[c].attempt, s.calls[d].attempt);
  }

  /** A failed attempt's cleanup removes its own entry, never a newer attempt's. */
  lemma CleanupRemovesItsOwn(states: seq<Sys>, t: Sys, c: Id)
    requires RunFrom(states) && Resume(states[|states| - 1], t, c)
    requires var s := states[|states| - 1]; s.calls[c].starter && t.entries != s.entries
    ensures var s := states[|states| - 1];
            && s.calls[c].key in s.entries && s.entries[s.calls[c].key] == Entry(s.calls[c].hash, s.calls[c].attempt)
            && t.entries == s.entries - {s.calls[c].key}
  {
    EveryRunKeepsInv(states);
    var s := states[|states| - 1];
    assert CallOk(s, c) && EntryOk(s, s.calls[c].key);
  }

  /** While a key is live a different request under it is refused, and nothing else changes. */
  lemma DifferentRequestIsRefused(s: Sys, t: Sys, c: Id, key: Key, hash: Hash, a: Id)
    requires Inv(s) && Enter(s, t, c, key, hash, a)
    requires exists b :: b in s.attempts && s.attempts[b].key == key && s.attempts[b].hash != hash && !s.attempts[b].status.FailedWith?
    ensures t.calls[c] == Threw(key, DifferentRequest) && t.entries == s.entries && t.attempts == s.attempts
  {
    var b :| b in s.attempts && s.attempts[b].key == key && s.attempts[b].hash != hash && !s.attempts[b].status.FailedWith?;
    assert AttemptOk(s, b) && EntryOk(s, key);
  }

  lemma StepKeepsSuccess(s: Sys, t: Sys, a: Id)
    requires Inv(s) && Next(s, t) && a in s.attempts && s.attempts[a].status.Succeeded?
    ensures a in t.attempts && t.attempts[a] == s.attempts[a]
    ensures forall b :: b in t.attempts && b !in s.attempts ==> t.attempts[b].key != s.attempts[a].key
  {
    assert AttemptOk(s, a);
  }

  /** A stored success is never replaced: its key keeps that entry, and no later attempt is started on it. */
  lemma {:induction false} SuccessIsNeverReplaced(states: seq<Sys>, a: Id, k: nat, j: nat)
    requires RunFrom(states) && k <= j < |states| && a in states[k].attempts && states[k].attempts[a].status.Succeeded?
    ensures a in states[j].attempts && states[j].attempts[a] == states[k].attempts[a] && InPlace(states[j], a)
    ensures forall b :: b in states[j].attempts && b !in states[k].attempts ==> states[j].attempts[b].key != states[k].attempts[a].key
  {
    assert RunFrom(states[..j + 1]);
    EveryRunKeepsInv(states[..j + 1]);
    if k < j {
      SuccessIsNeverReplaced(states, a, k, j - 1);
      assert RunFrom(states[..j]);
      EveryRunKeepsInv(states[..j]);
      StepKeepsSuccess(states[j - 1], states[j], a);
      StepKeepsAttemptKeys(states[j - 1], states[j]);
    }
    assert AttemptOk(states[j], a);
  }

  lemma StepKeepsAttemptKeys(s: Sys, t: Sys)
    requires Next(s, t)
    ensures forall b :: b in s.attempts ==> b in t.attempts && t.attempts[b].key == s.attempts[b].key
  {
  }

  // ---------------------------------------------------------------- what a call is answered

  /** A call of the request its key is live for joins the attempt there is: nothing is started, nothing refused. */
  lemma SameRequestJoins(states: seq<Sys>, t: Sys, c: Id, key: Key, hash: Hash, a: Id, b: Id)
    requires RunFrom(states) && Enter(states[|states| - 1], t, c, key, hash, a)
    requires var s := states[|states| - 1];
             b in s.attempts && s.attempts[b].key == key && s.attempts[b].hash == hash && !s.attempts[b].status.FailedWith?
    ensures var s := states[|states| - 1];
            t.entries == s.entries && t.attempts == s.attempts && t.calls == s.calls[c := Waiting(key, hash, b, false)]
  {
    EveryRunKeepsInv(states);
    var s := states[|states| - 1];
    assert AttemptOk(s, b) && EntryOk(s, key);
  }

  /** A call that finds its key free starts an attempt of its own. */
  lemma FirstRequestStarts(s: Sys, t: Sys, c: Id, key: Key, hash: Hash, a: Id)
    requires Enter(s, t, c, key, hash, a) && key !in s.entries
    ensures t.attempts == s.attempts[a := Attempt(key, hash, Pending)] && t.entries == s.entries[key := Entry(hash, a)]
    ensures t.calls == s.calls[c := Waiting(key, hash, a, true)]
  {
  }

  /** Whoever waits on an attempt that has succeeded is given its result, and never anything else. */
  lemma {:induction false} WaiterGetsTheResult(states: seq<Sys>, c: Id, k: nat, j: nat)
    requires RunFrom(states) && k <= j < |states| && c in states[k].calls && states[k].calls[c].Waiting?
    requires var a := states[k].calls[c].attempt; a in states[k].attempts && states[k].attempts[a].status.Succeeded?
    ensures var call := states[k].calls[c];
            && c in states[j].calls
            && (states[j].calls[c] == call
                || states[j].calls[c] == Returned(call.key, call.hash, call.attempt, states[k].attempts[call.attempt].status.result))
    ensures states[k].calls[c].attempt in states[j].attempts
            && states[j].attempts[states[k].calls[c].attempt] == states[k].attempts[states[k].calls[c].attempt]
  {
    if k < j {
      WaiterGetsTheResult(states, c, k, j - 1);
      StepKeepsAnsweredCall(states[j - 1], states[j], c, states[k].calls[c].attempt);
    }
  }

  lemma StepKeepsAnsweredCall(s: Sys, t: Sys, c: Id, a: Id)
    requires Next(s, t) && c in s.calls && a in s.attempts && s.attempts[a].status.Succeeded?
    requires (s.calls[c].Waiting? && s.calls[c].attempt == a) || s.calls[c].Returned?
    ensures a in t.attempts && t.attempts[a] == s.attempts[a] && c in t.calls
    ensures s.calls[c].Waiting? ==>
              t.calls[c] == s.calls[c] || t.calls[c] == Returned(s.calls[c].key, s.calls[c].hash, a, s.attempts[a].status.result)
    ensures s.calls[c].Returned? ==> t.calls[c] == s.calls[c]
  {
  }

  /** A later call of a request that has succeeded is waiting for that result or has returned it. */
  lemma LaterCallsGetTheResult(states: seq<Sys>, c: Id, key: Key, hash: Hash, a: Id, b: Id, k: nat, j: nat)
    requires RunFrom(states) && k + 1 <= j < |states| && Enter(states[k], states[k + 1], c, key, hash, a)
    requires b in states[k].attempts && states[k].attempts[b].key == key && states[k].attempts[b].hash == hash
    requires states[k].attempts[b].status.Succeeded?
    ensures c in states[j].calls
    ensures states[j].calls[c] == Waiting(key, hash, b, false)
            || states[j].calls[c] == Returned(key, hash, b, states[k].attempts[b].status.result)
  {
    assert RunFrom(states[..k + 1]);
    SameRequestJoins(states[..k + 1], states[k + 1], c, key, hash, a, b);
    WaiterGetsTheResult(states, c, k + 1, j);
  }

  /** What a settled attempt's waiter is told, and what becomes of the entry. */
  lemma ResumeAnswers(s: Sys, t: Sys, c: Id)
    requires Resume(s, t, c)
    ensures var call := s.calls[c];
            match s.attempts[call.attempt].status
            case Pending => false
            case Succeeded(result) => t.calls[c] == Returned(call.key, call.hash, call.attempt, result) && t.entries == s.entries
            case FailedWith(error) =>
              && t.calls[c] == Threw(call.key, Raised(error))
              && (forall key :: key in t.entries <==> key in s.entries && !(call.starter && key == call.key))
              && (forall key :: key in t.entries ==> t.entries[key] == s.entries[key])
    ensures t.attempts == s.attempts && forall d :: d != c ==> (d in t.calls <==> d in s.calls) && (d in s.calls ==> t.calls[d] == s.calls[d])
  {
  }

  /** An attempt that fails, and the same request again: the first caller is told the error, the second the result. */
  lemma FailedThenRetried(key: Key, hash: Hash, error: int, result: int)
    ensures Reachable(Sys(map[key := Entry(hash, 1)],
                          map[0 := Attempt(key, hash, FailedWith(error)), 1 := Attempt(key, hash, Succeeded(result))],
                          map[0 := Threw(key, Raised(error)), 1 := Returned(key, hash, 1, result)]))
  {
    var failed, done := Attempt(key, hash, FailedWith(error)), Attempt(key, hash, Succeeded(result));
    var s1 := Sys(map[key := Entry(hash, 0)], map[0 := Attempt(key, hash, Pending)], map[0 := Waiting(key, hash, 0, true)]);
    var s2 := s1.(attempts := map[0 := failed]);
    var s3 := Sys(map[], map[0 := failed], map[0 := Threw(key, Raised(error))]);
    var s4 := Sys(map[key := Entry(hash, 1)], map[0 := failed, 1 := Attempt(key, hash, Pending)],
                  map[0 := Threw(key, Raised(error)), 1 := Waiting(key, hash, 1, true)]);
    var s5 := s4.(attempts := map[0 := failed, 1 := done]);
    var s6 := s5.(calls := map[0 := Threw(key, Raised(error)), 1 := Returned(key, hash, 1, result)]);
    FirstAttemptFails(s1, s2, s3, key, hash, error);
    SecondAttemptSucceeds(s3, s4, s5, s6, key, hash, error, result);
    StartIsReachable();
    Reach(START, s1);
    Reach(s1, s2);
    Reach(s2, s3);
    Reach(s3, s4);
    Reach(s4, s5);
    Reach(s5, s6);
  }

  ghost predicate Reachable(s: Sys) {
    exists states :: RunFrom(states) && states[|states| - 1] == s
  }

  lemma StartIsReachable()
    ensures Reachable(START)
  {
    assert RunFrom([START]) && [START][|[START]| - 1] == START;
  }

  lemma Reach(s: Sys, t: Sys)
    requires Reachable(s) && Next(s, t)
    ensures Reachable(t)
  {
    var states :| RunFrom(states) && states[|states| - 1] == s;
    var longer := states + [t];
    assert RunFrom(longer) && longer[|longer| - 1] == t;
  }

  lemma FirstAttemptFails(s1: Sys, s2: Sys, s3: Sys, key: Key, hash: Hash, error: int)
    requires s1 == Sys(map[key := Entry(hash, 0)], map[0 := Attempt(key, hash, Pending)], map[0 := Waiting(key, hash, 0, true)])
    requires s2 == s1.(attempts := map[0 := Attempt(key, hash, FailedWith(error))])
    requires s3 == Sys(map[], s2.attempts, map[0 := Threw(key, Raised(error))])
    ensures Next(START, s1) && Next(s1, s2) && Next(s2, s3)
  {
    assert Enter(START, s1, 0, key, hash, 0);
    assert Settle(s1, s2, 0, FailedWith(error));
    assert s2.entries - {key} == map[];
    assert Resume(s2, s3, 0);
  }

  lemma SecondAttemptSucceeds(s3: Sys, s4: Sys, s5: Sys, s6: Sys, key: Key, hash: Hash, error: int, result: int)
    requires s3 == Sys(map[], map[0 := Attempt(key, hash, FailedWith(error))], map[0 := Threw(key, Raised(error))])
    requires s4 == Sys(map[key := Entry(hash, 1)], map[0 := Attempt(key, hash, FailedWith(error)), 1 := Attempt(key, hash, Pending)],
                       map[0 := Threw(key, Raised(error)), 1 := Waiting(key, hash, 1, true)])
    requires s5 == s4.(attempts := map[0 := Attempt(key, hash, FailedWith(error)), 1 := Attempt(key, hash, Succeeded(result))])
    requires s6 == s5.(calls := map[0 := Threw(key, Raised(error)), 1 := Returned(key, hash, 1, result)])
    ensures Next(s3, s4) && Next(s4, s5) && Next(s5, s6)
  {
    assert Enter(s3, s4, 1, key, hash, 1);
    assert Settle(s4, s5, 1, Succeeded(result));
    assert Resume(s5, s6, 1);
  }

  // ---------------------------------------------------------------- keys

  predicate NoColon(s: string) {
    forall i :: 0 <= i < |s| ==> s[i] != ':'
  }

  function StoreKey(workspace: string, operation: string, key: string): Key {
    workspace + ":" + operation + ":" + key
  }

  lemma FirstColon(a: string, x: string, b: string, y: string)
    requires NoColon(a) && NoColon(b) && a + ":" + x == b + ":" + y
    ensures a == b && x == y
  {
    var s, t := a + ":" + x, b + ":" + y;
    assert s[|a|] == ':' && t[|b|] == ':';
    assert forall i :: 0 <= i < |a| ==> s[i] == a[i];
    assert forall i :: 0 <= i < |b| ==> t[i] == b[i];
    assert |a| == |b|;
    assert a == s[..|a|] && b == t[..|b|] && x == s[|a| + 1..] && y == t[|b| + 1..];
  }

  /** Workspaces and operations contain no colon, so no two of their keys collide, whatever the caller's key. */
  lemma StoreKeysAreDistinct(w: string, o: string, k: string, w': string, o': string, k': string)
    requires NoColon(w) && NoColon(o) && NoColon(w') && NoColon(o') && StoreKey(w, o, k) == StoreKey(w', o', k')
    ensures w == w' && o == o' && k == k'
  {
    assert StoreKey(w, o, k) == w + ":" + (o + ":" + k) && StoreKey(w', o', k') == w' + ":" + (o' + ":" + k');
    FirstColon(w, o + ":" + k, w', o' + ":" + k');
    FirstColon(o, k, o', k');
  }

  function Colons(s: string): nat {
    if s == "" then 0 else (if s[0] == ':' then 1 else 0) + Colons(s[1..])
  }

  lemma {:induction false} ColonsAppend(s: string, t: string)
    ensures Colons(s + t) == Colons(s) + Colons(t)
  {
    if s == "" {
      assert s + t == t;
    } else {
      assert (s + t)[1..] == s[1..] + t;
      ColonsAppend(s[1..], t);
    }
  }

  lemma {:induction false} NoColonsIffNone(s: string)
    ensures Colons(s) == 0 <==> NoColon(s)
  {
    if s != "" {
      NoColonsIffNone(s[1..]);
      assert NoColon(s) <==> s[0] != ':' && NoColon(s[1..]) by {
        assert forall i :: 1 <= i < |s| ==> s[i] == s[1..][i - 1];
      }
    }
  }

  lemma ColonsOfKey(w: string, o: string, k: string)
    ensures Colons(StoreKey(w, o, k)) == Colons(w) + Colons(o) + Colons(k) + 2
  {
    assert Colons(":") == 1;
    ColonsAppend(w, ":");
    ColonsAppend(w + ":", o);
    ColonsAppend(w + ":" + o, ":");
    ColonsAppend(w + ":" + o + ":", k);
  }

  ghost predicate Shared(w: string, o: string, k: string) {
    exists w', o', k' :: StoreKey(w', o', k') == StoreKey(w, o, k) && (w', o', k') != (w, o, k)
  }

  /** Of all texts, three share their store key with three others exactly when a colon stands in one of them. */
  lemma KeyIsSharedIffColon(w: string, o: string, k: string)
    ensures Shared(w, o, k) <==> !(NoColon(w) && NoColon(o) && NoColon(k))
  {
    if NoColon(w) && NoColon(o) && NoColon(k) {
      forall w', o', k' | StoreKey(w', o', k') == StoreKey(w, o, k) ensures (w', o', k') == (w, o, k) {
        ColonsOfKey(w, o, k);
        ColonsOfKey(w', o', k');
        NoColonsIffNone(w);
        NoColonsIffNone(o);
        NoColonsIffNone(k);
        NoColonsIffNone(w');
        NoColonsIffNone(o');
        StoreKeysAreDistinct(w, o, k, w', o', k');
      }
    } else if i :| 0 <= i < |w| && w[i] == ':' {
      assert w == w[..i] + ":" + w[i + 1..];
      assert StoreKey(w[..i], w[i + 1..], o + ":" + k) == StoreKey(w, o, k);
      assert w[..i] != w;
    } else if i :| 0 <= i < |o| && o[i] == ':' {
      assert o == o[..i] + ":" + o[i + 1..];
      assert StoreKey(w, o[..i], o[i + 1..] + ":" + k) == StoreKey(w, o, k);
      assert o[..i] != o;
    } else {
      var i :| 0 <= i < |k| && k[i] == ':';
      assert k == k[..i] + ":" + k[i + 1..];
      assert StoreKey(w, o + ":" + k[..i], k[i + 1..]) == StoreKey(w, o, k);
      assert o + ":" + k[..i] != o by { assert |o + ":" + k[..i]| > |o|; }
    }
  }

  /** Two operations of two workspaces under one key. */
  lemma ColonMovesBetweenParts(k: string)
    ensures StoreKey("ws:run", "start", k) == StoreKey("ws", "run:start", k)
  {
    assert "ws:run" + ":" + "start" == "ws" + ":" + "run:start";
    assert StoreKey("ws:run", "start", k) == "ws:run" + ":" + "start" + (":" + k);
    assert StoreKey("ws", "run:start", k) == "ws" + ":" + "run:start" + (":" + k);
  }
}
