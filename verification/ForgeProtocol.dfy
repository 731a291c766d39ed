/**
 * Runs executed, cancelled, reviewed and published on one in-memory store, interleaved at their
 * awaits. executeRun and publishRun go on after an await with their own copy of the run, which may
 * by then be stale; nothing here assumes that it is not.
 */
module ForgeProtocol {
  import opened Prelude
  import opened Runs
  import opened ForgeStore

  /** Where a call stands between two of its awaits. */
  datatype Proc =
    | Executing(run: Id, copy: Run)        // executeRun, with its local copy
    | AwaitingProvider(run: Id, copy: Run) // publishRun, the source provider called
    | Ended

  /** `calls` counts, per run, the calls of the source provider. */
  datatype Sys = Sys(store: Store, procs: map<Id, Proc>, calls: multiset<Id>)

  function At(s: Sys, p: Id, store: Store, proc: Proc): Sys {
    s.(store := store, procs := s.procs[p := proc])
  }

  predicate NewRun(s: Sys, t: Sys, id: Id, workspace: Id) {
    id !in s.store.runs && t == s.(store := SaveRun(s.store, id, Run(workspace, Queued, None)))
  }

  predicate Append(s: Sys, t: Sys, id: Id, v: Validation, e: Evidence) {
    t == s.(store := SaveValidation(s.store, id, v)) || t == s.(store := SaveEvidence(s.store, id, e))
  }

  predicate Resolve(s: Sys, t: Sys, workspace: Id, id: Id, decision: Outcome) {
    var r := ResolveReview(s.store, workspace, id, decision);
    r.Ok? && t == s.(store := r.value)
  }

  predicate Cancel(s: Sys, t: Sys, workspace: Id, id: Id) {
    var r := CancelRun(s.store, workspace, id);
    r.Ok? && t == s.(store := r.value)
  }

  /** executeRun up to its first await. */
  predicate StartExecution(s: Sys, t: Sys, p: Id, id: Id) {
    && p !in s.procs && id in s.store.runs && s.store.runs[id].state == Queued
    && var copy := s.store.runs[id].(state := Provisioning);
       t == At(s, p, SaveRun(s.store, id, copy), Executing(id, copy))
  }

  predicate Phase(from: RunState, to: RunState) {
    || (from == Provisioning && to == Running)
    || (from == Running && to == Validating)
    || (from == Validating && to == AwaitingReview)
    || (from in {Provisioning, Running, Validating, AwaitingReview} && to == Failed)
  }

  /** Its next stretch: the copy moves on and overwrites the stored run; failing ends the call. */
  predicate ContinueExecution(s: Sys, t: Sys, p: Id, to: RunState) {
    && p in s.procs && s.procs[p].Executing? && Phase(s.procs[p].copy.state, to)
    && var x := s.procs[p];
       var copy := x.copy.(state := to);
       t == At(s, p, SaveRun(s.store, x.run, copy), if to == Failed then Ended else Executing(x.run, copy))
  }

  /** The sandbox is destroyed after the run awaits its review, and executeRun returns. */
  predicate EndExecution(s: Sys, t: Sys, p: Id) {
    && p in s.procs && s.procs[p].Executing? && s.procs[p].copy.state == AwaitingReview
    && t == At(s, p, s.store, Ended)
  }

  /** publishRun up to and including its call of the provider, under whatever idempotency key. */
  predicate StartPublication(s: Sys, t: Sys, p: Id, workspace: Id, id: Id) {
    && p !in s.procs && BeginPublication(s.store, workspace, id).Ok?
    && var next := BeginPublication(s.store, workspace, id).value;
       t == At(s, p, next, AwaitingProvider(id, next.runs[id])).(calls := s.calls + multiset{id})
  }

  predicate ProviderAnswers(s: Sys, t: Sys, p: Id, publication: Id) {
    && p in s.procs && s.procs[p].AwaitingProvider?
    && t == At(s, p, EndPublication(s.store, s.procs[p].run, s.procs[p].copy, publication), Ended)
  }

  predicate ProviderFails(s: Sys, t: Sys, p: Id) {
    p in s.procs && s.procs[p].AwaitingProvider? && t == At(s, p, s.store, Ended)
  }

  ghost predicate Next(s: Sys, t: Sys) {
    || (exists id, w :: NewRun(s, t, id, w))
    || (exists id, v, e :: Append(s, t, id, v, e))
    || (exists w, id, d :: Resolve(s, t, w, id, d))
    || (exists w, id :: Cancel(s, t, w, id))
    || (exists p, id :: StartExecution(s, t, p, id))
    || (exists p, to :: ContinueExecution(s, t, p, to))
    || (exists p :: EndExecution(s, t, p))
    || (exists p, w, id :: StartPublication(s, t, p, w, id))
    || (exists p, publication :: ProviderAnswers(s, t, p, publication))
    || (exists p :: ProviderFails(s, t, p))
  }

  const START := Sys(NO_RUNS, map[], multiset{})

  ghost predicate RunFrom(states: seq<Sys>) {
    && states != [] && states[0] == START
    && forall i, j :: 0 <= i && j == i + 1 && j < |states| ==> Next(states[i], states[j])
  }

  // ---------------------------------------------------------------- the invariant

  /** An execution that has not reached its review yet: the only way a run can come to await one. */
  predicate Early(s: Sys, p: Id, id: Id) {
    p in s.procs && s.procs[p].Executing? && s.procs[p].run == id && s.procs[p].copy.state in {Provisioning, Running, Validating}
  }

  predicate Executes(s: Sys, p: Id, id: Id) {
    p in s.procs && s.procs[p].Executing? && s.procs[p].run == id
  }

  /** A provider call takes place only while a run awaits review, and ends that state for good. */
  ghost predicate RunOk(s: Sys, id: Id) {
    && s.calls[id] <= 1
    && (id !in s.store.runs ==> s.calls[id] == 0 && forall p :: !Executes(s, p, id))
    && (id in s.store.runs && s.store.runs[id].state == Queued ==> s.calls[id] == 0 && forall p :: !Executes(s, p, id))
    && (id in s.store.runs && s.calls[id] == 1 ==> s.store.runs[id].state != AwaitingReview)
    && (forall p :: Early(s, p, id) ==>
          s.calls[id] == 0 && id in s.store.runs && s.store.runs[id].state != AwaitingReview)
    && (forall p, q :: Executes(s, p, id) && Executes(s, q, id) ==> p == q)
  }

  predicate CopyOk(s: Sys, p: Id) {
    p in s.procs && s.procs[p].Executing? ==>
      s.procs[p].run in s.store.runs && s.procs[p].copy.state in {Provisioning, Running, Validating, AwaitingReview}
  }

  predicate PublisherOk(s: Sys, p: Id) {
    p in s.procs && s.procs[p].AwaitingProvider? ==> s.procs[p].run in s.store.runs && s.calls[s.procs[p].run] == 1
  }

  ghost predicate Inv(s: Sys) {
    && StoreOk(s.store)
    && (forall id :: RunOk(s, id))
    && (forall p :: CopyOk(s, p))
    && (forall p :: PublisherOk(s, p))
  }

  /** Only one stored run changes, not to awaiting review, and no call starts or moves. */
  lemma PlainWriteKeepsRuns(s: Sys, t: Sys, id: Id, row: Run)
    requires Inv(s) && t.procs == s.procs && t.calls == s.calls && t.store.runs == s.store.runs[id := row]
    requires id in s.store.runs && row.state != Queued && row.state != AwaitingReview
    ensures forall x :: RunOk(t, x)
    ensures forall p :: CopyOk(t, p) && PublisherOk(t, p)
  {
    forall x ensures RunOk(t, x) {
      assert RunOk(s, x) && RunOk(s, id);
      assert forall p :: Early(t, p, x) == Early(s, p, x) && Executes(t, p, x) == Executes(s, p, x);
    }
    forall p ensures CopyOk(t, p) && PublisherOk(t, p) { assert CopyOk(s, p) && PublisherOk(s, p); }
  }

  lemma SameRunsKeep(s: Sys, t: Sys)
    requires Inv(s) && t.procs == s.procs && t.calls == s.calls && t.store.runs == s.store.runs
    ensures forall x :: RunOk(t, x)
    ensures forall p :: CopyOk(t, p) && PublisherOk(t, p)
  {
    forall x ensures RunOk(t, x) {
      assert RunOk(s, x);
      assert forall p :: Early(t, p, x) == Early(s, p, x) && Executes(t, p, x) == Executes(s, p, x);
    }
    forall p ensures CopyOk(t, p) && PublisherOk(t, p) { assert CopyOk(s, p) && PublisherOk(s, p); }
  }

  lemma NewRunKeepsInv(s: Sys, t: Sys, id: Id, workspace: Id)
    requires Inv(s) && NewRun(s, t, id, workspace)
    ensures Inv(t)
  {
    SameListsKeepStoreOk(s.store, t.store);
    forall x ensures RunOk(t, x) {
      assert RunOk(s, x) && RunOk(s, id);
      assert forall p :: Early(t, p, x) == Early(s, p, x) && Executes(t, p, x) == Executes(s, p, x);
    }
    forall p ensures CopyOk(t, p) && PublisherOk(t, p) { assert CopyOk(s, p) && PublisherOk(s, p); }
  }

  lemma AppendKeepsInv(s: Sys, t: Sys, id: Id, v: Validation, e: Evidence)
    requires Inv(s) && Append(s, t, id, v, e)
    ensures Inv(t)
  {
    SavesKeepStoreOk(s.store, id, v, e);
    SameRunsKeep(s, t);
  }

  lemma ResolveKeepsInv(s: Sys, t: Sys, workspace: Id, id: Id, decision: Outcome)
    requires Inv(s) && Resolve(s, t, workspace, id, decision)
    ensures Inv(t)
  {
    ReviewKeepsStoreOk(s.store, workspace, id, decision);
    if decision == Approved { SameRunsKeep(s, t); } else { PlainWriteKeepsRuns(s, t, id, t.store.runs[id]); }
  }

  lemma CancelKeepsInv(s: Sys, t: Sys, workspace: Id, id: Id)
    requires Inv(s) && Cancel(s, t, workspace, id)
    ensures Inv(t)
  {
    SameListsKeepStoreOk(s.store, t.store);
    if s.store.runs[id].state == Cancelled { SameRunsKeep(s, t); } else { PlainWriteKeepsRuns(s, t, id, t.store.runs[id]); }
  }

  lemma StartExecutionKeepsInv(s: Sys, t: Sys, p: Id, id: Id)
    requires Inv(s) && StartExecution(s, t, p, id)
    ensures Inv(t)
  {
    SameListsKeepStoreOk(s.store, t.store);
    forall x ensures RunOk(t, x) {
      assert RunOk(s, x) && RunOk(s, id);
      assert forall q :: q != p ==> Early(t, q, x) == Early(s, q, x) && Executes(t, q, x) == Executes(s, q, x);
    }
    forall q ensures CopyOk(t, q) && PublisherOk(t, q) { assert CopyOk(s, q) && PublisherOk(s, q); }
  }

  lemma ContinueExecutionKeepsInv(s: Sys, t: Sys, p: Id, to: RunState)
    requires Inv(s) && ContinueExecution(s, t, p, to)
    ensures Inv(t)
  {
    SameListsKeepStoreOk(s.store, t.store);
    var id := s.procs[p].run;
    assert CopyOk(s, p) && Executes(s, p, id);
    forall x ensures RunOk(t, x) {
      assert RunOk(s, x) && RunOk(s, id);
      assert forall q :: q != p ==> Early(t, q, x) == Early(s, q, x) && Executes(t, q, x) == Executes(s, q, x);
      assert Executes(t, p, x) ==> Executes(s, p, x);
      assert Early(t, p, x) ==> Early(s, p, x);
      assert to == AwaitingReview ==> Early(s, p, id);
    }
    forall q ensures CopyOk(t, q) && PublisherOk(t, q) { assert CopyOk(s, q) && PublisherOk(s, q); }
  }

  lemma EndsKeepInv(s: Sys, t: Sys, p: Id)
    requires Inv(s) && (EndExecution(s, t, p) || ProviderFails(s, t, p))
    ensures Inv(t)
  {
    forall x ensures RunOk(t, x) {
      assert RunOk(s, x);
      assert forall q :: (Early(t, q, x) ==> Early(s, q, x)) && (Executes(t, q, x) ==> Executes(s, q, x));
    }
    forall q ensures CopyOk(t, q) && PublisherOk(t, q) { assert CopyOk(s, q) && PublisherOk(s, q); }
  }

  lemma StartPublicationKeepsInv(s: Sys, t: Sys, p: Id, workspace: Id, id: Id)
    requires Inv(s) && StartPublication(s, t, p, workspace, id)
    ensures Inv(t)
  {
    SameListsKeepStoreOk(s.store, t.store);
    assert s.store.runs[id].state == AwaitingReview;
    forall x ensures RunOk(t, x) {
      assert RunOk(s, x) && RunOk(s, id);
      assert forall q :: Early(t, q, x) == Early(s, q, x) && Executes(t, q, x) == Executes(s, q, x);
    }
    forall q ensures CopyOk(t, q) && PublisherOk(t, q) {
      assert CopyOk(s, q) && PublisherOk(s, q) && RunOk(s, id);
    }
  }

  lemma ProviderAnswersKeepsInv(s: Sys, t: Sys, p: Id, publication: Id)
    requires Inv(s) && ProviderAnswers(s, t, p, publication)
    ensures Inv(t)
  {
    SameListsKeepStoreOk(s.store, t.store);
    var id := s.procs[p].run;
    assert PublisherOk(s, p);
    forall x ensures RunOk(t, x) {
      assert RunOk(s, x) && RunOk(s, id);
      assert forall q :: Early(t, q, x) == Early(s, q, x) && Executes(t, q, x) == Executes(s, q, x);
    }
    forall q ensures CopyOk(t, q) && PublisherOk(t, q) { assert CopyOk(s, q) && PublisherOk(s, q); }
  }

  lemma NextKeepsInv(s: Sys, t: Sys)
    requires Inv(s) && Next(s, t)
    ensures Inv(t)
  {
    if id, w :| NewRun(s, t, id, w) { NewRunKeepsInv(s, t, id, w); }
    else if id, v, e :| Append(s, t, id, v, e) { AppendKeepsInv(s, t, id, v, e); }
    else if w, id, d :| Resolve(s, t, w, id, d) { ResolveKeepsInv(s, t, w, id, d); }
    else if w, id :| Cancel(s, t, w, id) { CancelKeepsInv(s, t, w, id); }
    else if p, id :| StartExecution(s, t, p, id) { StartExecutionKeepsInv(s, t, p, id); }
    else if p, to :| ContinueExecution(s, t, p, to) { ContinueExecutionKeepsInv(s, t, p, to); }
    else if p :| EndExecution(s, t, p) { EndsKeepInv(s, t, p); }
    else if p, w, id :| StartPublication(s, t, p, w, id) { StartPublicationKeepsInv(s, t, p, w, id); }
    else if p, publication :| ProviderAnswers(s, t, p, publication) { ProviderAnswersKeepsInv(s, t, p, publication); }
    else {
      var p :| ProviderFails(s, t, p);
      EndsKeepInv(s, t, p);
    }
  }

  lemma {:induction false} EveryRunKeepsInv(states: seq<Sys>)
    requires RunFrom(states)
    ensures Inv(states[|states| - 1])
  {
    if |states| == 1 {
      assert forall id :: RunOk(START, id);
    } else {
      EveryRunKeepsInv(states[..|states| - 1]);
      NextKeepsInv(states[|states| - 2], states[|states| - 1]);
    }
  }

  // ---------------------------------------------------------------- results

  /** In every interleaving, under any keys, the source provider is called at most once per run. */
  lemma ProviderCalledAtMostOnce(states: seq<Sys>, id: Id)
    requires RunFrom(states)
    ensures states[|states| - 1].calls[id] <= 1
  {
    EveryRunKeepsInv(states);
    assert RunOk(states[|states| - 1], id);
  }

  /** And only on what an approving review recorded, every item fine. */
  lemma CalledOnWhatWasReviewed(states: seq<Sys>, t: Sys, p: Id, workspace: Id, id: Id)
    requires RunFrom(states) && StartPublication(states[|states| - 1], t, p, workspace, id)
    ensures var s := states[|states| - 1].store;
            && id in s.reviews && s.reviews[id].decision == Approved
            && s.reviews[id].validationIds == IdsOfValidations(Validations(s, id))
            && s.reviews[id].evidenceIds == IdsOfEvidence(EvidenceOf(s, id))
            && ItemsFine(Validations(s, id), EvidenceOf(s, id))
    ensures states[|states| - 1].calls[id] == 0 && t.calls[id] == 1
  {
    EveryRunKeepsInv(states);
    var s := states[|states| - 1];
    assert RunOk(s, id);
    PublishedIsReviewed(s.store, workspace, id);
  }

  /** A second publisher of a run is turned away, whatever key it brings and however the first fared. */
  lemma NoSecondPublication(states: seq<Sys>, workspace: Id, id: Id)
    requires RunFrom(states) && states[|states| - 1].calls[id] == 1
    ensures BeginPublication(states[|states| - 1].store, workspace, id).Err?
  {
    EveryRunKeepsInv(states);
    assert RunOk(states[|states| - 1], id);
  }

  /** What no step takes back: evidence is only appended, and the first resolution of a review stays. */
  predicate Keeps(s: Store, t: Store, id: Id) {
    && Validations(s, id) <= Validations(t, id) && EvidenceOf(s, id) <= EvidenceOf(t, id)
    && (id in s.reviews ==> id in t.reviews && t.reviews[id] == s.reviews[id])
  }

  lemma SameListsKept(s: Store, t: Store, id: Id)
    requires t.validations == s.validations && t.evidence == s.evidence && t.reviews == s.reviews
    ensures Keeps(s, t, id)
  {
  }

  lemma AppendKeeps(s: Sys, t: Sys, x: Id, v: Validation, e: Evidence, id: Id)
    requires Append(s, t, x, v, e)
    ensures Keeps(s.store, t.store, id)
  {
  }

  lemma ResolveKeeps(s: Sys, t: Sys, w: Id, x: Id, d: Outcome, id: Id)
    requires Resolve(s, t, w, x, d)
    ensures Keeps(s.store, t.store, id)
  {
  }

  lemma EvidenceGrowsAndReviewsStay(s: Sys, t: Sys, id: Id)
    requires Next(s, t)
    ensures Keeps(s.store, t.store, id)
  {
    if x, v, e :| Append(s, t, x, v, e) { AppendKeeps(s, t, x, v, e, id); }
    else if w, x, d :| Resolve(s, t, w, x, d) { ResolveKeeps(s, t, w, x, d, id); }
    else { SameListsKept(s.store, t.store, id); }
  }

  /** The stored run after an execution has gone on with the copy it kept across an await. */
  function GoneOn(s: Sys, p: Id): Sys
    requires p in s.procs && s.procs[p].Executing?
  {
    var x := s.procs[p];
    At(s, p, SaveRun(s.store, x.run, x.copy.(state := Running)), Executing(x.run, x.copy.(state := Running)))
  }

  /**
   * The store does not protect a cancelled run from its own execution: in a reachable state a run
   * is cancelled, and the execution's next step makes it running again.
   */
  lemma CancelledRunCanComeBack() returns (states: seq<Sys>)
    ensures RunFrom(states)
    ensures var s := states[|states| - 1];
            && 0 in s.store.runs && s.store.runs[0].state == Cancelled && 0 in s.procs && s.procs[0].Executing?
            && Next(s, GoneOn(s, 0)) && GoneOn(s, 0).store.runs[0].state == Running
  {
    var a := START.(store := SaveRun(START.store, 0, Run(0, Queued, None)));
    var copy := Run(0, Provisioning, None);
    var b := At(a, 0, SaveRun(a.store, 0, copy), Executing(0, copy));
    var c := b.(store := SaveRun(b.store, 0, Run(0, Cancelled, None)));
    assert NewRun(START, a, 0, 0) && StartExecution(a, b, 0, 0) && Cancel(b, c, 0, 0);
    assert ContinueExecution(c, GoneOn(c, 0), 0, Running);
    states := [START, a, b, c];
  }
}
