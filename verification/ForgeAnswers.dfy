/** What the Forge store's operations answer, on the fields of what is stored, and a run that goes all the way. */
module ForgeAnswers {
  import opened Prelude
  import opened Runs
  import opened ForgeStore
  import opened ForgeProtocol

  // ---------------------------------------------------------------- the gate

  /** Every blocker names its item, and every item at fault has its blocker. */
  lemma BlockersExactly(vs: seq<Validation>, es: seq<Evidence>, review: Option<Review>, current: nat, run: Id, b: Blocker)
    ensures b in GateFor(vs, es, review, current, run).blockers <==>
              match b.code
              case MandatoryValidationFailed =>
                exists v :: v in vs && v.requirement != Advisory && v.status != Passed && b.subject == ValidationItem(v.id)
              case MandatoryEvidenceMissing =>
                exists e :: e in es && e.requirement != Advisory && (e.status == NotSatisfied || e.status == Inconclusive)
                            && b.subject == Criterion(e.key)
              case InvalidEvidenceWaiver =>
                exists e :: e in es && e.status == Waived && (e.requirement != Advisory || !e.waiver) && b.subject == Criterion(e.key)
              case StaleEvidenceSnapshot => review.Some? && review.value.version != current && b.subject == ReviewOfRun(run)
              case ReviewNotApproved => review.Some? && review.value.decision != Approved && b.subject == ReviewOfRun(run)
  {
    ValidationBlockersExactly(vs, |vs|, b);
    EvidenceBlockersExactly(es, |es|, b);
  }

  lemma {:induction false} ValidationBlockersExactly(vs: seq<Validation>, n: nat, b: Blocker)
    requires n <= |vs|
    ensures b in ValidationBlockers(vs, n) <==>
              b.code == MandatoryValidationFailed
              && exists v :: v in vs[..n] && v.requirement != Advisory && v.status != Passed && b.subject == ValidationItem(v.id)
    ensures vs[..|vs|] == vs
  {
    if n > 0 {
      ValidationBlockersExactly(vs, n - 1, b);
      assert vs[..n] == vs[..n - 1] + [vs[n - 1]];
    }
  }

  ghost predicate Faulty(e: Evidence, b: Blocker) {
    && b.subject == Criterion(e.key)
    && if b.code == MandatoryEvidenceMissing
       then e.requirement != Advisory && (e.status == NotSatisfied || e.status == Inconclusive)
       else b.code == InvalidEvidenceWaiver && e.status == Waived && (e.requirement != Advisory || !e.waiver)
  }

  lemma {:induction false} EvidenceBlockersExactly(es: seq<Evidence>, n: nat, b: Blocker)
    requires n <= |es|
    ensures b in EvidenceBlockers(es, n) <==> exists e :: e in es[..n] && Faulty(e, b)
    ensures es[..|es|] == es
  {
    if n > 0 {
      EvidenceBlockersExactly(es, n - 1, b);
      assert es[..n] == es[..n - 1] + [es[n - 1]];
      assert b in EvidenceBlockers(es, n) <==> b in EvidenceBlockers(es, n - 1) || Faulty(es[n - 1], b);
    }
  }

  // ---------------------------------------------------------------- writes

  /** Saving appends one item to one list and counts the version up, and leaves everything else. */
  lemma SavesAnswer(s: Store, run: Id, v: Validation, e: Evidence, other: Id)
    ensures var t := SaveValidation(s, run, v);
            && Validations(t, run) == Validations(s, run) + [v] && Version(t, run) == Version(s, run) + 1
            && (other != run ==> Validations(t, other) == Validations(s, other) && Version(t, other) == Version(s, other))
            && t.evidence == s.evidence && t.runs == s.runs && t.reviews == s.reviews && t.publications == s.publications
    ensures var t := SaveEvidence(s, run, e);
            && EvidenceOf(t, run) == EvidenceOf(s, run) + [e] && Version(t, run) == Version(s, run) + 1
            && (other != run ==> EvidenceOf(t, other) == EvidenceOf(s, other) && Version(t, other) == Version(s, other))
            && t.validations == s.validations && t.runs == s.runs && t.reviews == s.reviews && t.publications == s.publications
  {
  }

  /** Every answer of a review; of several reasons to refuse, the first in this order is given. */
  lemma ReviewAnswers(s: Store, workspace: Id, id: Id, decision: Outcome)
    ensures var r := ResolveReview(s, workspace, id, decision);
            var own := id in s.runs && s.runs[id].workspace == workspace;
            var awaiting := own && s.runs[id].state == AwaitingReview;
            var open := awaiting && (decision == Approved ==> ItemsFine(Validations(s, id), EvidenceOf(s, id)));
            && (r == Err(RunNotFound) <==> id !in s.runs)
            && (r == Err(Unauthorized) <==> id in s.runs && !own)
            && (r == Err(NotAwaitingReview) <==> own && !awaiting)
            && (r == Err(GateBlocked) <==> awaiting && !open)
            && (r == Err(AlreadyReviewed) <==> open && id in s.reviews)
            && (r.Ok? <==> open && id !in s.reviews)
  {
    GateMeaning(Validations(s, id), EvidenceOf(s, id), None, Version(s, id), id);
  }

  /** What an accepted review stores: the decision on what is there now, and unless it approves the end of the run. */
  lemma AcceptedReview(s: Store, workspace: Id, id: Id, decision: Outcome)
    requires ResolveReview(s, workspace, id, decision).Ok?
    ensures var t := ResolveReview(s, workspace, id, decision).value;
            && id in t.reviews && t.reviews == s.reviews[id := t.reviews[id]]
            && t.reviews[id].decision == decision && t.reviews[id].version == Version(s, id)
            && |t.reviews[id].validationIds| == |Validations(s, id)| && |t.reviews[id].evidenceIds| == |EvidenceOf(s, id)|
            && (forall i :: 0 <= i < |Validations(s, id)| ==> t.reviews[id].validationIds[i] == Validations(s, id)[i].id)
            && (forall i :: 0 <= i < |EvidenceOf(s, id)| ==> t.reviews[id].evidenceIds[i] == EvidenceOf(s, id)[i].id)
            && t.runs == (if decision == Approved then s.runs else s.runs[id := Run(workspace, Completed, Some(decision))])
            && t.validations == s.validations && t.evidence == s.evidence && t.versions == s.versions
            && t.publications == s.publications
  {
  }

  /** Every answer of a publication. */
  lemma PublicationAnswers(s: Store, workspace: Id, id: Id)
    ensures var r := BeginPublication(s, workspace, id);
            var own := id in s.runs && s.runs[id].workspace == workspace;
            var open := && own && ItemsFine(Validations(s, id), EvidenceOf(s, id))
                        && id in s.reviews && s.reviews[id].decision == Approved && s.reviews[id].version == Version(s, id);
            && (r == Err(RunNotFound) <==> id !in s.runs)
            && (r == Err(Unauthorized) <==> id in s.runs && !own)
            && (r == Err(GateBlocked) <==> own && !open)
            && (r == Err(IllegalTransition) <==> open && s.runs[id].state != AwaitingReview)
            && (r.Ok? <==> open && s.runs[id].state == AwaitingReview)
            && (r.Ok? ==> r.value == s.(runs := s.runs[id := Run(workspace, Publishing, s.runs[id].outcome)]))
  {
    GateMeaning(Validations(s, id), EvidenceOf(s, id), ReviewOf(s, id), Version(s, id), id);
  }

  /** What a publication stores once the provider has answered: its id, and the run as it was copied, completed and approved. */
  lemma PublicationEnds(s: Store, id: Id, copy: Run, publication: Id)
    ensures var t := EndPublication(s, id, copy, publication);
            && t.publications == s.publications[id := publication]
            && t.runs == s.runs[id := Run(copy.workspace, Completed, Some(Approved))]
            && t.validations == s.validations && t.evidence == s.evidence && t.versions == s.versions && t.reviews == s.reviews
  {
  }

  /** Every answer of a cancellation. */
  lemma CancelAnswers(s: Store, workspace: Id, id: Id)
    ensures var r := CancelRun(s, workspace, id);
            var own := id in s.runs && s.runs[id].workspace == workspace;
            && (r == Err(RunNotFound) <==> id !in s.runs)
            && (r == Err(Unauthorized) <==> id in s.runs && !own)
            && (r == Err(IllegalTransition) <==> own && s.runs[id].state != Cancelled && !CanTransition(s.runs[id].state, Cancelling))
            && (r.Ok? <==> own && (s.runs[id].state == Cancelled || CanTransition(s.runs[id].state, Cancelling)))
            && (r.Ok? ==> r.value == s.(runs := s.runs[id := Run(workspace, Cancelled, s.runs[id].outcome)]))
  {
    if id in s.runs {
      ActiveAndCancellable(s.runs[id].state);
      if s.runs[id].state == Cancelled && s.runs[id].workspace == workspace {
        assert s.runs[id := Run(workspace, Cancelled, s.runs[id].outcome)] == s.runs;
      }
    }
  }

  // ---------------------------------------------------------------- a run that is executed, reviewed and published

  ghost predicate Reachable(s: Sys) {
    exists states :: RunFrom(states) && states[|states| - 1] == s
  }

  lemma Reach(s: Sys, t: Sys)
    requires Reachable(s) && Next(s, t)
    ensures Reachable(t)
  {
    var states :| RunFrom(states) && states[|states| - 1] == s;
    var longer := states + [t];
    assert RunFrom(longer) && longer[|longer| - 1] == t;
  }

  /** The store with one run in a state, and nothing else. */
  function OnlyRun(workspace: Id, state: RunState): Store {
    NO_RUNS.(runs := map[0 := Run(workspace, state, None)])
  }

  lemma RunIsQueued(workspace: Id)
    ensures Reachable(START.(store := OnlyRun(workspace, Queued)))
  {
    assert RunFrom([START]) && [START][|[START]| - 1] == START;
    var t := START.(store := OnlyRun(workspace, Queued));
    assert NewRun(START, t, 0, workspace);
    Reach(START, t);
  }

  /** The state of the system while a process executes the run. */
  function ExecutingIn(workspace: Id, state: RunState): Sys {
    Sys(OnlyRun(workspace, state), map[1 := Executing(0, Run(workspace, state, None))], multiset{})
  }

  lemma ExecutionGoesOn(workspace: Id, from: RunState, to: RunState)
    requires Reachable(ExecutingIn(workspace, from)) && Phase(from, to) && to != Failed
    ensures Reachable(ExecutingIn(workspace, to))
  {
    var s, t := ExecutingIn(workspace, from), ExecutingIn(workspace, to);
    assert map[0 := Run(workspace, from, None)][0 := Run(workspace, to, None)] == map[0 := Run(workspace, to, None)];
    assert ContinueExecution(s, t, 1, to);
    Reach(s, t);
  }

  /** A queued run can be executed up to its review. */
  lemma RunIsExecuted(workspace: Id)
    ensures Reachable(ExecutingIn(workspace, AwaitingReview))
  {
    RunIsQueued(workspace);
    var s, t := START.(store := OnlyRun(workspace, Queued)), ExecutingIn(workspace, Provisioning);
    assert map[0 := Run(workspace, Queued, None)][0 := Run(workspace, Provisioning, None)] == map[0 := Run(workspace, Provisioning, None)];
    assert StartExecution(s, t, 1, 0);
    Reach(s, t);
    ExecutionGoesOn(workspace, Provisioning, Running);
    ExecutionGoesOn(workspace, Running, Validating);
    ExecutionGoesOn(workspace, Validating, AwaitingReview);
  }

  /** And a failing one ends as failed, from every phase. */
  lemma ExecutionCanFail(workspace: Id, from: RunState)
    requires Reachable(ExecutingIn(workspace, from)) && from in {Provisioning, Running, Validating, AwaitingReview}
    ensures Reachable(Sys(OnlyRun(workspace, Failed), map[1 := Ended], multiset{}))
  {
    var s, t := ExecutingIn(workspace, from), Sys(OnlyRun(workspace, Failed), map[1 := Ended], multiset{});
    assert map[0 := Run(workspace, from, None)][0 := Run(workspace, Failed, None)] == map[0 := Run(workspace, Failed, None)];
    assert ContinueExecution(s, t, 1, Failed);
    Reach(s, t);
  }

  /** In every reachable state, a run that awaits its review can be given items, approved and published. */
  lemma ReviewedRunIsPublished(s: Sys, id: Id, workspace: Id, p: Id, publication: Id)
    requires Reachable(s) && id in s.store.runs && s.store.runs[id].workspace == workspace && s.store.runs[id].state == AwaitingReview
    requires id !in s.store.reviews && p !in s.procs && ItemsFine(Validations(s.store, id), EvidenceOf(s.store, id))
    ensures exists t :: Reachable(t) && t.calls == s.calls + multiset{id}
                        && t.store.runs == s.store.runs[id := Run(workspace, Completed, Some(Approved))]
                        && t.store.publications == s.store.publications[id := publication]
                        && p in t.procs && t.procs[p] == Ended
  {
    var a := Approve(s, id, workspace);
    var b := CallProvider(a, id, workspace, p);
    var c := Answered(b, id, workspace, p, publication);
    assert b.store.runs[id := Run(workspace, Completed, Some(Approved))] == s.store.runs[id := Run(workspace, Completed, Some(Approved))];
  }

  lemma Approve(s: Sys, id: Id, workspace: Id) returns (t: Sys)
    requires Reachable(s) && id in s.store.runs && s.store.runs[id].workspace == workspace && s.store.runs[id].state == AwaitingReview
    requires id !in s.store.reviews && ItemsFine(Validations(s.store, id), EvidenceOf(s.store, id))
    ensures Reachable(t) && t.procs == s.procs && t.calls == s.calls
    ensures id in t.store.reviews && t.store == s.store.(reviews := t.store.reviews)
    ensures t.store.reviews[id].decision == Approved && t.store.reviews[id].version == Version(s.store, id)
  {
    ReviewAnswers(s.store, workspace, id, Approved);
    AcceptedReview(s.store, workspace, id, Approved);
    t := s.(store := ResolveReview(s.store, workspace, id, Approved).value);
    assert Resolve(s, t, workspace, id, Approved);
    Reach(s, t);
  }

  lemma CallProvider(s: Sys, id: Id, workspace: Id, p: Id) returns (t: Sys)
    requires Reachable(s) && id in s.store.runs && s.store.runs[id].workspace == workspace && s.store.runs[id].state == AwaitingReview
    requires id in s.store.reviews && s.store.reviews[id].decision == Approved && s.store.reviews[id].version == Version(s.store, id)
    requires p !in s.procs && ItemsFine(Validations(s.store, id), EvidenceOf(s.store, id))
    ensures Reachable(t) && t.calls == s.calls + multiset{id}
    ensures t.store == s.store.(runs := s.store.runs[id := Run(workspace, Publishing, s.store.runs[id].outcome)])
    ensures t.procs == s.procs[p := AwaitingProvider(id, Run(workspace, Publishing, s.store.runs[id].outcome))]
  {
    PublicationAnswers(s.store, workspace, id);
    var next := BeginPublication(s.store, workspace, id).value;
    t := At(s, p, next, AwaitingProvider(id, next.runs[id])).(calls := s.calls + multiset{id});
    assert StartPublication(s, t, p, workspace, id);
    Reach(s, t);
  }

  lemma Answered(s: Sys, id: Id, workspace: Id, p: Id, publication: Id) returns (t: Sys)
    requires Reachable(s) && p in s.procs && s.procs[p].AwaitingProvider? && s.procs[p].run == id && s.procs[p].copy.workspace == workspace
    ensures Reachable(t) && t.calls == s.calls && t.procs == s.procs[p := Ended]
    ensures t.store.runs == s.store.runs[id := Run(workspace, Completed, Some(Approved))]
    ensures t.store.publications == s.store.publications[id := publication]
  {
    t := At(s, p, EndPublication(s.store, id, s.procs[p].copy, publication), Ended);
    PublicationEnds(s.store, id, s.procs[p].copy, publication);
    assert ProviderAnswers(s, t, p, publication);
    Reach(s, t);
  }
}
