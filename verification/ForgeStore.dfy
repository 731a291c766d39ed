/**
 * The in-memory Forge store and the operations that decide on it: the completion gate, the review
 * of a run and its publication. Between two awaits nothing else runs, so each operation here is
 * one stretch of code between awaits.
 */
module ForgeStore {
  import opened Prelude
  import opened Runs

  type Id = nat

  datatype Requirement = Constitution | TaskMandatory | Advisory

  datatype ValidationStatus = PendingCheck | RunningCheck | Passed | FailedCheck | SkippedCheck

  datatype Validation = Validation(id: Id, requirement: Requirement, status: ValidationStatus)

  datatype EvidenceStatus = Satisfied | NotSatisfied | Inconclusive | Waived

  /** `waiver` tells whether waivedBy, waivedReason and waivedAt are all present. */
  datatype Evidence = Evidence(id: Id, key: string, requirement: Requirement, status: EvidenceStatus, waiver: bool)

  datatype Outcome = Approved | Rejected | CancelledReview

  datatype Review = Review(decision: Outcome, version: nat, validationIds: seq<Id>, evidenceIds: seq<Id>)

  datatype Run = Run(workspace: Id, state: RunState, outcome: Option<Outcome>)

  datatype Store = Store(
    runs: map<Id, Run>, validations: map<Id, seq<Validation>>, evidence: map<Id, seq<Evidence>>,
    versions: map<Id, nat>, reviews: map<Id, Review>, publications: map<Id, Id>)

  datatype Error = RunNotFound | Unauthorized | NotAwaitingReview | GateBlocked | AlreadyReviewed | IllegalTransition

  const NO_RUNS := Store(map[], map[], map[], map[], map[], map[])

  function Listed<T>(m: map<Id, seq<T>>, run: Id): seq<T> {
    if run in m then m[run] else []
  }

  function Validations(s: Store, run: Id): seq<Validation> { Listed(s.validations, run) }

  function EvidenceOf(s: Store, run: Id): seq<Evidence> { Listed(s.evidence, run) }

  function Version(s: Store, run: Id): nat {
    if run in s.versions then s.versions[run] else 0
  }

  function ReviewOf(s: Store, run: Id): Option<Review> {
    if run in s.reviews then Some(s.reviews[run]) else None
  }

  // ---------------------------------------------------------------- the completion gate

  datatype BlockerCode =
    | StaleEvidenceSnapshot | MandatoryValidationFailed | MandatoryEvidenceMissing | InvalidEvidenceWaiver | ReviewNotApproved

  datatype Subject = ValidationItem(id: Id) | Criterion(key: string) | ReviewOfRun(run: Id)

  datatype Blocker = Blocker(code: BlockerCode, subject: Subject)

  datatype Gate = Gate(eligibleForApproval: bool, eligibleForPublication: bool, blockers: seq<Blocker>)

  predicate Mandatory(r: Requirement) {
    r == Constitution || r == TaskMandatory
  }

  predicate ValidationFine(v: Validation) {
    Mandatory(v.requirement) ==> v.status == Passed
  }

  predicate EvidenceFine(e: Evidence) {
    if Mandatory(e.requirement) then e.status == Satisfied else e.status == Waived ==> e.waiver
  }

  function ValidationBlockers(vs: seq<Validation>, n: nat): seq<Blocker>
    requires n <= |vs|
  {
    if n == 0 then []
    else
      ValidationBlockers(vs, n - 1)
      + (if ValidationFine(vs[n - 1]) then [] else [Blocker(MandatoryValidationFailed, ValidationItem(vs[n - 1].id))])
  }

  function EvidenceBlocker(e: Evidence): Blocker {
    Blocker(if Mandatory(e.requirement) && e.status != Waived then MandatoryEvidenceMissing else InvalidEvidenceWaiver, Criterion(e.key))
  }

  function EvidenceBlockers(es: seq<Evidence>, n: nat): seq<Blocker>
    requires n <= |es|
  {
    if n == 0 then []
    else EvidenceBlockers(es, n - 1) + (if EvidenceFine(es[n - 1]) then [] else [EvidenceBlocker(es[n - 1])])
  }

  function ReviewBlockers(review: Option<Review>, current: nat, run: Id): seq<Blocker> {
    if review.None? then []
    else
      (if review.value.version != current then [Blocker(StaleEvidenceSnapshot, ReviewOfRun(run))] else [])
      + (if review.value.decision != Approved then [Blocker(ReviewNotApproved, ReviewOfRun(run))] else [])
  }

  function GateFor(vs: seq<Validation>, es: seq<Evidence>, review: Option<Review>, current: nat, run: Id): Gate {
    var blockers := ValidationBlockers(vs, |vs|) + EvidenceBlockers(es, |es|);
    var all := blockers + ReviewBlockers(review, current, run);
    Gate(blockers == [], blockers == [] && review.Some? && all == [], all)
  }

  /** evaluateCompletionGate as it runs: two loops that push blockers, then the review's. */
  method EvaluateCompletionGate(vs: seq<Validation>, es: seq<Evidence>, review: Option<Review>, current: nat, run: Id)
    returns (gate: Gate)
    ensures gate == GateFor(vs, es, review, current, run)
  {
    var blockers: seq<Blocker> := [];
    for i := 0 to |vs|
      invariant blockers == ValidationBlockers(vs, i)
    {
      if Mandatory(vs[i].requirement) && vs[i].status != Passed {
        blockers := blockers + [Blocker(MandatoryValidationFailed, ValidationItem(vs[i].id))];
      }
    }
    for i := 0 to |es|
      invariant blockers == ValidationBlockers(vs, |vs|) + EvidenceBlockers(es, i)
    {
      if Mandatory(es[i].requirement) {
        if es[i].status != Satisfied {
          blockers := blockers
            + [Blocker(if es[i].status == Waived then InvalidEvidenceWaiver else MandatoryEvidenceMissing, Criterion(es[i].key))];
        }
        continue;
      }
      if es[i].status == Waived && !es[i].waiver {
        blockers := blockers + [Blocker(InvalidEvidenceWaiver, Criterion(es[i].key))];
      }
    }
    var eligibleForApproval := blockers == [];
    if review.Some? {
      if review.value.version != current { blockers := blockers + [Blocker(StaleEvidenceSnapshot, ReviewOfRun(run))]; }
      if review.value.decision != Approved { blockers := blockers + [Blocker(ReviewNotApproved, ReviewOfRun(run))]; }
    }
    gate := Gate(eligibleForApproval, eligibleForApproval && review.Some? && blockers == [], blockers);
  }

  lemma {:induction false} NoValidationBlockers(vs: seq<Validation>, n: nat)
    requires n <= |vs|
    ensures ValidationBlockers(vs, n) == [] <==> forall i :: 0 <= i < n ==> ValidationFine(vs[i])
  {
    if n > 0 { NoValidationBlockers(vs, n - 1); }
  }

  lemma {:induction false} NoEvidenceBlockers(es: seq<Evidence>, n: nat)
    requires n <= |es|
    ensures EvidenceBlockers(es, n) == [] <==> forall i :: 0 <= i < n ==> EvidenceFine(es[i])
  {
    if n > 0 { NoEvidenceBlockers(es, n - 1); }
  }

  /** Every item is fine: each mandatory one passes, and each waiver is of advisory evidence and audited. */
  predicate ItemsFine(vs: seq<Validation>, es: seq<Evidence>) {
    && (forall i :: 0 <= i < |vs| ==> vs[i].requirement == Advisory || vs[i].status == Passed)
    && (forall i :: 0 <= i < |es| ==>
          if es[i].requirement == Advisory then es[i].status == Waived ==> es[i].waiver else es[i].status == Satisfied)
  }

  /** The gate opens for approval iff the items are fine, for publication iff a fresh approval says so too. */
  lemma GateMeaning(vs: seq<Validation>, es: seq<Evidence>, review: Option<Review>, current: nat, run: Id)
    ensures var gate := GateFor(vs, es, review, current, run);
            && (gate.eligibleForApproval <==> ItemsFine(vs, es))
            && (gate.eligibleForPublication
                <==> ItemsFine(vs, es) && review.Some? && review.value.decision == Approved && review.value.version == current)
  {
    NoValidationBlockers(vs, |vs|);
    NoEvidenceBlockers(es, |es|);
    var vb, eb := ValidationBlockers(vs, |vs|), EvidenceBlockers(es, |es|);
    assert vb + eb == [] <==> vb == [] && eb == [];
    assert forall x: seq<Blocker> :: (vb + eb) + x == [] <==> vb + eb == [] && x == [];
  }

  // ---------------------------------------------------------------- writes

  function SaveValidation(s: Store, run: Id, v: Validation): Store {
    s.(validations := s.validations[run := Validations(s, run) + [v]], versions := s.versions[run := Version(s, run) + 1])
  }

  function SaveEvidence(s: Store, run: Id, e: Evidence): Store {
    s.(evidence := s.evidence[run := EvidenceOf(s, run) + [e]], versions := s.versions[run := Version(s, run) + 1])
  }

  function SaveRun(s: Store, id: Id, run: Run): Store {
    s.(runs := s.runs[id := run])
  }

  function IdsOfValidations(vs: seq<Validation>): seq<Id> {
    seq(|vs|, i requires 0 <= i < |vs| => vs[i].id)
  }

  function IdsOfEvidence(es: seq<Evidence>): seq<Id> {
    seq(|es|, i requires 0 <= i < |es| => es[i].id)
  }

  /** The review resolveReview records: what is there now, by number and by id. */
  function ReviewNow(s: Store, run: Id, decision: Outcome): Review {
    Review(decision, Version(s, run), IdsOfValidations(Validations(s, run)), IdsOfEvidence(EvidenceOf(s, run)))
  }

  /** The execute callback of resolveReview. */
  function ResolveReview(s: Store, workspace: Id, id: Id, decision: Outcome): Result<Store, Error> {
    if id !in s.runs then Err(RunNotFound)
    else if s.runs[id].workspace != workspace then Err(Unauthorized)
    else if s.runs[id].state != AwaitingReview then Err(NotAwaitingReview)
    else if decision == Approved
            && !GateFor(Validations(s, id), EvidenceOf(s, id), None, Version(s, id), id).eligibleForApproval then Err(GateBlocked)
    else if id in s.reviews then Err(AlreadyReviewed)
    else
      var reviewed := s.(reviews := s.reviews[id := ReviewNow(s, id, decision)]);
      if decision == Approved then Ok(reviewed)
      else Ok(SaveRun(reviewed, id, s.runs[id].(state := Completed, outcome := Some(decision))))
  }

  /** publishRun up to its call of the source provider. */
  function BeginPublication(s: Store, workspace: Id, id: Id): Result<Store, Error> {
    if id !in s.runs then Err(RunNotFound)
    else if s.runs[id].workspace != workspace then Err(Unauthorized)
    else if !GateFor(Validations(s, id), EvidenceOf(s, id), ReviewOf(s, id), Version(s, id), id).eligibleForPublication
    then Err(GateBlocked)
    else if !CanTransition(s.runs[id].state, Publishing) then Err(IllegalTransition)
    else Ok(SaveRun(s, id, s.runs[id].(state := Publishing)))
  }

  /** publishRun after the provider's answer: it saves its own copy of the run. */
  function EndPublication(s: Store, id: Id, copy: Run, publication: Id): Store {
    SaveRun(s.(publications := s.publications[id := publication]), id, copy.(state := Completed, outcome := Some(Approved)))
  }

  /** The execute callback of cancelRun. */
  function CancelRun(s: Store, workspace: Id, id: Id): Result<Store, Error> {
    if id !in s.runs then Err(RunNotFound)
    else if s.runs[id].workspace != workspace then Err(Unauthorized)
    else if s.runs[id].state == Cancelled then Ok(s)
    else if !Cancellable(s.runs[id].state) then Err(IllegalTransition)
    else Ok(SaveRun(s, id, s.runs[id].(state := Cancelled)))
  }

  // ---------------------------------------------------------------- what the writes keep

  /** The evidence version counts the saved validations and evidence items. */
  predicate Counted(s: Store, run: Id) {
    Version(s, run) == |Validations(s, run)| + |EvidenceOf(s, run)|
  }

  /** What the review recorded is still there, in front, and was all there was at its version. */
  predicate Grounded(s: Store, run: Id) {
    run in s.reviews ==>
      var review := s.reviews[run];
      && review.validationIds <= IdsOfValidations(Validations(s, run))
      && review.evidenceIds <= IdsOfEvidence(EvidenceOf(s, run))
      && review.version == |review.validationIds| + |review.evidenceIds|
  }

  ghost predicate StoreOk(s: Store) {
    (forall run :: Counted(s, run)) && (forall run :: Grounded(s, run))
  }

  lemma SavesKeepStoreOk(s: Store, run: Id, v: Validation, e: Evidence)
    requires StoreOk(s)
    ensures StoreOk(SaveValidation(s, run, v)) && StoreOk(SaveEvidence(s, run, e))
  {
    forall r ensures Counted(SaveValidation(s, run, v), r) && Grounded(SaveValidation(s, run, v), r) {
      assert Counted(s, r) && Grounded(s, r);
      assert IdsOfValidations(Validations(s, run)) <= IdsOfValidations(Validations(s, run) + [v]);
    }
    forall r ensures Counted(SaveEvidence(s, run, e), r) && Grounded(SaveEvidence(s, run, e), r) {
      assert Counted(s, r) && Grounded(s, r);
      assert IdsOfEvidence(EvidenceOf(s, run)) <= IdsOfEvidence(EvidenceOf(s, run) + [e]);
    }
  }

  lemma SameListsKeepStoreOk(s: Store, t: Store)
    requires StoreOk(s) && t.validations == s.validations && t.evidence == s.evidence && t.versions == s.versions
    requires t.reviews == s.reviews
    ensures StoreOk(t)
  {
    forall r ensures Counted(t, r) && Grounded(t, r) { assert Counted(s, r) && Grounded(s, r); }
  }

  lemma ReviewKeepsStoreOk(s: Store, workspace: Id, id: Id, decision: Outcome)
    requires StoreOk(s) && ResolveReview(s, workspace, id, decision).Ok?
    ensures StoreOk(ResolveReview(s, workspace, id, decision).value)
  {
    var t := ResolveReview(s, workspace, id, decision).value;
    forall r ensures Counted(t, r) && Grounded(t, r) { assert Counted(s, r) && Grounded(s, r); }
  }

  /** What is published is what was reviewed: the same items, all fine, under a fresh approval. */
  lemma PublishedIsReviewed(s: Store, workspace: Id, id: Id)
    requires StoreOk(s) && BeginPublication(s, workspace, id).Ok?
    ensures id in s.reviews && s.reviews[id].decision == Approved
    ensures s.reviews[id].validationIds == IdsOfValidations(Validations(s, id))
    ensures s.reviews[id].evidenceIds == IdsOfEvidence(EvidenceOf(s, id))
    ensures ItemsFine(Validations(s, id), EvidenceOf(s, id))
  {
    GateMeaning(Validations(s, id), EvidenceOf(s, id), ReviewOf(s, id), Version(s, id), id);
    assert Counted(s, id) && Grounded(s, id);
  }

  /** One item saved after the approval closes the gate, whatever the item says. */
  lemma LateEvidenceBlocksPublication(s: Store, workspace: Id, id: Id, v: Validation, e: Evidence)
    requires StoreOk(s) && id in s.reviews && id in s.runs && s.runs[id].workspace == workspace
    ensures BeginPublication(SaveValidation(s, id, v), workspace, id) == Err(GateBlocked)
    ensures BeginPublication(SaveEvidence(s, id, e), workspace, id) == Err(GateBlocked)
  {
    assert Counted(s, id) && Grounded(s, id);
    var a, b := SaveValidation(s, id, v), SaveEvidence(s, id, e);
    GateMeaning(Validations(a, id), EvidenceOf(a, id), ReviewOf(a, id), Version(a, id), id);
    GateMeaning(Validations(b, id), EvidenceOf(b, id), ReviewOf(b, id), Version(b, id), id);
  }

  // ---------------------------------------------------------------- the store object

  /** InMemoryForgeStore: private maps that its methods update in place. */
  class InMemoryForgeStore {
    var runs: map<Id, Run>
    var validations: map<Id, seq<Validation>>
    var evidence: map<Id, seq<Evidence>>
    var evidenceVersions: map<Id, nat>
    var reviews: map<Id, Review>
    var publications: map<Id, Id>

    function State(): Store
      reads this
    {
      Store(runs, validations, evidence, evidenceVersions, reviews, publications)
    }

    ghost predicate Valid()
      reads this
    {
      StoreOk(State())
    }

    constructor ()
      ensures Valid() && State() == NO_RUNS
    {
      runs, validations, evidence := map[], map[], map[];
      evidenceVersions, reviews, publications := map[], map[], map[];
    }

    method BumpEvidenceVersion(run: Id)
      modifies this`evidenceVersions
      ensures evidenceVersions == old(evidenceVersions)[run := old(Version(State(), run)) + 1]
    {
      evidenceVersions := evidenceVersions[run := Version(State(), run) + 1];
    }

    method AddValidation(run: Id, v: Validation)
      requires Valid()
      modifies this
      ensures Valid() && State() == SaveValidation(old(State()), run, v)
    {
      SavesKeepStoreOk(State(), run, v, Evidence(0, "", Advisory, Satisfied, false));
      validations := validations[run := Listed(validations, run) + [v]];
      BumpEvidenceVersion(run);
    }

    method AddEvidence(run: Id, e: Evidence)
      requires Valid()
      modifies this
      ensures Valid() && State() == SaveEvidence(old(State()), run, e)
    {
      SavesKeepStoreOk(State(), run, Validation(0, Advisory, Passed), e);
      evidence := evidence[run := Listed(evidence, run) + [e]];
      BumpEvidenceVersion(run);
    }

    method SaveReview(run: Id, review: Review) returns (ok: bool)
      modifies this`reviews
      ensures ok <==> run !in old(reviews)
      ensures reviews == if ok then old(reviews)[run := review] else old(reviews)
    {
      if run in reviews { return false; }
      reviews := reviews[run := review];
      ok := true;
    }

    method Resolve(workspace: Id, id: Id, decision: Outcome) returns (r: Option<Error>)
      requires Valid()
      modifies this
      ensures Valid()
      ensures match ResolveReview(old(State()), workspace, id, decision)
              case Err(e) => r == Some(e) && State() == old(State())
              case Ok(next) => r == None && State() == next
    {
      if id !in runs { return Some(RunNotFound); }
      var run := runs[id];
      if run.workspace != workspace { return Some(Unauthorized); }
      if run.state != AwaitingReview { return Some(NotAwaitingReview); }
      var evidenceVersion := Version(State(), id);
      if decision == Approved {
        var gate := EvaluateCompletionGate(Validations(State(), id), EvidenceOf(State(), id), None, evidenceVersion, id);
        if !gate.eligibleForApproval { return Some(GateBlocked); }
      }
      var review := ReviewNow(State(), id, decision);
      ghost var before := State();
      var saved := SaveReview(id, review);
      if !saved { return Some(AlreadyReviewed); }
      if decision != Approved {
        runs := runs[id := run.(state := Completed, outcome := Some(decision))];
      }
      ReviewKeepsStoreOk(before, workspace, id, decision);
      r := None;
    }

    /** The part of publishRun before its await; the copy of the run it goes on with. */
    method Publish(workspace: Id, id: Id) returns (r: Result<Run, Error>)
      requires Valid()
      modifies this
      ensures Valid()
      ensures match BeginPublication(old(State()), workspace, id)
              case Err(e) => r == Err(e) && State() == old(State())
              case Ok(next) => State() == next && r == Ok(next.runs[id])
      ensures r.Ok? ==>
                && id in reviews && reviews[id].decision == Approved
                && reviews[id].validationIds == IdsOfValidations(Validations(State(), id))
                && reviews[id].evidenceIds == IdsOfEvidence(EvidenceOf(State(), id))
                && ItemsFine(Validations(State(), id), EvidenceOf(State(), id))
    {
      if id !in runs { return Err(RunNotFound); }
      var run := runs[id];
      if run.workspace != workspace { return Err(Unauthorized); }
      var gate := EvaluateCompletionGate(Validations(State(), id), EvidenceOf(State(), id), ReviewOf(State(), id),
                                         Version(State(), id), id);
      if !gate.eligibleForPublication { return Err(GateBlocked); }
      if !CanTransition(run.state, Publishing) { return Err(IllegalTransition); }
      PublishedIsReviewed(State(), workspace, id);
      ghost var before := State();
      run := run.(state := Publishing);
      runs := runs[id := run];
      SameListsKeepStoreOk(before, State());
      r := Ok(run);
    }
  }
}
