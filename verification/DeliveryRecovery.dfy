/** What a recovery does for every crash of execute and verify, and what it never does. */
module DeliveryRecovery {
  import opened Prelude
  import opened Delivery

  // ---------------------------------------------------------------- transitions that add one list of references

  lemma AddedReferencesAreThere(artifacts: L.Artifacts, b: L.Bucket, refs: seq<string>, ref: string)
    requires ref in refs && IsRef(ref)
    ensures ref in L.Get(L.Merged(artifacts, Adding(b, refs)), b)
  {
    TrimFixes(ref);
    var before := L.Get(artifacts, b);
    assert ref in before + refs;
    L.AddUniqueMembers([], before + refs, ref);
  }

  /** The step was taken: the cycle stands on `to`, keeps its handoff, and holds the reference. */
  predicate Links(d: Durable, r: Ran, to: L.Stage, b: L.Bucket, ref: string) {
    && r.ending == Finished(r.durable.cycle) && r.durable == d.(cycle := r.durable.cycle)
    && r.durable.cycle.stage == to && r.durable.cycle.cycleId == d.cycle.cycleId
    && ref in L.Get(r.durable.cycle.artifacts, b) && LatestHandoff(r.durable.cycle) == LatestHandoff(d.cycle)
  }

  lemma LinkingTransition(
    c: L.Cycle, to: L.Stage, v: Voice, now: L.Time, b: L.Bucket, refs: seq<string>, passed: bool, ref: string)
    requires !L.Terminal(c.stage) && L.CanTransition(c.stage, to) && to != L.Executing
    requires Speaks(v) && (to == L.Verified ==> passed) && L.RequiredArtifacts(to) <= {b}
    requires ref in refs && IsRef(ref)
    ensures var r := L.Transition(c, to, Input(v, now, Adding(b, refs), passed));
            && r.Ok? && r.value.stage == to && r.value.cycleId == c.cycleId
            && ref in L.Get(r.value.artifacts, b) && LatestHandoff(r.value) == LatestHandoff(c)
  {
    var input := Input(v, now, Adding(b, refs), passed);
    LinkingGuards(c, to, b, refs, ref);
    L.TransitionAccepts(c, to, input);
    AddedReferencesAreThere(c.artifacts, b, refs, ref);
    NothingAddedKeepsHandoff(c);
  }

  lemma LinkingGuards(c: L.Cycle, to: L.Stage, b: L.Bucket, refs: seq<string>, ref: string)
    requires L.RequiredArtifacts(to) <= {b} && ref in refs && IsRef(ref)
    ensures L.HasRequired(to, L.Merged(c.artifacts, Adding(b, refs))) && L.CanMerge(L.Base(c.research), map[])
  {
    AddedReferencesAreThere(c.artifacts, b, refs, ref);
    NothingAddedKeepsHandoff(c);
  }

  /** Nothing refuses such a transition. */
  lemma LinkingMove(
    d: Durable, to: L.Stage, v: Voice, now: L.Time, b: L.Bucket, refs: seq<string>, passed: bool, ref: string)
    requires !L.Terminal(d.cycle.stage) && L.CanTransition(d.cycle.stage, to) && to != L.Executing
    requires Speaks(v) && (to == L.Verified ==> passed) && L.RequiredArtifacts(to) <= {b}
    requires ref in refs && IsRef(ref)
    ensures Links(d, Move(d, to, Input(v, now, Adding(b, refs), passed)), to, b, ref)
  {
    LinkingTransition(d.cycle, to, v, now, b, refs, passed, ref);
  }

  lemma LinkingOne(d: Durable, to: L.Stage, v: Voice, now: L.Time, b: L.Bucket, ref: string, passed: bool)
    requires !L.Terminal(d.cycle.stage) && L.CanTransition(d.cycle.stage, to) && to != L.Executing
    requires Speaks(v) && (to == L.Verified ==> passed) && L.RequiredArtifacts(to) <= {b} && IsRef(ref)
    ensures Links(d, Move(d, to, Input(v, now, Adding(b, [ref]), passed)), to, b, ref)
  {
    LinkingMove(d, to, v, now, b, [ref], passed, ref);
  }

  lemma NothingAddedKeepsHandoff(c: L.Cycle)
    ensures L.CanMerge(L.Base(c.research), map[])
    ensures L.Get(L.Joined(L.Base(c.research), map[]), L.ExecutionHandoffs) == L.Get(L.Base(c.research), L.ExecutionHandoffs)
  {
  }

  // ---------------------------------------------------------------- the plan

  /** Every planned target is a legal step, out of the two stages a crash can leave behind. */
  lemma PlannedStepIsLegal(stage: L.Stage, inspected: ControlInspection, worktree: WorktreeStatus)
    requires MakePlan(stage, inspected, worktree).target.Some?
    ensures stage in {L.Executing, L.Implemented}
    ensures !L.Terminal(stage) && L.CanTransition(stage, MakePlan(stage, inspected, worktree).target.value)
    ensures MakePlan(stage, inspected, worktree).target.value in
            (if stage == L.Executing then {L.Implemented, L.Rejected, L.Inconclusive}
             else {L.Verified, L.Rejected, L.Inconclusive})
  {
  }

  /** An applied recovery is never refused: it ends on the planned stage, or where it was. */
  lemma RecoveryCompletes(d: Durable, i: RecoverInput)
    requires Speaks(i.voice) && IsRef(i.ref)
    ensures var r := Recover(d, i);
            && r.ending == Finished(r.durable.cycle)
            && r.durable.sidecar == d.sidecar && r.durable.tree == d.tree
            && r.durable.cycle.stage
               == (if i.apply && PlanFor(d, i.projectRoot).target.Some? then PlanFor(d, i.projectRoot).target.value else d.cycle.stage)
            && LatestHandoff(r.durable.cycle) == LatestHandoff(d.cycle)
            && r.durable.cycle.cycleId == d.cycle.cycleId
  {
    var plan := PlanFor(d, i.projectRoot);
    if i.apply && plan.target.Some? {
      var inspected := InspectControl(d.sidecar, d.cycle.cycleId, i.projectRoot);
      PlannedStepIsLegal(d.cycle.stage, inspected, InspectWorktree(inspected, d.tree));
      var additions := TransitionArtifacts(d.cycle.stage, inspected, i.ref);
      var b := if d.cycle.stage == L.Executing then L.Changes else L.Verification;
      assert i.ref in additions.refs[b];
      LinkingMove(d, plan.target.value, i.voice, i.now, b, additions.refs[b], plan.target.value == L.Verified, i.ref);
    }
  }

  /** The durable record and the clean commit that alone make a cycle verified. */
  predicate Backed(d: Durable, projectRoot: string) {
    && d.sidecar.Sidecar? && d.sidecar.sealed && d.tree.Tree?
    && var k := d.sidecar.control;
       && k.cycleId == d.cycle.cycleId && k.projectRoot == projectRoot
       && k.execution.cycleId == d.cycle.cycleId && k.executionEvidenceRef != ""
       && k.verification.Some? && k.verification.value.cycleId == d.cycle.cycleId
       && k.verification.value.verdict == Accepted
       && k.verificationEvidenceRef.Some? && k.verificationEvidenceRef.value != ""
       && k.verification.value.commitSha == Some(HeadOf(d.tree)) && d.tree.branchHead == HeadOf(d.tree)
       && !d.tree.dirty && d.tree.digest.Some?
  }

  /** Recovery verifies a cycle exactly when a durable accepted record is backed by its clean commit. */
  lemma VerifiedExactlyWhenBacked(d: Durable, projectRoot: string)
    ensures PlanFor(d, projectRoot).target == Some(L.Verified)
            <==> d.cycle.stage == L.Implemented && Backed(d, projectRoot)
  {
  }

  // ---------------------------------------------------------------- after a crash of execute

  /** A started execution: the cycle could execute, and the start was saved as `executing`. */
  ghost predicate Started(d: Durable, i: ExecuteInput, executing: L.Cycle) {
    CanExecute(d.cycle, i) && Start(d.cycle, i) == Ok(executing)
  }

  lemma StartKeeps(d: Durable, i: ExecuteInput, executing: L.Cycle)
    requires Started(d, i, executing)
    ensures executing.stage == L.Executing && executing.cycleId == d.cycle.cycleId
    ensures LatestHandoff(executing) == LatestHandoff(d.cycle) && LatestHandoff(d.cycle).Some?
  {
    NothingAddedKeepsHandoff(d.cycle);
    L.TransitionAdvances(d.cycle, L.Executing, Input(i.voice, i.now, NoAdditions(), false));
  }

  lemma StartedSteps(d: Durable, i: ExecuteInput, executing: L.Cycle, crash: ExecuteCrash)
    requires Started(d, i, executing) && crash != AfterWorktree
    ensures Execute(d, i, crash) == ExecuteStarted(d.(tree := FreshTree(i.base)), executing, i, crash)
  {
  }

  lemma StartedRuns(d: Durable, i: ExecuteInput, executing: L.Cycle)
    requires LatestHandoff(d.cycle).Some?
    ensures ExecuteStarted(d, executing, i, ExecuteRuns)
            == Move(Written(d.cycle, i, executing), AfterExecution(StatusOf(i)), StatusInput(i))
  {
  }

  lemma EndsOnItsStatus(written: Durable, i: ExecuteInput, status: Status)
    requires written.cycle.stage == L.Executing && IsRef(i.ref) && Speaks(i.voice)
    ensures Links(written, Move(written, AfterExecution(status), StatusInput(i)), AfterExecution(status), L.Changes, i.ref)
  {
    LinkingOne(written, AfterExecution(status), i.voice, i.completed, L.Changes, i.ref, false);
  }

  /** The run that is not interrupted ends where its status says. */
  lemma UninterruptedExecution(d: Durable, i: ExecuteInput, executing: L.Cycle)
    requires Started(d, i, executing) && IsRef(i.ref) && Speaks(i.voice)
    ensures Execute(d, i, ExecuteRuns).durable.cycle.stage == AfterExecution(StatusOf(i))
    ensures Execute(d, i, ExecuteRuns).ending.Finished?
  {
    StartKeeps(d, i, executing);
    StartedSteps(d, i, executing, ExecuteRuns);
    StartedRuns(d.(tree := FreshTree(i.base)), i, executing);
    var last := Move(Written(d.cycle, i, executing), AfterExecution(StatusOf(i)), StatusInput(i));
    EndsOnItsStatus(Written(d.cycle, i, executing), i, StatusOf(i));
    assert Execute(d, i, ExecuteRuns) == last;
  }

  /** Before the sidecar is written nothing proves what ran: the cycle is inconclusive. */
  lemma CrashBeforeSidecar(d: Durable, i: ExecuteInput, executing: L.Cycle, crash: ExecuteCrash, r: RecoverInput)
    requires Started(d, i, executing) && d.sidecar == NoSidecar && crash in {AfterStart, AfterCommand}
    requires Speaks(r.voice) && IsRef(r.ref) && r.apply
    ensures Recover(Execute(d, i, crash).durable, r).durable.cycle.stage == L.Inconclusive
  {
    StartKeeps(d, i, executing);
    StartedSteps(d, i, executing, crash);
    RecoveryCompletes(Durable(executing, NoSidecar, if crash == AfterStart then FreshTree(i.base) else i.after), r);
  }

  /** Before the start is saved there is nothing to recover. */
  lemma CrashBeforeStart(d: Durable, i: ExecuteInput, r: RecoverInput)
    requires CanExecute(d.cycle, i) && Speaks(r.voice) && IsRef(r.ref)
    ensures Recover(Execute(d, i, AfterWorktree).durable, r).durable.cycle == d.cycle
  {
  }

  /**
   * Once the sidecar is written, recovery reaches the stage the run would have reached, with one
   * exact exception: execute never looks at the branch, recovery does. An implementation whose
   * branch was moved under a detached HEAD is implemented without the crash and inconclusive after it.
   */
  lemma CrashAfterSidecar(d: Durable, i: ExecuteInput, executing: L.Cycle, r: RecoverInput)
    requires Started(d, i, executing) && IsRef(i.ref) && Speaks(i.voice)
    requires Speaks(r.voice) && IsRef(r.ref) && r.apply && r.projectRoot == i.projectRoot
    ensures var recovered := Recover(Execute(d, i, AfterControl).durable, r).durable.cycle.stage;
            var uninterrupted := Execute(d, i, ExecuteRuns).durable.cycle.stage;
            && (recovered == uninterrupted <==> (StatusOf(i) == Implemented ==> i.after.branchHead == i.base))
            && (recovered != uninterrupted ==> recovered == L.Inconclusive)
  {
    UninterruptedExecution(d, i, executing);
    RecoveredStage(d, i, executing, r);
  }

  lemma RecoveredStage(d: Durable, i: ExecuteInput, executing: L.Cycle, r: RecoverInput)
    requires Started(d, i, executing) && IsRef(i.ref)
    requires Speaks(r.voice) && IsRef(r.ref) && r.apply && r.projectRoot == i.projectRoot
    ensures Recover(Execute(d, i, AfterControl).durable, r).durable.cycle.stage
            == if StatusOf(i) == Implemented && i.after.branchHead != i.base then L.Inconclusive
               else AfterExecution(StatusOf(i))
  {
    StartKeeps(d, i, executing);
    StartedSteps(d, i, executing, AfterControl);
    PlanAfterSidecar(d.cycle, executing, i);
    RecoveryCompletes(Written(d.cycle, i, executing), r);
  }

  lemma PlanAfterSidecar(c: L.Cycle, executing: L.Cycle, i: ExecuteInput)
    requires LatestHandoff(c).Some? && executing.stage == L.Executing && executing.cycleId == c.cycleId && IsRef(i.ref)
    ensures PlanFor(Durable(executing, Sidecar(ExecutedControl(c, i), true), i.after), i.projectRoot).target
            == Some(if StatusOf(i) == Implemented && i.after.branchHead != i.base then L.Inconclusive
                    else AfterExecution(StatusOf(i)))
  {
    assert InspectControl(Sidecar(ExecutedControl(c, i), true), executing.cycleId, i.projectRoot)
        == ControlValid(ExecutedControl(c, i));
  }

  lemma RecoveredImplementationIsLinked(d: Durable, r: RecoverInput, verifier: string)
    requires Speaks(r.voice) && IsRef(r.ref) && r.apply && d.cycle.stage == L.Executing
    requires Recover(d, r).durable.cycle.stage == L.Implemented
    requires Trimmed(d.sidecar.control.executionEvidenceRef)
    requires LatestHandoff(d.cycle).Some?
    requires d.sidecar.control.execution.handoffId == LatestHandoff(d.cycle).value.recordId
    requires d.sidecar.control.execution.handoffDigest == LatestHandoff(d.cycle).value.body
    requires d.sidecar.control.manifestDigest == LatestHandoff(d.cycle).value.body
    ensures CanVerify(Recover(d, r).durable, verifier, r.projectRoot)
            <==> verifier != "" && verifier != d.sidecar.control.execution.actor
  {
    RecoveryCompletes(d, r);
    var control := d.sidecar.control;
    var plan := PlanFor(d, r.projectRoot);
    assert plan == Plan(ApplyTransition, Some(L.Implemented));
    var refs := [control.executionEvidenceRef] + [r.ref];
    assert TransitionArtifacts(L.Executing, ControlValid(control), r.ref) == Adding(L.Changes, refs);
    assert control.executionEvidenceRef in refs;
    LinkingMove(d, L.Implemented, r.voice, r.now, L.Changes, refs, false, control.executionEvidenceRef);
  }

  /** An execution recovered to implemented passes every check of verify except that the verifier be another actor. */
  lemma RecoveredImplementationCanBeVerified(d: Durable, i: ExecuteInput, executing: L.Cycle, r: RecoverInput, verifier: string)
    requires Started(d, i, executing) && IsRef(i.ref) && Speaks(r.voice) && IsRef(r.ref) && r.apply
    requires Recover(Execute(d, i, AfterControl).durable, r).durable.cycle.stage == L.Implemented
    ensures CanVerify(Recover(Execute(d, i, AfterControl).durable, r).durable, verifier, r.projectRoot)
            <==> verifier != "" && verifier != Trim(i.voice.actor)
  {
    StartKeeps(d, i, executing);
    StartedSteps(d, i, executing, AfterControl);
    RecoveredImplementationIsLinked(Execute(d, i, AfterControl).durable, r, verifier);
  }

  const REQUEST := Voice("operator", "interrupted")

  const RECOVERY := RecoverInput(REQUEST, "/project", L.Instant(3), true, "evidence:3")

  /** A cycle ready to execute, with one handoff. */
  function Planned(): L.Cycle {
    L.Cycle("cycle-1", "an objective", L.A3, L.R1, L.Planned, L.Instant(0), L.Instant(0), map[], [], [],
            Some(map[L.ExecutionHandoffs := [L.ResearchRecord("handoff-1", "parameters")]]))
  }

  /** The implementation left with HEAD detached at the base commit, and the branch somewhere else. */
  function MovedBranch(): Tree {
    Tree(Detached(0), 1, ["a.ts"], Some(7), true)
  }

  function Implementing(): ExecuteInput {
    ExecuteInput(true, Voice("implementer", "execute"), true, true, "parameters", "/project", L.Instant(1), L.Instant(1),
                 L.Instant(2), 0, Passed, false, MovedBranch(), InScope, "evidence:1")
  }

  lemma PlannedStarts()
    ensures CanExecute(Planned(), Implementing()) && Start(Planned(), Implementing()).Ok?
  {
    var input := Input(Voice("implementer", "execute"), L.Instant(1), NoAdditions(), false);
    NothingAddedKeepsHandoff(Planned());
    L.TransitionAccepts(Planned(), L.Executing, input);
  }

  lemma ImplementedOffTheBranch(d: Durable, i: ExecuteInput, executing: L.Cycle, r: RecoverInput)
    requires Started(d, i, executing) && IsRef(i.ref) && Speaks(i.voice)
    requires StatusOf(i) == Implemented && i.after.branchHead != i.base
    requires Speaks(r.voice) && IsRef(r.ref) && r.apply && r.projectRoot == i.projectRoot
    ensures Execute(d, i, ExecuteRuns).durable.cycle.stage == L.Implemented
    ensures Recover(Execute(d, i, AfterControl).durable, r).durable.cycle.stage == L.Inconclusive
  {
    UninterruptedExecution(d, i, executing);
    RecoveredStage(d, i, executing, r);
  }

  /** A moved branch: implemented without the crash, inconclusive after it. */
  lemma MovedBranchIsGivenUp()
    ensures var d := Durable(Planned(), NoSidecar, Gone);
            && Execute(d, Implementing(), ExecuteRuns).durable.cycle.stage == L.Implemented
            && Recover(Execute(d, Implementing(), AfterControl).durable, RECOVERY).durable.cycle.stage == L.Inconclusive
  {
    var d := Durable(Planned(), NoSidecar, Gone);
    PlannedStarts();
    ImplementedOffTheBranch(d, Implementing(), Start(Planned(), Implementing()).value, RECOVERY);
  }

  // ---------------------------------------------------------------- after a crash of verify

  /**
   * A delivery about to be verified, whatever an interrupted verification has recorded before. No
   * artifact list holds an empty reference, so the one that verify finds linked is not empty.
   */
  predicate ReadyToVerify(d: Durable, i: VerifyInput) {
    && CanVerify(d, Trim(i.voice.actor), i.projectRoot) && Speaks(i.voice) && IsRef(i.ref)
    && d.sidecar.control.executionEvidenceRef != ""
  }

  lemma EndsOnItsVerdict(recorded: Durable, i: VerifyInput, verdict: Verdict)
    requires recorded.cycle.stage == L.Implemented && IsRef(i.ref) && Speaks(i.voice)
    ensures Links(recorded, Move(recorded, AfterVerification(verdict), VerdictInput(i, verdict)),
                  AfterVerification(verdict), L.Verification, i.ref)
  {
    LinkingOne(recorded, AfterVerification(verdict), i.voice, i.completed, L.Verification, i.ref, verdict == Accepted);
  }

  lemma UninterruptedVerification(d: Durable, i: VerifyInput)
    requires ReadyToVerify(d, i)
    ensures Verify(d, i, VerifyRuns).durable.cycle.stage == AfterVerification(FinalVerdict(d, i))
    ensures Verify(d, i, VerifyRuns).ending.Finished?
  {
    var last := Move(Recorded(d, i), AfterVerification(FinalVerdict(d, i)), VerdictInput(i, FinalVerdict(d, i)));
    EndsOnItsVerdict(Recorded(d, i), i, FinalVerdict(d, i));
    assert Verify(d, i, VerifyRuns) == last;
  }

  /** HEAD, branch, files and patch are those of the execution record. */
  predicate Intact(t: Tree, e: Execution) {
    SamePatch(t, e) && t.branchHead == e.baseCommit
  }

  /**
   * Before its own verdict is recorded, a verification recovers by the one recorded earlier. Without
   * one it resumes on an intact patch and gives up otherwise. verifyDelivery never looks whether
   * there is one, recovery does.
   */
  lemma CrashBeforeVerdict(d: Durable, i: VerifyInput, crash: VerifyCrash, r: RecoverInput)
    requires ReadyToVerify(d, i) && crash in {AfterChecks, AfterCommit}
    requires Speaks(r.voice) && IsRef(r.ref) && r.apply && r.projectRoot == i.projectRoot
    ensures var crashed := Verify(d, i, crash).durable;
            var recovered := Recover(crashed, r).durable.cycle.stage;
            match d.sidecar.control.verification
            case None => recovered == if Intact(crashed.tree, d.sidecar.control.execution) then L.Implemented else L.Inconclusive
            case Some(v) =>
              if v.cycleId != d.cycle.cycleId || v.verdict == Undecided then recovered == L.Inconclusive
              else if v.verdict == Rejected then recovered == L.Rejected
              else recovered == if Backed(crashed, r.projectRoot) then L.Verified else L.Inconclusive
  {
    var crashed := Verify(d, i, crash).durable;
    assert crashed.sidecar == d.sidecar && crashed.cycle == d.cycle;
    PlanFromEarlierRecord(crashed, r.projectRoot);
    RecoveryCompletes(crashed, r);
  }

  lemma PlanFromEarlierRecord(crashed: Durable, projectRoot: string)
    requires crashed.cycle.stage == L.Implemented && Loads(crashed.sidecar, crashed.cycle.cycleId)
    requires crashed.sidecar.control.executionEvidenceRef != "" && crashed.sidecar.control.projectRoot == projectRoot
    ensures var target := PlanFor(crashed, projectRoot).target;
            match crashed.sidecar.control.verification
            case None => target == if Intact(crashed.tree, crashed.sidecar.control.execution) then None else Some(L.Inconclusive)
            case Some(v) =>
              if v.cycleId != crashed.cycle.cycleId || v.verdict == Undecided then target == Some(L.Inconclusive)
              else if v.verdict == Rejected then target == Some(L.Rejected)
              else target == Some(if Backed(crashed, projectRoot) then L.Verified else L.Inconclusive)
  {
  }

  /** A first verification killed behind its commit recovers to inconclusive: the commit proves no verdict. */
  lemma UnrecordedCommitIsGivenUp(d: Durable, i: VerifyInput, r: RecoverInput)
    requires ReadyToVerify(d, i) && d.sidecar.control.verification.None? && ChecksVerdict(d, i) == Accepted
    requires Speaks(r.voice) && IsRef(r.ref) && r.apply && r.projectRoot == i.projectRoot
    requires i.newCommit != d.sidecar.control.execution.baseCommit
    ensures Recover(Verify(d, i, AfterCommit).durable, r).durable.cycle.stage == L.Inconclusive
  {
    CrashBeforeVerdict(d, i, AfterCommit, r);
    assert HeadOf(VerifiedTree(d, i)) == i.newCommit;
  }

  /** The earlier record that settles the cycle: a rejection, or an acceptance whose commit is still there. */
  predicate Settled(crashed: Durable, projectRoot: string)
    requires crashed.sidecar.Sidecar?
  {
    var earlier := crashed.sidecar.control.verification;
    && earlier.Some? && earlier.value.cycleId == crashed.cycle.cycleId
    && (earlier.value.verdict == Rejected || Backed(crashed, projectRoot))
  }

  /** Recovery gives up or leaves the verification to be resumed exactly where no earlier record settles the cycle. */
  lemma ResumesOrGivesUpIffNotSettled(d: Durable, i: VerifyInput, crash: VerifyCrash, r: RecoverInput)
    requires ReadyToVerify(d, i) && crash in {AfterChecks, AfterCommit}
    requires Speaks(r.voice) && IsRef(r.ref) && r.apply && r.projectRoot == i.projectRoot
    ensures var crashed := Verify(d, i, crash).durable;
            crashed.sidecar.Sidecar?
            && (Recover(crashed, r).durable.cycle.stage in {L.Implemented, L.Inconclusive} <==> !Settled(crashed, r.projectRoot))
  {
    CrashBeforeVerdict(d, i, crash, r);
    assert Verify(d, i, crash).durable.sidecar == d.sidecar;
  }

  /** An accepted verdict stands on the committed, unchanged patch. */
  lemma AcceptedIsCommitted(d: Durable, i: VerifyInput)
    requires d.sidecar.Sidecar? && FinalVerdict(d, i) == Accepted
    ensures SamePatch(d.tree, d.sidecar.control.execution) && SamePatch(i.after, d.sidecar.control.execution)
    ensures i.results != [] && forall k :: 0 <= k < |i.results| ==> i.results[k] == Passed
    ensures VerifiedTree(d, i).Tree? && HeadOf(VerifiedTree(d, i)) == i.newCommit && !VerifiedTree(d, i).dirty
    ensures VerifiedTree(d, i).branchHead == if i.after.head == OnBranch then i.newCommit else i.after.branchHead
  {
  }

  /**
   * Once the verdict is recorded, recovery reaches the stage the run would have reached, again with
   * one exact exception: an accepted patch committed on a detached HEAD leaves the branch behind,
   * and recovery wants the branch on the commit.
   */
  lemma CrashAfterVerdict(d: Durable, i: VerifyInput, r: RecoverInput)
    requires ReadyToVerify(d, i)
    requires Speaks(r.voice) && IsRef(r.ref) && r.apply && r.projectRoot == i.projectRoot
    ensures var recovered := Recover(Verify(d, i, AfterVerdict).durable, r).durable.cycle.stage;
            var uninterrupted := Verify(d, i, VerifyRuns).durable.cycle.stage;
            && (recovered == uninterrupted
                <==> (FinalVerdict(d, i) == Accepted ==> VerifiedTree(d, i).branchHead == i.newCommit))
            && (recovered != uninterrupted ==> recovered == L.Inconclusive)
  {
    UninterruptedVerification(d, i);
    RecoveredVerdict(d, i, r);
  }

  lemma RecoveredVerdict(d: Durable, i: VerifyInput, r: RecoverInput)
    requires ReadyToVerify(d, i)
    requires Speaks(r.voice) && IsRef(r.ref) && r.apply && r.projectRoot == i.projectRoot
    ensures Recover(Verify(d, i, AfterVerdict).durable, r).durable.cycle.stage
            == if FinalVerdict(d, i) == Accepted && VerifiedTree(d, i).branchHead != i.newCommit then L.Inconclusive
               else AfterVerification(FinalVerdict(d, i))
  {
    assert Verify(d, i, AfterVerdict).durable == Recorded(d, i);
    PlanAfterVerdict(d, i);
    RecoveryCompletes(Recorded(d, i), r);
  }

  lemma PlanAfterVerdict(d: Durable, i: VerifyInput)
    requires ReadyToVerify(d, i)
    ensures PlanFor(Recorded(d, i), i.projectRoot).target
            == Some(if FinalVerdict(d, i) == Accepted && VerifiedTree(d, i).branchHead != i.newCommit then L.Inconclusive
                    else AfterVerification(FinalVerdict(d, i)))
  {
    if FinalVerdict(d, i) == Accepted { AcceptedIsCommitted(d, i); }
    var written := Recorded(d, i);
    assert InspectControl(written.sidecar, d.cycle.cycleId, i.projectRoot) == ControlValid(written.sidecar.control);
  }

  // ---------------------------------------------------------------- where recovery of a verification differs

  /**
   * A verification that rejected was killed before its transition, and the cycle verified again: killed
   * before its own verdict, the second one recovers to the first one's rejection, whatever it accepted.
   */
  lemma EarlierRejectionWins(d: Durable, first: VerifyInput, second: VerifyInput, crash: VerifyCrash, r: RecoverInput)
    requires ReadyToVerify(d, first) && FinalVerdict(d, first) == Rejected && crash in {AfterChecks, AfterCommit}
    requires var again := Verify(d, first, AfterVerdict).durable;
             ReadyToVerify(again, second) && FinalVerdict(again, second) == Accepted
    requires Speaks(r.voice) && IsRef(r.ref) && r.apply && r.projectRoot == second.projectRoot
    ensures var again := Verify(d, first, AfterVerdict).durable;
            && Verify(again, second, VerifyRuns).durable.cycle.stage == L.Verified
            && Recover(Verify(again, second, crash).durable, r).durable.cycle.stage == L.Rejected
  {
    var again := Verify(d, first, AfterVerdict).durable;
    assert again == Recorded(d, first);
    UninterruptedVerification(again, second);
    CrashBeforeVerdict(again, second, crash, r);
  }

  /** An implemented cycle with its sidecar, over a worktree as the implementation left it. */
  function ImplementedOn(t: Tree): Durable {
    var c := Planned().(stage := L.Implemented, artifacts := map[L.Changes := ["evidence:1"]]);
    var e := Execution("cycle-1", "implementer", 0, ["a.ts"], 7, "handoff-1", "parameters", Implemented);
    Durable(c, Sidecar(Control("cycle-1", "/project", "parameters", e, "evidence:1", None, None, None), true), t)
  }

  function Verifying(result: CommandStatus, t: Tree): VerifyInput {
    VerifyInput(Voice("verifier", "verify"), "/project", L.Instant(2), [result], t, 9, false, "evidence:2")
  }

  lemma ReadyOn(t: Tree, result: CommandStatus)
    ensures ReadyToVerify(ImplementedOn(t), Verifying(result, t))
  {
    TrimFixes("verifier");
  }

  /** Checks that fail, a kill, checks that pass, a kill: the accepted patch is rejected. */
  lemma RejectedThenAccepted()
    ensures var t := Tree(OnBranch, 0, ["a.ts"], Some(7), true);
            var again := Verify(ImplementedOn(t), Verifying(CommandFailed, t), AfterVerdict).durable;
            && Verify(again, Verifying(Passed, t), VerifyRuns).durable.cycle.stage == L.Verified
            && Recover(Verify(again, Verifying(Passed, t), AfterCommit).durable, RECOVERY).durable.cycle.stage == L.Rejected
  {
    var t := Tree(OnBranch, 0, ["a.ts"], Some(7), true);
    ReadyOn(t, CommandFailed);
    ReadyOn(t, Passed);
    var again := Verify(ImplementedOn(t), Verifying(CommandFailed, t), AfterVerdict).durable;
    assert again == Recorded(ImplementedOn(t), Verifying(CommandFailed, t));
    EarlierRejectionWins(ImplementedOn(t), Verifying(CommandFailed, t), Verifying(Passed, t), AfterCommit, RECOVERY);
  }

  lemma AcceptedOffTheBranch(d: Durable, i: VerifyInput, r: RecoverInput)
    requires ReadyToVerify(d, i) && FinalVerdict(d, i) == Accepted && VerifiedTree(d, i).branchHead != i.newCommit
    requires Speaks(r.voice) && IsRef(r.ref) && r.apply && r.projectRoot == i.projectRoot
    ensures Verify(d, i, VerifyRuns).durable.cycle.stage == L.Verified
    ensures Recover(Verify(d, i, AfterVerdict).durable, r).durable.cycle.stage == L.Inconclusive
  {
    UninterruptedVerification(d, i);
    RecoveredVerdict(d, i, r);
  }

  /** Accepted on a detached HEAD: verified without the crash, inconclusive after it. */
  lemma DetachedCommitIsGivenUp()
    ensures var d, i := ImplementedOn(MovedBranch()), Verifying(Passed, MovedBranch());
            && Verify(d, i, VerifyRuns).durable.cycle.stage == L.Verified
            && Recover(Verify(d, i, AfterVerdict).durable, RECOVERY).durable.cycle.stage == L.Inconclusive
  {
    ReadyOn(MovedBranch(), Passed);
    AcceptedOffTheBranch(ImplementedOn(MovedBranch()), Verifying(Passed, MovedBranch()), RECOVERY);
  }
}
