/** Where execute, verify and recover end, read off what they were given and met. */
module DeliveryOutcomes {
  import opened Prelude
  import opened Delivery
  import opened DeliveryRecovery

  // ---------------------------------------------------------------- execute

  /** Asking is refused without a trace unless every one of these holds. */
  lemma ExecutionStartsIff(d: Durable, i: ExecuteInput)
    requires L.PortableId(d.cycle.cycleId)
    ensures Execute(d, i, AfterWorktree).ending == Crashed <==>
              && i.trusted && i.repositoryClean && i.handoffReady && !Blank(i.voice.actor)
              && d.cycle.stage == L.Planned && (d.cycle.autonomy == L.A3 || d.cycle.autonomy == L.A4)
              && (d.cycle.risk == L.R3 || d.cycle.risk == L.R4 ==>
                    exists a :: a in d.cycle.approvals
                                && L.ApprovalMatches(a, L.ModifyCode, d.cycle.cycleId, "cycle:" + d.cycle.cycleId + ":modify-code", i.clock))
              && LatestHandoff(d.cycle).Some? && LatestHandoff(d.cycle).value.body == i.manifestDigest
    ensures Execute(d, i, AfterWorktree).ending != Crashed ==> forall crash :: Execute(d, i, crash) == Ran(d, Refused)
  {
    L.AllowedExecutionIsApproved(d.cycle, d.cycle.approvals, i.clock);
  }

  /** The last research record of the handoff bucket is the one that counts. */
  lemma HandoffIsTheLast(c: L.Cycle, older: seq<L.ResearchRecord>, last: L.ResearchRecord)
    requires c.research.Some? && L.ExecutionHandoffs in c.research.value
    requires c.research.value[L.ExecutionHandoffs] == older + [last]
    ensures LatestHandoff(c) == Some(last)
  {
  }

  /** The stage of an execution, on its command, its worktree and its scope. */
  lemma ExecutionEndsOn(d: Durable, i: ExecuteInput, executing: L.Cycle)
    requires Started(d, i, executing) && IsRef(i.ref) && Speaks(i.voice)
    ensures var stage := Execute(d, i, ExecuteRuns).durable.cycle.stage;
            var kept := && !i.boundaryError && i.scope == InScope && i.after.Tree? && i.after.digest.Some?
                        && i.base == (if i.after.head == OnBranch then i.after.branchHead else i.after.head.at);
            && (stage == L.Implemented <==> kept && i.command == Passed && i.after.changed != [])
            && (stage == L.Rejected <==> !kept || i.command == CommandFailed)
            && (stage == L.Inconclusive
                <==> kept && (i.command == Unavailable || i.command == TimedOut || (i.command == Passed && i.after.changed == [])))
  {
    UninterruptedExecution(d, i, executing);
    StageOfStatus(i);
  }

  lemma StageOfStatus(i: ExecuteInput)
    ensures var stage := AfterExecution(StatusOf(i));
            var kept := && !i.boundaryError && i.scope == InScope && i.after.Tree? && i.after.digest.Some?
                        && i.base == (if i.after.head == OnBranch then i.after.branchHead else i.after.head.at);
            && (stage == L.Implemented <==> kept && i.command == Passed && i.after.changed != [])
            && (stage == L.Rejected <==> !kept || i.command == CommandFailed)
            && (stage == L.Inconclusive
                <==> kept && (i.command == Unavailable || i.command == TimedOut || (i.command == Passed && i.after.changed == [])))
  {
  }

  /** The sidecar describes the worktree that was left, and names who did it, for which handoff, from where. */
  lemma ExecutionIsRecorded(d: Durable, i: ExecuteInput, executing: L.Cycle)
    requires Started(d, i, executing) && i.after.Tree? && i.after.digest.Some? && i.scope != ScopeRaises
    ensures LatestHandoff(d.cycle).Some?
    ensures var s := Execute(d, i, AfterControl).durable.sidecar;
            && s.Sidecar? && s.sealed && s.control.cycleId == d.cycle.cycleId && s.control.projectRoot == i.projectRoot
            && s.control.manifestDigest == i.manifestDigest && s.control.executionEvidenceRef == i.ref
            && s.control.verification == None && s.control.verificationEvidenceRef == None && s.control.publication == None
            && s.control.execution.cycleId == d.cycle.cycleId && s.control.execution.actor == Trim(i.voice.actor)
            && s.control.execution.baseCommit == i.base && s.control.execution.changedFiles == i.after.changed
            && s.control.execution.patchDigest == i.after.digest.value
            && s.control.execution.handoffId == LatestHandoff(d.cycle).value.recordId
            && s.control.execution.handoffDigest == LatestHandoff(d.cycle).value.body
    ensures Execute(d, i, AfterControl).durable.tree == i.after
  {
    StartedSteps(d, i, executing, AfterControl);
  }

  /** A worktree that cannot be digested is recorded with the digest of nothing. */
  lemma UndigestedIsRecordedEmpty(d: Durable, i: ExecuteInput, executing: L.Cycle)
    requires Started(d, i, executing) && (!i.after.Tree? || i.after.digest.None? || i.scope == ScopeRaises)
    ensures var s := Execute(d, i, AfterControl).durable.sidecar;
            && s.Sidecar? && s.control.execution.patchDigest == EMPTY_DIGEST
            && s.control.execution.changedFiles == (if i.after.Tree? then i.after.changed else [])
            && s.control.execution.status == Failed
  {
    StartedSteps(d, i, executing, AfterControl);
  }

  /** What a crash leaves: a fresh worktree, then the started cycle, then what the command did, then the sidecar. */
  lemma ExecutionAtItsCrash(d: Durable, i: ExecuteInput, executing: L.Cycle)
    requires Started(d, i, executing)
    ensures var fresh_ := Tree(OnBranch, i.base, [], Some(EMPTY_DIGEST), false);
            && Execute(d, i, AfterWorktree) == Ran(Durable(d.cycle, d.sidecar, fresh_), Crashed)
            && Execute(d, i, AfterStart) == Ran(Durable(executing, d.sidecar, fresh_), Crashed)
    ensures Execute(d, i, AfterCommand) == Ran(Durable(executing, d.sidecar, i.after), Crashed)
    ensures var r := Execute(d, i, AfterControl); r.ending == Crashed && r.durable.cycle == executing && r.durable.tree == i.after
  {
  }

  /** Without a crash it ends with an answer: refused by the start, or by the last transition, what was written before stays. */
  lemma ExecutionAnswers(d: Durable, i: ExecuteInput)
    requires CanExecute(d.cycle, i)
    ensures var r := Execute(d, i, ExecuteRuns);
            if Start(d.cycle, i).Err? then r == Ran(Execute(d, i, AfterWorktree).durable, Refused)
            else
              var before := Execute(d, i, AfterControl).durable;
              && r.durable.sidecar == before.sidecar && r.durable.tree == before.tree
              && (r.ending == Finished(r.durable.cycle) || r == Ran(before, Refused))
  {
  }

  // ---------------------------------------------------------------- verify

  lemma VerificationStartsIff(d: Durable, i: VerifyInput)
    ensures Verify(d, i, AfterChecks).ending == Crashed <==>
              && Trim(i.voice.actor) != "" && d.cycle.stage == L.Implemented
              && d.sidecar.Sidecar? && d.sidecar.sealed && LatestHandoff(d.cycle).Some?
              && var k, handoff := d.sidecar.control, LatestHandoff(d.cycle).value;
                 && k.cycleId == d.cycle.cycleId && k.execution.cycleId == d.cycle.cycleId && k.projectRoot == i.projectRoot
                 && k.executionEvidenceRef in L.Get(d.cycle.artifacts, L.Changes)
                 && k.execution.handoffId == handoff.recordId && k.execution.handoffDigest == handoff.body
                 && k.manifestDigest == handoff.body && k.execution.status == Implemented
                 && k.execution.actor != Trim(i.voice.actor)
    ensures Verify(d, i, AfterChecks).ending != Crashed ==> forall crash :: Verify(d, i, crash) == Ran(d, Refused)
  {
  }

  /** The worktree stands as the execution left it: HEAD, files and content. */
  predicate Untouched(t: Tree, e: Execution) {
    match t
    case Tree(OnBranch, branchHead, changed, digest, _) =>
      branchHead == e.baseCommit && changed == e.changedFiles && digest == Some(e.patchDigest)
    case Tree(Detached(at), _, changed, digest, _) =>
      at == e.baseCommit && changed == e.changedFiles && digest == Some(e.patchDigest)
    case _ => false
  }

  /** The stage of a verification, on the worktree around its checks, their results and its commit. */
  lemma VerificationEndsOn(d: Durable, i: VerifyInput)
    requires ReadyToVerify(d, i)
    ensures var stage, e := Verify(d, i, VerifyRuns).durable.cycle.stage, d.sidecar.control.execution;
            var kept := Untouched(d.tree, e) && Untouched(i.after, e);
            var passed := i.results != [] && forall k :: 0 <= k < |i.results| ==> i.results[k] == Passed;
            && (stage == L.Verified <==> kept && passed && !i.dirtyAfterCommit)
            && (stage == L.Rejected <==> !kept || CommandFailed in i.results || (passed && i.dirtyAfterCommit))
            && (stage == L.Inconclusive <==> kept && CommandFailed !in i.results && !passed)
  {
    UninterruptedVerification(d, i);
    var e := d.sidecar.control.execution;
    assert SamePatch(d.tree, e) == Untouched(d.tree, e) && SamePatch(i.after, e) == Untouched(i.after, e);
    ResultsSplit(i.results);
  }

  lemma ResultsSplit(results: seq<CommandStatus>)
    ensures (forall k :: 0 <= k < |results| ==> results[k] == Passed)
            <==> CommandFailed !in results && Unavailable !in results && TimedOut !in results
  {
  }

  /** What a crash leaves: the worktree after the checks, which ran only on a kept patch, then perhaps the commit, then the record. */
  lemma VerificationAtItsCrash(d: Durable, i: VerifyInput)
    requires ReadyToVerify(d, i)
    ensures var e, r := d.sidecar.control.execution, Verify(d, i, AfterChecks);
            r == Ran(Durable(d.cycle, d.sidecar, if Untouched(d.tree, e) then i.after else d.tree), Crashed)
    ensures var e, r := d.sidecar.control.execution, Verify(d, i, AfterCommit);
            var commits := Untouched(d.tree, e) && Untouched(i.after, e)
                           && i.results != [] && forall k :: 0 <= k < |i.results| ==> i.results[k] == Passed;
            && r.ending == Crashed && r.durable.cycle == d.cycle && r.durable.sidecar == d.sidecar
            && (!commits ==> r.durable.tree == Verify(d, i, AfterChecks).durable.tree)
            && (commits ==>
                  r.durable.tree.Tree? && r.durable.tree.dirty == i.dirtyAfterCommit
                  && (!i.dirtyAfterCommit ==> r.durable.tree.changed == [] && r.durable.tree.digest == Some(EMPTY_DIGEST))
                  && (if i.after.head == OnBranch then r.durable.tree.head == OnBranch && r.durable.tree.branchHead == i.newCommit
                      else r.durable.tree.head == Detached(i.newCommit) && r.durable.tree.branchHead == i.after.branchHead))
  {
    var e := d.sidecar.control.execution;
    assert SamePatch(d.tree, e) == Untouched(d.tree, e) && SamePatch(i.after, e) == Untouched(i.after, e);
    ResultsSplit(i.results);
  }

  /** Any verdict is on record before the cycle moves: with its verifier, and a commit only where it accepts. */
  lemma VerdictIsRecorded(d: Durable, i: VerifyInput)
    requires ReadyToVerify(d, i)
    ensures var e, r := d.sidecar.control.execution, Verify(d, i, AfterVerdict);
            && r.ending == Crashed && r.durable.cycle == d.cycle && r.durable.tree == Verify(d, i, AfterCommit).durable.tree
            && r.durable.sidecar.Sidecar? && r.durable.sidecar.sealed && r.durable.sidecar.control.execution == e
            && r.durable.sidecar.control.verificationEvidenceRef == Some(i.ref)
            && r.durable.sidecar.control.verification.Some?
            && var v := r.durable.sidecar.control.verification.value;
               && v.cycleId == d.cycle.cycleId && v.verifier == Trim(i.voice.actor)
               && (v.verdict == Accepted <==> v.commitSha == Some(i.newCommit)) && (v.verdict != Accepted <==> v.commitSha == None)
               && v.verdict == (match Verify(d, i, VerifyRuns).durable.cycle.stage
                                case Verified => Accepted case Rejected => Verdict.Rejected case _ => Undecided)
  {
    UninterruptedVerification(d, i);
  }

  /** The last transition moves the cycle alone; where it is refused, what was written before it stays. */
  lemma LastMoveKeepsFiles(d: Durable, i: VerifyInput)
    ensures var r, before := Verify(d, i, VerifyRuns), Verify(d, i, AfterVerdict).durable;
            && r.durable.sidecar == before.sidecar && r.durable.tree == before.tree
            && (r.ending == Finished(r.durable.cycle) || (r.ending == Refused && r.durable == before))
  {
  }

  /** What an accepted verification leaves: its record, and the commit that moves the branch only under an attached HEAD. */
  lemma AcceptanceIsRecorded(d: Durable, i: VerifyInput)
    requires ReadyToVerify(d, i) && Verify(d, i, VerifyRuns).durable.cycle.stage == L.Verified
    ensures var r := Verify(d, i, VerifyRuns).durable;
            && r.sidecar.Sidecar? && r.sidecar.sealed && r.sidecar.control.verificationEvidenceRef == Some(i.ref)
            && r.sidecar.control.verification
               == Some(Verification(d.cycle.cycleId, Trim(i.voice.actor), Accepted, Some(i.newCommit)))
            && r.sidecar.control.execution == d.sidecar.control.execution
            && i.after.Tree? && r.tree.Tree? && !r.tree.dirty && r.tree.changed == [] && r.tree.digest == Some(EMPTY_DIGEST)
            && (i.after.head == OnBranch ==> r.tree.head == OnBranch && r.tree.branchHead == i.newCommit)
            && (i.after.head != OnBranch ==> r.tree.head == Detached(i.newCommit) && r.tree.branchHead == i.after.branchHead)
  {
    VerificationEndsOn(d, i);
    VerificationAtItsCrash(d, i);
    VerdictIsRecorded(d, i);
    LastMoveKeepsFiles(d, i);
  }

  // ---------------------------------------------------------------- recover

  /** A sidecar recovery can rely on. */
  predicate Reliable(d: Durable, projectRoot: string) {
    && d.sidecar.Sidecar? && d.sidecar.sealed
    && var k := d.sidecar.control;
       && k.cycleId == d.cycle.cycleId && k.execution.cycleId == d.cycle.cycleId && k.projectRoot == projectRoot
       && k.executionEvidenceRef != ""
       && (k.verification == None || k.verification.value.cycleId == d.cycle.cycleId)
  }

  lemma ControlReads(d: Durable, projectRoot: string)
    ensures var c := InspectControl(d.sidecar, d.cycle.cycleId, projectRoot);
            && (c.ControlValid? <==> Reliable(d, projectRoot))
            && (c.ControlMissing? <==> d.sidecar == NoSidecar)
            && (c.ControlValid? ==> c.control == d.sidecar.control)
            && (!Reliable(d, projectRoot) ==> InspectWorktree(c, d.tree) == NotInspected)
  {
  }

  /** The worktree's status, on what is seen of it. */
  lemma WorktreeReads(d: Durable, projectRoot: string)
    requires Reliable(d, projectRoot)
    ensures var k, t := d.sidecar.control, d.tree;
            var w := InspectWorktree(ControlValid(k), t);
            var accepted := k.verification.Some? && k.verification.value.verdict == Accepted && k.verification.value.commitSha.Some?;
            && (w == Missing <==> t == Gone)
            && (w == NotAvailable <==> t == Unreadable || (t.Tree? && t.digest == None))
            && (w == VerifiedCommitIntact <==>
                  t.Tree? && t.digest.Some? && !t.dirty && accepted && t.branchHead == k.verification.value.commitSha.value
                  && (t.head == OnBranch || t.head == Detached(t.branchHead)))
            && (w == ImplementationIntact <==>
                  w != VerifiedCommitIntact && Untouched(t, k.execution) && t.branchHead == k.execution.baseCommit)
            && (w == UnrecordedCommit <==>
                  k.verification == None && t.Tree? && t.digest.Some? && !t.dirty && t.branchHead != k.execution.baseCommit
                  && (t.head == OnBranch || t.head == Detached(t.branchHead)))
            && w != NotInspected
  {
    assert SamePatch(d.tree, d.sidecar.control.execution) == Untouched(d.tree, d.sidecar.control.execution);
  }

  /** An executing cycle: its recorded failure or doubt is applied as it stands, an implementation only if it is untouched. */
  lemma ExecutingPlan(d: Durable, projectRoot: string)
    requires d.cycle.stage == L.Executing
    ensures var plan := PlanFor(d, projectRoot);
            if !Reliable(d, projectRoot) then plan == Plan(MarkInconclusive, Some(L.Inconclusive))
            else
              var e := d.sidecar.control.execution;
              match e.status
              case Failed => plan == Plan(ApplyTransition, Some(L.Rejected))
              case Inconclusive => plan == Plan(ApplyTransition, Some(L.Inconclusive))
              case Implemented =>
                plan == if InspectWorktree(ControlValid(d.sidecar.control), d.tree) == ImplementationIntact
                        then Plan(ApplyTransition, Some(L.Implemented)) else Plan(MarkInconclusive, Some(L.Inconclusive))
  {
    ControlReads(d, projectRoot);
  }

  /** An implemented cycle: the verdict on record decides, an acceptance only with its commit and evidence. */
  lemma ImplementedPlan(d: Durable, projectRoot: string)
    requires d.cycle.stage == L.Implemented
    ensures var plan := PlanFor(d, projectRoot);
            if !Reliable(d, projectRoot) then plan == Plan(MarkInconclusive, Some(L.Inconclusive))
            else
              match d.sidecar.control.verification
              case None =>
                plan == if Untouched(d.tree, d.sidecar.control.execution)
                           && d.tree.branchHead == d.sidecar.control.execution.baseCommit
                        then Plan(ResumeVerification, None) else Plan(MarkInconclusive, Some(L.Inconclusive))
              case Some(v) =>
                match v.verdict
                case Rejected => plan == Plan(ApplyTransition, Some(L.Rejected))
                case Undecided => plan == Plan(ApplyTransition, Some(L.Inconclusive))
                case Accepted =>
                  plan == if Backed(d, projectRoot) then Plan(ApplyTransition, Some(L.Verified))
                          else Plan(MarkInconclusive, Some(L.Inconclusive))
  {
    ControlReads(d, projectRoot);
    if Reliable(d, projectRoot) {
      WorktreeReads(d, projectRoot);
      VerifiedExactlyWhenBacked(d, projectRoot);
    }
  }

  /** A verified cycle and every other one: nothing is moved. */
  lemma SettledPlan(d: Durable, projectRoot: string)
    requires d.cycle.stage != L.Executing && d.cycle.stage != L.Implemented
    ensures PlanFor(d, projectRoot)
            == if d.cycle.stage != L.Verified then Plan(Healthy, None)
               else if !Reliable(d, projectRoot) then Plan(Blocked, None)
               else if d.sidecar.control.publication == Some(false) then Plan(ResumePublication, None)
               else Plan(Healthy, None)
  {
    ControlReads(d, projectRoot);
  }

  /** An applied recovery links its own evidence, and the evidence of what it relied on. */
  lemma RecoveryLinksEvidence(d: Durable, r: RecoverInput)
    requires Speaks(r.voice) && IsRef(r.ref) && r.apply && PlanFor(d, r.projectRoot).target.Some?
    ensures var after := Recover(d, r).durable.cycle.artifacts;
            var bucket := if d.cycle.stage == L.Executing then L.Changes else L.Verification;
            && r.ref in L.Get(after, bucket)
            && (Reliable(d, r.projectRoot) && d.cycle.stage == L.Executing && Trimmed(d.sidecar.control.executionEvidenceRef) ==>
                  d.sidecar.control.executionEvidenceRef in L.Get(after, bucket))
            && (Reliable(d, r.projectRoot) && d.cycle.stage == L.Implemented
                && d.sidecar.control.verificationEvidenceRef.Some? && IsRef(d.sidecar.control.verificationEvidenceRef.value) ==>
                  d.sidecar.control.verificationEvidenceRef.value in L.Get(after, bucket))
  {
    var b := if d.cycle.stage == L.Executing then L.Changes else L.Verification;
    var refs := RecoveryNames(d, r);
    RecoveredReference(d, r, b, refs, r.ref);
    if Reliable(d, r.projectRoot) && d.cycle.stage == L.Executing && Trimmed(d.sidecar.control.executionEvidenceRef) {
      RecoveredReference(d, r, b, refs, d.sidecar.control.executionEvidenceRef);
    }
    if Reliable(d, r.projectRoot) && d.cycle.stage == L.Implemented && d.sidecar.control.verificationEvidenceRef.Some?
       && IsRef(d.sidecar.control.verificationEvidenceRef.value) {
      RecoveredReference(d, r, b, refs, d.sidecar.control.verificationEvidenceRef.value);
    }
  }

  predicate Legal(d: Durable, projectRoot: string, b: L.Bucket)
    requires PlanFor(d, projectRoot).target.Some?
  {
    var target := PlanFor(d, projectRoot).target.value;
    !L.Terminal(d.cycle.stage) && L.CanTransition(d.cycle.stage, target) && target != L.Executing
    && L.RequiredArtifacts(target) <= {b}
  }

  /** The list of references a recovery hands to the transition, and that the transition is a legal one. */
  lemma RecoveryNames(d: Durable, r: RecoverInput) returns (refs: seq<string>)
    requires PlanFor(d, r.projectRoot).target.Some? && IsRef(r.ref)
    ensures var b := if d.cycle.stage == L.Executing then L.Changes else L.Verification;
            TransitionArtifacts(d.cycle.stage, InspectControl(d.sidecar, d.cycle.cycleId, r.projectRoot), r.ref) == Adding(b, refs)
            && Legal(d, r.projectRoot, b)
    ensures r.ref in refs
    ensures Reliable(d, r.projectRoot) && d.cycle.stage == L.Executing && Trimmed(d.sidecar.control.executionEvidenceRef) ==>
              d.sidecar.control.executionEvidenceRef in refs && IsRef(d.sidecar.control.executionEvidenceRef)
    ensures Reliable(d, r.projectRoot) && d.cycle.stage == L.Implemented && d.sidecar.control.verificationEvidenceRef.Some?
            && IsRef(d.sidecar.control.verificationEvidenceRef.value) ==>
              d.sidecar.control.verificationEvidenceRef.value in refs
  {
    var inspected := InspectControl(d.sidecar, d.cycle.cycleId, r.projectRoot);
    ControlReads(d, r.projectRoot);
    PlannedStepIsLegal(d.cycle.stage, inspected, InspectWorktree(inspected, d.tree));
    refs := TransitionArtifacts(d.cycle.stage, inspected, r.ref).refs[if d.cycle.stage == L.Executing then L.Changes else L.Verification];
  }

  lemma RecoveredReference(d: Durable, r: RecoverInput, b: L.Bucket, refs: seq<string>, ref: string)
    requires Speaks(r.voice) && r.apply && PlanFor(d, r.projectRoot).target.Some?
    requires b == (if d.cycle.stage == L.Executing then L.Changes else L.Verification)
    requires TransitionArtifacts(d.cycle.stage, InspectControl(d.sidecar, d.cycle.cycleId, r.projectRoot), r.ref) == Adding(b, refs)
    requires ref in refs && IsRef(ref)
    requires Legal(d, r.projectRoot, b)
    ensures ref in L.Get(Recover(d, r).durable.cycle.artifacts, b)
  {
    var target := PlanFor(d, r.projectRoot).target.value;
    LinkingMove(d, target, r.voice, r.now, b, refs, target == L.Verified, ref);
  }
}
