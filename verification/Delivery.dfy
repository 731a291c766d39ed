/**
 * Governed delivery of one cycle: execute, verify and crash recovery over the three things that
 * survive a crash, the cycle in the store, the control sidecar and the git worktree.
 */
module Delivery {
  import opened Prelude
  import L = Lifecycle

  // ---------------------------------------------------------------- durable state

  type Commit = nat

  /** SHA-256 of the changed files' kinds, modes and contents, taken as injective. */
  type Digest = nat

  const EMPTY_DIGEST: Digest := 0

  datatype Head = OnBranch | Detached(at: Commit)

  /** `digest` is None where patchDigest raises, as for a symlink that escapes the worktree. */
  datatype Tree =
    | Gone
    | Unreadable
    | Tree(head: Head, branchHead: Commit, changed: seq<string>, digest: Option<Digest>, dirty: bool)

  function HeadOf(t: Tree): Commit
    requires t.Tree?
  {
    if t.head.OnBranch? then t.branchHead else t.head.at
  }

  datatype Status = Implemented | Failed | Inconclusive

  datatype Verdict = Accepted | Rejected | Undecided

  datatype CommandStatus = Passed | CommandFailed | Unavailable | TimedOut

  datatype Execution = Execution(
    cycleId: string, actor: string, baseCommit: Commit, changedFiles: seq<string>, patchDigest: Digest,
    handoffId: string, handoffDigest: string, status: Status)

  datatype Verification = Verification(cycleId: string, verifier: string, verdict: Verdict, commitSha: Option<Commit>)

  /** `publication` tells whether a recorded publication has been completed. */
  datatype Control = Control(
    cycleId: string, projectRoot: string, manifestDigest: string,
    execution: Execution, executionEvidenceRef: string,
    verification: Option<Verification>, verificationEvidenceRef: Option<string>, publication: Option<bool>)

  /** `sealed`: the integrity digest is that of the payload. */
  datatype Sidecar = NoSidecar | Unparsable | Sidecar(control: Control, sealed: bool)

  datatype Durable = Durable(cycle: L.Cycle, sidecar: Sidecar, tree: Tree)

  /** parameterDigest is part of the record; the record's body stands for it. */
  function LatestHandoff(c: L.Cycle): Option<L.ResearchRecord> {
    var handoffs := L.Get(L.Base(c.research), L.ExecutionHandoffs);
    if handoffs == [] then None else Some(handoffs[|handoffs| - 1])
  }

  predicate IsRef(ref: string) {
    ref != "" && Trimmed(ref)
  }

  function NoAdditions(): L.Additions {
    L.AdditionsObject([], map[])
  }

  function Adding(b: L.Bucket, refs: seq<string>): L.Additions {
    L.AdditionsObject([b], map[b := refs])
  }

  /** Who asks for a step, and the message the history keeps. */
  datatype Voice = Voice(actor: string, reason: string)

  predicate Speaks(v: Voice) {
    !Blank(v.actor) && !Blank(v.reason)
  }

  /** The code passes the trimmed actor, and transitionCycle trims again: trimming twice is trimming once. */
  function Input(v: Voice, now: L.Time, additions: L.Additions, passed: bool): L.TransitionInput {
    L.TransitionInput(v.actor, v.reason, now, additions, map[], [], passed)
  }

  // ---------------------------------------------------------------- execute

  /** The answer of scopeViolations on the changed files. */
  datatype ScopeCheck = InScope | OutOfScope | ScopeRaises

  /** What execute is given and what it meets: the command's result and the worktree it leaves. */
  datatype ExecuteInput = ExecuteInput(
    trusted: bool, voice: Voice, repositoryClean: bool, handoffReady: bool, manifestDigest: string,
    projectRoot: string, clock: L.Time, now: L.Time, completed: L.Time,
    base: Commit, command: CommandStatus, boundaryError: bool, after: Tree, scope: ScopeCheck, ref: string)

  datatype ExecuteCrash = ExecuteRuns | AfterWorktree | AfterStart | AfterCommand | AfterControl

  datatype Ending = Finished(cycle: L.Cycle) | Refused | Crashed

  predicate CanExecute(c: L.Cycle, i: ExecuteInput) {
    && i.trusted && !Blank(i.voice.actor) && i.repositoryClean && c.stage == L.Planned
    && c.autonomy in {L.A3, L.A4} && L.ExecutionAllowed(c, c.approvals, i.clock)
    && LatestHandoff(c).Some? && i.manifestDigest == LatestHandoff(c).value.body && i.handoffReady
  }

  /** What is seen of the worktree after the command, and whether anything violates the handoff. */
  function ChangedFiles(t: Tree): seq<string> {
    if t.Tree? then t.changed else []
  }

  /** The patch digest, where the snapshot got as far as computing it. */
  function ObservedDigest(i: ExecuteInput): Digest {
    if i.after.Tree? && i.after.digest.Some? && i.scope != ScopeRaises then i.after.digest.value else EMPTY_DIGEST
  }

  predicate Violates(i: ExecuteInput) {
    || !i.after.Tree? || i.after.digest.None?
    || i.boundaryError || HeadOf(i.after) != i.base || i.scope != InScope
  }

  function ExecutionStatus(command: CommandStatus, changed: seq<string>, violates: bool): Status {
    if violates || command == CommandFailed then Failed
    else if command == Unavailable || command == TimedOut then Inconclusive
    else if command == Passed && changed != [] then Implemented
    else Inconclusive
  }

  function StatusOf(i: ExecuteInput): Status {
    ExecutionStatus(if i.boundaryError then CommandFailed else i.command, ChangedFiles(i.after), Violates(i))
  }

  function ExecutedControl(c: L.Cycle, i: ExecuteInput): Control
    requires LatestHandoff(c).Some?
  {
    Control(c.cycleId, i.projectRoot, i.manifestDigest,
            Execution(c.cycleId, Trim(i.voice.actor), i.base, ChangedFiles(i.after), ObservedDigest(i),
                      LatestHandoff(c).value.recordId, LatestHandoff(c).value.body, StatusOf(i)),
            i.ref, None, None, None)
  }

  function AfterExecution(s: Status): L.Stage {
    match s case Implemented => L.Implemented case Failed => L.Rejected case Inconclusive => L.Inconclusive
  }

  function FreshTree(base: Commit): Tree {
    Tree(OnBranch, base, [], Some(EMPTY_DIGEST), false)
  }

  datatype Ran = Ran(durable: Durable, ending: Ending)

  /** executeDelivery up to its end or its crash. */
  ghost function Execute(d: Durable, i: ExecuteInput, crash: ExecuteCrash): Ran {
    if !CanExecute(d.cycle, i) then Ran(d, Refused)
    else
      var d1 := d.(tree := FreshTree(i.base));
      if crash == AfterWorktree then Ran(d1, Crashed)
      else
        match Start(d.cycle, i)
        case Err(_) => Ran(d1, Refused)
        case Ok(executing) => ExecuteStarted(d1, executing, i, crash)
  }

  ghost function Start(c: L.Cycle, i: ExecuteInput): Result<L.Cycle, L.Error> {
    L.Transition(c, L.Executing, Input(i.voice, i.now, NoAdditions(), false))
  }

  /** From the saved start on: the command, the sidecar, the final transition. */
  ghost function ExecuteStarted(d: Durable, executing: L.Cycle, i: ExecuteInput, crash: ExecuteCrash): Ran
    requires LatestHandoff(d.cycle).Some?
  {
    if crash == AfterStart then Ran(d.(cycle := executing), Crashed)
    else if crash == AfterCommand then Ran(d.(cycle := executing, tree := i.after), Crashed)
    else if crash == AfterControl then Ran(Written(d.cycle, i, executing), Crashed)
    else Move(Written(d.cycle, i, executing), AfterExecution(StatusOf(i)), StatusInput(i))
  }

  /** What is durable once the sidecar is written. */
  function Written(planned: L.Cycle, i: ExecuteInput, executing: L.Cycle): Durable
    requires LatestHandoff(planned).Some?
  {
    Durable(executing, Sidecar(ExecutedControl(planned, i), true), i.after)
  }

  function StatusInput(i: ExecuteInput): L.TransitionInput {
    Input(i.voice, i.completed, Adding(L.Changes, [i.ref]), false)
  }

  /** The transition a delivery ends on, and its save. */
  ghost function Move(d: Durable, to: L.Stage, input: L.TransitionInput): Ran {
    match L.Transition(d.cycle, to, input)
    case Err(_) => Ran(d, Refused)
    case Ok(done) => Ran(d.(cycle := done), Finished(done))
  }

  // ---------------------------------------------------------------- verify

  datatype VerifyInput = VerifyInput(
    voice: Voice, projectRoot: string, completed: L.Time, results: seq<CommandStatus>, after: Tree,
    newCommit: Commit, dirtyAfterCommit: bool, ref: string)

  datatype VerifyCrash = VerifyRuns | AfterChecks | AfterCommit | AfterVerdict

  /** loadControl accepts the sidecar. */
  predicate Loads(s: Sidecar, cycleId: string) {
    s.Sidecar? && s.sealed && s.control.cycleId == cycleId && s.control.execution.cycleId == cycleId
  }

  predicate CanVerify(d: Durable, verifier: string, projectRoot: string) {
    && verifier != "" && d.cycle.stage == L.Implemented && Loads(d.sidecar, d.cycle.cycleId)
    && var control := d.sidecar.control;
       && control.executionEvidenceRef in L.Get(d.cycle.artifacts, L.Changes)
       && LatestHandoff(d.cycle).Some?
       && control.execution.handoffId == LatestHandoff(d.cycle).value.recordId
       && control.execution.handoffDigest == LatestHandoff(d.cycle).value.body
       && control.manifestDigest == LatestHandoff(d.cycle).value.body
       && control.execution.status == Implemented
       && control.projectRoot == projectRoot
       && control.execution.actor != verifier
  }

  /** HEAD, changed files and patch are those of the execution record. The branch is not looked at. */
  predicate SamePatch(t: Tree, e: Execution) {
    && t.Tree? && t.digest.Some?
    && HeadOf(t) == e.baseCommit && t.changed == e.changedFiles && t.digest.value == e.patchDigest
  }

  function VerdictOf(before: bool, after: bool, results: seq<CommandStatus>): Verdict {
    if !before || !after || CommandFailed in results then Rejected
    else if results == [] || Unavailable in results || TimedOut in results then Undecided
    else Accepted
  }

  /** `git commit`: HEAD moves, and the branch with it only while HEAD is on the branch. */
  function Committed(t: Tree, c: Commit, dirty: bool): Tree
    requires t.Tree?
  {
    t.(head := if t.head.OnBranch? then OnBranch else Detached(c),
       branchHead := if t.head.OnBranch? then c else t.branchHead,
       changed := if dirty then t.changed else [],
       digest := if dirty then t.digest else Some(EMPTY_DIGEST), dirty := dirty)
  }

  function VerifiedControl(k: Control, verifier: string, verdict: Verdict, sha: Option<Commit>, ref: string): Control {
    k.(verification := Some(Verification(k.cycleId, verifier, verdict, sha)), verificationEvidenceRef := Some(ref))
  }

  function AfterVerification(v: Verdict): L.Stage {
    match v case Accepted => L.Verified case Rejected => L.Rejected case Undecided => L.Inconclusive
  }

  /** The worktree once the commands have run; they do not run when the patch is not intact. */
  function Checked(d: Durable, i: VerifyInput): Tree
    requires d.sidecar.Sidecar?
  {
    if SamePatch(d.tree, d.sidecar.control.execution) then i.after else d.tree
  }

  function ChecksVerdict(d: Durable, i: VerifyInput): Verdict
    requires d.sidecar.Sidecar?
  {
    var e := d.sidecar.control.execution;
    var before := SamePatch(d.tree, e);
    VerdictOf(before, SamePatch(Checked(d, i), e), if before then i.results else [])
  }

  /** The verdict that is recorded: an accepted patch that does not commit clean is rejected. */
  function FinalVerdict(d: Durable, i: VerifyInput): Verdict
    requires d.sidecar.Sidecar?
  {
    if ChecksVerdict(d, i) == Accepted && i.dirtyAfterCommit then Rejected else ChecksVerdict(d, i)
  }

  function VerifiedTree(d: Durable, i: VerifyInput): Tree
    requires d.sidecar.Sidecar?
  {
    if ChecksVerdict(d, i) == Accepted then Committed(Checked(d, i), i.newCommit, i.dirtyAfterCommit) else Checked(d, i)
  }

  /** What is durable once the verdict is in the sidecar. */
  function Recorded(d: Durable, i: VerifyInput): Durable
    requires d.sidecar.Sidecar?
  {
    var verdict := FinalVerdict(d, i);
    var sha := if verdict == Accepted then Some(i.newCommit) else None;
    Durable(d.cycle, Sidecar(VerifiedControl(d.sidecar.control, Trim(i.voice.actor), verdict, sha, i.ref), true), VerifiedTree(d, i))
  }

  function VerdictInput(i: VerifyInput, verdict: Verdict): L.TransitionInput {
    Input(i.voice, i.completed, Adding(L.Verification, [i.ref]), verdict == Accepted)
  }

  ghost function Verify(d: Durable, i: VerifyInput, crash: VerifyCrash): Ran {
    if !CanVerify(d, Trim(i.voice.actor), i.projectRoot) then Ran(d, Refused)
    else if crash == AfterChecks then Ran(d.(tree := Checked(d, i)), Crashed)
    else if crash == AfterCommit then Ran(d.(tree := VerifiedTree(d, i)), Crashed)
    else if crash == AfterVerdict then Ran(Recorded(d, i), Crashed)
    else Move(Recorded(d, i), AfterVerification(FinalVerdict(d, i)), VerdictInput(i, FinalVerdict(d, i)))
  }

  // ---------------------------------------------------------------- recovery

  datatype ControlInspection = ControlMissing | ControlInvalid | ControlValid(control: Control)

  function InspectControl(s: Sidecar, cycleId: string, projectRoot: string): ControlInspection {
    match s
    case NoSidecar => ControlMissing
    case Unparsable => ControlInvalid
    case Sidecar(control, sealed) =>
      if sealed && control.cycleId == cycleId && control.projectRoot == projectRoot
         && control.execution.cycleId == cycleId && control.executionEvidenceRef != ""
         && (control.verification.Some? ==> control.verification.value.cycleId == cycleId)
      then ControlValid(control) else ControlInvalid
  }

  datatype WorktreeStatus =
    | NotInspected | VerifiedCommitIntact | ImplementationIntact | UnrecordedCommit | Diverged | Missing | NotAvailable

  /** The accepted commit a verification record vouches for. */
  function AcceptedCommit(k: Control): Option<Commit> {
    if k.verification.Some? && k.verification.value.verdict == Accepted then k.verification.value.commitSha else None
  }

  function InspectWorktree(inspected: ControlInspection, t: Tree): WorktreeStatus {
    match inspected
    case ControlMissing => NotInspected
    case ControlInvalid => NotInspected
    case ControlValid(k) =>
      if t.Gone? then Missing
      else if t.Unreadable? || t.digest.None? then NotAvailable
      else if AcceptedCommit(k) == Some(HeadOf(t)) && t.branchHead == HeadOf(t) && !t.dirty then VerifiedCommitIntact
      else if SamePatch(t, k.execution) && t.branchHead == k.execution.baseCommit then ImplementationIntact
      else if k.verification.None? && HeadOf(t) != k.execution.baseCommit && t.branchHead == HeadOf(t) && !t.dirty then UnrecordedCommit
      else Diverged
  }

  datatype Decision =
    | ApplyTransition | MarkInconclusive | ResumeVerification | ResumePublication | Healthy | Blocked

  datatype Plan = Plan(decision: Decision, target: Option<L.Stage>)

  const GIVE_UP := Plan(MarkInconclusive, Some(L.Inconclusive))

  function PlanExecuting(inspected: ControlInspection, worktree: WorktreeStatus): Plan {
    match inspected
    case ControlValid(k) =>
      if k.execution.status == Implemented && worktree == ImplementationIntact then Plan(ApplyTransition, Some(L.Implemented))
      else if k.execution.status == Failed then Plan(ApplyTransition, Some(L.Rejected))
      else if k.execution.status == Inconclusive then Plan(ApplyTransition, Some(L.Inconclusive))
      else GIVE_UP
    case _ => GIVE_UP
  }

  function PlanImplemented(inspected: ControlInspection, worktree: WorktreeStatus): Plan {
    match inspected
    case ControlValid(k) =>
      if k.verification.None? then
        if worktree == ImplementationIntact then Plan(ResumeVerification, None) else GIVE_UP
      else if k.verification.value.verdict == Accepted then
        if k.verificationEvidenceRef.Some? && k.verificationEvidenceRef.value != ""
           && k.verification.value.commitSha.Some? && worktree == VerifiedCommitIntact
        then Plan(ApplyTransition, Some(L.Verified)) else GIVE_UP
      else if k.verification.value.verdict == Rejected then Plan(ApplyTransition, Some(L.Rejected))
      else Plan(ApplyTransition, Some(L.Inconclusive))
    case _ => GIVE_UP
  }

  function PlanVerified(inspected: ControlInspection): Plan {
    match inspected
    case ControlValid(k) => if k.publication == Some(false) then Plan(ResumePublication, None) else Plan(Healthy, None)
    case _ => Plan(Blocked, None)
  }

  function MakePlan(stage: L.Stage, inspected: ControlInspection, worktree: WorktreeStatus): Plan {
    match stage
    case Executing => PlanExecuting(inspected, worktree)
    case Implemented => PlanImplemented(inspected, worktree)
    case Verified => PlanVerified(inspected)
    case _ => Plan(Healthy, None)
  }

  function TransitionArtifacts(stage: L.Stage, inspected: ControlInspection, ref: string): L.Additions {
    if stage == L.Executing then
      Adding(L.Changes, (if inspected.ControlValid? then [inspected.control.executionEvidenceRef] else []) + [ref])
    else
      Adding(L.Verification,
             (if inspected.ControlValid? && inspected.control.verificationEvidenceRef.Some?
                 && inspected.control.verificationEvidenceRef.value != ""
              then [inspected.control.verificationEvidenceRef.value] else []) + [ref])
  }

  datatype RecoverInput = RecoverInput(voice: Voice, projectRoot: string, now: L.Time, apply: bool, ref: string)

  function PlanFor(d: Durable, projectRoot: string): Plan {
    var inspected := InspectControl(d.sidecar, d.cycle.cycleId, projectRoot);
    MakePlan(d.cycle.stage, inspected, InspectWorktree(inspected, d.tree))
  }

  function RecoveryInput(d: Durable, i: RecoverInput, target: L.Stage): L.TransitionInput {
    Input(i.voice, i.now,
          TransitionArtifacts(d.cycle.stage, InspectControl(d.sidecar, d.cycle.cycleId, i.projectRoot), i.ref),
          target == L.Verified)
  }

  /** recoverDelivery. */
  ghost function Recover(d: Durable, i: RecoverInput): Ran {
    if Blank(i.voice.actor) then Ran(d, Refused)
    else
      var plan := PlanFor(d, i.projectRoot);
      if !i.apply || plan.target.None? then Ran(d, Finished(d.cycle))
      else Move(d, plan.target.value, RecoveryInput(d, i, plan.target.value))
  }

  // ---------------------------------------------------------------- as the code runs

  /** One delivery: the stored cycle, the sidecar file and the worktree, rewritten step by step. */
  class DeliveryRun {
    var cycle: L.Cycle
    var sidecar: Sidecar
    var tree: Tree

    function State(): Durable
      reads this
    {
      Durable(cycle, sidecar, tree)
    }

    constructor (cycle: L.Cycle, sidecar: Sidecar, tree: Tree)
      ensures State() == Durable(cycle, sidecar, tree)
    {
      this.cycle, this.sidecar, this.tree := cycle, sidecar, tree;
    }

    method ExecuteDelivery(i: ExecuteInput, crash: ExecuteCrash) returns (r: Ending)
      modifies this
      ensures Ran(State(), r) == Execute(old(State()), i, crash)
    {
      if !CanExecute(cycle, i) { return Refused; }
      var planned := cycle;
      tree := FreshTree(i.base);
      if crash == AfterWorktree { return Crashed; }
      var started := L.TransitionCycle(planned, L.Executing, Input(i.voice, i.now, NoAdditions(), false));
      if started.Err? { return Refused; }
      cycle := started.value;
      if crash == AfterStart { return Crashed; }
      tree := i.after;
      if crash == AfterCommand { return Crashed; }
      sidecar := Sidecar(ExecutedControl(planned, i), true);
      if crash == AfterControl { return Crashed; }
      var next := L.TransitionCycle(started.value, AfterExecution(StatusOf(i)), StatusInput(i));
      if next.Err? { return Refused; }
      cycle := next.value;
      r := Finished(next.value);
    }

    method VerifyDelivery(i: VerifyInput, crash: VerifyCrash) returns (r: Ending)
      modifies this
      ensures Ran(State(), r) == Verify(old(State()), i, crash)
    {
      if !CanVerify(State(), Trim(i.voice.actor), i.projectRoot) { return Refused; }
      var control := sidecar.control;
      var before := SamePatch(tree, control.execution);
      var results := [];
      if before {
        tree := i.after;
        results := i.results;
      }
      var verdict := VerdictOf(before, SamePatch(tree, control.execution), results);
      if crash == AfterChecks { return Crashed; }
      var commitSha := None;
      if verdict == Accepted {
        tree := Committed(tree, i.newCommit, i.dirtyAfterCommit);
        if i.dirtyAfterCommit { verdict := Rejected; } else { commitSha := Some(i.newCommit); }
      }
      if crash == AfterCommit { return Crashed; }
      sidecar := Sidecar(VerifiedControl(control, Trim(i.voice.actor), verdict, commitSha, i.ref), true);
      if crash == AfterVerdict { return Crashed; }
      var next := L.TransitionCycle(cycle, AfterVerification(verdict), VerdictInput(i, verdict));
      if next.Err? { return Refused; }
      cycle := next.value;
      r := Finished(next.value);
    }

    method RecoverDelivery(i: RecoverInput) returns (r: Ending)
      modifies this
      ensures Ran(State(), r) == Recover(old(State()), i)
    {
      if Blank(i.voice.actor) { return Refused; }
      var inspected := InspectControl(sidecar, cycle.cycleId, i.projectRoot);
      var worktree := InspectWorktree(inspected, tree);
      var plan := MakePlan(cycle.stage, inspected, worktree);
      if i.apply && plan.target.Some? {
        var next := L.TransitionCycle(cycle, plan.target.value, RecoveryInput(State(), i, plan.target.value));
        if next.Err? { return Refused; }
        cycle := next.value;
      }
      r := Finished(cycle);
    }
  }
}
