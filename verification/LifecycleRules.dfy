/** The tables of the lifecycle and its policy, stated the other way round, and every answer of their operations. */
module LifecycleRules {
  import opened Prelude
  import opened Lifecycle

  // ---------------------------------------------------------------- stages

  /**
   * The legal steps: one rank up to a stage that is no early end, or from learned past the meta improvement; from
   * diagnosed to learned also to rejected or inconclusive, and from executing to measured also back.
   */
  lemma LegalSteps(from: Stage, to: Stage)
    ensures CanTransition(from, to) <==>
              || (Rank(to) == Rank(from) + 1 && to != Rejected && to != RolledBack && to != Inconclusive)
              || (from == Learned && to == Completed)
              || (Rank(Diagnosed) <= Rank(from) <= Rank(Learned) && (to == Rejected || to == Inconclusive))
              || (Rank(Executing) <= Rank(from) <= Rank(Measured) && to == RolledBack)
  {
  }

  /** Ranks count the way from creation to completion. */
  lemma RanksInOrder()
    ensures Rank(Created) == 0 && Rank(Observed) == 1 && Rank(Modeled) == 2 && Rank(Diagnosed) == 3 && Rank(Researched) == 4
    ensures Rank(Decided) == 5 && Rank(Planned) == 6 && Rank(Executing) == 7 && Rank(Implemented) == 8 && Rank(Verified) == 9
    ensures Rank(Measured) == 10 && Rank(Learned) == 11 && Rank(MetaImproved) == 12 && Rank(Completed) == 13
  {
  }

  /** Nothing leaves a stage exactly where it is terminal. */
  lemma TerminalHasNoStep(s: Stage)
    ensures Terminal(s) <==> forall to :: !CanTransition(s, to)
  {
    if !Terminal(s) {
      assert NormalNext(s).Some? && CanTransition(s, NormalNext(s).value);
    }
  }

  /** The one stage that asks for a bucket. */
  function AskedBy(b: Bucket): Stage {
    match b
    case Baseline => Observed
    case Model => Modeled
    case Diagnosis => Diagnosed
    case Candidates => Diagnosed
    case Research => Researched
    case Decision => Decided
    case Plan => Planned
    case Rollback => Planned
    case Changes => Implemented
    case Verification => Verified
    case Measurement => Measured
    case Memory => Learned
    case MetaChanges => MetaImproved
  }

  lemma EveryBucketIsAskedOnce(s: Stage, b: Bucket)
    ensures b in RequiredArtifacts(s) <==> s == AskedBy(b)
  {
  }

  // ---------------------------------------------------------------- authorizeAction

  /** The least autonomy of an action, as a number. */
  function LeastAutonomy(action: Action): nat {
    if action == Inspect then 0
    else if action in {ResearchAction, PlanAction, RecordMemory, RunChecks} then 1
    else if action in {ModifyCode, OpenDraftPr} then 3
    else 4
  }

  function Level(a: Autonomy): nat {
    if a == A0 then 0 else if a == A1 then 1 else if a == A2 then 2 else if a == A3 then 3 else 4
  }

  /** What an approval must name: the caller's cycle and scope, trimmed. */
  ghost predicate Approves(a: Approval, action: Action, cycleId: Option<string>, scope: Option<string>, now: Time) {
    && cycleId.Some? && Trim(cycleId.value) != "" && a.cycleId == Trim(cycleId.value)
    && scope.Some? && Trim(scope.value) != "" && a.scope == Trim(scope.value)
    && a.action == action && a.policyVersion == 1 && a.revokedAt == None
    && match a.expiresAt
       case None => true
       case Some(Unparseable(_)) => true
       case Some(Instant(expiry)) => now.Instant? && now.ms < expiry
  }

  /**
   * Every action at every level: merging, deploying, writing production, reading secrets and spending
   * always want an approval, modifying code and opening a draft pull request from risk R3 on.
   */
  lemma AuthorizationAnswers(
    autonomy: Autonomy, risk: Risk, action: Action, cycleId: Option<string>, scope: Option<string>, approvals: seq<Approval>, now: Time)
    ensures var d := AuthorizeAction(autonomy, risk, action, cycleId, scope, approvals, now);
            var able := Level(autonomy) >= LeastAutonomy(action);
            var wants := || action in {Merge, Deploy, ProductionWrite, ReadSecrets, Spend}
                         || (action in {ModifyCode, OpenDraftPr} && (risk == R3 || risk == R4));
            && (d.requiresApproval <==> able && wants)
            && (d.allowed <==> able && (wants ==> exists a :: a in approvals && Approves(a, action, cycleId, scope, now)))
            && (d.matchedApprovalId.Some? <==> able && wants && d.allowed)
            && (d.matchedApprovalId.Some? ==>
                  exists a :: a in approvals && Approves(a, action, cycleId, scope, now) && a.approvalId == d.matchedApprovalId.value)
  {
    ServingApproval(action, cycleId, scope, approvals, now);
  }

  lemma ServingApproval(action: Action, cycleId: Option<string>, scope: Option<string>, approvals: seq<Approval>, now: Time)
    ensures var id := if cycleId.Some? then Trim(cycleId.value) else "";
            var wanted := if scope.Some? then Trim(scope.value) else "";
            var found := MatchingApproval(action, id, wanted, approvals, now);
            && ((exists a :: a in approvals && Approves(a, action, cycleId, scope, now)) <==> id != "" && wanted != "" && found.Some?)
            && (id != "" && wanted != "" && found.Some? ==> found.value in approvals && Approves(found.value, action, cycleId, scope, now))
  {
    var id := if cycleId.Some? then Trim(cycleId.value) else "";
    var wanted := if scope.Some? then Trim(scope.value) else "";
    forall a | a in approvals
      ensures Approves(a, action, cycleId, scope, now) <==> id != "" && wanted != "" && ApprovalMatches(a, action, id, wanted, now)
    {
    }
  }

  /** The first approval that serves is the one named. */
  lemma FirstApprovalIsNamed(action: Action, id: string, scope: string, before: seq<Approval>, a: Approval, after: seq<Approval>, now: Time)
    requires ApprovalMatches(a, action, id, scope, now) && forall b :: b in before ==> !ApprovalMatches(b, action, id, scope, now)
    ensures MatchingApproval(action, id, scope, before + [a] + after, now) == Some(a)
    decreases |before|
  {
    if before != [] {
      assert (before + [a] + after)[1..] == before[1..] + [a] + after;
      FirstApprovalIsNamed(action, id, scope, before[1..], a, after, now);
    }
  }

  // ---------------------------------------------------------------- createCycle and transitionCycle

  /** Letters and digits, and behind the first of them also `-`, `.`, `:` and `_`. */
  predicate IdCharacter(c: char, first: bool) {
    var u := c as int;
    48 <= u < 58 || 65 <= u < 91 || 97 <= u < 123 || (!first && (u == 45 || u == 46 || u == 58 || u == 95))
  }

  lemma CycleIds(id: string)
    ensures PortableId(id) <==> 2 < |id| < 129 && forall i :: 0 <= i < |id| ==> IdCharacter(id[i], i == 0)
  {
    forall c: char ensures c in "._:-" <==> c as int == 45 || c as int == 46 || c as int == 58 || c as int == 95 {}
  }

  lemma CreationAnswers(input: CreateInput)
    ensures var r := CreateCycle(input);
            && (r == Err(InvalidCycleId) <==> !PortableId(input.cycleId))
            && (r == Err(VagueObjective) <==> PortableId(input.cycleId) && |Trim(input.objective)| <= 7)
            && (r.Ok? <==> PortableId(input.cycleId) && |Trim(input.objective)| >= 8)
            && (r.Ok? ==>
                  && r.value.cycleId == input.cycleId && r.value.objective == Trim(input.objective)
                  && r.value.autonomy == input.autonomy && r.value.risk == input.risk && r.value.stage == Created
                  && r.value.createdAt == r.value.updatedAt == input.now && r.value.history == [] && r.value.approvals == []
                  && r.value.artifacts == map[] && r.value.research == Some(map[]))
  {
  }

  /** Every answer of a transition; of several reasons to refuse, the first in this order is given. */
  lemma TransitionAnswers(c: Cycle, to: Stage, input: TransitionInput)
    requires PortableId(c.cycleId)
    ensures var r := Transition(c, to, input);
            var legal := CanTransition(c.stage, to);
            var spoken := !Blank(input.actor) && !Blank(input.reason);
            var approved := || to != Executing
                            || ((c.autonomy == A3 || c.autonomy == A4)
                                && (c.risk == R3 || c.risk == R4 ==>
                                      exists a :: a in c.approvals + input.approvals
                                                  && ApprovalMatches(a, ModifyCode, c.cycleId, "cycle:" + c.cycleId + ":modify-code", input.now)));
            var passed := to != Verified || input.verificationPassed;
            var held := forall b :: AskedBy(b) == to ==> Get(Merged(c.artifacts, input.addArtifacts), b) != [];
            var distinct := CanMerge(Base(c.research), input.appendResearch);
            && (r == Err(TerminalCycle) <==> c.stage in {Completed, Rejected, RolledBack, Inconclusive})
            && (r == Err(InvalidTransition) <==> c.stage !in {Completed, Rejected, RolledBack, Inconclusive} && !legal)
            && (r == Err(MissingActorOrReason) <==> legal && !spoken)
            && (r == Err(NotAuthorized) <==> legal && spoken && !approved)
            && (r == Err(VerificationNotPassed) <==> legal && spoken && approved && !passed)
            && (r == Err(MissingArtifact) <==> legal && spoken && approved && passed && !held)
            && (r == Err(DuplicateResearchId) <==> legal && spoken && approved && passed && held && !distinct)
            && (r.Ok? <==> legal && spoken && approved && passed && held && distinct)
  {
    AllowedExecutionIsApproved(c, c.approvals + input.approvals, input.now);
    TerminalHasNoStep(c.stage);
    forall b ensures b in RequiredArtifacts(to) <==> to == AskedBy(b) { EveryBucketIsAskedOnce(to, b); }
  }

  /** The cycle an accepted transition gives back. */
  lemma AcceptedTransition(c: Cycle, to: Stage, input: TransitionInput)
    requires Transition(c, to, input).Ok?
    ensures var d := Transition(c, to, input).value;
            && d.stage == to && d.updatedAt == input.now && d.createdAt == c.createdAt
            && d.cycleId == c.cycleId && d.objective == c.objective && d.autonomy == c.autonomy && d.risk == c.risk
            && d.approvals == c.approvals + input.approvals
            && |d.history| == |c.history| + 1 && d.history[..|c.history|] == c.history
            && var e := d.history[|c.history|];
               && e.id == EventId(c.cycleId, |c.history| + 1) && e.from == c.stage && e.to == to && e.at == input.now
               && e.actor == Trim(input.actor) && e.reason == Trim(input.reason)
               && (forall ref :: ref in e.evidenceRefs <==>
                     ref != "" && exists b, w :: b in input.addArtifacts.refs && w in input.addArtifacts.refs[b] && Trim(w) == ref)
  {
    TransitionAdvances(c, to, input);
    var all := Refs(input.addArtifacts.keys, input.addArtifacts.refs);
    forall ref ensures ref in Unique(all) <==>
      ref != "" && exists b, w :: b in input.addArtifacts.refs && w in input.addArtifacts.refs[b] && Trim(w) == ref
    {
      AddUniqueMembers([], all, ref);
      forall w ensures w in all <==> exists b :: b in input.addArtifacts.refs && w in input.addArtifacts.refs[b] {
        RefsMembers(input.addArtifacts.keys, input.addArtifacts.refs, w);
      }
    }
  }

  lemma {:induction false} RefsMembers(keys: seq<Bucket>, refs: map<Bucket, seq<string>>, w: string)
    requires forall b :: b in keys ==> b in refs
    ensures w in Refs(keys, refs) <==> exists b :: b in keys && w in refs[b]
  {
    if keys != [] {
      RefsMembers(keys[1..], refs, w);
      assert forall b :: b in keys <==> b == keys[0] || b in keys[1..];
    }
  }

  /** Each bucket of the merged artifacts: old entries first, then the new ones, each text once. */
  lemma MergedBuckets(c: Artifacts, additions: Additions, b: Bucket, x: string)
    requires NormalArtifacts(c)
    ensures x in Get(Merged(c, additions), b) <==>
              x in Get(c, b) || (x != "" && b in additions.refs && exists w :: w in additions.refs[b] && Trim(w) == x)
  {
    if b in additions.refs {
      AddUniqueMembers([], Get(c, b) + additions.refs[b], x);
      forall w | w in Get(c, b) ensures Trim(w) == w && w != "" {
        assert NormalList(Get(c, b));
        TrimFixes(w);
      }
    }
  }
}
