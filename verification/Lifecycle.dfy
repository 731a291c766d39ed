/**
 * The evolution-cycle state machine: createCycle, transitionCycle, the policy that guards
 * code modification, and the research-record merge. Every invariant here is stated for all
 * runs that start at CreateCycle.
 */
module Lifecycle {
  import opened Prelude

  datatype Stage =
    | Created | Observed | Modeled | Diagnosed | Researched | Decided | Planned | Executing
    | Implemented | Verified | Measured | Learned | MetaImproved | Completed
    | Rejected | RolledBack | Inconclusive

  datatype Bucket =
    | Baseline | Model | Diagnosis | Research | Candidates | Decision | Plan | Rollback
    | Changes | Verification | Measurement | Memory | MetaChanges

  datatype Autonomy = A0 | A1 | A2 | A3 | A4

  datatype Risk = R0 | R1 | R2 | R3 | R4

  datatype Action =
    | Inspect | ResearchAction | PlanAction | RecordMemory | RunChecks | ModifyCode | OpenDraftPr
    | Merge | Deploy | ProductionWrite | ReadSecrets | Spend

  /** What Date.parse makes of a timestamp text: an instant, or NaN. */
  datatype Time = Instant(ms: int) | Unparseable(text: string)

  datatype Approval = Approval(
    approvalId: string, cycleId: string, action: Action, scope: string,
    policyVersion: int, expiresAt: Option<Time>, revokedAt: Option<Time>)

  datatype EventId = EventId(cycleId: string, ordinal: nat)

  datatype Event = Event(
    id: EventId, from: Stage, to: Stage, at: Time, actor: string, reason: string,
    evidenceRefs: seq<string>)

  datatype ResearchBucket =
    | Briefs | Plans | Runs | Queries | Sources | Claims | CitationSpans | Contradictions
    | Opportunities | Evaluations | Decisions | Experiments | ExecutionHandoffs

  datatype ResearchRecord = ResearchRecord(recordId: string, body: string)

  type Artifacts = map<Bucket, seq<string>>

  type ResearchRecords = map<ResearchBucket, seq<ResearchRecord>>

  datatype Cycle = Cycle(
    cycleId: string, objective: string, autonomy: Autonomy, risk: Risk, stage: Stage,
    createdAt: Time, updatedAt: Time, artifacts: Artifacts, approvals: seq<Approval>,
    history: seq<Event>, research: Option<ResearchRecords>)

  /** An object literal of bucket lists: its own keys in insertion order, and their values. */
  datatype AdditionsObject = AdditionsObject(keys: seq<Bucket>, refs: map<Bucket, seq<string>>)

  type Additions = a: AdditionsObject | forall b :: b in a.keys <==> b in a.refs
    witness AdditionsObject([], map[])

  datatype CreateInput = CreateInput(
    cycleId: string, objective: string, autonomy: Autonomy, risk: Risk, now: Time)

  datatype TransitionInput = TransitionInput(
    actor: string, reason: string, now: Time, addArtifacts: Additions,
    appendResearch: ResearchRecords, approvals: seq<Approval>, verificationPassed: bool)

  datatype Error =
    | InvalidCycleId | VagueObjective | TerminalCycle | InvalidTransition | MissingActorOrReason
    | NotAuthorized | VerificationNotPassed | MissingArtifact | DuplicateResearchId

  const POLICY_VERSION := 1

  // ---------------------------------------------------------------- tables

  function NormalNext(s: Stage): Option<Stage> {
    match s
    case Created => Some(Observed)
    case Observed => Some(Modeled)
    case Modeled => Some(Diagnosed)
    case Diagnosed => Some(Researched)
    case Researched => Some(Decided)
    case Decided => Some(Planned)
    case Planned => Some(Executing)
    case Executing => Some(Implemented)
    case Implemented => Some(Verified)
    case Verified => Some(Measured)
    case Measured => Some(Learned)
    case Learned => Some(MetaImproved)
    case MetaImproved => Some(Completed)
    case _ => None
  }

  predicate Terminal(s: Stage) {
    s in {Completed, Rejected, RolledBack, Inconclusive}
  }

  predicate Rejectable(s: Stage) {
    s in {Diagnosed, Researched, Decided, Planned, Executing, Implemented, Verified, Measured, Learned}
  }

  predicate RollbackStage(s: Stage) {
    s in {Executing, Implemented, Verified, Measured}
  }

  function RequiredArtifacts(s: Stage): set<Bucket> {
    match s
    case Observed => {Baseline}
    case Modeled => {Model}
    case Diagnosed => {Diagnosis, Candidates}
    case Researched => {Research}
    case Decided => {Decision}
    case Planned => {Plan, Rollback}
    case Implemented => {Changes}
    case Verified => {Verification}
    case Measured => {Measurement}
    case Learned => {Memory}
    case MetaImproved => {MetaChanges}
    case _ => {}
  }

  predicate CanTransition(from: Stage, to: Stage) {
    || NormalNext(from) == Some(to)
    || (from == Learned && to == Completed)
    || (Rejectable(from) && to in {Rejected, Inconclusive})
    || (RollbackStage(from) && to == RolledBack)
  }

  // ---------------------------------------------------------------- policy

  function AutonomyRank(a: Autonomy): nat {
    match a case A0 => 0 case A1 => 1 case A2 => 2 case A3 => 3 case A4 => 4
  }

  function RiskRank(r: Risk): nat {
    match r case R0 => 0 case R1 => 1 case R2 => 2 case R3 => 3 case R4 => 4
  }

  function MinimumAutonomy(a: Action): Autonomy {
    match a
    case Inspect => A0
    case ResearchAction => A1
    case PlanAction => A1
    case RecordMemory => A1
    case RunChecks => A1
    case ModifyCode => A3
    case OpenDraftPr => A3
    case _ => A4
  }

  predicate Protected(a: Action) {
    a in {Merge, Deploy, ProductionWrite, ReadSecrets, Spend}
  }

  /** `expiry > now` on numbers that may be NaN; an unparseable expiry counts as no expiry. */
  predicate Unexpired(expiresAt: Option<Time>, now: Time) {
    match expiresAt
    case Some(Instant(e)) => now.Instant? && e > now.ms
    case _ => true
  }

  predicate ApprovalMatches(a: Approval, action: Action, cycleId: string, scope: string, now: Time) {
    && a.action == action && a.cycleId == cycleId && a.scope == scope
    && a.policyVersion == POLICY_VERSION && a.revokedAt == None && Unexpired(a.expiresAt, now)
  }

  function MatchingApproval(
    action: Action, cycleId: string, scope: string, approvals: seq<Approval>, now: Time): (r: Option<Approval>)
    ensures r.Some? ==> r.value in approvals && ApprovalMatches(r.value, action, cycleId, scope, now)
    ensures r.None? ==> forall a :: a in approvals ==> !ApprovalMatches(a, action, cycleId, scope, now)
  {
    if approvals == [] then None
    else if ApprovalMatches(approvals[0], action, cycleId, scope, now) then Some(approvals[0])
    else MatchingApproval(action, cycleId, scope, approvals[1..], now)
  }

  datatype AuthorizationDecision = AuthorizationDecision(
    allowed: bool, requiresApproval: bool, matchedApprovalId: Option<string>)

  function AuthorizeAction(
    autonomy: Autonomy, risk: Risk, action: Action, cycleId: Option<string>,
    requiredScope: Option<string>, approvals: seq<Approval>, now: Time): AuthorizationDecision
  {
    if AutonomyRank(autonomy) < AutonomyRank(MinimumAutonomy(action)) then
      AuthorizationDecision(false, false, None)
    else if !(Protected(action)
              || (RiskRank(risk) >= RiskRank(R3) && (action == ModifyCode || action == OpenDraftPr))) then
      AuthorizationDecision(true, false, None)
    else
      var id := if cycleId.Some? then Trim(cycleId.value) else "";
      var scope := if requiredScope.Some? then Trim(requiredScope.value) else "";
      if id == "" || scope == "" then AuthorizationDecision(false, true, None)
      else
        match MatchingApproval(action, id, scope, approvals, now)
        case None => AuthorizationDecision(false, true, None)
        case Some(a) => AuthorizationDecision(true, true, Some(a.approvalId))
  }

  function ModifyScope(cycleId: string): string {
    "cycle:" + cycleId + ":modify-code"
  }

  // ---------------------------------------------------------------- artifacts

  function Get<K, V>(m: map<K, seq<V>>, k: K): seq<V> {
    if k in m then m[k] else []
  }

  /** Appends the trimmed, non-empty members of `values` that `acc` does not hold yet. */
  function AddUnique(acc: seq<string>, values: seq<string>): (r: seq<string>)
    ensures acc <= r
    decreases |values|
  {
    if values == [] then acc
    else
      var v := Trim(values[0]);
      AddUnique(if v == "" || v in acc then acc else acc + [v], values[1..])
  }

  function Unique(values: seq<string>): seq<string> {
    AddUnique([], values)
  }

  /** Trimmed, non-empty and duplicate-free: what every artifact list is. */
  ghost predicate NormalList(s: seq<string>) {
    && (forall v :: v in s ==> v != "" && Trimmed(v))
    && NoDup(s)
  }

  lemma {:induction false} AddUniqueIsNormal(acc: seq<string>, values: seq<string>)
    requires NormalList(acc)
    ensures NormalList(AddUnique(acc, values))
    decreases |values|
  {
    if values != [] {
      TrimIsTrimmed(values[0]);
      var v := Trim(values[0]);
      AddUniqueIsNormal(if v == "" || v in acc then acc else acc + [v], values[1..]);
    }
  }

  /** What the list gains is exactly the trimmed, non-empty values it is given. */
  lemma {:induction false} AddUniqueMembers(acc: seq<string>, values: seq<string>, x: string)
    ensures x in AddUnique(acc, values) <==> x in acc || (x != "" && exists w :: w in values && Trim(w) == x)
    decreases |values|
  {
    if values != [] {
      var v := Trim(values[0]);
      AddUniqueMembers(if v == "" || v in acc then acc else acc + [v], values[1..], x);
      assert forall w :: w in values <==> w == values[0] || w in values[1..];
    }
  }

  /** Deduplicating a normal list followed by additions keeps the list as a prefix. */
  lemma {:induction false} AddUniqueKeeps(acc: seq<string>, current: seq<string>, added: seq<string>)
    requires NormalList(acc + current)
    ensures AddUnique(acc, current + added) == AddUnique(acc + current, added)
    decreases |current|
  {
    if current == [] {
      assert acc + current == acc && current + added == added;
    } else {
      var v := current[0];
      assert (acc + current)[|acc|] == v;
      TrimFixes(v);
      assert v !in acc by {
        forall i | 0 <= i < |acc| ensures acc[i] != v { assert (acc + current)[i] == acc[i]; }
      }
      assert acc + current == (acc + [v]) + current[1..];
      assert (current + added)[1..] == current[1..] + added;
      AddUniqueKeeps(acc + [v], current[1..], added);
    }
  }

  function MergedBucket(current: Artifacts, additions: Additions, b: Bucket): seq<string>
    requires b in additions.refs
  {
    Unique(Get(current, b) + additions.refs[b])
  }

  function Merged(current: Artifacts, additions: Additions): Artifacts {
    map b | b in current.Keys + additions.refs.Keys ::
      if b in additions.refs then MergedBucket(current, additions, b) else current[b]
  }

  /** The loop of mergeArtifacts: a copy, overwritten bucket by bucket. */
  method MergeArtifacts(current: Artifacts, additions: Additions) returns (next: Artifacts)
    ensures next == Merged(current, additions)
  {
    next := current;
    ghost var done: set<Bucket> := {};
    for i := 0 to |additions.keys|
      invariant done <= additions.refs.Keys
      invariant forall k :: 0 <= k < i ==> additions.keys[k] in done
      invariant next.Keys == current.Keys + done
      invariant forall b :: b in done ==> next[b] == MergedBucket(current, additions, b)
      invariant forall b :: b in current && b !in done ==> next[b] == current[b]
    {
      var bucket := additions.keys[i];
      assert bucket in additions.refs;
      next := next[bucket := MergedBucket(current, additions, bucket)];
      done := done + {bucket};
    }
    assert done == additions.refs.Keys;
  }

  predicate HasRequired(stage: Stage, artifacts: Artifacts) {
    forall b :: b in RequiredArtifacts(stage) ==> Get(artifacts, b) != []
  }

  ghost predicate NormalArtifacts(a: Artifacts) {
    forall b :: b in a ==> NormalList(a[b])
  }

  lemma MergedKeepsEverything(current: Artifacts, additions: Additions)
    requires NormalArtifacts(current)
    ensures NormalArtifacts(Merged(current, additions))
    ensures forall b :: Get(current, b) <= Get(Merged(current, additions), b)
  {
    forall b ensures NormalList(Get(Merged(current, additions), b)) && Get(current, b) <= Get(Merged(current, additions), b) {
      MergedBucketKeeps(current, additions, b);
    }
    var next := Merged(current, additions);
    assert forall b :: b in next ==> next[b] == Get(next, b);
  }

  lemma MergedBucketKeeps(current: Artifacts, additions: Additions, b: Bucket)
    requires NormalArtifacts(current)
    ensures NormalList(Get(Merged(current, additions), b))
    ensures Get(current, b) <= Get(Merged(current, additions), b)
  {
    var before := Get(current, b);
    if b in additions.refs {
      AddUniqueIsNormal([], before + additions.refs[b]);
      assert [] + before == before;
      AddUniqueKeeps([], before, additions.refs[b]);
    }
  }

  // ---------------------------------------------------------------- research records

  /** The buckets in the order the merge visits them. */
  function BucketAt(k: nat): (b: ResearchBucket)
    requires k < 13
    ensures IndexOf(b) == k
  {
    if k < 6 then
      if k == 0 then Briefs else if k == 1 then Plans else if k == 2 then Runs
      else if k == 3 then Queries else if k == 4 then Sources else Claims
    else
      if k == 6 then CitationSpans else if k == 7 then Contradictions else if k == 8 then Opportunities
      else if k == 9 then Evaluations else if k == 10 then Decisions else if k == 11 then Experiments
      else ExecutionHandoffs
  }

  function IndexOf(b: ResearchBucket): (k: nat)
    ensures k < 13
  {
    match b
    case Briefs => 0 case Plans => 1 case Runs => 2 case Queries => 3 case Sources => 4
    case Claims => 5 case CitationSpans => 6 case Contradictions => 7 case Opportunities => 8
    case Evaluations => 9 case Decisions => 10 case Experiments => 11 case ExecutionHandoffs => 12
  }

  function AllBuckets(): (r: set<ResearchBucket>)
    ensures forall b: ResearchBucket :: b in r
  {
    set b: ResearchBucket | IndexOf(b) < 13
  }

  predicate HasEntry(r: ResearchRecords, b: ResearchBucket, i: int) {
    b in r && 0 <= i < |r[b]|
  }

  function IdAt(r: ResearchRecords, b: ResearchBucket, i: int): string
    requires HasEntry(r, b, i)
  {
    r[b][i].recordId
  }

  ghost predicate DistinctIds(r: ResearchRecords) {
    forall b, i, c, j :: HasEntry(r, b, i) && HasEntry(r, c, j) && (b != c || i != j) ==> IdAt(r, b, i) != IdAt(r, c, j)
  }

  ghost predicate DisjointIds(r: ResearchRecords, t: ResearchRecords) {
    forall b, i, c, j :: HasEntry(r, b, i) && HasEntry(t, c, j) ==> IdAt(r, b, i) != IdAt(t, c, j)
  }

  /** No added id repeats another added id or one that is already stored, in whatever buckets. */
  ghost predicate CanMerge(current: ResearchRecords, additions: ResearchRecords) {
    DistinctIds(additions) && DisjointIds(current, additions)
  }

  function Joined(current: ResearchRecords, additions: ResearchRecords): ResearchRecords {
    map b | b in AllBuckets() :: Get(current, b) + Get(additions, b)
  }

  lemma JoinedKeepsDistinct(current: ResearchRecords, additions: ResearchRecords)
    requires DistinctIds(current) && CanMerge(current, additions)
    ensures DistinctIds(Joined(current, additions))
  {
    var r := Joined(current, additions);
    forall b, i, c, j | HasEntry(r, b, i) && HasEntry(r, c, j) && (b != c || i != j)
      ensures IdAt(r, b, i) != IdAt(r, c, j)
    {
      var m, n := |Get(current, b)|, |Get(current, c)|;
      if i < m { assert HasEntry(current, b, i) && IdAt(r, b, i) == IdAt(current, b, i); }
      else { assert HasEntry(additions, b, i - m) && IdAt(r, b, i) == IdAt(additions, b, i - m); }
      if j < n { assert HasEntry(current, c, j) && IdAt(r, c, j) == IdAt(current, c, j); }
      else { assert HasEntry(additions, c, j - n) && IdAt(r, c, j) == IdAt(additions, c, j - n); }
    }
  }

  function Base(current: Option<ResearchRecords>): ResearchRecords {
    if current.Some? then current.value else map[]
  }

  ghost function MergeResearch(current: Option<ResearchRecords>, additions: ResearchRecords): Result<ResearchRecords, Error> {
    if CanMerge(Base(current), additions) then Ok(Joined(Base(current), additions)) else Err(DuplicateResearchId)
  }

  function Ids(r: ResearchRecords): set<string> {
    set b, i | b in r && 0 <= i < |r[b]| :: r[b][i].recordId
  }

  lemma InIds(r: ResearchRecords, id: string)
    ensures id in Ids(r) <==> exists b, i :: HasEntry(r, b, i) && IdAt(r, b, i) == id
  {
    if b, i :| HasEntry(r, b, i) && IdAt(r, b, i) == id {
      assert r[b][i].recordId == id;
    }
    if id in Ids(r) {
      var b, i :| b in r && 0 <= i < |r[b]| && r[b][i].recordId == id;
      assert HasEntry(r, b, i) && IdAt(r, b, i) == id;
    }
  }

  /** What the loops have copied when they stand before record `i` of bucket number `k`. */
  ghost function Done(additions: ResearchRecords, k: nat, i: nat): ResearchRecords {
    map b | b in AllBuckets() ::
      if IndexOf(b) < k then Get(additions, b)
      else if IndexOf(b) == k && i <= |Get(additions, b)| then Get(additions, b)[..i]
      else []
  }

  ghost predicate MergeInv(
    base: ResearchRecords, additions: ResearchRecords, k: nat, i: nat, next: ResearchRecords, seen: set<string>)
  {
    && next == Joined(base, Done(additions, k, i))
    && CanMerge(base, Done(additions, k, i))
    && seen == Ids(base) + Ids(Done(additions, k, i))
  }

  /** The nested loops of mergeResearchRecords, with their `seen` set. */
  method MergeResearchRecords(current: Option<ResearchRecords>, additions: ResearchRecords)
    returns (result: Result<ResearchRecords, Error>)
    ensures result == MergeResearch(current, additions)
  {
    var base := Base(current);
    var next := map b | b in AllBuckets() :: Get(base, b);
    var seen := Ids(base);
    NothingDone(base, additions);
    for k := 0 to 13
      invariant MergeInv(base, additions, k, 0, next, seen)
    {
      var bucket := BucketAt(k);
      var records := Get(additions, bucket);
      for i := 0 to |records|
        invariant MergeInv(base, additions, k, i, next, seen)
      {
        if records[i].recordId in seen {
          DuplicateBlocksMerge(base, additions, k, i);
          return Err(DuplicateResearchId);
        }
        OneMoreDone(base, additions, k, i, next, seen);
        seen := seen + {records[i].recordId};
        next := next[bucket := next[bucket] + [records[i]]];
      }
      BucketDone(additions, k);
    }
    AllDone(base, additions);
    result := Ok(next);
  }

  lemma IndexDetermines(b: ResearchBucket, c: ResearchBucket)
    requires IndexOf(b) == IndexOf(c)
    ensures b == c
  {
  }

  lemma NothingDone(base: ResearchRecords, additions: ResearchRecords)
    ensures MergeInv(base, additions, 0, 0, map b | b in AllBuckets() :: Get(base, b), Ids(base))
  {
    assert Ids(Done(additions, 0, 0)) == {};
    assert forall b :: Get(base, b) + Get(Done(additions, 0, 0), b) == Get(base, b);
  }

  lemma BucketDone(additions: ResearchRecords, k: nat)
    requires k < 13
    ensures Done(additions, k, |Get(additions, BucketAt(k))|) == Done(additions, k + 1, 0)
  {
    forall b: ResearchBucket | IndexOf(b) == k ensures b == BucketAt(k) { IndexDetermines(b, BucketAt(k)); }
    assert forall b :: Get(additions, b)[..|Get(additions, b)|] == Get(additions, b);
  }

  lemma AllDone(base: ResearchRecords, additions: ResearchRecords)
    requires CanMerge(base, Done(additions, 13, 0))
    ensures CanMerge(base, additions)
    ensures Joined(base, Done(additions, 13, 0)) == Joined(base, additions)
  {
    var done := Done(additions, 13, 0);
    forall b, i | HasEntry(additions, b, i)
      ensures HasEntry(done, b, i) && IdAt(done, b, i) == IdAt(additions, b, i)
    {
    }
  }

  lemma OneMoreDone(
    base: ResearchRecords, additions: ResearchRecords, k: nat, i: nat, copied: ResearchRecords, seen: set<string>)
    requires k < 13 && i < |Get(additions, BucketAt(k))|
    requires MergeInv(base, additions, k, i, copied, seen)
    requires Get(additions, BucketAt(k))[i].recordId !in seen
    ensures var bucket, record := BucketAt(k), Get(additions, BucketAt(k))[i];
            MergeInv(base, additions, k, i + 1, copied[bucket := copied[bucket] + [record]], seen + {record.recordId})
  {
    var bucket := BucketAt(k);
    var record := Get(additions, bucket)[i];
    DoneGrows(additions, k, i);
    PushKeepsMergeable(base, Done(additions, k, i), bucket, record);
    PushAddsId(Done(additions, k, i), bucket, record);
    PushJoins(base, Done(additions, k, i), bucket, record);
  }

  lemma DoneGrows(additions: ResearchRecords, k: nat, i: nat)
    requires k < 13 && i < |Get(additions, BucketAt(k))|
    ensures var done := Done(additions, k, i);
            Done(additions, k, i + 1)
            == done[BucketAt(k) := Get(done, BucketAt(k)) + [Get(additions, BucketAt(k))[i]]]
  {
    var bucket := BucketAt(k);
    var records := Get(additions, bucket);
    forall b: ResearchBucket | IndexOf(b) == k ensures b == bucket { IndexDetermines(b, bucket); }
    assert records[..i + 1] == records[..i] + [records[i]];
  }

  lemma PushJoins(base: ResearchRecords, done: ResearchRecords, bucket: ResearchBucket, record: ResearchRecord)
    ensures Joined(base, done[bucket := Get(done, bucket) + [record]])
            == Joined(base, done)[bucket := Joined(base, done)[bucket] + [record]]
  {
    var next := done[bucket := Get(done, bucket) + [record]];
    assert Get(base, bucket) + Get(next, bucket) == Get(base, bucket) + Get(done, bucket) + [record];
  }

  lemma PushKeepsMergeable(base: ResearchRecords, done: ResearchRecords, bucket: ResearchBucket, record: ResearchRecord)
    requires CanMerge(base, done) && record.recordId !in Ids(base) + Ids(done)
    ensures CanMerge(base, done[bucket := Get(done, bucket) + [record]])
  {
    var r := done[bucket := Get(done, bucket) + [record]];
    var n := |Get(done, bucket)|;
    forall b, i | HasEntry(r, b, i) && (b != bucket || i != n)
      ensures HasEntry(done, b, i) && IdAt(done, b, i) == IdAt(r, b, i) != record.recordId
    {
      InIds(done, IdAt(done, b, i));
    }
    forall b, i | HasEntry(base, b, i) ensures IdAt(base, b, i) != record.recordId {
      InIds(base, IdAt(base, b, i));
    }
  }

  lemma PushAddsId(done: ResearchRecords, bucket: ResearchBucket, record: ResearchRecord)
    ensures Ids(done[bucket := Get(done, bucket) + [record]]) == Ids(done) + {record.recordId}
  {
    var r := done[bucket := Get(done, bucket) + [record]];
    assert HasEntry(r, bucket, |Get(done, bucket)|) && IdAt(r, bucket, |Get(done, bucket)|) == record.recordId;
    forall x ensures x in Ids(r) <==> x in Ids(done) + {record.recordId} {
      InIds(r, x);
      InIds(done, x);
      if b, i :| HasEntry(r, b, i) && IdAt(r, b, i) == x {
        assert (b == bucket && i == |Get(done, bucket)|) || (HasEntry(done, b, i) && IdAt(done, b, i) == x);
      }
      if b, i :| HasEntry(done, b, i) && IdAt(done, b, i) == x {
        assert HasEntry(r, b, i) && IdAt(r, b, i) == x;
      }
    }
  }

  lemma DuplicateBlocksMerge(base: ResearchRecords, additions: ResearchRecords, k: nat, i: nat)
    requires k < 13 && i < |Get(additions, BucketAt(k))|
    requires Get(additions, BucketAt(k))[i].recordId in Ids(base) + Ids(Done(additions, k, i))
    ensures !CanMerge(base, additions)
  {
    var bucket := BucketAt(k);
    var id := Get(additions, bucket)[i].recordId;
    var done := Done(additions, k, i);
    assert HasEntry(additions, bucket, i) && IdAt(additions, bucket, i) == id;
    InIds(base, id);
    InIds(done, id);
    if id !in Ids(base) {
      var b, j :| HasEntry(done, b, j) && IdAt(done, b, j) == id;
      assert HasEntry(additions, b, j) && IdAt(additions, b, j) == id;
    }
  }

  // ---------------------------------------------------------------- createCycle and transitionCycle

  predicate IdStart(c: char) {
    'A' <= c <= 'Z' || 'a' <= c <= 'z' || '0' <= c <= '9'
  }

  predicate PortableId(s: string) {
    && 3 <= |s| <= 128 && IdStart(s[0])
    && forall i :: 1 <= i < |s| ==> IdStart(s[i]) || s[i] in "._:-"
  }

  function CreateCycle(input: CreateInput): Result<Cycle, Error> {
    if !PortableId(input.cycleId) then Err(InvalidCycleId)
    else if |Trim(input.objective)| < 8 then Err(VagueObjective)
    else Ok(Cycle(input.cycleId, Trim(input.objective), input.autonomy, input.risk, Created,
                  input.now, input.now, map[], [], [], Some(map[])))
  }

  function Refs(keys: seq<Bucket>, refs: map<Bucket, seq<string>>): seq<string>
    requires forall b :: b in keys ==> b in refs
  {
    if keys == [] then [] else refs[keys[0]] + Refs(keys[1..], refs)
  }

  predicate ExecutionAllowed(cycle: Cycle, approvals: seq<Approval>, now: Time) {
    AuthorizeAction(cycle.autonomy, cycle.risk, ModifyCode, Some(cycle.cycleId),
                    Some(ModifyScope(cycle.cycleId)), approvals, now).allowed
  }

  function Advanced(
    cycle: Cycle, to: Stage, input: TransitionInput, artifacts: Artifacts, research: ResearchRecords): Cycle
  {
    cycle.(
      stage := to,
      updatedAt := input.now,
      artifacts := artifacts,
      approvals := cycle.approvals + input.approvals,
      research := Some(research),
      history := cycle.history + [
        Event(EventId(cycle.cycleId, |cycle.history| + 1), cycle.stage, to, input.now,
              Trim(input.actor), Trim(input.reason),
              Unique(Refs(input.addArtifacts.keys, input.addArtifacts.refs)))])
  }

  ghost function Transition(cycle: Cycle, to: Stage, input: TransitionInput): Result<Cycle, Error> {
    if Terminal(cycle.stage) then Err(TerminalCycle)
    else if !CanTransition(cycle.stage, to) then Err(InvalidTransition)
    else if Blank(input.actor) || Blank(input.reason) then Err(MissingActorOrReason)
    else if to == Executing && !ExecutionAllowed(cycle, cycle.approvals + input.approvals, input.now) then Err(NotAuthorized)
    else if to == Verified && !input.verificationPassed then Err(VerificationNotPassed)
    else if !HasRequired(to, Merged(cycle.artifacts, input.addArtifacts)) then Err(MissingArtifact)
    else
      match MergeResearch(cycle.research, input.appendResearch)
      case Err(e) => Err(e)
      case Ok(research) => Ok(Advanced(cycle, to, input, Merged(cycle.artifacts, input.addArtifacts), research))
  }

  /** transitionCycle as it executes: the guards in order, then the two merge loops. */
  method TransitionCycle(cycle: Cycle, to: Stage, input: TransitionInput) returns (r: Result<Cycle, Error>)
    ensures r == Transition(cycle, to, input)
  {
    if Terminal(cycle.stage) { return Err(TerminalCycle); }
    if !CanTransition(cycle.stage, to) { return Err(InvalidTransition); }
    if Blank(input.actor) || Blank(input.reason) { return Err(MissingActorOrReason); }
    var approvals := cycle.approvals + input.approvals;
    if to == Executing {
      var allowed := ExecutionAllowed(cycle, approvals, input.now);
      if !allowed { return Err(NotAuthorized); }
    }
    if to == Verified && !input.verificationPassed { return Err(VerificationNotPassed); }
    var artifacts := MergeArtifacts(cycle.artifacts, input.addArtifacts);
    if !HasRequired(to, artifacts) { return Err(MissingArtifact); }
    var research := MergeResearchRecords(cycle.research, input.appendResearch);
    match research
    case Err(e) => return Err(e);
    case Ok(records) => return Ok(Advanced(cycle, to, input, artifacts, records));
  }

  // ---------------------------------------------------------------- invariants over every run

  function Rank(s: Stage): nat {
    match s
    case Created => 0 case Observed => 1 case Modeled => 2 case Diagnosed => 3 case Researched => 4
    case Decided => 5 case Planned => 6 case Executing => 7 case Implemented => 8 case Verified => 9
    case Measured => 10 case Learned => 11 case MetaImproved => 12 case _ => 13
  }

  /** The history is an unbroken legal path from Created to the current stage. */
  ghost predicate LegalPath(c: Cycle) {
    && (c.history == [] ==> c.stage == Created)
    && (c.history != [] ==> c.history[0].from == Created && c.history[|c.history| - 1].to == c.stage)
    && (forall i, j :: 0 <= i && j == i + 1 && j < |c.history| ==> c.history[j].from == c.history[i].to)
    && (forall i :: 0 <= i < |c.history| ==>
          && CanTransition(c.history[i].from, c.history[i].to)
          && !Terminal(c.history[i].from)
          && c.history[i].id == EventId(c.cycleId, i + 1))
    && |c.history| <= Rank(c.stage)
  }

  /** Every stage the cycle ever entered still has the artifacts that stage demanded. */
  ghost predicate Evidenced(c: Cycle) {
    forall i :: 0 <= i < |c.history| ==> HasRequired(c.history[i].to, c.artifacts)
  }

  /** A held approval let this cycle modify code at time `at`. */
  ghost predicate ApprovedAt(c: Cycle, at: Time) {
    exists a :: a in c.approvals && ApprovalMatches(a, ModifyCode, c.cycleId, ModifyScope(c.cycleId), at)
  }

  ghost predicate Authorised(c: Cycle) {
    forall i :: 0 <= i < |c.history| && c.history[i].to == Executing ==>
      && c.autonomy in {A3, A4}
      && (c.risk in {R3, R4} ==> ApprovedAt(c, c.history[i].at))
  }

  ghost predicate Inv(c: Cycle) {
    && PortableId(c.cycleId)
    && LegalPath(c)
    && Evidenced(c)
    && Authorised(c)
    && NormalArtifacts(c.artifacts)
    && DistinctIds(Base(c.research))
  }

  /** Nothing a later cycle value drops: history, approvals, artifacts and research only grow. */
  ghost predicate Extends(c: Cycle, d: Cycle) {
    && d.cycleId == c.cycleId && d.objective == c.objective
    && d.autonomy == c.autonomy && d.risk == c.risk && d.createdAt == c.createdAt
    && c.history <= d.history
    && c.approvals <= d.approvals
    && (forall b :: Get(c.artifacts, b) <= Get(d.artifacts, b))
    && (forall b :: Get(Base(c.research), b) <= Get(Base(d.research), b))
  }

  datatype Step = Step(to: Stage, input: TransitionInput)

  ghost function Run(c: Cycle, steps: seq<Step>): Result<Cycle, Error>
    decreases |steps|
  {
    if steps == [] then Ok(c)
    else
      match Transition(c, steps[0].to, steps[0].input)
      case Err(e) => Err(e)
      case Ok(d) => Run(d, steps[1..])
  }

  lemma PortableIdsAreTrimmed(id: string)
    requires PortableId(id)
    ensures Trim(id) == id && Trim(ModifyScope(id)) == ModifyScope(id) != ""
  {
    TrimFixes(id);
    TrimFixes(ModifyScope(id));
  }

  /** An allowed execution is at A3 or A4 and, from R3 up, holds a matching live approval. */
  lemma AllowedExecutionIsApproved(c: Cycle, approvals: seq<Approval>, now: Time)
    requires PortableId(c.cycleId)
    ensures ExecutionAllowed(c, approvals, now) <==>
              && c.autonomy in {A3, A4}
              && (c.risk in {R3, R4} ==>
                    exists a :: a in approvals && ApprovalMatches(a, ModifyCode, c.cycleId, ModifyScope(c.cycleId), now))
  {
    PortableIdsAreTrimmed(c.cycleId);
  }

  /** An accepted transition appends one history entry and swaps in the two merged records. */
  lemma TransitionAdvances(c: Cycle, to: Stage, input: TransitionInput)
    requires Transition(c, to, input).Ok?
    ensures !Terminal(c.stage) && CanTransition(c.stage, to)
    ensures CanMerge(Base(c.research), input.appendResearch)
    ensures HasRequired(to, Merged(c.artifacts, input.addArtifacts))
    ensures Transition(c, to, input).value
            == Advanced(c, to, input, Merged(c.artifacts, input.addArtifacts), Joined(Base(c.research), input.appendResearch))
  {
  }

  /** And conversely: what no guard refuses is accepted. */
  lemma TransitionAccepts(c: Cycle, to: Stage, input: TransitionInput)
    requires !Terminal(c.stage) && CanTransition(c.stage, to) && !Blank(input.actor) && !Blank(input.reason)
    requires to == Executing ==> ExecutionAllowed(c, c.approvals + input.approvals, input.now)
    requires to == Verified ==> input.verificationPassed
    requires HasRequired(to, Merged(c.artifacts, input.addArtifacts)) && CanMerge(Base(c.research), input.appendResearch)
    ensures Transition(c, to, input)
            == Ok(Advanced(c, to, input, Merged(c.artifacts, input.addArtifacts), Joined(Base(c.research), input.appendResearch)))
  {
  }

  lemma AdvancedExtends(c: Cycle, to: Stage, input: TransitionInput)
    requires NormalArtifacts(c.artifacts)
    ensures Extends(c, Advanced(c, to, input, Merged(c.artifacts, input.addArtifacts), Joined(Base(c.research), input.appendResearch)))
  {
    MergedKeepsEverything(c.artifacts, input.addArtifacts);
  }

  lemma LegalStepsRaiseRank(from: Stage, to: Stage)
    requires CanTransition(from, to) && !Terminal(from)
    ensures Rank(from) < Rank(to) <= 13
  {
  }

  lemma AdvancedKeepsPath(c: Cycle, to: Stage, input: TransitionInput, artifacts: Artifacts, research: ResearchRecords)
    requires LegalPath(c) && CanTransition(c.stage, to) && !Terminal(c.stage)
    ensures LegalPath(Advanced(c, to, input, artifacts, research))
  {
    LegalStepsRaiseRank(c.stage, to);
    var h := Advanced(c, to, input, artifacts, research).history;
    var n := |c.history|;
    forall i | 0 <= i <= n
      ensures CanTransition(h[i].from, h[i].to) && !Terminal(h[i].from) && h[i].id == EventId(c.cycleId, i + 1)
    {
      if i < n { assert h[i] == c.history[i]; }
    }
    forall i, j | 0 <= i && j == i + 1 && j <= n ensures h[j].from == h[i].to {
      assert h[i] == c.history[i];
      if j < n { assert h[j] == c.history[j]; }
    }
  }

  lemma AdvancedKeepsEvidence(c: Cycle, d: Cycle, to: Stage)
    requires Evidenced(c) && Extends(c, d) && HasRequired(to, d.artifacts)
    requires |d.history| == |c.history| + 1 && d.history[|c.history|].to == to
    ensures Evidenced(d)
  {
    forall i | 0 <= i < |c.history| ensures HasRequired(d.history[i].to, d.artifacts) {
      assert d.history[i] == c.history[i] && HasRequired(c.history[i].to, c.artifacts);
      forall b | b in RequiredArtifacts(d.history[i].to) ensures Get(d.artifacts, b) != [] {
        assert Get(c.artifacts, b) <= Get(d.artifacts, b);
      }
    }
  }

  lemma TransitionIsAllowed(c: Cycle, to: Stage, input: TransitionInput)
    requires Transition(c, to, input).Ok? && to == Executing
    ensures ExecutionAllowed(c, c.approvals + input.approvals, input.now)
  {
  }

  lemma AdvancedKeepsAuthorised(c: Cycle, d: Cycle, at: Time)
    requires PortableId(c.cycleId) && Authorised(c) && Extends(c, d)
    requires |d.history| == |c.history| + 1 && d.history[|c.history|].at == at
    requires d.history[|c.history|].to == Executing ==> ExecutionAllowed(c, d.approvals, at)
    ensures Authorised(d)
  {
    AllowedExecutionIsApproved(c, d.approvals, at);
    forall i | 0 <= i < |d.history| && d.history[i].to == Executing
      ensures d.autonomy in {A3, A4} && (d.risk in {R3, R4} ==> ApprovedAt(d, d.history[i].at))
    {
      if i < |c.history| {
        assert d.history[i] == c.history[i];
        assert d.risk in {R3, R4} ==> ApprovedAt(c, c.history[i].at);
      }
    }
  }

  /** One accepted transition keeps every invariant and drops nothing. */
  lemma TransitionKeepsInv(c: Cycle, to: Stage, input: TransitionInput)
    requires Inv(c) && Transition(c, to, input).Ok?
    ensures Inv(Transition(c, to, input).value) && Extends(c, Transition(c, to, input).value)
  {
    var artifacts, research := Merged(c.artifacts, input.addArtifacts), Joined(Base(c.research), input.appendResearch);
    TransitionAdvances(c, to, input);
    AdvancedExtends(c, to, input);
    AdvancedKeepsPath(c, to, input, artifacts, research);
    var d := Transition(c, to, input).value;
    AdvancedKeepsEvidence(c, d, to);
    if to == Executing { TransitionIsAllowed(c, to, input); }
    AdvancedKeepsAuthorised(c, d, input.now);
    MergedKeepsEverything(c.artifacts, input.addArtifacts);
    JoinedKeepsDistinct(Base(c.research), input.appendResearch);
  }

  lemma {:induction false} RunKeepsInv(c: Cycle, steps: seq<Step>)
    requires Inv(c) && Run(c, steps).Ok?
    ensures Inv(Run(c, steps).value) && Extends(c, Run(c, steps).value)
    ensures |Run(c, steps).value.history| == |c.history| + |steps|
    decreases |steps|
  {
    if steps != [] {
      TransitionKeepsInv(c, steps[0].to, steps[0].input);
      var d := Transition(c, steps[0].to, steps[0].input).value;
      TransitionAdvances(c, steps[0].to, steps[0].input);
      RunKeepsInv(d, steps[1..]);
      ExtendsIsTransitive(c, d, Run(d, steps[1..]).value);
    }
  }

  lemma ExtendsIsTransitive(c: Cycle, d: Cycle, e: Cycle)
    requires Extends(c, d) && Extends(d, e)
    ensures Extends(c, e)
  {
    forall b ensures Get(c.artifacts, b) <= Get(e.artifacts, b) {
      assert Get(c.artifacts, b) <= Get(d.artifacts, b);
    }
    forall b ensures Get(Base(c.research), b) <= Get(Base(e.research), b) {
      assert Get(Base(c.research), b) <= Get(Base(d.research), b);
    }
  }

  /** Main theorem: what holds of every cycle that any run from CreateCycle can produce. */
  lemma EveryReachableCycle(input: CreateInput, steps: seq<Step>)
    requires CreateCycle(input).Ok? && Run(CreateCycle(input).value, steps).Ok?
    ensures var c := Run(CreateCycle(input).value, steps).value;
            Inv(c) && |c.history| == |steps| <= 13
  {
    CreatedCycleHasInv(input);
    RunKeepsInv(CreateCycle(input).value, steps);
    RankIsAtMost13(Run(CreateCycle(input).value, steps).value.stage);
  }

  lemma CreatedCycleHasInv(input: CreateInput)
    requires CreateCycle(input).Ok?
    ensures Inv(CreateCycle(input).value) && CreateCycle(input).value.history == []
  {
    var c := CreateCycle(input).value;
    assert LegalPath(c) && Evidenced(c) && Authorised(c);
    assert c.artifacts == map[] && Base(c.research) == map[];
  }

  lemma RankIsAtMost13(s: Stage)
    ensures Rank(s) <= 13
  {
  }
}
