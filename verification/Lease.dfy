/**
 * The delivery operation lease: a checkpoint file, a lock file hard-linked from a prepared
 * candidate, any number of processes running withDeliveryOperation, and an operator's
 * reconcileDeliveryOperation. Each step is one file-system effect; any process may die between
 * effects. One process runs one operation, so process and operation share an identifier.
 */
module Lease {
  import opened Prelude

  type Pid = nat

  datatype Status = Running | Completed | Failed | Abandoned

  datatype Rec = Rec(op: Pid, foreign: bool, child: Option<Pid>, status: Status, beat: nat)

  datatype Content = Valid(rec: Rec) | Corrupt

  // ---------------------------------------------------------------- inspection

  datatype Control = MissingControl | ValidControl | InvalidControl

  datatype Liveness = NotRecorded | Alive | Dead | ForeignHost

  datatype Disposition = Healthy | Active | Stale | Blocked

  datatype Inspection = Inspection(
    control: Control, rec: Option<Rec>, lockPresent: bool, owner: Liveness, child: Liveness, disposition: Disposition)

  function ProcessState(foreign: bool, pid: Option<Pid>, alive: set<Pid>): Liveness {
    if pid.None? then NotRecorded
    else if foreign then ForeignHost
    else if pid.value in alive then Alive else Dead
  }

  function Judge(rec: Rec, lockPresent: bool, alive: set<Pid>): Inspection {
    var owner := ProcessState(rec.foreign, Some(rec.op), alive);
    var child := ProcessState(rec.foreign, rec.child, alive);
    var disposition :=
      if rec.status == Running then
        if owner == ForeignHost || child == ForeignHost then Blocked
        else if owner == Alive || child == Alive then Active
        else Stale
      else if lockPresent then Stale else Healthy;
    Inspection(ValidControl, Some(rec), lockPresent, owner, child, disposition)
  }

  /** inspectDeliveryOperation over the two files and the process table. */
  function Inspect(checkpoint: Option<Content>, lock: Option<Content>, alive: set<Pid>): Inspection {
    if checkpoint.None? && lock.None? then
      Inspection(MissingControl, None, false, NotRecorded, NotRecorded, Healthy)
    else if lock == Some(Corrupt) then
      Inspection(InvalidControl, None, true, NotRecorded, NotRecorded, Blocked)
    else if checkpoint == Some(Corrupt) && lock.None? then
      Inspection(InvalidControl, None, false, NotRecorded, NotRecorded, Blocked)
    else if lock.Some? && (checkpoint.None? || checkpoint == Some(Corrupt) || lock.value.rec.op != checkpoint.value.rec.op) then
      Judge(lock.value.rec, true, alive)
    else
      Judge(checkpoint.value.rec, lock.Some?, alive)
  }

  // ---------------------------------------------------------------- the processes

  datatype Pc =
    | Begin
    | Ready                     // the first inspection was healthy
    | Prepared                  // the candidate file is written
    | Linked                    // the lock is linked, the checkpoint is not yet renamed
    | Aborting                  // the rename failed: the lock is about to be removed
    | Inside                    // running the callback
    | Ended                     // terminal record written, lock not yet removed
    | Over

  /** An operator's reconciliation, between its effects. */
  datatype Reconciler =
    | Away
    | Inspected(rec: Rec)       // found stale; evidence not yet registered
    | Rechecked(rec: Rec)       // found stale again, for the same operation
    | Recorded(rec: Rec)        // checkpoint rewritten, candidate and lock still there
    | Cleaned(rec: Rec)         // candidate removed, lock still there

  datatype Sys = Sys(
    checkpoint: Option<Content>, lock: Option<Content>, candidates: map<Pid, Rec>,
    owners: map<Pid, Pc>, alive: set<Pid>, reconciler: Reconciler)

  function View(s: Sys): Inspection {
    Inspect(s.checkpoint, s.lock, s.alive)
  }

  predicate Runs(s: Sys, p: Pid, pc: Pc) {
    p in s.owners && p in s.alive && s.owners[p] == pc
  }

  function Go(s: Sys, p: Pid, pc: Pc): Sys {
    s.(owners := s.owners[p := pc])
  }

  predicate Launch(s: Sys, t: Sys, p: Pid) {
    p !in s.owners && p !in s.alive && t == Go(s, p, Begin).(alive := s.alive + {p})
  }

  predicate FirstLook(s: Sys, t: Sys, p: Pid) {
    && Runs(s, p, Begin)
    && t == Go(s, p, if View(s).disposition == Healthy then Ready else Over)
  }

  predicate Prepare(s: Sys, t: Sys, p: Pid) {
    && Runs(s, p, Ready)
    && t == Go(s, p, Prepared).(candidates := s.candidates[p := Rec(p, false, None, Running, 0)])
  }

  /** linkSync: atomic, and refused where a lock exists; then the candidate is removed again. */
  predicate Link(s: Sys, t: Sys, p: Pid) {
    && Runs(s, p, Prepared) && p in s.candidates
    && t == if s.lock.None? then Go(s, p, Linked).(lock := Some(Valid(s.candidates[p])))
            else Go(s, p, Over).(candidates := s.candidates - {p})
  }

  predicate RenameCandidate(s: Sys, t: Sys, p: Pid) {
    && Runs(s, p, Linked) && p in s.candidates
    && t == Go(s, p, Inside).(checkpoint := Some(Valid(s.candidates[p])), candidates := s.candidates - {p})
  }

  predicate RenameFails(s: Sys, t: Sys, p: Pid) {
    Runs(s, p, Linked) && t == Go(s, p, Aborting).(candidates := s.candidates - {p})
  }

  predicate Holds(checkpoint: Option<Content>, p: Pid) {
    checkpoint.Some? && checkpoint.value.Valid? && checkpoint.value.rec.op == p && checkpoint.value.rec.status == Running
  }

  predicate Heartbeat(s: Sys, t: Sys, p: Pid) {
    && Runs(s, p, Inside) && Holds(s.checkpoint, p)
    && var r := s.checkpoint.value.rec;
       t == s.(checkpoint := Some(Valid(r.(beat := r.beat + 1))))
  }

  /** A spawned child is alive before its pid is recorded. */
  predicate Spawn(s: Sys, t: Sys, p: Pid, c: Pid) {
    Runs(s, p, Inside) && c !in s.alive && c !in s.owners && t == s.(alive := s.alive + {c})
  }

  predicate RecordChild(s: Sys, t: Sys, p: Pid, c: Pid) {
    && Runs(s, p, Inside) && Holds(s.checkpoint, p) && c !in s.owners
    && t == s.(checkpoint := Some(Valid(s.checkpoint.value.rec.(child := Some(c)))))
  }

  /** The callback returned or threw: whatever record is there is made terminal, or nothing is. */
  predicate End(s: Sys, t: Sys, p: Pid, status: Status) {
    && Runs(s, p, Inside) && status in {Completed, Failed}
    && t == if s.checkpoint.Some? && s.checkpoint.value.Valid?
            then Go(s, p, Ended).(checkpoint := Some(Valid(s.checkpoint.value.rec.(child := None, status := status))))
            else Go(s, p, Over)
  }

  /** releaseOperationLock removes whatever lock file is there. */
  predicate Unlock(s: Sys, t: Sys, p: Pid) {
    (Runs(s, p, Ended) || Runs(s, p, Aborting)) && t == Go(s, p, Over).(lock := None)
  }

  /** A process or a child dies; so may the operator's. */
  predicate Die(s: Sys, t: Sys, p: Pid) {
    p in s.alive && t == s.(alive := s.alive - {p})
  }

  predicate ReconcilerDies(s: Sys, t: Sys) {
    t == s.(reconciler := Away)
  }

  predicate ReconcileInspect(s: Sys, t: Sys) {
    && s.reconciler == Away && View(s).disposition == Stale && View(s).control == ValidControl
    && t == s.(reconciler := Inspected(View(s).rec.value))
  }

  /** The second inspection; with `gated`, the operator acts only where the owner is dead. */
  predicate ReconcileRecheck(s: Sys, t: Sys, gated: bool) {
    && s.reconciler.Inspected?
    && var now := View(s);
       if now.disposition == Stale && now.control == ValidControl && now.rec.value.op == s.reconciler.rec.op
       then
         && (gated ==> now.rec.value.op !in s.alive)
         && t == s.(reconciler := Rechecked(s.reconciler.rec))
       else t == s.(reconciler := Away)
  }

  function Cleared(rec: Rec): Rec {
    rec.(child := None, status := if rec.status == Running then Abandoned else rec.status)
  }

  predicate ReconcileRecord(s: Sys, t: Sys) {
    && s.reconciler.Rechecked?
    && t == s.(checkpoint := Some(Valid(Cleared(s.reconciler.rec))), reconciler := Recorded(s.reconciler.rec))
  }

  predicate ReconcileClean(s: Sys, t: Sys) {
    && s.reconciler.Recorded?
    && t == s.(candidates := s.candidates - {s.reconciler.rec.op}, reconciler := Cleaned(s.reconciler.rec))
  }

  predicate ReconcileUnlock(s: Sys, t: Sys) {
    s.reconciler.Cleaned? && t == s.(lock := None, reconciler := Away)
  }

  predicate ReconcileStep(s: Sys, t: Sys, gated: bool) {
    || ReconcilerDies(s, t) || ReconcileInspect(s, t) || ReconcileRecheck(s, t, gated)
    || ReconcileRecord(s, t) || ReconcileClean(s, t) || ReconcileUnlock(s, t)
  }

  predicate OwnerStep(s: Sys, t: Sys, p: Pid) {
    || Launch(s, t, p) || FirstLook(s, t, p) || Prepare(s, t, p) || Link(s, t, p) || RenameCandidate(s, t, p)
    || RenameFails(s, t, p) || Heartbeat(s, t, p) || End(s, t, p, Completed) || End(s, t, p, Failed)
    || Unlock(s, t, p) || Die(s, t, p)
  }

  ghost predicate Next(s: Sys, t: Sys, gated: bool) {
    || (exists p :: OwnerStep(s, t, p))
    || (exists p, c :: Spawn(s, t, p, c) || RecordChild(s, t, p, c))
    || ReconcileStep(s, t, gated)
  }

  const START := Sys(None, None, map[], map[], {}, Away)

  // ---------------------------------------------------------------- the invariant

  predicate LockOf(s: Sys, p: Pid) {
    s.lock.Some? && s.lock.value.Valid? && s.lock.value.rec.op == p
  }

  predicate InProtocol(pc: Pc) {
    pc == Linked || pc == Aborting || pc == Inside || pc == Ended
  }

  predicate WellKept(content: Option<Content>) {
    content.Some? ==> content.value.Valid? && !content.value.rec.foreign
  }

  predicate NotRecordedYet(s: Sys, p: Pid) {
    s.checkpoint.Some? && s.checkpoint.value.Valid? ==> s.checkpoint.value.rec.op != p
  }

  /** What each position in the protocol says about the files. */
  predicate Position(s: Sys, p: Pid)
    requires p in s.owners
  {
    match s.owners[p]
    case Begin => NotRecordedYet(s, p)
    case Ready => NotRecordedYet(s, p)
    case Prepared => NotRecordedYet(s, p) && p in s.candidates && s.candidates[p] == Rec(p, false, None, Running, 0)
    case Linked =>
      && NotRecordedYet(s, p) && LockOf(s, p)
      && p in s.candidates && s.candidates[p] == Rec(p, false, None, Running, 0)
    case Aborting => NotRecordedYet(s, p) && LockOf(s, p)
    case Inside => LockOf(s, p) && Holds(s.checkpoint, p)
    case Ended =>
      && LockOf(s, p) && s.checkpoint.Some? && s.checkpoint.value.Valid?
      && s.checkpoint.value.rec.op == p && s.checkpoint.value.rec.status != Running
    case Over => true
  }

  /** Past its second inspection, the operator acts on the dead owner of the lock in place. */
  predicate ReconcilerOk(s: Sys) {
    match s.reconciler
    case Away => true
    case Inspected(rec) => !rec.foreign
    case Rechecked(rec) => !rec.foreign && LockOf(s, rec.op) && rec.op !in s.alive
    case Recorded(rec) => LockOf(s, rec.op) && rec.op !in s.alive && s.checkpoint == Some(Valid(Cleared(rec)))
    case Cleaned(rec) => LockOf(s, rec.op) && rec.op !in s.alive && s.checkpoint == Some(Valid(Cleared(rec)))
  }

  ghost predicate Inv(s: Sys) {
    && WellKept(s.lock) && WellKept(s.checkpoint)
    && (s.lock.Some? ==>
          && s.lock.value.rec.status == Running && s.lock.value.rec.child == None
          && s.lock.value.rec.op in s.owners && InProtocol(s.owners[s.lock.value.rec.op]))
    && (s.checkpoint.Some? ==> s.checkpoint.value.rec.op in s.owners)
    && (s.checkpoint.Some? && s.checkpoint.value.rec.status == Running ==> LockOf(s, s.checkpoint.value.rec.op))
    && (forall p :: p in s.owners && p in s.alive ==> Position(s, p))
    && ReconcilerOk(s)
  }

  lemma StartHasInv()
    ensures Inv(START)
  {
  }

  /** Before linking, a process changes nothing the others rely on. */
  lemma EarlyStepKeepsInv(s: Sys, t: Sys, p: Pid)
    requires Inv(s) && (Launch(s, t, p) || FirstLook(s, t, p) || Prepare(s, t, p) || Link(s, t, p))
    ensures Inv(t)
  {
    forall q | q in t.owners && q in t.alive ensures Position(t, q) {
      if q in s.owners && q in s.alive { assert Position(s, q); }
    }
  }

  lemma HolderStepKeepsInv(s: Sys, t: Sys, p: Pid)
    requires Inv(s)
    requires || RenameCandidate(s, t, p) || RenameFails(s, t, p) || Heartbeat(s, t, p)
             || End(s, t, p, Completed) || End(s, t, p, Failed) || Unlock(s, t, p)
    ensures Inv(t)
  {
    assert Position(s, p);
    forall q | q in t.owners && q in t.alive ensures Position(t, q) {
      assert Position(s, q);
    }
  }

  lemma DeathKeepsInv(s: Sys, t: Sys, p: Pid)
    requires Inv(s) && Die(s, t, p)
    ensures Inv(t)
  {
    forall q | q in t.owners && q in t.alive ensures Position(t, q) {
      assert Position(s, q);
    }
  }

  lemma OwnerStepKeepsInv(s: Sys, t: Sys, p: Pid)
    requires Inv(s) && OwnerStep(s, t, p)
    ensures Inv(t)
  {
    if Launch(s, t, p) || FirstLook(s, t, p) || Prepare(s, t, p) || Link(s, t, p) { EarlyStepKeepsInv(s, t, p); }
    else if Die(s, t, p) { DeathKeepsInv(s, t, p); }
    else { HolderStepKeepsInv(s, t, p); }
  }

  lemma ChildStepKeepsInv(s: Sys, t: Sys, p: Pid, c: Pid)
    requires Inv(s) && (Spawn(s, t, p, c) || RecordChild(s, t, p, c))
    ensures Inv(t)
  {
    assert Position(s, p);
    forall q | q in t.owners && q in t.alive ensures Position(t, q) {
      assert Position(s, q);
    }
  }

  lemma ReconcileStepKeepsInv(s: Sys, t: Sys)
    requires Inv(s) && ReconcileStep(s, t, true)
    ensures Inv(t)
  {
    forall q | q in t.owners && q in t.alive ensures Position(t, q) {
      assert Position(s, q);
    }
  }

  lemma NextKeepsInv(s: Sys, t: Sys)
    requires Inv(s) && Next(s, t, true)
    ensures Inv(t)
  {
    if p :| OwnerStep(s, t, p) { OwnerStepKeepsInv(s, t, p); }
    else if p, c :| Spawn(s, t, p, c) || RecordChild(s, t, p, c) { ChildStepKeepsInv(s, t, p, c); }
    else { ReconcileStepKeepsInv(s, t); }
  }

  ghost predicate RunFrom(states: seq<Sys>, gated: bool) {
    && states != [] && states[0] == START
    && forall i, j :: 0 <= i && j == i + 1 && j < |states| ==> Next(states[i], states[j], gated)
  }

  lemma {:induction false} EveryGatedRunKeepsInv(states: seq<Sys>)
    requires RunFrom(states, true)
    ensures Inv(states[|states| - 1])
    decreases |states|
  {
    var n := |states| - 1;
    if n == 0 {
      StartHasInv();
    } else {
      EveryGatedRunKeepsInv(states[..n]);
      NextKeepsInv(states[n - 1], states[n]);
    }
  }

  ghost predicate Reachable(s: Sys, gated: bool) {
    exists states :: RunFrom(states, gated) && states[|states| - 1] == s
  }

  lemma ReachableHasInv(s: Sys)
    requires Reachable(s, true)
    ensures Inv(s)
  {
    var states :| RunFrom(states, true) && states[|states| - 1] == s;
    EveryGatedRunKeepsInv(states);
  }

  // ---------------------------------------------------------------- mutual exclusion

  /** At most one live process is anywhere between linking the lock and removing it. */
  lemma AtMostOneHolder(s: Sys, p: Pid, q: Pid)
    requires Reachable(s, true)
    requires p in s.owners && p in s.alive && InProtocol(s.owners[p])
    requires q in s.owners && q in s.alive && InProtocol(s.owners[q])
    ensures p == q
  {
    ReachableHasInv(s);
    assert Position(s, p) && Position(s, q);
  }

  /** While a process runs its callback, inspection calls the lease active, and never clearable. */
  lemma InsideIsActive(s: Sys, p: Pid)
    requires Reachable(s, true) && Runs(s, p, Inside)
    ensures View(s).disposition == Active && View(s).rec.Some? && View(s).rec.value.op == p
  {
    ReachableHasInv(s);
    assert Position(s, p);
  }

  /** From the link on, no first inspection lets another process start. */
  lemma HolderIsNeverHealthy(s: Sys, p: Pid)
    requires Reachable(s, true) && p in s.owners && p in s.alive && InProtocol(s.owners[p])
    ensures View(s).disposition != Healthy
  {
    ReachableHasInv(s);
    assert Position(s, p);
  }

  /** Mutual exclusion of the callback, in every run whose reconciliations touch dead owners only. */
  lemma CallbackMutualExclusion(states: seq<Sys>, p: Pid, q: Pid)
    requires RunFrom(states, true)
    requires Runs(states[|states| - 1], p, Inside) && Runs(states[|states| - 1], q, Inside)
    ensures p == q && View(states[|states| - 1]).disposition == Active
  {
    assert Reachable(states[|states| - 1], true);
    AtMostOneHolder(states[|states| - 1], p, q);
    InsideIsActive(states[|states| - 1], p);
  }

  // ---------------------------------------------------------------- what inspection answers

  /** The record inspection goes by: the lock's own, unless the checkpoint is of the same operation. */
  function InCharge(checkpoint: Option<Content>, lock: Option<Content>): Option<Rec> {
    match (checkpoint, lock)
    case (_, Some(Corrupt)) => None
    case (Some(Valid(c)), Some(Valid(l))) => Some(if c.op == l.op then c else l)
    case (_, Some(Valid(l))) => Some(l)
    case (Some(Valid(c)), None) => Some(c)
    case (_, None) => None
  }

  /** An unreadable record in charge blocks the lease, and nothing at all is healthy. */
  lemma InspectionWithoutRecord(checkpoint: Option<Content>, lock: Option<Content>, alive: set<Pid>)
    requires InCharge(checkpoint, lock) == None
    ensures var found := Inspect(checkpoint, lock, alive);
            && found.rec == None && found.owner == NotRecorded && found.child == NotRecorded && found.lockPresent == lock.Some?
            && (checkpoint == None && lock == None ==> found.control == MissingControl && found.disposition == Healthy)
            && (checkpoint.Some? || lock.Some? ==> found.control == InvalidControl && found.disposition == Blocked)
  {
  }

  /** A readable one decides by its status, its host, and whether its owner or its child still runs. */
  lemma InspectionOfRecord(checkpoint: Option<Content>, lock: Option<Content>, alive: set<Pid>)
    requires InCharge(checkpoint, lock).Some?
    ensures var found, rec := Inspect(checkpoint, lock, alive), InCharge(checkpoint, lock).value;
            var running := rec.status == Running;
            var lives := rec.op in alive || (rec.child.Some? && rec.child.value in alive);
            && found.rec == Some(rec) && found.control == ValidControl && found.lockPresent == lock.Some?
            && (found.disposition == Blocked <==> running && rec.foreign)
            && (found.disposition == Active <==> running && !rec.foreign && lives)
            && (found.disposition == Stale <==> (running && !rec.foreign && !lives) || (!running && lock.Some?))
            && (found.disposition == Healthy <==> !running && lock == None)
            && (found.owner == ForeignHost <==> rec.foreign) && (found.owner == Alive <==> !rec.foreign && rec.op in alive)
            && (found.owner == Dead <==> !rec.foreign && rec.op !in alive)
            && (found.child == NotRecorded <==> rec.child == None)
            && (found.child == ForeignHost <==> rec.child.Some? && rec.foreign)
            && (found.child == Alive <==> rec.child.Some? && !rec.foreign && rec.child.value in alive)
            && (found.child == Dead <==> rec.child.Some? && !rec.foreign && rec.child.value !in alive)
  {
  }

  /** A recorded command that still runs keeps the lease active when its owner is dead: nobody can clear it. */
  lemma LivingChildKeepsLease(s: Sys)
    requires Reachable(s, true) && s.checkpoint.Some? && s.checkpoint.value.Valid? && s.checkpoint.value.rec.status == Running
    requires s.checkpoint.value.rec.child.Some? && s.checkpoint.value.rec.child.value in s.alive
    ensures View(s).disposition == Active && (forall t :: !ReconcileInspect(s, t))
    ensures Reconciled(s) == s.(reconciler := Away)
  {
    ReachableHasInv(s);
  }

  // ---------------------------------------------------------------- recoverability

  /** One completed reconcileDeliveryOperation with apply, nobody else moving. */
  function Reconciled(s: Sys): Sys {
    if View(s).disposition == Stale && View(s).control == ValidControl then
      var rec := View(s).rec.value;
      s.(checkpoint := Some(Valid(Cleared(rec))), candidates := s.candidates - {rec.op}, lock := None, reconciler := Away)
    else s.(reconciler := Away)
  }

  /** A cleared record is the old one, its child forgotten; what was running is abandoned, what had ended stays as it ended. */
  lemma ReconciledRecord(s: Sys)
    requires View(s).disposition == Stale
    ensures View(s).rec.Some?
    ensures var rec, t := View(s).rec.value, Reconciled(s);
            && t.lock == None && t.candidates == s.candidates - {rec.op} && t.owners == s.owners && t.alive == s.alive
            && t.checkpoint == Some(Valid(Rec(rec.op, rec.foreign, None, if rec.status == Running then Abandoned else rec.status, rec.beat)))
  {
  }

  /** It is a run of the protocol's own steps. */
  lemma ReconciledByItsSteps(s: Sys)
    requires s.reconciler == Away && View(s).disposition == Stale && View(s).control == ValidControl
    ensures var rec := View(s).rec.value;
            var s1 := s.(reconciler := Inspected(rec));
            var s2 := s.(reconciler := Rechecked(rec));
            var s3 := s2.(checkpoint := Some(Valid(Cleared(rec))), reconciler := Recorded(rec));
            var s4 := s3.(candidates := s.candidates - {rec.op}, reconciler := Cleaned(rec));
            && ReconcileInspect(s, s1) && ReconcileRecheck(s1, s2, false) && ReconcileRecord(s2, s3)
            && ReconcileClean(s3, s4) && ReconcileUnlock(s4, Reconciled(s))
            && (rec.op !in s.alive ==> ReconcileRecheck(s1, s2, true))
  {
  }

  /** Single-host leases are never blocked: with owner and child dead, only stale or healthy is left. */
  lemma DeadLeaseIsStaleOrHealthy(s: Sys)
    requires Reachable(s, true)
    requires View(s).rec.Some? ==> View(s).owner == Dead && View(s).child != Alive
    ensures View(s).disposition in {Stale, Healthy} && View(s).control != InvalidControl
  {
    ReachableHasInv(s);
  }

  /**
   * Recoverability: from every state a run can be killed in, inside an earlier reconciliation
   * too, one completed reconciliation makes the lease healthy once its owner and child are dead.
   */
  lemma ReconciliationHeals(s: Sys)
    requires Reachable(s, true)
    requires View(s).rec.Some? ==> View(s).owner == Dead && View(s).child != Alive
    ensures View(Reconciled(s)).disposition == Healthy && Reconciled(s).lock == None
  {
    ReachableHasInv(s);
    DeadLeaseIsStaleOrHealthy(s);
  }

  // ---------------------------------------------------------------- where gating matters

  /**
   * The code also calls a terminal record with a lock stale. Clearing it keeps the invariant
   * exactly when the recorded owner is dead: a live owner may be between its terminal write
   * and its own unlock, which removes whatever lock is there by then.
   */
  lemma ClearingIsSafeIffOwnerDead(s: Sys)
    requires Inv(s) && View(s).disposition == Stale
    ensures Inv(Reconciled(s)) <==> View(s).rec.value.op !in s.alive
  {
    var t := Reconciled(s);
    var op := View(s).rec.value.op;
    if op in s.alive {
      assert !Position(t, op);
    } else {
      forall q | q in t.owners && q in t.alive ensures Position(t, q) {
        assert Position(s, q);
      }
    }
  }

  lemma Reach(s: Sys, t: Sys, gated: bool)
    requires Reachable(s, gated) && Next(s, t, gated)
    ensures Reachable(t, gated)
  {
    var states :| RunFrom(states, gated) && states[|states| - 1] == s;
    var longer := states + [t];
    assert longer[|longer| - 1] == t;
    assert RunFrom(longer, gated);
  }

  function Fresh(p: Pid): Rec {
    Rec(p, false, None, Running, 0)
  }

  function WithCandidate(s: Sys, p: Pid): Sys {
    s.(owners := s.owners[p := Prepared], alive := s.alive + {p}, candidates := s.candidates[p := Fresh(p)])
  }

  /** Launch, first inspection and candidate of one process, in a directory that looks healthy. */
  lemma CandidateWritten(s: Sys, p: Pid)
    requires Reachable(s, false) && p !in s.owners && p !in s.alive && s.checkpoint == None && s.lock == None
    ensures Reachable(WithCandidate(s, p), false)
  {
    var a := Go(s, p, Begin).(alive := s.alive + {p});
    var b := Go(a, p, Ready);
    var c := Go(b, p, Prepared).(candidates := b.candidates[p := Fresh(p)]);
    assert OwnerStep(s, a, p) && OwnerStep(a, b, p) && OwnerStep(b, c, p);
    Reach(s, a, false);
    Reach(a, b, false);
    Reach(b, c, false);
    assert c == WithCandidate(s, p);
  }

  function Three(): Sys {
    Sys(None, None, map[1 := Fresh(1), 2 := Fresh(2), 3 := Fresh(3)],
        map[1 := Prepared, 2 := Prepared, 3 := Prepared], {1, 2, 3}, Away)
  }

  lemma ThreeCandidates()
    ensures Reachable(Three(), false)
  {
    assert RunFrom([START], false) && [START][|[START]| - 1] == START;
    CandidateWritten(START, 1);
    CandidateWritten(WithCandidate(START, 1), 2);
    CandidateWritten(WithCandidate(WithCandidate(START, 1), 2), 3);
    assert WithCandidate(WithCandidate(WithCandidate(START, 1), 2), 3) == Three();
  }

  /** The first of the three has finished its callback but not yet unlocked. */
  function FirstEnded(): Sys {
    Sys(Some(Valid(Fresh(1).(status := Completed))), Some(Valid(Fresh(1))), map[2 := Fresh(2), 3 := Fresh(3)],
        map[1 := Ended, 2 := Prepared, 3 := Prepared], {1, 2, 3}, Away)
  }

  lemma FirstRunsItsCallback()
    ensures Reachable(FirstEnded(), false)
  {
    ThreeCandidates();
    var a := Three();
    var b := Go(a, 1, Linked).(lock := Some(Valid(Fresh(1))));
    var c := Go(b, 1, Inside).(checkpoint := Some(Valid(Fresh(1))), candidates := b.candidates - {1});
    var d := Go(c, 1, Ended).(checkpoint := Some(Valid(Fresh(1).(status := Completed))));
    assert Link(a, b, 1) && RenameCandidate(b, c, 1) && End(c, d, 1, Completed);
    assert OwnerStep(a, b, 1) && OwnerStep(b, c, 1) && OwnerStep(c, d, 1);
    Reach(a, b, false);
    Reach(b, c, false);
    Reach(c, d, false);
    assert d == FirstEnded();
  }

  /** An operator clears the lease under it, for its terminal record makes it look stale. */
  lemma ClearedUnderLiveOwner()
    ensures Reachable(FirstEnded().(lock := None), false)
  {
    FirstRunsItsCallback();
    var d := FirstEnded();
    ReconciledByItsSteps(d);
    var done := Fresh(1).(status := Completed);
    var e1 := d.(reconciler := Inspected(done));
    var e2 := d.(reconciler := Rechecked(done));
    var e3 := e2.(checkpoint := Some(Valid(Cleared(done))), reconciler := Recorded(done));
    var e4 := e3.(candidates := d.candidates - {1}, reconciler := Cleaned(done));
    Reach(d, e1, false);
    Reach(e1, e2, false);
    Reach(e2, e3, false);
    Reach(e3, e4, false);
    Reach(e4, Reconciled(d), false);
    assert Reconciled(d) == d.(lock := None);
  }

  /** Without the gate, a live owner's late unlock removes its successor's lock: two callbacks run. */
  lemma UngatedClearingBreaksExclusion()
    ensures exists s :: Reachable(s, false) && Runs(s, 2, Inside) && Runs(s, 3, Inside)
  {
    ClearedUnderLiveOwner();
    var a := FirstEnded().(lock := None);
    var b := Go(a, 2, Linked).(lock := Some(Valid(a.candidates[2])));
    var c := Go(b, 1, Over).(lock := None);
    var d := Go(c, 3, Linked).(lock := Some(Valid(a.candidates[3])));
    var e := Go(d, 2, Inside).(checkpoint := Some(Valid(d.candidates[2])), candidates := d.candidates - {2});
    var f := Go(e, 3, Inside).(checkpoint := Some(Valid(e.candidates[3])), candidates := e.candidates - {3});
    assert OwnerStep(a, b, 2) && OwnerStep(b, c, 1) && OwnerStep(c, d, 3) && OwnerStep(d, e, 2) && OwnerStep(e, f, 3);
    Reach(a, b, false);
    Reach(b, c, false);
    Reach(c, d, false);
    Reach(d, e, false);
    Reach(e, f, false);
    assert Runs(f, 2, Inside) && Runs(f, 3, Inside);
  }

  // ---------------------------------------------------------------- an operation that nothing disturbs

  /** A process's callback, its child recorded after one heartbeat. */
  function Working(s: Sys, p: Pid, c: Pid): Sys {
    s.(checkpoint := Some(Valid(Rec(p, false, Some(c), Running, 1))), lock := Some(Valid(Rec(p, false, None, Running, 0))),
       candidates := s.candidates - {p}, owners := s.owners[p := Inside], alive := s.alive + {p, c})
  }

  /** From every healthy lease a new process gets to its callback. */
  lemma OperationStarts(s: Sys, p: Pid, c: Pid)
    requires Reachable(s, true) && s.lock == None && p !in s.owners && p !in s.alive && c !in s.owners && c !in s.alive && p != c
    requires View(s.(alive := s.alive + {p})).disposition == Healthy
    ensures Reachable(Working(s, p, c), true)
  {
    OperationPrepares(s, p);
    var prepared := WithCandidate(s, p);
    OperationAcquires(prepared, p);
    var inside := Go(prepared, p, Inside).(lock := Some(Valid(Fresh(p))), checkpoint := Some(Valid(Fresh(p))),
                                          candidates := prepared.candidates - {p});
    CallbackWorks(inside, p, c);
    assert prepared.candidates - {p} == s.candidates - {p} && s.alive + {p} + {c} == s.alive + {p, c};
    assert inside.owners == s.owners[p := Inside];
  }

  lemma OperationPrepares(s: Sys, p: Pid)
    requires Reachable(s, true) && p !in s.owners && p !in s.alive
    requires View(s.(alive := s.alive + {p})).disposition == Healthy
    ensures Reachable(WithCandidate(s, p), true)
  {
    var s1 := Go(s, p, Begin).(alive := s.alive + {p});
    var s2 := Go(s1, p, Ready);
    var s3 := Go(s2, p, Prepared).(candidates := s2.candidates[p := Fresh(p)]);
    assert View(s1) == View(s.(alive := s.alive + {p}));
    assert OwnerStep(s, s1, p) && OwnerStep(s1, s2, p) && OwnerStep(s2, s3, p);
    Reach(s, s1, true);
    Reach(s1, s2, true);
    Reach(s2, s3, true);
    assert s3 == WithCandidate(s, p);
  }

  lemma OperationAcquires(s: Sys, p: Pid)
    requires Reachable(s, true) && Runs(s, p, Prepared) && p in s.candidates && s.candidates[p] == Fresh(p) && s.lock == None
    ensures Reachable(Go(s, p, Inside).(lock := Some(Valid(Fresh(p))), checkpoint := Some(Valid(Fresh(p))),
                                        candidates := s.candidates - {p}), true)
  {
    var s1 := Go(s, p, Linked).(lock := Some(Valid(Fresh(p))));
    var s2 := Go(s1, p, Inside).(checkpoint := Some(Valid(Fresh(p))), candidates := s1.candidates - {p});
    assert OwnerStep(s, s1, p) && OwnerStep(s1, s2, p);
    Reach(s, s1, true);
    Reach(s1, s2, true);
    assert s2.owners == s.owners[p := Inside];
  }

  lemma CallbackWorks(s: Sys, p: Pid, c: Pid)
    requires Reachable(s, true) && Runs(s, p, Inside) && s.checkpoint == Some(Valid(Fresh(p))) && c !in s.owners && c !in s.alive
    ensures Reachable(s.(checkpoint := Some(Valid(Rec(p, false, Some(c), Running, 1))), alive := s.alive + {c}), true)
  {
    var s1 := s.(checkpoint := Some(Valid(Rec(p, false, None, Running, 1))));
    var s2 := s1.(alive := s1.alive + {c});
    var s3 := s2.(checkpoint := Some(Valid(Rec(p, false, Some(c), Running, 1))));
    assert OwnerStep(s, s1, p) && Spawn(s1, s2, p, c) && RecordChild(s2, s3, p, c);
    Reach(s, s1, true);
    Reach(s1, s2, true);
    Reach(s2, s3, true);
  }

  /** And ends on a healthy lease with its record terminal. */
  lemma OperationEnds(s: Sys, p: Pid, c: Pid, status: Status)
    requires Reachable(Working(s, p, c), true) && p !in s.owners && (status == Completed || status == Failed)
    ensures var t := Working(s, p, c).(checkpoint := Some(Valid(Rec(p, false, None, status, 1))), lock := None,
                                       owners := s.owners[p := Over]);
            Reachable(t, true) && View(t).disposition == Healthy
  {
    var w := Working(s, p, c);
    var s1 := Go(w, p, Ended).(checkpoint := Some(Valid(Rec(p, false, None, status, 1))));
    var s2 := Go(s1, p, Over).(lock := None);
    assert OwnerStep(w, s1, p) && OwnerStep(s1, s2, p);
    Reach(w, s1, true);
    Reach(s1, s2, true);
    assert s2 == w.(checkpoint := Some(Valid(Rec(p, false, None, status, 1))), lock := None, owners := s.owners[p := Over]);
  }

  /** One that finds the lease not healthy, or somebody's lock in its way, ends and leaves the lease as it is. */
  lemma OperationIsRefused(s: Sys, p: Pid)
    requires Reachable(s, true) && p !in s.owners && p !in s.alive
    requires View(s.(alive := s.alive + {p})).disposition != Healthy
    ensures Reachable(s.(owners := s.owners[p := Over], alive := s.alive + {p}), true)
  {
    var s1 := Go(s, p, Begin).(alive := s.alive + {p});
    var s2 := Go(s1, p, Over);
    assert View(s1) == View(s.(alive := s.alive + {p}));
    assert OwnerStep(s, s1, p) && OwnerStep(s1, s2, p);
    Reach(s, s1, true);
    Reach(s1, s2, true);
    assert s2 == s.(owners := s.owners[p := Over], alive := s.alive + {p});
  }

  lemma LockIsNotTaken(s: Sys, p: Pid)
    requires Reachable(s, true) && Runs(s, p, Prepared) && p in s.candidates && s.lock.Some?
    ensures Reachable(s.(owners := s.owners[p := Over], candidates := s.candidates - {p}), true)
  {
    var t := Go(s, p, Over).(candidates := s.candidates - {p});
    assert OwnerStep(s, t, p);
    Reach(s, t, true);
  }

  /** One whose candidate cannot be renamed gives the lock back. */
  lemma LockIsGivenBack(s: Sys, p: Pid)
    requires Reachable(s, true) && Runs(s, p, Prepared) && p in s.candidates && s.candidates[p] == Fresh(p) && s.lock == None
    ensures Reachable(s.(owners := s.owners[p := Over], candidates := s.candidates - {p}), true)
  {
    var s1 := Go(s, p, Linked).(lock := Some(Valid(Fresh(p))));
    var s2 := Go(s1, p, Aborting).(candidates := s1.candidates - {p});
    var s3 := Go(s2, p, Over).(lock := None);
    assert OwnerStep(s, s1, p) && OwnerStep(s1, s2, p) && OwnerStep(s2, s3, p);
    Reach(s, s1, true);
    Reach(s1, s2, true);
    Reach(s2, s3, true);
    assert s3 == s.(owners := s.owners[p := Over], candidates := s.candidates - {p});
  }

  /** A killed operator's reconciliation leaves the next one free to begin. */
  lemma ReconcilerCanDie(s: Sys, gated: bool)
    requires Reachable(s, gated)
    ensures Reachable(s.(reconciler := Away), gated)
  {
    assert ReconcilerDies(s, s.(reconciler := Away));
    Reach(s, s.(reconciler := Away), gated);
  }
}
