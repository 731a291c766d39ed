/**
 * The lease functions as they run on their files. A method is the code between two points where
 * the source waits, so calls of different processes may follow one another in any order; a method
 * takes the point at which its process is killed. Each effect is a step of the Lease protocol.
 */
module LeaseFiles {
  import opened Prelude
  import opened Lease

  datatype Kill = Never | AfterFirstEffect | AfterSecondEffect

  class OperationDirectory {
    var checkpoint: Option<Content>
    var lock: Option<Content>
    var candidates: map<Pid, Rec>
    var alive: set<Pid>
    ghost var owners: map<Pid, Pc>

    ghost function State(): Sys
      reads this
    {
      Sys(checkpoint, lock, candidates, owners, alive, Away)
    }

    /** A state that a run of the protocol keeps to. */
    ghost predicate Valid()
      reads this
    {
      Inv(State())
    }

    constructor ()
      ensures Valid() && State() == START
    {
      checkpoint, lock, candidates, alive, owners := None, None, map[], {}, map[];
    }

    /** inspectDeliveryOperation, record by record: an unreadable lock blocks, the lock's record wins. */
    method InspectDeliveryOperation() returns (found: Inspection)
      ensures found == View(State())
    {
      if checkpoint.None? && lock.None? {
        return Inspection(MissingControl, None, false, NotRecorded, NotRecorded, Healthy);
      }
      var acquisition: Option<Rec> := None;
      var primary: Option<Rec> := None;
      if lock.Some? {
        if lock.value.Corrupt? { return Inspection(InvalidControl, None, true, NotRecorded, NotRecorded, Blocked); }
        acquisition := Some(lock.value.rec);
      }
      if checkpoint.Some? {
        if checkpoint.value.Valid? {
          primary := Some(checkpoint.value.rec);
        } else if acquisition.None? {
          return Inspection(InvalidControl, None, lock.Some?, NotRecorded, NotRecorded, Blocked);
        }
      }
      var record := if acquisition.Some? && (primary.None? || acquisition.value.op != primary.value.op)
                    then acquisition.value else primary.value;
      var owner := ProcessState(record.foreign, Some(record.op), alive);
      var child := ProcessState(record.foreign, record.child, alive);
      var disposition := Healthy;
      if record.status == Running {
        if owner == ForeignHost || child == ForeignHost { disposition := Blocked; }
        else if owner == Alive || child == Alive { disposition := Active; }
        else { disposition := Stale; }
      } else if lock.Some? {
        disposition := Stale;
      }
      found := Inspection(ValidControl, Some(record), lock.Some?, owner, child, disposition);
    }

    /** withDeliveryOperation up to its prepared candidate: refused unless the lease is healthy. */
    method PrepareOperation(p: Pid) returns (found: Disposition)
      requires Valid() && p !in owners && p !in alive
      modifies this
      ensures Valid() && alive == old(alive) + {p} && lock == old(lock) && checkpoint == old(checkpoint)
      ensures found == old(View(State().(alive := alive + {p}))).disposition
      ensures candidates == if found == Healthy then old(candidates)[p := Fresh(p)] else old(candidates)
      ensures owners == old(owners)[p := if found == Healthy then Prepared else Over]
    {
      ghost var s := State();
      alive, owners := alive + {p}, owners[p := Begin];
      OwnerStepKeepsInv(s, State(), p);
      var inspection := InspectDeliveryOperation();
      found := inspection.disposition;
      ghost var b := State();
      owners := owners[p := if found == Healthy then Ready else Over];
      OwnerStepKeepsInv(b, State(), p);
      if found != Healthy { return; }
      ghost var c := State();
      candidates, owners := candidates[p := Rec(p, false, None, Running, 0)], owners[p := Prepared];
      OwnerStepKeepsInv(c, State(), p);
    }

    /** acquireOperationLock and the rename: the lock is taken iff there is none, and given back if the rename fails. */
    method AcquireOperationLock(p: Pid, renameFails: bool, kill: Kill) returns (acquired: bool)
      requires Valid() && Runs(State(), p, Prepared)
      modifies this
      ensures Valid() && alive == (if kill == AfterFirstEffect && old(lock).None? then old(alive) - {p} else old(alive))
      ensures acquired <==> old(lock).None? && !renameFails && kill != AfterFirstEffect
      ensures acquired ==>
                && lock == Some(Content.Valid(Fresh(p))) && checkpoint == lock
                && candidates == old(candidates) - {p} && Runs(State(), p, Inside)
      ensures !acquired ==> checkpoint == old(checkpoint)
      ensures !acquired && p in alive ==> lock == old(lock) && candidates == old(candidates) - {p} && Runs(State(), p, Over)
      ensures p !in alive ==> lock == Some(Content.Valid(Fresh(p))) && candidates == old(candidates)
    {
      ghost var s := State();
      assert Position(s, p);
      if lock.Some? {
        candidates, owners := candidates - {p}, owners[p := Over];
        OwnerStepKeepsInv(s, State(), p);
        return false;
      }
      lock, owners := Some(Content.Valid(candidates[p])), owners[p := Linked];
      ghost var b := State();
      OwnerStepKeepsInv(s, b, p);
      if kill == AfterFirstEffect {
        alive := alive - {p};
        OwnerStepKeepsInv(b, State(), p);
        return false;
      }
      if renameFails {
        candidates, owners := candidates - {p}, owners[p := Aborting];
        ghost var c := State();
        OwnerStepKeepsInv(b, c, p);
        lock, owners := None, owners[p := Over];
        OwnerStepKeepsInv(c, State(), p);
        return false;
      }
      checkpoint, candidates, owners := Some(Content.Valid(candidates[p])), candidates - {p}, owners[p := Inside];
      OwnerStepKeepsInv(b, State(), p);
      acquired := true;
    }

    /** The end of withDeliveryOperation: the record is made terminal, then the lock removed. */
    method FinishOperation(p: Pid, status: Status, kill: Kill)
      requires Valid() && Runs(State(), p, Inside) && status in {Completed, Failed}
      modifies this
      ensures Valid() && candidates == old(candidates)
      ensures alive == if kill == AfterFirstEffect then old(alive) - {p} else old(alive)
      ensures Holds(old(checkpoint), p)
      ensures checkpoint == Some(Content.Valid(old(checkpoint).value.rec.(child := None, status := status)))
      ensures if kill == AfterFirstEffect then lock == old(lock) && View(State()).disposition == Stale
              else lock == None && View(State()).disposition == Healthy
    {
      ghost var s := State();
      assert Position(s, p);
      checkpoint := Some(Content.Valid(checkpoint.value.rec.(child := None, status := status)));
      owners := owners[p := Ended];
      ghost var b := State();
      OwnerStepKeepsInv(s, b, p);
      if kill == AfterFirstEffect {
        alive := alive - {p};
        OwnerStepKeepsInv(b, State(), p);
      } else {
        lock, owners := None, owners[p := Over];
        OwnerStepKeepsInv(b, State(), p);
      }
    }

    /**
     * reconcileDeliveryOperation after its evidence is registered: it acts iff the same operation
     * is still stale, and whatever it is killed in, a later one finds a lease it can clear. What it
     * leaves is sound in every case but one: completed under an owner that has yet to unlock.
     */
    method ApplyReconciliation(first: Rec, kill: Kill) returns (applied: bool)
      requires Valid() && !first.foreign
      modifies this
      ensures Valid() <==> !(applied && first.op in alive)
      ensures alive == old(alive) && owners == old(owners)
      ensures var found := old(View(State()));
              var clears := found.disposition == Stale && found.control == ValidControl && found.rec.value.op == first.op;
              && (applied <==> clears && kill == Never)
              && (clears ==> checkpoint == Some(Content.Valid(Cleared(first))))
              && (clears ==> candidates == if kill == AfterFirstEffect then old(candidates) else old(candidates) - {first.op})
              && (clears ==> lock == if kill == Never then None else old(lock))
              && (!clears ==> State() == old(State()))
      ensures applied ==> View(State()).disposition == Healthy
      ensures !applied && checkpoint != old(checkpoint) ==> View(State()).disposition == Stale && View(State()).rec.value.op == first.op
    {
      var now := InspectDeliveryOperation();
      if !(now.disposition == Stale && now.control == ValidControl && now.rec.value.op == first.op) { return false; }
      ReconciliationStages(State(), first);
      checkpoint := Some(Content.Valid(Cleared(first)));
      if kill == AfterFirstEffect { return false; }
      candidates := candidates - {first.op};
      if kill == AfterSecondEffect { return false; }
      lock := None;
      applied := true;
    }
  }

  /** What is on disk after each effect of a reconciliation: it keeps the invariant up to the unlock, and there iff the owner is dead. */
  lemma ReconciliationStages(s: Sys, first: Rec)
    requires Inv(s) && s.reconciler == Away && !first.foreign
    requires View(s).disposition == Stale && View(s).control == ValidControl && View(s).rec.value.op == first.op
    ensures var recorded := s.(checkpoint := Some(Content.Valid(Cleared(first))));
            var cleaned := recorded.(candidates := s.candidates - {first.op});
            var unlocked := cleaned.(lock := None);
            && Inv(recorded) && View(recorded).disposition == Stale && View(recorded).rec.value.op == first.op
            && Inv(cleaned) && View(cleaned).disposition == Stale && View(cleaned).rec.value.op == first.op
            && (Inv(unlocked) <==> first.op !in s.alive) && View(unlocked).disposition == Healthy
  {
    var recorded := s.(checkpoint := Some(Content.Valid(Cleared(first))));
    var cleaned := recorded.(candidates := s.candidates - {first.op});
    StaleHolder(s, first.op);
    forall q | q in s.owners && q in s.alive ensures Position(recorded, q) && Position(cleaned, q) {
      assert Position(s, q);
    }
    assert Inv(recorded) && Inv(cleaned);
    ClearingIsSafeIffOwnerDead(cleaned);
  }

  /** The owner of a stale lease, if alive, has written its terminal record and not yet unlocked. */
  lemma StaleHolder(s: Sys, op: Pid)
    requires Inv(s) && View(s).disposition == Stale && View(s).rec.value.op == op
    ensures LockOf(s, op) && op in s.owners && InProtocol(s.owners[op])
    ensures op in s.alive ==> s.owners[op] == Ended
    ensures forall q :: q in s.owners && q in s.alive && q != op ==> !InProtocol(s.owners[q]) && NotRecordedOrOver(s, q)
  {
    if op in s.alive { assert Position(s, op); }
    forall q | q in s.owners && q in s.alive && q != op ensures !InProtocol(s.owners[q]) && NotRecordedOrOver(s, q) {
      assert Position(s, q);
    }
  }

  predicate NotRecordedOrOver(s: Sys, q: Pid)
    requires q in s.owners
  {
    s.owners[q] == Over || NotRecordedYet(s, q)
  }
}
