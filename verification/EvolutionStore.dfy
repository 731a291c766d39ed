/**
 * EvolutionStore as one process runs it: create, save and load as methods over the files of
 * one cycle, each of which a configured fault point may kill on the way. Calls follow one
 * another; StoreProtocol has the interleavings.
 */
module EvolutionStoreModel {
  import opened Prelude
  import opened Journal

  datatype FaultPoint =
    | NoFault
    | JournalAfterOpen | JournalAfterWrite | JournalAfterSync
    | SnapshotAfterTempOpen | SnapshotAfterTempWrite | SnapshotAfterTempSync
    | SnapshotAfterRename | SnapshotAfterDirectorySync

  datatype Outcome = Returned(cycle: Cycle) | Threw(error: Error) | Killed

  predicate SnapshotFault(f: FaultPoint) {
    f.SnapshotAfterTempOpen? || f.SnapshotAfterTempWrite? || f.SnapshotAfterTempSync?
    || f.SnapshotAfterRename? || f.SnapshotAfterDirectorySync?
  }

  class EvolutionStore {
    const id: string
    var journal: Option<File>
    var snapshot: Snapshot
    var orphans: nat             // temporary snapshot files of killed processes
    var lockLeft: bool           // a lock file whose owner was killed

    /** The files can be read, and everything in the journal belongs to this cycle. */
    ghost predicate Valid()
      reads this
    {
      Sound(journal, id)
    }

    function Records(): seq<Record>
      reads this
    {
      RecordsOf(journal)
    }

    /** The cycle the journal vouches for. */
    function Latest(): Option<Cycle>
      reads this
    {
      if Records() == [] then None else Some(Records()[|Records()| - 1].cycle)
    }

    /** state.json agrees with the journal, so that a load has nothing to write. */
    predicate Settled()
      reads this
    {
      Records() != [] && Decide(Records(), snapshot, id).heal.None?
    }

    constructor (id: string)
      ensures Valid() && this.id == id && journal == None && snapshot == Missing && !lockLeft && orphans == 0
    {
      this.id := id;
      journal, snapshot, orphans, lockLeft := None, Missing, 0, false;
    }

    /** acquireLock: what a killed owner left behind is reclaimed. */
    method AcquireLock()
      modifies this`lockLeft
      ensures !lockLeft
    {
      if lockLeft {
        lockLeft := false;
      }
    }

    method RemoveOrphans()
      modifies this`orphans
      ensures orphans == 0
    {
      orphans := 0;
    }

    method AppendJournal(record: Record, fault: FaultPoint) returns (killed: bool)
      requires journal.Some? ==> journal.value.tail == Blank
      modifies this`journal
      ensures killed <==> fault in {JournalAfterOpen, JournalAfterWrite, JournalAfterSync}
      ensures journal == if fault == JournalAfterOpen then Some(Opened(old(journal)))
                         else Some(AppendLine(Opened(old(journal)), record))
    {
      if journal.None? {
        journal := Some(File([], Blank));
      }
      if fault == JournalAfterOpen { return true; }
      journal := Some(AppendLine(journal.value, record));
      if fault == JournalAfterWrite { return true; }
      killed := fault == JournalAfterSync;
    }

    method AtomicWriteJson(record: Record, fault: FaultPoint) returns (killed: bool)
      modifies this`snapshot, this`orphans
      ensures killed <==> SnapshotFault(fault)
      ensures snapshot == if fault in {SnapshotAfterTempOpen, SnapshotAfterTempWrite, SnapshotAfterTempSync}
                          then old(snapshot) else Document(Encode(record))
      ensures orphans == old(orphans) + if snapshot == old(snapshot) && killed && fault !in {SnapshotAfterRename, SnapshotAfterDirectorySync} then 1 else 0
    {
      orphans := orphans + 1;
      if fault == SnapshotAfterTempOpen { return true; }
      if fault == SnapshotAfterTempWrite { return true; }
      if fault == SnapshotAfterTempSync { return true; }
      snapshot := Document(Encode(record));
      orphans := orphans - 1;
      if fault == SnapshotAfterRename { return true; }
      killed := fault == SnapshotAfterDirectorySync;
    }

    /** A load answers with the journal's last cycle or is killed healing; the journal is untouched. */
    method Load(fault: FaultPoint) returns (r: Outcome)
      requires Valid()
      modifies this`snapshot, this`orphans
      ensures Valid()
      ensures r == match Latest()
                   case None => Threw(if journal.None? then CannotReadJournal else NoValidRecords)
                   case Some(c) => if SnapshotFault(fault) && !old(Settled()) then Killed else Returned(c)
      ensures r.Returned? ==> Settled()
    {
      RemoveOrphans();
      var read := ReadJournalLoop(journal);
      if read.Err? { return Threw(read.error); }
      var records := read.value;
      if records[|records| - 1].cycle.cycleId != id { return Threw(CycleIdMismatch); }
      var loaded := Decide(records, snapshot, id);
      LoadIgnoresSnapshot(records, snapshot, id);
      HealingSettles(records, snapshot, id);
      if loaded.heal.Some? {
        var killed := AtomicWriteJson(loaded.heal.value, fault);
        if killed { return Killed; }
      }
      r := Returned(loaded.cycle);
    }

    /**
     * What is left to do once the record is chosen: the append, then the snapshot. Neither asks
     * whether the cycle passes assertCycle or how long its history is, the next reader does.
     */
    method Commit(cycle: Cycle, fault: FaultPoint) returns (killed: bool)
      requires Valid() && cycle.cycleId == id
      modifies this`journal, this`snapshot, this`orphans
      ensures killed <==> fault != NoFault
      ensures Valid() <==> fault == JournalAfterOpen || (AssertCycle(cycle) && |cycle.history| == |old(Records())|)
      ensures if fault == JournalAfterOpen then Records() == old(Records())
              else if AssertCycle(cycle) then Records() == old(Records()) + [MakeRecord(cycle, |old(Records())|, LastChecksum(old(Records())))]
              else ReadJournal(journal) == Err(InvalidCycle)
      ensures !killed && Valid() ==> Settled()
    {
      var record := MakeRecord(cycle, |Records()|, LastChecksum(Records()));
      ghost var before := journal;
      CommittedJournal(before, cycle, id);
      if AssertCycle(cycle) && |cycle.history| == |Records()| { CommitStages(before, cycle, id); }
      killed := AppendJournal(record, fault);
      if killed { return; }
      killed := AtomicWriteJson(record, fault);
    }

    /** What create leaves is sound unless it wrote a cycle with a history or one that assertCycle refuses. */
    method Create(cycle: Cycle, fault: FaultPoint) returns (r: Outcome)
      requires Valid() && cycle.cycleId == id
      modifies this
      ensures old(snapshot != Missing || journal.Some?) ==>
                r == Threw(AlreadyExists) && journal == old(journal) && snapshot == old(snapshot)
      ensures !old(snapshot != Missing || journal.Some?) ==>
                && r == (if fault == NoFault then Returned(cycle) else Killed)
                && (if fault == JournalAfterOpen then Latest() == None
                    else if AssertCycle(cycle) then Latest() == Some(cycle)
                    else ReadJournal(journal) == Err(InvalidCycle))
      ensures Valid() <==> old(snapshot != Missing || journal.Some?) || fault == JournalAfterOpen
                           || (AssertCycle(cycle) && cycle.history == [])
      ensures r.Killed? <==> lockLeft
    {
      RemoveOrphans();
      AcquireLock();
      if snapshot != Missing || journal.Some? {
        return Threw(AlreadyExists);
      }
      var killed := Commit(cycle, fault);
      if killed {
        lockLeft := true;
        return Killed;
      }
      r := Returned(cycle);
    }

    /**
     * save: the journal ends up with exactly the old log or the old log and `next`; the second
     * exactly when `previous` was the latest cycle and no fault struck before the line was written.
     * A `next` that assertCycle refuses is written all the same, and no later load succeeds.
     */
    method Save(previous: Cycle, next: Cycle, fault: FaultPoint) returns (r: Outcome)
      requires Valid() && previous.cycleId == id
      modifies this
      ensures var accepted := next.cycleId == id && |next.history| == |previous.history| + 1 && old(Latest()) == Some(previous);
              var healKilled := SnapshotFault(fault) && !old(Settled());
              var written := accepted && !healKilled && fault != JournalAfterOpen;
              && (Valid() <==> !written || AssertCycle(next))
              && (if !written then Records() == old(Records())
                  else if AssertCycle(next) then
                    old(Records()) <= Records() && |Records()| == |old(Records())| + 1 && Latest() == Some(next)
                  else ReadJournal(journal) == Err(InvalidCycle))
              && (r.Returned? <==> accepted && fault == NoFault)
      ensures r == if next.cycleId != id then Threw(AcrossCycles)
                   else if |next.history| != |previous.history| + 1 then Threw(NotOneTransition)
                   else
                     match old(Latest())
                     case None => Threw(if old(journal).None? then CannotReadJournal else NoValidRecords)
                     case Some(c) =>
                       if SnapshotFault(fault) && !old(Settled()) then Killed
                       else if c != previous then Threw(StaleCycle)
                       else if fault == NoFault then Returned(next)
                       else Killed
      ensures lockLeft <==> r.Killed? || (old(lockLeft) && r in {Threw(AcrossCycles), Threw(NotOneTransition)})
      ensures r.Threw? ==> journal == old(journal)
      ensures r.Returned? && Valid() ==> Settled()
    {
      if previous.cycleId != next.cycleId { return Threw(AcrossCycles); }
      if |next.history| != |previous.history| + 1 { return Threw(NotOneTransition); }
      AcquireLock();
      RemoveOrphans();
      var loaded := Load(fault);
      match loaded {
        case Killed =>
          lockLeft := true;
          return Killed;
        case Threw(e) =>
          return Threw(e);
        case Returned(current) =>
          if Sha(current) != Sha(previous) { return Threw(StaleCycle); }
          assert Records()[|Records()| - 1].cycle == previous;
          var killed := Commit(next, fault);
          if killed {
            lockLeft := true;
            return Killed;
          }
          r := Returned(next);
      }
    }
  }

  /** The journal after a committed line, whatever cycle it holds. */
  lemma CommittedJournal(journal: Option<File>, cycle: Cycle, id: string)
    requires Sound(journal, id) && cycle.cycleId == id
    ensures var records := RecordsOf(journal);
            var appended := Some(AppendLine(Opened(journal), MakeRecord(cycle, |records|, LastChecksum(records))));
            && Sound(Some(Opened(journal)), id) && RecordsOf(Some(Opened(journal))) == records
            && (Sound(appended, id) <==> AssertCycle(cycle) && |cycle.history| == |records|)
            && (if AssertCycle(cycle) then RecordsOf(appended) == records + [MakeRecord(cycle, |records|, LastChecksum(records))]
                else ReadJournal(appended) == Err(InvalidCycle))
  {
    var records := RecordsOf(journal);
    var record := MakeRecord(cycle, |records|, LastChecksum(records));
    ReadAppendedLine(Opened(journal), record);
    if AssertCycle(cycle) {
      AppendStages(Opened(journal), cycle);
      if |cycle.history| == |records| {
        ChainGrows(records, id, cycle);
      } else {
        assert !Placed((records + [record])[|records|], |records|, id);
      }
    }
  }

  /** A cycle with a seven-letter objective: create returns it, and nothing can load it. */
  lemma RefusedCycleIsWritten()
    ensures var c := L.Cycle("cycle-1", "shorter", L.A0, L.R0, L.Created, L.Instant(0), L.Instant(0), map[], [], [], None);
            ReadJournal(Some(AppendLine(Opened(None), MakeRecord(c, 0, None)))) == Err(InvalidCycle)
  {
    var c := L.Cycle("cycle-1", "shorter", L.A0, L.R0, L.Created, L.Instant(0), L.Instant(0), map[], [], [], None);
    CommittedJournal(None, c, "cycle-1");
  }
}
