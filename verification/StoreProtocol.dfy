/**
 * Any number of processes calling create, save and load on one cycle, one file-system effect
 * per step, each of them killable between effects. The lock file, the journal, the snapshot
 * and the snapshot's temporary files are shared; nothing else is.
 */
module StoreProtocol {
  import opened Prelude
  import opened Journal

  type Pid = nat

  datatype Op = Create(cycle: Cycle) | Save(previous: Cycle, next: Cycle) | LoadOnly

  datatype Outcome = Returned(cycle: Cycle) | Threw(error: Error)

  /** Where a snapshot write goes on to when it is done. */
  datatype Then = ThenLoaded(cycle: Cycle) | ThenFinish(cycle: Cycle)

  datatype Pc =
    | Begin
    | LockOpened                                  // the lock file exists, still empty
    | Holding                                     // the lock record is written
    | Reading                                     // about to read the journal
    | Deciding(records: seq<Record>)              // journal read, state.json not yet
    | SnapshotTemp(record: Record, written: bool, then_: Then)
    | SnapshotRenamed(then_: Then)
    | HasLoaded(cycle: Cycle)
    | JournalOpened(record: Record)               // journal:after-open
    | Writing(record: Record, complete: bool, before: Line)  // inside the write call; the tail before it
    | LineWritten(record: Record)                 // journal:after-write
    | Finishing(outcome: Outcome)                 // about to release the lock
    | Done(outcome: Outcome)

  /** readLength is bookkeeping: how many journal records the process saw when it read. */
  datatype Proc = Proc(op: Op, pc: Pc, alive: bool, readLength: nat)

  datatype Lock = Lock(owner: Pid, recorded: bool)

  datatype Temp = EmptyTemp | FullTemp(record: Record)

  datatype Sys = Sys(
    journal: Option<File>, snapshot: Snapshot, temps: map<Pid, Temp>, lock: Option<Lock>,
    procs: map<Pid, Proc>,
    writers: seq<Option<Pid>>)                    // bookkeeping: who wrote each journal record

  // ---------------------------------------------------------------- the steps

  predicate OpAllowed(op: Op, id: string) {
    match op
    case Create(c) => c.cycleId == id && AssertCycle(c) && c.history == []
    case Save(previous, next) => previous.cycleId == id ==> AssertCycle(next)
    case LoadOnly => true
  }

  predicate Start(s: Sys, t: Sys, p: Pid, op: Op, id: string) {
    && p !in s.procs && OpAllowed(op, id)
    && t == s.(procs := s.procs[p := Proc(op, Begin, true, 0)])
  }

  predicate Live(s: Sys, p: Pid) {
    p in s.procs && s.procs[p].alive
  }

  function At(s: Sys, p: Pid, pc: Pc): Sys
    requires p in s.procs
  {
    s.(procs := s.procs[p := s.procs[p].(pc := pc)])
  }

  /** The two argument checks of save, before it takes the lock. */
  predicate RefuseArguments(s: Sys, t: Sys, p: Pid, id: string) {
    && Live(s, p) && s.procs[p].pc == Begin && s.procs[p].op.Save?
    && var op := s.procs[p].op;
       || (op.previous.cycleId != op.next.cycleId && t == At(s, p, Done(Threw(AcrossCycles))))
       || (op.previous.cycleId == op.next.cycleId && |op.next.history| != |op.previous.history| + 1
           && t == At(s, p, Done(Threw(NotOneTransition))))
  }

  predicate WantsLock(proc: Proc, id: string) {
    && proc.pc == Begin
    && match proc.op
       case Create(_) => true
       case Save(previous, next) =>
         previous.cycleId == next.cycleId == id && |next.history| == |previous.history| + 1
       case LoadOnly => false
  }

  /** open(path, "wx") succeeds only where no lock file exists. */
  predicate OpenLock(s: Sys, t: Sys, p: Pid, id: string) {
    && Live(s, p) && WantsLock(s.procs[p], id) && s.lock == None
    && t == At(s, p, LockOpened).(lock := Some(Lock(p, false)))
  }

  predicate RecordLock(s: Sys, t: Sys, p: Pid) {
    && Live(s, p) && s.procs[p].pc == LockOpened
    && t == At(s, p, Holding).(lock := Some(Lock(p, true)))
  }

  /** lockIsReclaimable and rm, as one step; a lock is reclaimable when its owner is dead. */
  predicate ReclaimLock(s: Sys, t: Sys, p: Pid, id: string) {
    && Live(s, p) && WantsLock(s.procs[p], id)
    && s.lock.Some? && s.lock.value.owner in s.procs && !s.procs[s.lock.value.owner].alive
    && t == s.(lock := None)
  }

  predicate LockTimesOut(s: Sys, t: Sys, p: Pid, id: string) {
    && Live(s, p) && WantsLock(s.procs[p], id) && s.lock.Some?
    && t == At(s, p, Done(Threw(LockTimeout)))
  }

  /** removeOrphanedSnapshots: the temporary file of a dead process is removed. */
  predicate SweepTemp(s: Sys, t: Sys, p: Pid, q: Pid) {
    && Live(s, p) && s.procs[p].pc in {Begin, Holding, Reading}
    && q in s.temps && q in s.procs && !s.procs[q].alive
    && t == s.(temps := s.temps - {q})
  }

  /** create looks for either file, then opens the journal for appending. */
  predicate CreateChecks(s: Sys, t: Sys, p: Pid) {
    && Live(s, p) && s.procs[p].pc == Holding && s.procs[p].op.Create?
    && if s.snapshot != Missing || s.journal.Some?
       then t == At(s, p, Finishing(Threw(AlreadyExists)))
       else t == At(s, p, JournalOpened(MakeRecord(s.procs[p].op.cycle, 0, None))).(journal := Some(File([], Blank)))
  }

  predicate BeginLoad(s: Sys, t: Sys, p: Pid) {
    && Live(s, p)
    && ((s.procs[p].pc == Holding && s.procs[p].op.Save?) || (s.procs[p].pc == Begin && s.procs[p].op == LoadOnly))
    && t == At(s, p, Reading)
  }

  function Fail(s: Sys, p: Pid, error: Error): Sys
    requires p in s.procs
  {
    At(s, p, if s.procs[p].op == LoadOnly then Done(Threw(error)) else Finishing(Threw(error)))
  }

  predicate ReadStep(s: Sys, t: Sys, p: Pid, id: string) {
    && Live(s, p) && s.procs[p].pc == Reading
    && match ReadJournal(s.journal)
       case Err(e) => t == Fail(s, p, e)
       case Ok(records) =>
         if records[|records| - 1].cycle.cycleId != id then t == Fail(s, p, CycleIdMismatch)
         else t == s.(procs := s.procs[p := s.procs[p].(pc := Deciding(records), readLength := |records|)])
  }

  predicate DecideStep(s: Sys, t: Sys, p: Pid, id: string) {
    && Live(s, p) && s.procs[p].pc.Deciding? && s.procs[p].pc.records != []
    && var d := Decide(s.procs[p].pc.records, s.snapshot, id);
       if d.heal.None? then t == At(s, p, HasLoaded(d.cycle))
       else t == At(s, p, SnapshotTemp(d.heal.value, false, ThenLoaded(d.cycle))).(temps := s.temps[p := EmptyTemp])
  }

  predicate WriteTemp(s: Sys, t: Sys, p: Pid) {
    && Live(s, p) && s.procs[p].pc.SnapshotTemp? && !s.procs[p].pc.written
    && t == At(s, p, s.procs[p].pc.(written := true)).(temps := s.temps[p := FullTemp(s.procs[p].pc.record)])
  }

  predicate RenameTemp(s: Sys, t: Sys, p: Pid) {
    && Live(s, p) && s.procs[p].pc.SnapshotTemp? && s.procs[p].pc.written
    && p in s.temps && s.temps[p].FullTemp?
    && t == At(s, p, SnapshotRenamed(s.procs[p].pc.then_))
              .(temps := s.temps - {p}, snapshot := Document(Encode(s.temps[p].record)))
  }

  predicate AfterSnapshot(s: Sys, t: Sys, p: Pid) {
    && Live(s, p) && s.procs[p].pc.SnapshotRenamed?
    && t == match s.procs[p].pc.then_
            case ThenLoaded(c) => At(s, p, HasLoaded(c))
            case ThenFinish(c) => At(s, p, Finishing(Returned(c)))
  }

  /** A plain load returns; save compares checksums and, if they agree, opens the journal. */
  predicate UseLoaded(s: Sys, t: Sys, p: Pid) {
    && Live(s, p) && s.procs[p].pc.HasLoaded? && !s.procs[p].op.Create?
    && var current := s.procs[p].pc.cycle;
       match s.procs[p].op
       case Save(previous, next) =>
         if Sha(current) != Sha(previous) then t == At(s, p, Finishing(Threw(StaleCycle)))
         else t == At(s, p, JournalOpened(MakeRecord(next, |next.history|, Some(Sha(current)))))
       case _ => t == At(s, p, Done(Returned(current)))
  }

  predicate WriteSome(s: Sys, t: Sys, p: Pid) {
    && Live(s, p) && s.procs[p].pc.JournalOpened? && s.journal.Some?
    && t == At(s, p, Writing(s.procs[p].pc.record, false, s.journal.value.tail)).(journal := Some(AppendTorn(s.journal.value)))
  }

  predicate WriteText(s: Sys, t: Sys, p: Pid) {
    && Live(s, p) && s.procs[p].pc.Writing? && !s.procs[p].pc.complete && s.journal.Some?
    && t == At(s, p, s.procs[p].pc.(complete := true))
              .(journal := Some(AppendText(s.journal.value.(tail := s.procs[p].pc.before), s.procs[p].pc.record)),
                writers := s.writers + [Some(p)])
  }

  predicate WriteNewline(s: Sys, t: Sys, p: Pid) {
    && Live(s, p) && s.procs[p].pc.Writing? && s.procs[p].pc.complete && s.journal.Some?
    && t == At(s, p, LineWritten(s.procs[p].pc.record))
              .(journal := Some(AppendLine(s.journal.value.(tail := s.procs[p].pc.before), s.procs[p].pc.record)))
  }

  predicate OpenSnapshot(s: Sys, t: Sys, p: Pid) {
    && Live(s, p) && s.procs[p].pc.LineWritten?
    && var r := s.procs[p].pc.record;
       t == At(s, p, SnapshotTemp(r, false, ThenFinish(r.cycle))).(temps := s.temps[p := EmptyTemp])
  }

  /** The lock file is removed only where its token is still this process's own. */
  predicate Release(s: Sys, t: Sys, p: Pid) {
    && Live(s, p) && s.procs[p].pc.Finishing?
    && t == At(s, p, Done(s.procs[p].pc.outcome))
              .(lock := if s.lock.Some? && s.lock.value.owner == p then None else s.lock)
  }

  /** SIGKILL: the files stay as they are. */
  predicate Kill(s: Sys, t: Sys, p: Pid) {
    && Live(s, p)
    && t == s.(procs := s.procs[p := s.procs[p].(alive := false)])
  }

  predicate Effect(s: Sys, t: Sys, p: Pid, id: string) {
    || RefuseArguments(s, t, p, id) || OpenLock(s, t, p, id) || RecordLock(s, t, p)
    || ReclaimLock(s, t, p, id) || LockTimesOut(s, t, p, id) || CreateChecks(s, t, p)
    || BeginLoad(s, t, p) || ReadStep(s, t, p, id) || DecideStep(s, t, p, id)
    || WriteTemp(s, t, p) || RenameTemp(s, t, p) || AfterSnapshot(s, t, p) || UseLoaded(s, t, p)
    || WriteSome(s, t, p) || WriteText(s, t, p) || WriteNewline(s, t, p) || OpenSnapshot(s, t, p)
    || Release(s, t, p)
  }

  /** A kill at one of the fault points: between effects, not inside the append's write call. */
  predicate KillAtFaultPoint(s: Sys, t: Sys, p: Pid) {
    Kill(s, t, p) && !s.procs[p].pc.Writing?
  }

  ghost predicate Next(s: Sys, t: Sys, id: string) {
    || (exists p, op :: Start(s, t, p, op, id))
    || (exists p :: Effect(s, t, p, id))
    || (exists p, q :: SweepTemp(s, t, p, q))
    || (exists p :: KillAtFaultPoint(s, t, p))
  }

  // ---------------------------------------------------------------- the invariant

  /** The journal records any reader sees now. */
  function Records(s: Sys): seq<Record> {
    RecordsOf(s.journal)
  }

  /** The abstract state: the log of cycle values. */
  function Log(s: Sys): seq<Cycle> {
    seq(|Records(s)|, i requires 0 <= i < |Records(s)| => Records(s)[i].cycle)
  }

  predicate Owns(s: Sys, p: Pid) {
    s.lock.Some? && s.lock.value.owner == p
  }

  /** Between taking and releasing the lock. */
  predicate Critical(proc: Proc) {
    !proc.op.LoadOnly? && !proc.pc.Begin? && !proc.pc.Done?
  }

  ghost predicate SawRecords(s: Sys, p: Pid)
    requires p in s.procs
  {
    && !s.procs[p].op.Create?
    && 0 < s.procs[p].readLength <= |Records(s)|
    && (s.procs[p].op.Save? ==> s.procs[p].readLength == |Records(s)|)
  }

  ghost predicate LoadedBy(s: Sys, p: Pid, c: Cycle)
    requires p in s.procs
  {
    SawRecords(s, p) && Records(s)[s.procs[p].readLength - 1].cycle == c
  }

  ghost predicate IsFor(op: Op, records: seq<Record>, record: Record) {
    match op
    case Create(c) => records == [] && record.cycle == c
    case Save(previous, next) =>
      && records != [] && records[|records| - 1].cycle == previous && record.cycle == next
      && previous.cycleId == next.cycleId && |next.history| == |previous.history| + 1
    case LoadOnly => false
  }

  /** The record a lock holder is about to append is the one the reader expects next. */
  ghost predicate ReadyToAppend(s: Sys, p: Pid, record: Record)
    requires p in s.procs
  {
    && s.journal.Some?
    && record == MakeRecord(record.cycle, |Records(s)|, LastChecksum(Records(s)))
    && AssertCycle(record.cycle)
    && IsFor(s.procs[p].op, Records(s), record)
  }

  ghost predicate JustAppended(s: Sys, p: Pid, record: Record)
    requires p in s.procs
  {
    && !s.procs[p].op.LoadOnly? && s.journal.Some?
    && Records(s) != [] && Records(s)[|Records(s)| - 1] == record
    && s.writers != [] && s.writers[|s.writers| - 1] == Some(p)
  }

  ghost predicate AppendedCycle(s: Sys, p: Pid, c: Cycle)
    requires p in s.procs
  {
    Records(s) != [] && Records(s)[|Records(s)| - 1].cycle == c && JustAppended(s, p, Records(s)[|Records(s)| - 1])
  }

  /** What holds at each program counter, for plain loads and for the owner of the lock. */
  ghost predicate Facts(s: Sys, p: Pid)
    requires p in s.procs
  {
    match s.procs[p].pc
    case Begin => true
    case LockOpened => !s.procs[p].op.LoadOnly?
    case Holding => true
    case Reading => !s.procs[p].op.Create?
    case Deciding(records) => SawRecords(s, p) && records == Records(s)[..s.procs[p].readLength]
    case SnapshotTemp(record, _, ThenLoaded(c)) => LoadedBy(s, p, c)
    case SnapshotTemp(record, _, ThenFinish(c)) => record.cycle == c && JustAppended(s, p, record)
    case SnapshotRenamed(ThenLoaded(c)) => LoadedBy(s, p, c)
    case SnapshotRenamed(ThenFinish(c)) => AppendedCycle(s, p, c)
    case HasLoaded(c) => LoadedBy(s, p, c)
    case JournalOpened(record) => ReadyToAppend(s, p, record)
    case Writing(record, complete, before) =>
      before == Blank && if complete then JustAppended(s, p, record) else ReadyToAppend(s, p, record)
    case LineWritten(record) => JustAppended(s, p, record)
    case Finishing(Returned(c)) => AppendedCycle(s, p, c)
    case Finishing(Threw(_)) => true
    case Done(Returned(c)) => s.procs[p].op.LoadOnly? ==> LoadedBy(s, p, c)
    case Done(Threw(_)) => true
  }

  /** A live process's temporary file is its own, and nothing ahead of the journal is in it. */
  ghost predicate TempOk(s: Sys, p: Pid)
    requires p in s.procs
  {
    s.procs[p].pc.SnapshotTemp? ==>
      && p in s.temps
      && s.temps[p] == (if s.procs[p].pc.written then FullTemp(s.procs[p].pc.record) else EmptyTemp)
      && s.procs[p].pc.record in Records(s)
  }

  /** A process that got past the argument checks of create or save. */
  predicate ArgumentsOk(op: Op, id: string) {
    match op
    case Create(c) => c.cycleId == id && AssertCycle(c)
    case Save(previous, next) =>
      && previous.cycleId == next.cycleId == id && |next.history| == |previous.history| + 1
      && AssertCycle(next)
    case LoadOnly => true
  }

  /** Everything the invariant says about one process. */
  ghost predicate Good(s: Sys, p: Pid, id: string)
    requires p in s.procs
  {
    && OpAllowed(s.procs[p].op, id)
    && (Critical(s.procs[p]) ==> ArgumentsOk(s.procs[p].op, id))
    && (s.procs[p].alive && Critical(s.procs[p]) ==> Owns(s, p))
    && (s.procs[p].op.LoadOnly? || Owns(s, p) ==> Facts(s, p))
    && (s.procs[p].alive ==> TempOk(s, p))
  }

  ghost predicate OwnerOk(s: Sys) {
    s.lock.Some? ==> s.lock.value.owner in s.procs && Critical(s.procs[s.lock.value.owner])
  }

  /** Text after the last newline is there only while a live lock holder is inside its write. */
  ghost predicate TailOf(s: Sys, tail: Line) {
    if s.lock.Some? && s.lock.value.owner in s.procs && s.procs[s.lock.value.owner].pc.Writing? then
      var pc := s.procs[s.lock.value.owner].pc;
      && s.procs[s.lock.value.owner].alive
      && tail == if pc.complete then Json(Encode(pc.record)) else Garbage
    else tail == Blank
  }

  ghost predicate JournalOk(s: Sys, id: string) {
    && (s.journal.Some? ==> ReadRecords(s.journal.value).Ok? && TailOf(s, s.journal.value.tail))
    && Chained(Records(s), id)
  }

  /** Past the point where its record became readable. */
  predicate Wrote(proc: Proc) {
    && !proc.op.LoadOnly?
    && match proc.pc
       case Writing(_, complete, _) => complete
       case LineWritten(_) => true
       case SnapshotTemp(_, _, ThenFinish(_)) => true
       case SnapshotRenamed(ThenFinish(_)) => true
       case Finishing(Returned(_)) => true
       case Done(Returned(_)) => true
       case _ => false
  }

  ghost predicate WroteAt(s: Sys, p: Pid, i: int) {
    0 <= i < |s.writers| && i < |Records(s)| && s.writers[i] == Some(p)
  }

  ghost predicate WritersOk(s: Sys) {
    && |s.writers| == |Records(s)|
    && (forall p, i :: WroteAt(s, p, i) ==>
          p in s.procs && Wrote(s.procs[p]) && IsFor(s.procs[p].op, Records(s)[..i], Records(s)[i]))
    && (forall p :: p in s.procs && Wrote(s.procs[p]) ==> exists i :: WroteAt(s, p, i))
  }

  ghost predicate Inv(s: Sys, id: string) {
    && JournalOk(s, id) && OwnerOk(s) && WritersOk(s)
    && forall p :: p in s.procs ==> Good(s, p, id)
  }

  /** Any readable journal, any snapshot, no process yet. */
  ghost predicate Init(s: Sys, id: string) {
    && s.procs == map[] && s.temps == map[] && s.lock == None
    && (s.journal.Some? ==> s.journal.value.tail == Blank && ReadRecords(s.journal.value).Ok?)
    && Chained(Records(s), id)
    && |s.writers| == |Records(s)| && (forall i :: 0 <= i < |s.writers| ==> s.writers[i] == None)
  }

  lemma InitHasInv(s: Sys, id: string)
    requires Init(s, id)
    ensures Inv(s, id)
  {
  }

  // ---------------------------------------------------------------- frames

  /** The step moved process p only; no record was added; nobody else's lock or file changed. */
  ghost predicate Quiet(s: Sys, t: Sys, p: Pid) {
    && p in t.procs && t.procs == s.procs[p := t.procs[p]]
    && Records(t) == Records(s) && t.writers == s.writers
    && (s.journal.Some? ==> t.journal.Some?)
    && (forall q :: q != p && q in s.procs ==> (Owns(t, q) <==> Owns(s, q)))
    && (forall q :: q != p && q in s.procs && s.procs[q].alive && q in s.temps ==> q in t.temps && t.temps[q] == s.temps[q])
  }

  lemma QuietGood(s: Sys, t: Sys, p: Pid, q: Pid, id: string)
    requires Quiet(s, t, p) && q in s.procs && q != p && Good(s, q, id)
    ensures Good(t, q, id)
  {
    assert t.procs[q] == s.procs[q];
    assert Facts(s, q) ==> Facts(t, q);
  }

  lemma QuietWriters(s: Sys, t: Sys, p: Pid)
    requires WritersOk(s) && Quiet(s, t, p)
    requires p in s.procs ==> t.procs[p].op == s.procs[p].op && (Wrote(t.procs[p]) <==> Wrote(s.procs[p]))
    requires p !in s.procs ==> !Wrote(t.procs[p])
    ensures WritersOk(t)
  {
    forall q, i | WroteAt(t, q, i)
      ensures q in t.procs && Wrote(t.procs[q]) && IsFor(t.procs[q].op, Records(t)[..i], Records(t)[i])
    {
      assert WroteAt(s, q, i);
    }
    forall q | q in t.procs && Wrote(t.procs[q]) ensures exists i :: WroteAt(t, q, i) {
      var i :| WroteAt(s, q, i);
      assert WroteAt(t, q, i);
    }
  }

  /** A step that adds no record keeps the invariant once the moved process is good again. */
  lemma QuietKeepsInv(s: Sys, t: Sys, p: Pid, id: string)
    requires Inv(s, id) && Quiet(s, t, p)
    requires p in s.procs ==> t.procs[p].op == s.procs[p].op && (Wrote(t.procs[p]) <==> Wrote(s.procs[p]))
    requires p !in s.procs ==> !Wrote(t.procs[p])
    requires Good(t, p, id) && OwnerOk(t)
    requires t.journal.Some? ==> ReadRecords(t.journal.value).Ok? && TailOf(t, t.journal.value.tail)
    ensures Inv(t, id)
  {
    QuietWriters(s, t, p);
    forall q | q in t.procs ensures Good(t, q, id) {
      if q != p { QuietGood(s, t, p, q, id); }
    }
  }

  /** The same for steps that touch neither the journal nor the lock. */
  lemma PlainKeepsInv(s: Sys, t: Sys, p: Pid, id: string)
    requires Inv(s, id) && Live(s, p) && Quiet(s, t, p) && t.journal == s.journal && t.lock == s.lock
    requires t.procs[p].op == s.procs[p].op && (Wrote(t.procs[p]) <==> Wrote(s.procs[p]))
    requires Good(t, p, id)
    requires Critical(s.procs[p]) <==> Critical(t.procs[p])
    requires !s.procs[p].pc.Writing? && !t.procs[p].pc.Writing?
    ensures Inv(t, id)
  {
    QuietKeepsInv(s, t, p, id);
  }

  // ---------------------------------------------------------------- the steps keep the invariant

  lemma StartKeepsInv(s: Sys, t: Sys, p: Pid, op: Op, id: string)
    requires Inv(s, id) && Start(s, t, p, op, id)
    ensures Inv(t, id)
  {
    QuietKeepsInv(s, t, p, id);
  }

  lemma RefuseKeepsInv(s: Sys, t: Sys, p: Pid, id: string)
    requires Inv(s, id) && (RefuseArguments(s, t, p, id) || LockTimesOut(s, t, p, id))
    ensures Inv(t, id)
  {
    RefuseGood(s, t, p, id);
    PlainKeepsInv(s, t, p, id);
  }

  lemma RefuseGood(s: Sys, t: Sys, p: Pid, id: string)
    requires p in s.procs && Good(s, p, id) && (RefuseArguments(s, t, p, id) || LockTimesOut(s, t, p, id))
    ensures Good(t, p, id) && Quiet(s, t, p) && t.journal == s.journal && t.lock == s.lock
    ensures t.procs[p].op == s.procs[p].op && !Critical(s.procs[p]) && !Critical(t.procs[p])
    ensures !Wrote(s.procs[p]) && !Wrote(t.procs[p])
    ensures !s.procs[p].pc.Writing? && !t.procs[p].pc.Writing?
  {
  }

  lemma OpenLockKeepsInv(s: Sys, t: Sys, p: Pid, id: string)
    requires Inv(s, id) && OpenLock(s, t, p, id)
    ensures Inv(t, id)
  {
    assert Good(s, p, id);
    QuietKeepsInv(s, t, p, id);
  }

  lemma RecordLockKeepsInv(s: Sys, t: Sys, p: Pid, id: string)
    requires Inv(s, id) && RecordLock(s, t, p)
    ensures Inv(t, id)
  {
    assert Good(s, p, id);
    QuietKeepsInv(s, t, p, id);
  }

  lemma ReclaimKeepsInv(s: Sys, t: Sys, p: Pid, id: string)
    requires Inv(s, id) && ReclaimLock(s, t, p, id)
    ensures Inv(t, id)
  {
    forall q | q in t.procs ensures Good(t, q, id) {
      assert Good(s, q, id);
    }
    assert forall q, i :: WroteAt(t, q, i) <==> WroteAt(s, q, i);
  }

  lemma CreateChecksKeepsInv(s: Sys, t: Sys, p: Pid, id: string)
    requires Inv(s, id) && CreateChecks(s, t, p)
    ensures Inv(t, id)
  {
    if s.snapshot != Missing || s.journal.Some? {
      PlainKeepsInv(s, t, p, id);
    } else {
      CreateOpens(s, t, p, id);
      QuietKeepsInv(s, t, p, id);
    }
  }

  lemma CreateOpens(s: Sys, t: Sys, p: Pid, id: string)
    requires Inv(s, id) && CreateChecks(s, t, p) && s.snapshot == Missing && s.journal.None?
    ensures Quiet(s, t, p) && Good(t, p, id)
  {
    assert Good(s, p, id);
  }

  lemma BeginLoadKeepsInv(s: Sys, t: Sys, p: Pid, id: string)
    requires Inv(s, id) && BeginLoad(s, t, p)
    ensures Inv(t, id)
  {
    PlainKeepsInv(s, t, p, id);
  }

  lemma ReadGood(s: Sys, t: Sys, p: Pid, id: string)
    requires p in s.procs && Good(s, p, id) && ReadStep(s, t, p, id)
    ensures Good(t, p, id)
  {
  }

  lemma ReadKeepsInv(s: Sys, t: Sys, p: Pid, id: string)
    requires Inv(s, id) && ReadStep(s, t, p, id)
    ensures Inv(t, id)
  {
    ReadGood(s, t, p, id);
    PlainKeepsInv(s, t, p, id);
  }

  lemma PrefixChained(records: seq<Record>, n: nat, id: string)
    requires Chained(records, id) && n <= |records|
    ensures Chained(records[..n], id)
  {
  }

  lemma DecideGood(s: Sys, t: Sys, p: Pid, id: string)
    requires p in s.procs && Good(s, p, id) && DecideStep(s, t, p, id) && Chained(Records(s), id)
    ensures Good(t, p, id)
  {
    var n := s.procs[p].readLength;
    if s.procs[p].op.LoadOnly? || Owns(s, p) {
      PrefixChained(Records(s), n, id);
      LoadIgnoresSnapshot(Records(s)[..n], s.snapshot, id);
      assert Records(s)[..n][n - 1] == Records(s)[n - 1];
    }
  }

  lemma DecideKeepsInv(s: Sys, t: Sys, p: Pid, id: string)
    requires Inv(s, id) && DecideStep(s, t, p, id)
    ensures Inv(t, id)
  {
    DecideGood(s, t, p, id);
    PlainKeepsInv(s, t, p, id);
  }

  lemma TempStepGood(s: Sys, t: Sys, p: Pid, id: string)
    requires p in s.procs && Good(s, p, id) && (WriteTemp(s, t, p) || RenameTemp(s, t, p) || OpenSnapshot(s, t, p))
    ensures Good(t, p, id)
  {
  }

  lemma TempStepKeepsInv(s: Sys, t: Sys, p: Pid, id: string)
    requires Inv(s, id) && (WriteTemp(s, t, p) || RenameTemp(s, t, p) || OpenSnapshot(s, t, p))
    ensures Inv(t, id)
  {
    TempStepGood(s, t, p, id);
    PlainKeepsInv(s, t, p, id);
  }

  lemma AfterSnapshotGood(s: Sys, t: Sys, p: Pid, id: string)
    requires p in s.procs && Good(s, p, id) && AfterSnapshot(s, t, p)
    ensures Good(t, p, id)
    ensures Critical(s.procs[p]) <==> Critical(t.procs[p])
    ensures Wrote(s.procs[p]) <==> Wrote(t.procs[p])
  {
  }

  lemma AfterSnapshotKeepsInv(s: Sys, t: Sys, p: Pid, id: string)
    requires Inv(s, id) && AfterSnapshot(s, t, p)
    ensures Inv(t, id)
  {
    AfterSnapshotGood(s, t, p, id);
    PlainKeepsInv(s, t, p, id);
  }

  /** save goes on only with the cycle that is still the last of the log. */
  lemma ComparedIsReady(s: Sys, p: Pid, c: Cycle, id: string)
    requires p in s.procs && Good(s, p, id) && Chained(Records(s), id)
    requires s.procs[p].op.Save? && s.procs[p].alive && s.procs[p].pc == HasLoaded(c) && c == s.procs[p].op.previous
    ensures ReadyToAppend(s, p, MakeRecord(s.procs[p].op.next, |s.procs[p].op.next.history|, Some(Sha(c))))
  {
    assert Facts(s, p);
    assert Records(s)[|Records(s)| - 1].cycle == c;
  }

  lemma UseLoadedGood(s: Sys, t: Sys, p: Pid, id: string)
    requires p in s.procs && Good(s, p, id) && UseLoaded(s, t, p) && Chained(Records(s), id)
    ensures Good(t, p, id)
    ensures Critical(s.procs[p]) <==> Critical(t.procs[p])
    ensures Wrote(s.procs[p]) <==> Wrote(t.procs[p])
  {
    var c := s.procs[p].pc.cycle;
    if s.procs[p].op.Save? && c == s.procs[p].op.previous {
      ComparedIsReady(s, p, c, id);
    }
  }

  lemma UseLoadedKeepsInv(s: Sys, t: Sys, p: Pid, id: string)
    requires Inv(s, id) && UseLoaded(s, t, p)
    ensures Inv(t, id)
  {
    UseLoadedGood(s, t, p, id);
    PlainKeepsInv(s, t, p, id);
  }

  lemma WriteSomeGood(s: Sys, t: Sys, p: Pid, id: string)
    requires p in s.procs && Good(s, p, id) && WriteSome(s, t, p) && JournalOk(s, id) && OwnerOk(s)
    ensures Good(t, p, id) && OwnerOk(t) && Quiet(s, t, p)
    ensures ReadRecords(t.journal.value).Ok? && TailOf(t, t.journal.value.tail)
    ensures !Wrote(s.procs[p]) && !Wrote(t.procs[p]) && t.procs[p].op == s.procs[p].op
  {
    assert Owns(s, p) && s.journal.value.tail == Blank;
    assert Records(t) == Records(s);
  }

  lemma WriteSomeKeepsInv(s: Sys, t: Sys, p: Pid, id: string)
    requires Inv(s, id) && WriteSome(s, t, p)
    ensures Inv(t, id)
  {
    WriteSomeGood(s, t, p, id);
    QuietKeepsInv(s, t, p, id);
  }

  /** The record becomes readable: the one step that extends the log. */
  lemma WriteTextAppends(s: Sys, t: Sys, p: Pid, id: string)
    requires Inv(s, id) && WriteText(s, t, p)
    ensures Owns(s, p) && ReadyToAppend(s, p, s.procs[p].pc.record)
    ensures Records(t) == Records(s) + [s.procs[p].pc.record]
    ensures Chained(Records(t), id)
    ensures ReadRecords(t.journal.value).Ok?
  {
    assert Good(s, p, id);
    var file := s.journal.value.(tail := Blank);
    var record := s.procs[p].pc.record;
    AppendStages(file, record.cycle);
    ChainGrows(Records(s), id, record.cycle);
  }

  lemma AppendGood(s: Sys, t: Sys, p: Pid, q: Pid, id: string)
    requires q in s.procs && q in t.procs && q != p && t.procs[q] == s.procs[q] && Good(s, q, id)
    requires Owns(s, p) && t.lock == s.lock && t.temps == s.temps && t.journal.Some?
    requires |Records(t)| == |Records(s)| + 1 && Records(t)[..|Records(s)|] == Records(s)
    ensures Good(t, q, id)
  {
    if s.procs[q].op.LoadOnly? {
      var n := s.procs[q].readLength;
      assert Facts(s, q);
      assert n <= |Records(s)| ==> Records(t)[..n] == Records(s)[..n];
    }
    assert forall r :: r in Records(s) ==> r in Records(t)[..|Records(s)|];
  }

  lemma WriteTextKeepsInv(s: Sys, t: Sys, p: Pid, id: string)
    requires Inv(s, id) && WriteText(s, t, p)
    ensures Inv(t, id)
  {
    WriteTextAppends(s, t, p, id);
    WriteTextKeepsWriters(s, t, p, id);
    assert Good(s, p, id);
    assert Good(t, p, id);
    forall q | q in t.procs ensures Good(t, q, id) {
      if q != p { AppendGood(s, t, p, q, id); }
    }
  }

  lemma WriteTextKeepsWriters(s: Sys, t: Sys, p: Pid, id: string)
    requires Inv(s, id) && WriteText(s, t, p)
    ensures WritersOk(t)
  {
    WriteTextAppends(s, t, p, id);
    var n := |s.writers|;
    forall q, i | WroteAt(t, q, i)
      ensures q in t.procs && Wrote(t.procs[q]) && IsFor(t.procs[q].op, Records(t)[..i], Records(t)[i])
    {
      if i < n {
        assert WroteAt(s, q, i) && Records(t)[..i] == Records(s)[..i];
      } else {
        assert Records(t)[..i] == Records(s);
      }
    }
    assert WroteAt(t, p, n);
    forall q | q in t.procs && Wrote(t.procs[q]) ensures exists i :: WroteAt(t, q, i) {
      if q != p {
        var i :| WroteAt(s, q, i);
        assert WroteAt(t, q, i);
      }
    }
  }

  lemma WriteNewlineSameRecords(s: Sys, t: Sys, p: Pid, id: string)
    requires Inv(s, id) && WriteNewline(s, t, p)
    ensures Owns(s, p) && Records(t) == Records(s) && ReadRecords(t.journal.value).Ok?
  {
    assert Good(s, p, id);
    ReadAppendedLine(s.journal.value.(tail := Blank), s.procs[p].pc.record);
  }

  lemma WriteNewlineKeepsInv(s: Sys, t: Sys, p: Pid, id: string)
    requires Inv(s, id) && WriteNewline(s, t, p)
    ensures Inv(t, id)
  {
    WriteNewlineSameRecords(s, t, p, id);
    assert Good(s, p, id);
    assert Good(t, p, id);
    QuietKeepsInv(s, t, p, id);
  }

  lemma ReleaseGood(s: Sys, t: Sys, p: Pid, id: string)
    requires p in s.procs && Good(s, p, id) && Release(s, t, p) && JournalOk(s, id) && OwnerOk(s)
    ensures Good(t, p, id) && OwnerOk(t) && Quiet(s, t, p)
    ensures t.journal.Some? ==> TailOf(t, t.journal.value.tail)
    ensures (Wrote(s.procs[p]) <==> Wrote(t.procs[p])) && t.procs[p].op == s.procs[p].op
  {
    if s.procs[p].op.LoadOnly? { assert Facts(s, p); }
  }

  lemma ReleaseKeepsInv(s: Sys, t: Sys, p: Pid, id: string)
    requires Inv(s, id) && Release(s, t, p)
    ensures Inv(t, id)
  {
    ReleaseGood(s, t, p, id);
    QuietKeepsInv(s, t, p, id);
  }

  lemma SweepKeepsInv(s: Sys, t: Sys, p: Pid, q: Pid, id: string)
    requires Inv(s, id) && SweepTemp(s, t, p, q)
    ensures Inv(t, id)
  {
    PlainKeepsInv(s, t, p, id);
  }

  lemma KillGood(s: Sys, t: Sys, p: Pid, id: string)
    requires p in s.procs && Good(s, p, id) && KillAtFaultPoint(s, t, p)
    ensures Good(t, p, id)
  {
    assert Facts(s, p) ==> Facts(t, p);
  }

  lemma KillKeepsTail(s: Sys, t: Sys, p: Pid)
    requires KillAtFaultPoint(s, t, p)
    ensures OwnerOk(s) ==> OwnerOk(t)
    ensures forall tail :: TailOf(s, tail) ==> TailOf(t, tail)
  {
  }

  lemma KillKeepsInv(s: Sys, t: Sys, p: Pid, id: string)
    requires Inv(s, id) && KillAtFaultPoint(s, t, p)
    ensures Inv(t, id)
  {
    KillGood(s, t, p, id);
    KillKeepsTail(s, t, p);
    QuietKeepsInv(s, t, p, id);
  }

  lemma EffectKeepsInv(s: Sys, t: Sys, p: Pid, id: string)
    requires Inv(s, id) && Effect(s, t, p, id)
    ensures Inv(t, id)
  {
    if RefuseArguments(s, t, p, id) || LockTimesOut(s, t, p, id) { RefuseKeepsInv(s, t, p, id); }
    else if OpenLock(s, t, p, id) { OpenLockKeepsInv(s, t, p, id); }
    else if RecordLock(s, t, p) { RecordLockKeepsInv(s, t, p, id); }
    else if ReclaimLock(s, t, p, id) { ReclaimKeepsInv(s, t, p, id); }
    else if CreateChecks(s, t, p) { CreateChecksKeepsInv(s, t, p, id); }
    else if BeginLoad(s, t, p) { BeginLoadKeepsInv(s, t, p, id); }
    else if ReadStep(s, t, p, id) { ReadKeepsInv(s, t, p, id); }
    else if DecideStep(s, t, p, id) { DecideKeepsInv(s, t, p, id); }
    else if WriteTemp(s, t, p) || RenameTemp(s, t, p) || OpenSnapshot(s, t, p) { TempStepKeepsInv(s, t, p, id); }
    else if AfterSnapshot(s, t, p) { AfterSnapshotKeepsInv(s, t, p, id); }
    else if UseLoaded(s, t, p) { UseLoadedKeepsInv(s, t, p, id); }
    else if WriteSome(s, t, p) { WriteSomeKeepsInv(s, t, p, id); }
    else if WriteText(s, t, p) { WriteTextKeepsInv(s, t, p, id); }
    else if WriteNewline(s, t, p) { WriteNewlineKeepsInv(s, t, p, id); }
    else { ReleaseKeepsInv(s, t, p, id); }
  }

  lemma NextKeepsInv(s: Sys, t: Sys, id: string)
    requires Inv(s, id) && Next(s, t, id)
    ensures Inv(t, id)
  {
    if p, op :| Start(s, t, p, op, id) { StartKeepsInv(s, t, p, op, id); }
    else if p :| Effect(s, t, p, id) { EffectKeepsInv(s, t, p, id); }
    else if p, q :| SweepTemp(s, t, p, q) { SweepKeepsInv(s, t, p, q, id); }
    else { var p :| KillAtFaultPoint(s, t, p); KillKeepsInv(s, t, p, id); }
  }

  // ---------------------------------------------------------------- what every run guarantees

  ghost predicate RunFrom(states: seq<Sys>, id: string) {
    && states != [] && Init(states[0], id)
    && forall i :: 0 < i < |states| ==> Next(states[i - 1], states[i], id)
  }

  lemma {:induction false} EveryRunKeepsInv(states: seq<Sys>, id: string)
    requires RunFrom(states, id)
    ensures Inv(states[|states| - 1], id)
    decreases |states|
  {
    var n := |states| - 1;
    if n == 0 {
      InitHasInv(states[0], id);
    } else {
      EveryRunKeepsInv(states[..n], id);
      NextKeepsInv(states[n - 1], states[n], id);
    }
  }

  ghost predicate Reachable(s: Sys, id: string) {
    exists states :: RunFrom(states, id) && states[|states| - 1] == s
  }

  lemma ReachableHasInv(s: Sys, id: string)
    requires Reachable(s, id)
    ensures Inv(s, id)
  {
    var states :| RunFrom(states, id) && states[|states| - 1] == s;
    EveryRunKeepsInv(states, id);
  }

  /** The atomic object the protocol stands for: a log that only compare-and-append changes. */
  ghost predicate AtomicAppend(log: seq<Cycle>, log': seq<Cycle>, op: Op) {
    match op
    case Create(c) => log == [] && log' == [c]
    case Save(previous, next) => log != [] && log[|log| - 1] == previous && log' == log + [next]
    case LoadOnly => false
  }

  /** Refinement: each step is either invisible in the log or one atomic append by its process. */
  lemma StepRefinesAtomicLog(s: Sys, t: Sys, id: string)
    requires Reachable(s, id) && Next(s, t, id)
    ensures Log(t) == Log(s) || exists p :: WriteText(s, t, p) && AtomicAppend(Log(s), Log(t), s.procs[p].op)
  {
    ReachableHasInv(s, id);
    if p :| WriteText(s, t, p) {
      WriteTextIsAtomicAppend(s, t, p, id);
    } else if p :| Effect(s, t, p, id) {
      OtherEffectsKeepRecords(s, t, p, id);
    } else {
      assert Records(t) == Records(s);
    }
  }

  lemma WriteTextIsAtomicAppend(s: Sys, t: Sys, p: Pid, id: string)
    requires Inv(s, id) && WriteText(s, t, p)
    ensures AtomicAppend(Log(s), Log(t), s.procs[p].op)
  {
    WriteTextAppends(s, t, p, id);
    assert Log(t) == Log(s) + [s.procs[p].pc.record.cycle];
  }

  lemma OtherEffectsKeepRecords(s: Sys, t: Sys, p: Pid, id: string)
    requires Inv(s, id) && Effect(s, t, p, id) && !WriteText(s, t, p)
    ensures Records(t) == Records(s)
  {
    if WriteNewline(s, t, p) {
      WriteNewlineSameRecords(s, t, p, id);
    } else if WriteSome(s, t, p) {
      WriteSomeGood(s, t, p, id);
    } else {
      SilentEffectsKeepRecords(s, t, p, id);
    }
  }

  lemma SilentEffectsKeepRecords(s: Sys, t: Sys, p: Pid, id: string)
    requires Effect(s, t, p, id) && !WriteSome(s, t, p) && !WriteText(s, t, p) && !WriteNewline(s, t, p)
    ensures Records(t) == Records(s)
  {
    if !CreateChecks(s, t, p) { assert t.journal == s.journal; }
  }

  /** Mutual exclusion: at most one live process is between taking and releasing the lock. */
  lemma AtMostOneInCriticalSection(s: Sys, p: Pid, q: Pid, id: string)
    requires Reachable(s, id)
    requires Live(s, p) && Critical(s.procs[p]) && Live(s, q) && Critical(s.procs[q])
    ensures p == q
  {
    ReachableHasInv(s, id);
    assert Good(s, p, id) && Good(s, q, id);
  }

  /** A plain load that returned gave the last log entry as of its own journal read. */
  lemma LoadReturnsLogEntry(s: Sys, p: Pid, c: Cycle, id: string)
    requires Reachable(s, id) && p in s.procs && s.procs[p].op == LoadOnly && s.procs[p].pc == Done(Returned(c))
    ensures 0 < s.procs[p].readLength <= |Log(s)| && Log(s)[s.procs[p].readLength - 1] == c
  {
    ReachableHasInv(s, id);
    assert Good(s, p, id);
  }

  lemma ReadRecordsItsLength(s: Sys, t: Sys, p: Pid, id: string)
    requires Reachable(s, id) && ReadStep(s, t, p, id) && t.procs[p].pc.Deciding?
    ensures t.procs[p].readLength == |Log(s)| > 0
  {
    ReachableHasInv(s, id);
  }

  /** A read of the shared journal succeeds exactly when some first record became readable. */
  lemma ReadSucceedsOnceCreated(s: Sys, id: string)
    requires Reachable(s, id)
    ensures ReadJournal(s.journal).Ok? <==> Log(s) != []
    ensures Log(s) != [] ==> ReadJournal(s.journal) == Ok(Records(s))
    ensures Log(s) != [] ==> Records(s)[|Records(s)| - 1].cycle.cycleId == id
  {
    ReachableHasInv(s, id);
  }

  /** A save or create that returned has its cycle in the log, on top of the one it replaced. */
  lemma ReturnedSaveIsInLog(s: Sys, p: Pid, id: string)
    requires Reachable(s, id) && p in s.procs && s.procs[p].op.Save? && s.procs[p].pc.Done? && s.procs[p].pc.outcome.Returned?
    ensures var n := |s.procs[p].op.next.history|;
            && 0 < n < |Log(s)| == |s.writers| && Log(s)[n] == s.procs[p].op.next && Log(s)[n - 1] == s.procs[p].op.previous
            && s.writers[n] == Some(p)
  {
    ReachableHasInv(s, id);
    var i :| WroteAt(s, p, i);
    assert IsFor(s.procs[p].op, Records(s)[..i], Records(s)[i]);
    assert |Records(s)[i].cycle.history| == i;
  }

  /** A save that threw appended nothing. */
  lemma ThrownSaveIsNotInLog(s: Sys, p: Pid, id: string)
    requires Reachable(s, id) && p in s.procs && s.procs[p].pc.Done? && s.procs[p].pc.outcome.Threw?
    ensures Some(p) !in s.writers
  {
    ReachableHasInv(s, id);
    forall i | 0 <= i < |s.writers| ensures s.writers[i] != Some(p) {
      if s.writers[i] == Some(p) { assert WroteAt(s, p, i); }
    }
  }

  /** Of the saves that start from the same cycle, at most one ever appends. */
  lemma CompetingSavesAppendOnce(s: Sys, p: Pid, q: Pid, i: nat, j: nat, id: string)
    requires Reachable(s, id) && WroteAt(s, p, i) && WroteAt(s, q, j) && p in s.procs && q in s.procs
    requires s.procs[p].op.Save? && s.procs[q].op.Save? && s.procs[p].op.previous == s.procs[q].op.previous
    ensures p == q && i == j
  {
    ReachableHasInv(s, id);
    assert IsFor(s.procs[p].op, Records(s)[..i], Records(s)[i]);
    assert IsFor(s.procs[q].op, Records(s)[..j], Records(s)[j]);
    assert |Records(s)[i].cycle.history| == i && |Records(s)[j].cycle.history| == j;
  }

  /** The records behind every log are chained: sequence = index = history length. */
  lemma JournalStaysChained(s: Sys, id: string)
    requires Reachable(s, id)
    ensures Chained(Records(s), id) && (s.journal.Some? ==> ReadRecords(s.journal.value) == Ok(Records(s)))
  {
    ReachableHasInv(s, id);
  }

  /** What a fresh load of the files alone would answer. */
  function FreshLoad(s: Sys, id: string): Result<Cycle, Error> {
    match Load(s.journal, s.snapshot, id)
    case Err(e) => Err(e)
    case Ok(loaded) => Ok(loaded.cycle)
  }

  /** Past the stale check of save and not yet released: the interval a crash can interrupt. */
  predicate Committing(proc: Proc) {
    proc.op.Save? && (proc.pc.JournalOpened? || proc.pc.Writing? || (Wrote(proc) && !proc.pc.Done?))
  }

  lemma FreshLoadIsLast(s: Sys, id: string)
    requires Reachable(s, id) && Log(s) != []
    ensures FreshLoad(s, id) == Ok(Log(s)[|Log(s)| - 1])
  {
    ReachableHasInv(s, id);
    LoadIgnoresSnapshot(Records(s), s.snapshot, id);
  }

  /**
   * Crash atomicity: while the lock of an interrupted save is in place, the next load answers
   * with the new cycle exactly when its record had become readable, and with the old one
   * otherwise, whatever state.json and the temporary files hold.
   */
  lemma InterruptedSaveIsAtomic(s: Sys, p: Pid, id: string)
    requires Reachable(s, id) && p in s.procs && Owns(s, p) && Committing(s.procs[p])
    ensures var op := s.procs[p].op;
            FreshLoad(s, id) == Ok(if Wrote(s.procs[p]) then op.next else op.previous)
  {
    ReachableHasInv(s, id);
    LastWhileCommitting(s, p, id);
    FreshLoadIsLast(s, id);
  }

  lemma LastWhileCommitting(s: Sys, p: Pid, id: string)
    requires Inv(s, id) && p in s.procs && Owns(s, p) && Committing(s.procs[p])
    ensures Log(s) != []
    ensures Log(s)[|Log(s)| - 1] == if Wrote(s.procs[p]) then s.procs[p].op.next else s.procs[p].op.previous
  {
    if Wrote(s.procs[p]) { LastIsItsOwn(s, p, id); } else { LastIsPrevious(s, p, id); }
  }

  lemma LastIsPrevious(s: Sys, p: Pid, id: string)
    requires Inv(s, id) && p in s.procs && Owns(s, p) && s.procs[p].op.Save?
    requires s.procs[p].pc.JournalOpened? || (s.procs[p].pc.Writing? && !s.procs[p].pc.complete)
    ensures Records(s) != [] && Records(s)[|Records(s)| - 1].cycle == s.procs[p].op.previous
  {
    assert Good(s, p, id);
    assert ReadyToAppend(s, p, s.procs[p].pc.record);
  }

  lemma LastIsItsOwn(s: Sys, p: Pid, id: string)
    requires Inv(s, id) && p in s.procs && Owns(s, p) && s.procs[p].op.Save? && Wrote(s.procs[p]) && !s.procs[p].pc.Done?
    ensures Records(s) != [] && Records(s)[|Records(s)| - 1].cycle == s.procs[p].op.next
  {
    OwnerIsLastWriter(s, p, id);
    var n := |Records(s)| - 1;
    assert WroteAt(s, p, n);
    assert IsFor(s.procs[p].op, Records(s)[..n], Records(s)[n]);
  }

  lemma OwnerIsLastWriter(s: Sys, p: Pid, id: string)
    requires Inv(s, id) && p in s.procs && Owns(s, p) && Wrote(s.procs[p]) && !s.procs[p].pc.Done?
    ensures Records(s) != [] && |s.writers| == |Records(s)| && s.writers[|s.writers| - 1] == Some(p)
  {
    assert Good(s, p, id) && Facts(s, p);
  }

  /** A crash leaves a lock that the next process may take over. */
  lemma DeadOwnersLockIsReclaimable(s: Sys, q: Pid, id: string)
    requires Reachable(s, id) && Live(s, q) && WantsLock(s.procs[q], id)
    requires s.lock.Some? && s.lock.value.owner in s.procs && !s.procs[s.lock.value.owner].alive
    ensures exists t, u :: ReclaimLock(s, t, q, id) && OpenLock(t, u, q, id)
  {
    ReachableHasInv(s, id);
    var t := s.(lock := None);
    assert ReclaimLock(s, t, q, id);
    assert OpenLock(t, At(t, q, LockOpened).(lock := Some(Lock(q, false))), q, id);
  }

  /** A live process's rename never finds its temporary file swept away. */
  lemma LiveTempsSurvive(s: Sys, p: Pid, id: string)
    requires Reachable(s, id) && Live(s, p) && s.procs[p].pc.SnapshotTemp? && s.procs[p].pc.written
    ensures exists t :: RenameTemp(s, t, p) && t.snapshot.Document? && s.procs[p].pc.record in Records(s)
                        && t.snapshot.value == Encode(s.procs[p].pc.record)
  {
    ReachableHasInv(s, id);
    assert Good(s, p, id);
    var t := At(s, p, SnapshotRenamed(s.procs[p].pc.then_))
             .(temps := s.temps - {p}, snapshot := Document(Encode(s.temps[p].record)));
    assert RenameTemp(s, t, p);
  }

  // ---------------------------------------------------------------- where the guarantees end

  /**
   * A crash between opening the journal and writing the first record: create and load both
   * refuse an empty journal, so no later run ever makes the cycle loadable.
   */
  ghost predicate Wedged(s: Sys) {
    && s.journal == Some(File([], Blank))
    && forall p :: Live(s, p) ==> BeforeRecords(s.procs[p].pc)
  }

  /** The program counters of a process that has neither read nor written a record. */
  predicate BeforeRecords(pc: Pc) {
    pc.Begin? || pc.LockOpened? || pc.Holding? || pc.Reading? || pc.Finishing? || pc.Done?
  }

  lemma WedgedEffect(s: Sys, t: Sys, p: Pid, id: string)
    requires Wedged(s) && Effect(s, t, p, id)
    ensures t.journal == s.journal && p in t.procs && BeforeRecords(t.procs[p].pc)
    ensures t.procs == s.procs[p := t.procs[p]]
  {
    assert BeforeRecords(s.procs[p].pc);
  }

  lemma WedgedForever(s: Sys, t: Sys, id: string)
    requires Wedged(s) && Next(s, t, id)
    ensures Wedged(t) && FreshLoad(t, id) == Err(NoValidRecords)
  {
    if p :| Effect(s, t, p, id) {
      WedgedEffect(s, t, p, id);
      forall q | Live(t, q) ensures BeforeRecords(t.procs[q].pc) {
        if q != p { assert Live(s, q); }
      }
    } else if p, q :| SweepTemp(s, t, p, q) {
      assert forall q :: Live(t, q) ==> Live(s, q);
    } else if p :| KillAtFaultPoint(s, t, p) {
      assert forall q :: Live(t, q) ==> Live(s, q);
    } else {
      var p, op :| Start(s, t, p, op, id);
      assert forall q :: Live(t, q) && q != p ==> Live(s, q);
    }
  }

  /** Such a state is reached by one create and one kill, from an empty directory. */
  lemma CreateCanWedge(c: Cycle)
    requires AssertCycle(c) && c.history == []
    ensures exists states :: RunFrom(states, c.cycleId) && Wedged(states[|states| - 1])
  {
    var s0, s1, s2, s3 := LockingSteps(c);
    var s4, s5 := WedgingSteps(s3, c);
    var states := [s0, s1, s2, s3, s4, s5];
    assert RunFrom(states, c.cycleId);
    assert Wedged(states[|states| - 1]);
  }

  lemma LockingSteps(c: Cycle) returns (s0: Sys, s1: Sys, s2: Sys, s3: Sys)
    requires AssertCycle(c) && c.history == []
    ensures Init(s0, c.cycleId) && Next(s0, s1, c.cycleId) && Next(s1, s2, c.cycleId) && Next(s2, s3, c.cycleId)
    ensures s3 == Sys(None, Missing, map[], Some(Lock(0, true)), map[0 := Proc(Create(c), Holding, true, 0)], [])
  {
    var id := c.cycleId;
    s0 := Sys(None, Missing, map[], None, map[], []);
    s1 := s0.(procs := map[0 := Proc(Create(c), Begin, true, 0)]);
    s2 := At(s1, 0, LockOpened).(lock := Some(Lock(0, false)));
    s3 := At(s2, 0, Holding).(lock := Some(Lock(0, true)));
    assert Start(s0, s1, 0, Create(c), id);
    assert OpenLock(s1, s2, 0, id) && Effect(s1, s2, 0, id);
    assert RecordLock(s2, s3, 0) && Effect(s2, s3, 0, id);
  }

  lemma WedgingSteps(s3: Sys, c: Cycle) returns (s4: Sys, s5: Sys)
    requires s3 == Sys(None, Missing, map[], Some(Lock(0, true)), map[0 := Proc(Create(c), Holding, true, 0)], [])
    ensures Next(s3, s4, c.cycleId) && Next(s4, s5, c.cycleId) && Wedged(s5)
  {
    s4 := At(s3, 0, JournalOpened(MakeRecord(c, 0, None))).(journal := Some(File([], Blank)));
    s5 := s4.(procs := s4.procs[0 := s4.procs[0].(alive := false)]);
    assert CreateChecks(s3, s4, 0) && Effect(s3, s4, 0, c.cycleId);
    assert KillAtFaultPoint(s4, s5, 0);
  }

  // ---------------------------------------------------------------- a kill inside the append's write call

  /** What a load has come to see of the records. */
  predicate Sees(pc: Pc, records: seq<Record>, c: Cycle) {
    match pc
    case Begin => true
    case Reading => true
    case Deciding(read) => read == records
    case SnapshotTemp(_, _, then_) => then_ == ThenLoaded(c)
    case SnapshotRenamed(then_) => then_ == ThenLoaded(c)
    case HasLoaded(loaded) => loaded == c
    case Done(outcome) => outcome == Returned(c)
    case _ => false
  }

  /** The journal a kill has left, nobody writing to it, and every load begun since seeing its records. */
  ghost predicate Torn(u: Sys, journal: File, records: seq<Record>, before: set<Pid>, id: string) {
    && u.journal == Some(journal) && ReadJournal(u.journal) == Ok(records) && records != [] && Chained(records, id)
    && before <= u.procs.Keys
    && (forall q :: Live(u, q) ==> !u.procs[q].pc.Writing?)
    && (forall q :: q in u.procs && q !in before && u.procs[q].op.LoadOnly? ==>
          Sees(u.procs[q].pc, records, records[|records| - 1].cycle))
  }

  lemma EffectMovesOne(u: Sys, v: Sys, q: Pid, id: string)
    requires Effect(u, v, q, id)
    ensures Live(u, q) && q in v.procs && v.procs == u.procs[q := v.procs[q]] && v.procs[q].op == u.procs[q].op
  {
  }

  lemma OnlyWriteSomeBeginsToWrite(u: Sys, v: Sys, q: Pid, id: string)
    requires Effect(u, v, q, id) && !WriteSome(u, v, q) && q in u.procs && !u.procs[q].pc.Writing? && q in v.procs
    ensures !v.procs[q].pc.Writing?
  {
  }

  lemma EffectLeavesJournal(u: Sys, v: Sys, q: Pid, id: string)
    requires Effect(u, v, q, id) && !WriteSome(u, v, q) && u.journal.Some? && q in u.procs && !u.procs[q].pc.Writing?
    ensures v.journal == u.journal
  {
  }

  lemma LoadStaysOnRecords(u: Sys, v: Sys, q: Pid, records: seq<Record>, id: string)
    requires ReadJournal(u.journal) == Ok(records) && records != [] && Chained(records, id)
    requires Effect(u, v, q, id) && q in u.procs && q in v.procs && u.procs[q].op.LoadOnly?
    requires Sees(u.procs[q].pc, records, records[|records| - 1].cycle)
    ensures Sees(v.procs[q].pc, records, records[|records| - 1].cycle)
  {
    LoadIgnoresSnapshot(records, u.snapshot, id);
  }

  ghost predicate NextButAppend(u: Sys, v: Sys, id: string) {
    Next(u, v, id) && forall q :: !WriteSome(u, v, q)
  }

  lemma TornStep(u: Sys, v: Sys, journal: File, records: seq<Record>, before: set<Pid>, id: string)
    requires Torn(u, journal, records, before, id) && NextButAppend(u, v, id)
    ensures Torn(v, journal, records, before, id)
  {
    if q :| Effect(u, v, q, id) {
      EffectMovesOne(u, v, q, id);
      OnlyWriteSomeBeginsToWrite(u, v, q, id);
      EffectLeavesJournal(u, v, q, id);
      if u.procs[q].op.LoadOnly? && q !in before { LoadStaysOnRecords(u, v, q, records, id); }
      forall x | Live(v, x) ensures !v.procs[x].pc.Writing? {
        if x != q { assert Live(u, x); }
      }
    } else if p, q :| SweepTemp(u, v, p, q) {
      assert forall x :: Live(v, x) ==> Live(u, x);
    } else if p :| KillAtFaultPoint(u, v, p) {
      assert forall x :: Live(v, x) ==> Live(u, x);
    } else {
      var p, op :| Start(u, v, p, op, id);
      assert forall x :: Live(v, x) && x != p ==> Live(u, x);
    }
  }

  /** Any steps of any processes, up to the next append. */
  ghost predicate NoAppend(states: seq<Sys>, id: string) {
    states != [] && forall i :: 0 < i < |states| ==> NextButAppend(states[i - 1], states[i], id)
  }

  lemma {:induction false} TornRun(states: seq<Sys>, n: nat, journal: File, records: seq<Record>, before: set<Pid>, id: string)
    requires NoAppend(states, id) && n < |states| && Torn(states[0], journal, records, before, id)
    ensures Torn(states[n], journal, records, before, id)
  {
    if n > 0 {
      TornRun(states, n - 1, journal, records, before, id);
      TornStep(states[n - 1], states[n], journal, records, before, id);
    }
  }

  lemma TornByKill(s: Sys, t: Sys, p: Pid, id: string)
    requires Inv(s, id) && p in s.procs && Owns(s, p) && s.procs[p].op.Save? && s.procs[p].pc.Writing? && Kill(s, t, p)
    ensures s.journal.Some? && Torn(t, s.journal.value, Records(s), s.procs.Keys, id)
  {
    assert Good(s, p, id) && Facts(s, p);
    forall q | Live(t, q) ensures !t.procs[q].pc.Writing? { OnlyTheOwnerWrites(s, p, q, id); }
  }

  lemma OnlyTheOwnerWrites(s: Sys, p: Pid, q: Pid, id: string)
    requires Inv(s, id) && Owns(s, p) && Live(s, q) && q != p
    ensures !s.procs[q].pc.Writing?
  {
    assert Good(s, q, id);
    assert s.procs[q].pc.Writing? && s.procs[q].op.LoadOnly? ==> Facts(s, q);
  }

  /**
   * A kill inside the append's write call is still atomic for the loads that follow, whatever else
   * goes on up to the next append: each of them returns the old cycle, or the new one if all of its
   * text had arrived, and so does every later one. But the next append is glued to what is there,
   * and the journal is lost.
   */
  lemma TornAppend(s: Sys, p: Pid, states: seq<Sys>, more: Record, id: string)
    requires Reachable(s, id) && p in s.procs && Owns(s, p) && s.procs[p].op.Save? && s.procs[p].pc.Writing?
    requires NoAppend(states, id) && Kill(s, states[0], p) && more.checksum == Sha(more.cycle)
    ensures var u := states[|states| - 1];
            var left := if s.procs[p].pc.complete then s.procs[p].op.next else s.procs[p].op.previous;
            && FreshLoad(u, id) == Ok(left)
            && (forall q :: q in u.procs && q !in s.procs && u.procs[q].op.LoadOnly? && u.procs[q].pc.Done? ==>
                  u.procs[q].pc.outcome == Returned(left))
            && u.journal == s.journal && s.journal.Some? && ReadJournal(Some(AppendLine(u.journal.value, more))).Err?
  {
    ReachableHasInv(s, id);
    LastWhileCommitting(s, p, id);
    TornByKill(s, states[0], p, id);
    TornRun(states, |states| - 1, s.journal.value, Records(s), s.procs.Keys, id);
    TornAnswers(states[|states| - 1], s.journal.value, Records(s), s.procs.Keys, id);
    AppendBehindTornIsLost(s, p, more, id);
  }

  lemma TornAnswers(u: Sys, journal: File, records: seq<Record>, before: set<Pid>, id: string)
    requires Torn(u, journal, records, before, id)
    ensures FreshLoad(u, id) == Ok(records[|records| - 1].cycle)
    ensures forall q :: q in u.procs && q !in before && u.procs[q].op.LoadOnly? && u.procs[q].pc.Done? ==>
              u.procs[q].pc.outcome == Returned(records[|records| - 1].cycle)
  {
    LoadIgnoresSnapshot(records, u.snapshot, id);
  }

  lemma AppendBehindTornIsLost(s: Sys, p: Pid, more: Record, id: string)
    requires Inv(s, id) && p in s.procs && Owns(s, p) && s.procs[p].pc.Writing? && s.journal.Some?
    requires more.checksum == Sha(more.cycle)
    ensures ReadJournal(Some(AppendLine(s.journal.value, more))).Err?
  {
    assert Good(s, p, id) && Facts(s, p);
    AppendKeepsReadable(s.journal.value, more);
  }
}
