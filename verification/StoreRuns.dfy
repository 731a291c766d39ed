/**
 * What one process's call comes to when no other process moves: from every reachable state,
 * the answer, the journal, the snapshot and the lock it leaves, and that it gets there.
 */
module StoreRuns {
  import opened Prelude
  import opened Journal
  import opened StoreProtocol

  // ---------------------------------------------------------------- one process moving

  ghost predicate Moves(s: Sys, t: Sys, p: Pid, id: string) {
    Effect(s, t, p, id) || exists op :: Start(s, t, p, op, id)
  }

  ghost predicate Solo(states: seq<Sys>, p: Pid, id: string) {
    states != [] && forall i, j :: 0 <= i && j == i + 1 && j < |states| ==> Moves(states[i], states[j], p, id)
  }

  /** The process gets from one state to the other by its own effects. */
  ghost predicate Alone(s: Sys, t: Sys, p: Pid, id: string) {
    exists states :: Solo(states, p, id) && states[0] == s && states[|states| - 1] == t
  }

  lemma One(s: Sys, t: Sys, p: Pid, id: string)
    requires Moves(s, t, p, id)
    ensures Alone(s, t, p, id)
  {
    var states := [s, t];
    assert Solo(states, p, id) && states[0] == s && states[|states| - 1] == t;
  }

  lemma Both(s: Sys, t: Sys, u: Sys, p: Pid, id: string)
    requires Alone(s, t, p, id) && Alone(t, u, p, id)
    ensures Alone(s, u, p, id)
  {
    var a :| Solo(a, p, id) && a[0] == s && a[|a| - 1] == t;
    var b :| Solo(b, p, id) && b[0] == t && b[|b| - 1] == u;
    var c := a + b[1..];
    assert c[0] == s && c[|c| - 1] == u;
    forall i, j | 0 <= i && j == i + 1 && j < |c| ensures Moves(c[i], c[j], p, id) {
      if j < |a| {
        assert c[i] == a[i] && c[j] == a[j];
      } else {
        assert c[j] == b[j - |a| + 1] && c[i] == b[i - |a| + 1];
      }
    }
    assert Solo(c, p, id);
  }

  lemma Then(s: Sys, t: Sys, u: Sys, p: Pid, id: string)
    requires Alone(s, t, p, id) && Effect(t, u, p, id)
    ensures Alone(s, u, p, id)
  {
    assert Moves(t, u, p, id);
    One(t, u, p, id);
    Both(s, t, u, p, id);
  }

  /** Nothing here leaves what the protocol can reach. */
  lemma AloneIsReachable(s: Sys, t: Sys, p: Pid, id: string)
    requires Reachable(s, id) && Alone(s, t, p, id)
    ensures Reachable(t, id)
  {
    var states :| Solo(states, p, id) && states[0] == s && states[|states| - 1] == t;
    SoloIsReachable(states, |states| - 1, p, id);
  }

  lemma {:induction false} SoloIsReachable(states: seq<Sys>, n: nat, p: Pid, id: string)
    requires Solo(states, p, id) && n < |states| && Reachable(states[0], id)
    ensures Reachable(states[n], id)
  {
    if n > 0 {
      SoloIsReachable(states, n - 1, p, id);
      var before :| RunFrom(before, id) && before[|before| - 1] == states[n - 1];
      assert Moves(states[n - 1], states[n], p, id) && Next(states[n - 1], states[n], id);
      var longer := before + [states[n]];
      assert RunFrom(longer, id) && longer[|longer| - 1] == states[n];
    }
  }

  // ---------------------------------------------------------------- the stretches of a call

  /** No lock file, or one that a dead process left. */
  predicate Unlocked(s: Sys) {
    s.lock.Some? ==> s.lock.value.owner in s.procs && !s.procs[s.lock.value.owner].alive
  }

  function Put(s: Sys, p: Pid, op: Op, pc: Pc, n: nat): Sys {
    s.(procs := s.procs[p := Proc(op, pc, true, n)])
  }

  lemma Acquires(s: Sys, p: Pid, op: Op, id: string)
    requires p !in s.procs && OpAllowed(op, id) && WantsLock(Proc(op, Begin, true, 0), id) && Unlocked(s)
    ensures Alone(s, Put(s, p, op, Holding, 0).(lock := Some(Lock(p, true))), p, id)
  {
    var a := Put(s, p, op, Begin, 0);
    assert Start(s, a, p, op, id);
    One(s, a, p, id);
    var b := a.(lock := None);
    if s.lock.Some? {
      assert ReclaimLock(a, b, p, id);
      Then(s, a, b, p, id);
    } else {
      assert a == b;
    }
    LocksFree(b, p, op, id);
    Both(s, b, Put(b, p, op, Holding, 0).(lock := Some(Lock(p, true))), p, id);
    assert Put(b, p, op, Holding, 0).(lock := Some(Lock(p, true))) == Put(s, p, op, Holding, 0).(lock := Some(Lock(p, true)));
  }

  lemma LocksFree(b: Sys, p: Pid, op: Op, id: string)
    requires p in b.procs && b.procs[p] == Proc(op, Begin, true, 0) && WantsLock(b.procs[p], id) && b.lock == None
    ensures Alone(b, Put(b, p, op, Holding, 0).(lock := Some(Lock(p, true))), p, id)
  {
    var c := At(b, p, LockOpened).(lock := Some(Lock(p, false)));
    var d := At(c, p, Holding).(lock := Some(Lock(p, true)));
    assert OpenLock(b, c, p, id) && RecordLock(c, d, p);
    One(b, c, p, id);
    Then(b, c, d, p, id);
    assert d == Put(b, p, op, Holding, 0).(lock := Some(Lock(p, true)));
  }

  /** The snapshot a load leaves: healed where it did not agree with the journal. */
  function HealedSnapshot(records: seq<Record>, snapshot: Snapshot, id: string): Snapshot
    requires records != []
  {
    if Decide(records, snapshot, id).heal.Some? then Document(Encode(records[|records| - 1])) else snapshot
  }

  lemma Loads(s: Sys, p: Pid, op: Op, records: seq<Record>, id: string)
    requires p in s.procs && s.procs[p] == Proc(op, Reading, true, 0) && p !in s.temps
    requires records != [] && ReadJournal(s.journal) == Ok(records) && Chained(records, id)
    ensures var last := records[|records| - 1].cycle;
            Alone(s, Put(s, p, op, HasLoaded(last), |records|).(snapshot := HealedSnapshot(records, s.snapshot, id)), p, id)
  {
    LoadReads(s, p, op, records, id);
    LoadIgnoresSnapshot(records, s.snapshot, id);
    if Decide(records, s.snapshot, id).heal.None? {
      LoadAgrees(s, Put(s, p, op, Deciding(records), |records|), p, op, records, id);
    } else {
      LoadHeals(s, Put(s, p, op, Deciding(records), |records|), p, op, records, id);
    }
  }

  lemma LoadReads(s: Sys, p: Pid, op: Op, records: seq<Record>, id: string)
    requires p in s.procs && s.procs[p] == Proc(op, Reading, true, 0)
    requires records != [] && ReadJournal(s.journal) == Ok(records) && Chained(records, id)
    ensures Alone(s, Put(s, p, op, Deciding(records), |records|), p, id)
  {
    assert Placed(records[|records| - 1], |records| - 1, id);
    assert ReadStep(s, Put(s, p, op, Deciding(records), |records|), p, id);
    One(s, Put(s, p, op, Deciding(records), |records|), p, id);
  }

  lemma LoadAgrees(s: Sys, a: Sys, p: Pid, op: Op, records: seq<Record>, id: string)
    requires records != [] && a == Put(s, p, op, Deciding(records), |records|) && Alone(s, a, p, id)
    requires Decide(records, s.snapshot, id) == Loaded(records[|records| - 1].cycle, None)
    ensures Alone(s, Put(s, p, op, HasLoaded(records[|records| - 1].cycle), |records|), p, id)
  {
    var b := Put(s, p, op, HasLoaded(records[|records| - 1].cycle), |records|);
    assert b == At(a, p, HasLoaded(records[|records| - 1].cycle)) && DecideStep(a, b, p, id);
    Then(s, a, b, p, id);
  }

  lemma LoadHeals(s: Sys, a: Sys, p: Pid, op: Op, records: seq<Record>, id: string)
    requires records != [] && a == Put(s, p, op, Deciding(records), |records|) && p !in s.temps && Alone(s, a, p, id)
    requires var last := records[|records| - 1]; Decide(records, s.snapshot, id) == Loaded(last.cycle, Some(last))
    ensures var last := records[|records| - 1];
            Alone(s, Put(s, p, op, HasLoaded(last.cycle), |records|).(snapshot := Document(Encode(last))), p, id)
  {
    var last := records[|records| - 1];
    var b := At(a, p, SnapshotTemp(last, false, ThenLoaded(last.cycle))).(temps := a.temps[p := EmptyTemp]);
    assert DecideStep(a, b, p, id);
    Then(s, a, b, p, id);
    SnapshotIsWritten(b, p, op, last, ThenLoaded(last.cycle), |records|, id);
    Both(s, b, Put(b, p, op, HasLoaded(last.cycle), |records|).(temps := b.temps - {p}, snapshot := Document(Encode(last))), p, id);
    assert b.temps - {p} == s.temps;
  }

  function After(then_: Then): Pc {
    match then_ case ThenLoaded(c) => HasLoaded(c) case ThenFinish(c) => Finishing(Returned(c))
  }

  lemma SnapshotIsWritten(s: Sys, p: Pid, op: Op, record: Record, then_: Then, n: nat, id: string)
    requires p in s.procs && s.procs[p] == Proc(op, SnapshotTemp(record, false, then_), true, n)
    ensures Alone(s, Put(s, p, op, After(then_), n).(temps := s.temps - {p}, snapshot := Document(Encode(record))), p, id)
  {
    var a := At(s, p, SnapshotTemp(record, true, then_)).(temps := s.temps[p := FullTemp(record)]);
    var b := At(a, p, SnapshotRenamed(then_)).(temps := a.temps - {p}, snapshot := Document(Encode(record)));
    var c := At(b, p, After(then_));
    assert WriteTemp(s, a, p) && RenameTemp(a, b, p) && AfterSnapshot(b, c, p);
    One(s, a, p, id);
    One(a, b, p, id);
    One(b, c, p, id);
    Both(s, a, b, p, id);
    Both(s, b, c, p, id);
    assert c == Put(s, p, op, After(then_), n).(temps := s.temps - {p}, snapshot := Document(Encode(record)));
  }

  /** From the opened journal to the answer: the line, then the snapshot. */
  lemma Commits(s: Sys, p: Pid, op: Op, record: Record, n: nat, id: string)
    requires p in s.procs && s.procs[p] == Proc(op, JournalOpened(record), true, n) && s.journal.Some? && p !in s.temps
    ensures Alone(s, Put(s, p, op, Finishing(Returned(record.cycle)), n)
                     .(journal := Some(AppendLine(s.journal.value, record)), snapshot := Document(Encode(record)),
                       writers := s.writers + [Some(p)]), p, id)
  {
    var file := s.journal.value;
    var a := At(s, p, Writing(record, false, file.tail)).(journal := Some(AppendTorn(file)));
    var b := At(a, p, Writing(record, true, file.tail)).(journal := Some(AppendText(file, record)), writers := s.writers + [Some(p)]);
    var c := At(b, p, LineWritten(record)).(journal := Some(AppendLine(file, record)));
    LineIsWritten(s, a, b, c, p, record, id);
    var d := At(c, p, SnapshotTemp(record, false, ThenFinish(record.cycle))).(temps := c.temps[p := EmptyTemp]);
    assert OpenSnapshot(c, d, p);
    Then(s, c, d, p, id);
    SnapshotIsWritten(d, p, op, record, ThenFinish(record.cycle), n, id);
    Both(s, d, Put(d, p, op, Finishing(Returned(record.cycle)), n).(temps := d.temps - {p}, snapshot := Document(Encode(record))), p, id);
    assert d.temps - {p} == s.temps;
  }

  lemma LineIsWritten(s: Sys, a: Sys, b: Sys, c: Sys, p: Pid, record: Record, id: string)
    requires Live(s, p) && s.procs[p].pc == JournalOpened(record) && s.journal.Some?
    requires var file := s.journal.value;
             && a == At(s, p, Writing(record, false, file.tail)).(journal := Some(AppendTorn(file)))
             && b == At(a, p, Writing(record, true, file.tail)).(journal := Some(AppendText(file, record)), writers := s.writers + [Some(p)])
             && c == At(b, p, LineWritten(record)).(journal := Some(AppendLine(file, record)))
    ensures Alone(s, c, p, id)
  {
    assert WriteSome(s, a, p) && WriteText(a, b, p) && WriteNewline(b, c, p);
    One(s, a, p, id);
    One(a, b, p, id);
    One(b, c, p, id);
    Both(s, a, b, p, id);
    Both(s, b, c, p, id);
  }

  lemma Releases(s: Sys, p: Pid, op: Op, outcome: Outcome, n: nat, id: string)
    requires p in s.procs && s.procs[p] == Proc(op, Finishing(outcome), true, n) && s.lock == Some(Lock(p, true))
    ensures Alone(s, Put(s, p, op, Done(outcome), n).(lock := None), p, id)
  {
    var t := At(s, p, Done(outcome)).(lock := None);
    assert Release(s, t, p);
    One(s, t, p, id);
  }

  // ---------------------------------------------------------------- whole calls

  /** A temporary file belongs to a process there is or was. */
  ghost predicate TempsAreKnown(s: Sys) {
    s.temps.Keys <= s.procs.Keys
  }

  lemma ReachableKnowsTemps(s: Sys, id: string)
    requires Reachable(s, id)
    ensures TempsAreKnown(s)
  {
    var states :| RunFrom(states, id) && states[|states| - 1] == s;
    RunKnowsTemps(states, |states| - 1, id);
  }

  lemma {:induction false} RunKnowsTemps(states: seq<Sys>, n: nat, id: string)
    requires RunFrom(states, id) && n < |states|
    ensures TempsAreKnown(states[n])
  {
    if n > 0 {
      RunKnowsTemps(states, n - 1, id);
      assert Next(states[n - 1], states[n], id);
      StepKnowsTemps(states[n - 1], states[n], id);
    }
  }

  lemma StepKnowsTemps(s: Sys, t: Sys, id: string)
    requires TempsAreKnown(s) && Next(s, t, id)
    ensures TempsAreKnown(t)
  {
    if p :| Effect(s, t, p, id) { EffectKnowsTemps(s, t, p, id); }
  }

  lemma EffectKnowsTemps(s: Sys, t: Sys, p: Pid, id: string)
    requires TempsAreKnown(s) && Effect(s, t, p, id)
    ensures TempsAreKnown(t)
  {
  }

  /** What a reader of these files is told when there is nothing to load. */
  function NothingToLoad(s: Sys): Error {
    if s.journal.None? then CannotReadJournal else NoValidRecords
  }

  /** The last cycle of the journal. */
  function Latest(s: Sys): Option<Cycle> {
    if Records(s) == [] then None else Some(Records(s)[|Records(s)| - 1].cycle)
  }

  function SaveAnswer(s: Sys, previous: Cycle, next: Cycle): Outcome {
    if previous.cycleId != next.cycleId then Threw(AcrossCycles)
    else if |next.history| != |previous.history| + 1 then Threw(NotOneTransition)
    else if Latest(s) == None then Threw(NothingToLoad(s))
    else if Latest(s) != Some(previous) then Threw(StaleCycle)
    else Returned(next)
  }

  /** The files of a reachable state nobody is at work in. */
  lemma RestingFiles(s: Sys, p: Pid, id: string)
    requires Reachable(s, id) && Unlocked(s) && p !in s.procs
    ensures p !in s.temps && Chained(Records(s), id)
    ensures s.journal.Some? ==> s.journal.value.tail == Blank && ReadRecords(s.journal.value) == Ok(Records(s))
    ensures ReadJournal(s.journal) == if Records(s) == [] then Err(NothingToLoad(s)) else Ok(Records(s))
  {
    ReachableHasInv(s, id);
    ReachableKnowsTemps(s, id);
  }

  /** What a fresh process finds where there is something to read, whoever is at work. */
  lemma Readable(s: Sys, p: Pid, id: string)
    requires Reachable(s, id) && p !in s.procs
    ensures p !in s.temps && Chained(Records(s), id)
    ensures ReadJournal(s.journal) == if Records(s) == [] then Err(NothingToLoad(s)) else Ok(Records(s))
  {
    ReachableHasInv(s, id);
    ReachableKnowsTemps(s, id);
  }

  /** save, once it holds the lock and starts to read. */
  function SaveReading(s: Sys, p: Pid, op: Op): Sys {
    Put(s, p, op, Reading, 0).(lock := Some(Lock(p, true)))
  }

  lemma SaveGetsToRead(s: Sys, p: Pid, op: Op, id: string)
    requires op.Save? && p !in s.procs && OpAllowed(op, id) && WantsLock(Proc(op, Begin, true, 0), id) && Unlocked(s)
    ensures Alone(s, SaveReading(s, p, op), p, id)
  {
    var a := Put(s, p, op, Holding, 0).(lock := Some(Lock(p, true)));
    var b := At(a, p, Reading);
    Acquires(s, p, op, id);
    assert BeginLoad(a, b, p);
    Then(s, a, b, p, id);
    assert b == SaveReading(s, p, op);
  }

  /** save's arguments are refused before anything is touched. */
  lemma SoloSaveRefused(s: Sys, p: Pid, previous: Cycle, next: Cycle, id: string)
    requires p !in s.procs && OpAllowed(Save(previous, next), id)
    requires previous.cycleId != next.cycleId || |next.history| != |previous.history| + 1
    ensures SaveAnswer(s, previous, next).error in {AcrossCycles, NotOneTransition}
    ensures Alone(s, Put(s, p, Save(previous, next), Done(SaveAnswer(s, previous, next)), 0), p, id)
  {
    var a := Put(s, p, Save(previous, next), Begin, 0);
    var b := At(a, p, Done(SaveAnswer(s, previous, next)));
    assert Start(s, a, p, Save(previous, next), id) && RefuseArguments(a, b, p, id);
    One(s, a, p, id);
    Then(s, a, b, p, id);
    assert b == Put(s, p, Save(previous, next), Done(SaveAnswer(s, previous, next)), 0);
  }

  /** On a cycle that was never created, or only half, save throws what the reader throws. */
  lemma SoloSaveFindsNothing(s: Sys, p: Pid, op: Op, id: string)
    requires Reachable(s, id) && Unlocked(s) && p !in s.procs && op.Save? && OpAllowed(op, id) && Records(s) == []
    requires WantsLock(Proc(op, Begin, true, 0), id)
    ensures Alone(s, Put(s, p, op, Done(Threw(NothingToLoad(s))), 0).(lock := None), p, id)
  {
    RestingFiles(s, p, id);
    SaveGetsToRead(s, p, op, id);
    var a := SaveReading(s, p, op);
    var b := At(a, p, Finishing(Threw(NothingToLoad(s))));
    assert ReadStep(a, b, p, id);
    Then(s, a, b, p, id);
    Releases(b, p, op, Threw(NothingToLoad(s)), 0, id);
    Both(s, b, Put(b, p, op, Done(Threw(NothingToLoad(s))), 0).(lock := None), p, id);
    assert Put(b, p, op, Done(Threw(NothingToLoad(s))), 0).(lock := None) == Put(s, p, op, Done(Threw(NothingToLoad(s))), 0).(lock := None);
  }

  /** save with the last cycle of the log loaded, the snapshot healed on the way. */
  function SaveLoaded(s: Sys, p: Pid, op: Op, records: seq<Record>, id: string): Sys
    requires records != []
  {
    Put(s, p, op, HasLoaded(records[|records| - 1].cycle), |records|)
      .(lock := Some(Lock(p, true)), snapshot := HealedSnapshot(records, s.snapshot, id))
  }

  lemma SaveGetsToCompare(s: Sys, p: Pid, op: Op, id: string)
    requires Reachable(s, id) && Unlocked(s) && p !in s.procs && op.Save? && OpAllowed(op, id) && Records(s) != []
    requires WantsLock(Proc(op, Begin, true, 0), id)
    ensures Alone(s, SaveLoaded(s, p, op, Records(s), id), p, id)
  {
    Readable(s, p, id);
    SaveGetsToRead(s, p, op, id);
    SaveLoads(s, p, op, Records(s), id);
  }

  lemma SaveLoads(s: Sys, p: Pid, op: Op, records: seq<Record>, id: string)
    requires Alone(s, SaveReading(s, p, op), p, id) && p !in s.temps
    requires records != [] && ReadJournal(s.journal) == Ok(records) && Chained(records, id)
    ensures Alone(s, SaveLoaded(s, p, op, records, id), p, id)
  {
    var a := SaveReading(s, p, op);
    Loads(a, p, op, records, id);
    var b := Put(a, p, op, HasLoaded(records[|records| - 1].cycle), |records|).(snapshot := HealedSnapshot(records, s.snapshot, id));
    assert b == SaveLoaded(s, p, op, records, id);
    Both(s, a, b, p, id);
  }

  lemma SoloSaveIsStale(s: Sys, p: Pid, op: Op, id: string)
    requires Reachable(s, id) && Unlocked(s) && p !in s.procs && op.Save? && OpAllowed(op, id) && Records(s) != []
    requires WantsLock(Proc(op, Begin, true, 0), id) && Records(s)[|Records(s)| - 1].cycle != op.previous
    ensures Alone(s, Put(s, p, op, Done(Threw(StaleCycle)), |Records(s)|)
                     .(lock := None, snapshot := HealedSnapshot(Records(s), s.snapshot, id)), p, id)
  {
    SaveGetsToCompare(s, p, op, id);
    var last, n := Records(s)[|Records(s)| - 1].cycle, |Records(s)|;
    ComparesAndReleases(SaveLoaded(s, p, op, Records(s), id), p, op, last, n, id);
    var c := Put(SaveLoaded(s, p, op, Records(s), id), p, op, Done(Threw(StaleCycle)), n).(lock := None);
    Both(s, SaveLoaded(s, p, op, Records(s), id), c, p, id);
    assert c == Put(s, p, op, Done(Threw(StaleCycle)), n).(lock := None, snapshot := HealedSnapshot(Records(s), s.snapshot, id));
  }

  lemma ComparesAndReleases(s: Sys, p: Pid, op: Op, current: Cycle, n: nat, id: string)
    requires op.Save? && current != op.previous && s.lock == Some(Lock(p, true))
    requires p in s.procs && s.procs[p] == Proc(op, HasLoaded(current), true, n)
    ensures Alone(s, Put(s, p, op, Done(Threw(StaleCycle)), n).(lock := None), p, id)
  {
    var b := At(s, p, Finishing(Threw(StaleCycle)));
    assert UseLoaded(s, b, p);
    One(s, b, p, id);
    Releases(b, p, op, Threw(StaleCycle), n, id);
    assert Put(b, p, op, Done(Threw(StaleCycle)), n).(lock := None) == Put(s, p, op, Done(Threw(StaleCycle)), n).(lock := None);
    Both(s, b, Put(s, p, op, Done(Threw(StaleCycle)), n).(lock := None), p, id);
  }

  /** The record an undisturbed save or create appends. */
  function NextRecord(s: Sys, next: Cycle): Record {
    MakeRecord(next, |Records(s)|, LastChecksum(Records(s)))
  }

  function Saved(s: Sys, p: Pid, op: Op, next: Cycle, n: nat): Sys {
    Put(s, p, op, Done(Returned(next)), n)
      .(journal := Some(AppendLine(Opened(s.journal), NextRecord(s, next))), snapshot := Document(Encode(NextRecord(s, next))),
        lock := None, writers := s.writers + [Some(p)])
  }

  /** save with the journal opened, about to append. */
  function SaveOpened(s: Sys, p: Pid, op: Op, id: string): Sys
    requires op.Save? && Records(s) != []
  {
    Put(s, p, op, JournalOpened(NextRecord(s, op.next)), |Records(s)|)
      .(lock := Some(Lock(p, true)), snapshot := HealedSnapshot(Records(s), s.snapshot, id))
  }

  /** The record made from the arguments alone is the one the journal expects next. */
  lemma ExpectedRecord(s: Sys, previous: Cycle, next: Cycle, id: string)
    requires Reachable(s, id) && Records(s) != [] && Records(s)[|Records(s)| - 1].cycle == previous
    requires |next.history| == |previous.history| + 1
    ensures s.journal.Some? && |next.history| == |Records(s)|
    ensures MakeRecord(next, |next.history|, Some(Sha(previous))) == NextRecord(s, next)
  {
    ReachableHasInv(s, id);
  }

  lemma SaveOpensJournal(s: Sys, p: Pid, op: Op, id: string)
    requires Reachable(s, id) && Unlocked(s) && p !in s.procs && op.Save? && OpAllowed(op, id) && Records(s) != []
    requires WantsLock(Proc(op, Begin, true, 0), id) && Records(s)[|Records(s)| - 1].cycle == op.previous
    ensures Alone(s, SaveOpened(s, p, op, id), p, id)
  {
    SaveGetsToCompare(s, p, op, id);
    ExpectedRecord(s, op.previous, op.next, id);
    var a, b := SaveLoaded(s, p, op, Records(s), id), SaveOpened(s, p, op, id);
    assert b == At(a, p, JournalOpened(NextRecord(s, op.next))) && UseLoaded(a, b, p);
    Then(s, a, b, p, id);
  }

  lemma SoloSaveAppends(s: Sys, p: Pid, op: Op, id: string)
    requires Reachable(s, id) && Unlocked(s) && p !in s.procs && op.Save? && OpAllowed(op, id) && Records(s) != []
    requires WantsLock(Proc(op, Begin, true, 0), id) && Records(s)[|Records(s)| - 1].cycle == op.previous
    ensures Alone(s, Saved(s, p, op, op.next, |Records(s)|), p, id)
  {
    SaveOpensJournal(s, p, op, id);
    ReachableKnowsTemps(s, id);
    ExpectedRecord(s, op.previous, op.next, id);
    CommitsAndReleases(s, SaveOpened(s, p, op, id), p, op, NextRecord(s, op.next), |Records(s)|, id);
  }

  lemma CommitsAndReleases(s: Sys, b: Sys, p: Pid, op: Op, record: Record, n: nat, id: string)
    requires Alone(s, b, p, id) && b.journal.Some? && p !in s.temps && record == NextRecord(s, record.cycle)
    requires b == Put(s, p, op, JournalOpened(record), n)
                  .(lock := Some(Lock(p, true)), snapshot := b.snapshot, journal := Some(Opened(s.journal)))
    ensures Alone(s, Saved(s, p, op, record.cycle, n), p, id)
  {
    Commits(b, p, op, record, n, id);
    var c := Put(b, p, op, Finishing(Returned(record.cycle)), n)
             .(journal := Some(AppendLine(b.journal.value, record)), snapshot := Document(Encode(record)), writers := b.writers + [Some(p)]);
    Both(s, b, c, p, id);
    Releases(c, p, op, Returned(record.cycle), n, id);
    var d := Put(c, p, op, Done(Returned(record.cycle)), n).(lock := None);
    Both(s, c, d, p, id);
    assert d == Saved(s, p, op, record.cycle, n);
  }

  /** What a record appended to resting files does to the journal, and to the next load's snapshot. */
  lemma SavedRecords(s: Sys, p: Pid, op: Op, next: Cycle, n: nat, id: string)
    requires Reachable(s, id) && Unlocked(s) && p !in s.procs && AssertCycle(next) && next.cycleId == id && |next.history| == |Records(s)|
    ensures var t := Saved(s, p, op, next, n);
            Records(t) == Records(s) + [NextRecord(s, next)] && Settled(t, id)
  {
    RestingFiles(s, p, id);
    AppendStages(Opened(s.journal), next);
    ChainGrows(Records(s), id, next);
    LatestSettles(Records(s) + [NextRecord(s, next)], id);
  }

  /** A load would find nothing to heal. */
  predicate Settled(s: Sys, id: string) {
    Records(s) != [] && Decide(Records(s), s.snapshot, id).heal == None
  }

  lemma HealedIsSettled(s: Sys, t: Sys, p: Pid, id: string)
    requires Chained(Records(s), id) && Records(s) != []
    requires t.journal == s.journal && t.snapshot == HealedSnapshot(Records(s), s.snapshot, id)
    ensures Settled(t, id)
  {
    LoadIgnoresSnapshot(Records(s), s.snapshot, id);
    HealingSettles(Records(s), s.snapshot, id);
  }

  /** The process has ended on the outcome; no other process and no temporary file is touched. */
  ghost predicate Ends(s: Sys, t: Sys, p: Pid, outcome: Outcome, id: string) {
    && Alone(s, t, p, id) && p in t.procs && t.procs[p].pc == Done(outcome)
    && t.temps == s.temps && t.procs == s.procs[p := t.procs[p]]
  }

  /**
   * save, undisturbed: from every reachable state with no living lock owner the call ends, with exactly
   * this answer, journal, lock and snapshot, every temporary file removed again and no other process touched.
   */
  lemma SoloSave(s: Sys, p: Pid, previous: Cycle, next: Cycle, id: string) returns (t: Sys)
    requires Reachable(s, id) && Unlocked(s) && p !in s.procs && previous.cycleId == id && AssertCycle(next)
    ensures Ends(s, t, p, SaveAnswer(s, previous, next), id)
    ensures Records(t) == if SaveAnswer(s, previous, next).Returned? then Records(s) + [NextRecord(s, next)] else Records(s)
    ensures t.lock == if SaveAnswer(s, previous, next) in {Threw(AcrossCycles), Threw(NotOneTransition)} then s.lock else None
    ensures SaveAnswer(s, previous, next).Returned? || SaveAnswer(s, previous, next) == Threw(StaleCycle) ==> Settled(t, id)
  {
    var op := Save(previous, next);
    if previous.cycleId != next.cycleId || |next.history| != |previous.history| + 1 {
      SoloSaveRefused(s, p, previous, next, id);
      t := Put(s, p, op, Done(SaveAnswer(s, previous, next)), 0);
    } else if Records(s) == [] {
      SoloSaveFindsNothing(s, p, op, id);
      t := Put(s, p, op, Done(Threw(NothingToLoad(s))), 0).(lock := None);
    } else if Records(s)[|Records(s)| - 1].cycle != previous {
      SoloSaveIsStale(s, p, op, id);
      t := Put(s, p, op, Done(Threw(StaleCycle)), |Records(s)|).(lock := None, snapshot := HealedSnapshot(Records(s), s.snapshot, id));
      RestingFiles(s, p, id);
      HealedIsSettled(s, t, p, id);
    } else {
      SoloSaveAppends(s, p, op, id);
      t := Saved(s, p, op, next, |Records(s)|);
      ExpectedRecord(s, previous, next, id);
      SavedRecords(s, p, op, next, |Records(s)|, id);
    }
  }

  /** create, undisturbed: it takes any directory without journal and snapshot, and no other. */
  lemma SoloCreate(s: Sys, p: Pid, c: Cycle, id: string) returns (t: Sys)
    requires Reachable(s, id) && Unlocked(s) && p !in s.procs && OpAllowed(Create(c), id)
    ensures var created := s.journal.None? && s.snapshot == Missing;
            && Ends(s, t, p, if created then Returned(c) else Threw(AlreadyExists), id) && t.lock == None
            && (if created then Records(t) == [NextRecord(s, c)] && Settled(t, id) else t.journal == s.journal && t.snapshot == s.snapshot)
  {
    if s.journal.None? && s.snapshot == Missing {
      t := SoloCreateAppends(s, p, c, id);
    } else {
      var op := Create(c);
      Acquires(s, p, op, id);
      var a := Put(s, p, op, Holding, 0).(lock := Some(Lock(p, true)));
      var b := At(a, p, Finishing(Threw(AlreadyExists)));
      assert CreateChecks(a, b, p);
      Then(s, a, b, p, id);
      Releases(b, p, op, Threw(AlreadyExists), 0, id);
      t := Put(b, p, op, Done(Threw(AlreadyExists)), 0).(lock := None);
      Both(s, b, t, p, id);
    }
  }

  lemma SoloCreateAppends(s: Sys, p: Pid, c: Cycle, id: string) returns (t: Sys)
    requires Reachable(s, id) && Unlocked(s) && p !in s.procs && OpAllowed(Create(c), id) && s.journal.None? && s.snapshot == Missing
    ensures Ends(s, t, p, Returned(c), id) && t.lock == None && Records(t) == [NextRecord(s, c)] && Settled(t, id)
  {
    ReachableKnowsTemps(s, id);
    CreateOpensJournal(s, p, c, id);
    CommitsAndReleases(s, CreateOpened(s, p, c), p, Create(c), MakeRecord(c, 0, None), 0, id);
    t := Saved(s, p, Create(c), c, 0);
    SavedRecords(s, p, Create(c), c, 0, id);
  }

  /** create with the journal opened, about to append. */
  function CreateOpened(s: Sys, p: Pid, c: Cycle): Sys {
    Put(s, p, Create(c), JournalOpened(MakeRecord(c, 0, None)), 0).(lock := Some(Lock(p, true)), journal := Some(File([], Blank)))
  }

  lemma CreateOpensJournal(s: Sys, p: Pid, c: Cycle, id: string)
    requires Unlocked(s) && p !in s.procs && OpAllowed(Create(c), id) && s.journal.None? && s.snapshot == Missing
    ensures Alone(s, CreateOpened(s, p, c), p, id)
  {
    var a := Put(s, p, Create(c), Holding, 0).(lock := Some(Lock(p, true)));
    var b := CreateOpened(s, p, c);
    Acquires(s, p, Create(c), id);
    assert b == At(a, p, JournalOpened(MakeRecord(c, 0, None))).(journal := Some(File([], Blank))) && CreateChecks(a, b, p);
    Then(s, a, b, p, id);
  }

  /** load, undisturbed, takes no lock: the last cycle of the journal, whatever the snapshot says, which it heals. */
  lemma SoloLoad(s: Sys, p: Pid, id: string) returns (t: Sys)
    requires Reachable(s, id) && p !in s.procs
    ensures Ends(s, t, p, if Latest(s) == None then Threw(NothingToLoad(s)) else Returned(Latest(s).value), id)
    ensures t.journal == s.journal && t.lock == s.lock && (Latest(s).Some? ==> Settled(t, id))
  {
    Readable(s, p, id);
    LoadGetsToRead(s, p, id);
    var b := Put(s, p, LoadOnly, Reading, 0);
    if Records(s) == [] {
      t := At(b, p, Done(Threw(NothingToLoad(s))));
      assert ReadStep(b, t, p, id);
      Then(s, b, t, p, id);
    } else {
      t := LoadsAndReturns(s, b, p, id);
    }
  }

  lemma LoadGetsToRead(s: Sys, p: Pid, id: string)
    requires p !in s.procs
    ensures Alone(s, Put(s, p, LoadOnly, Reading, 0), p, id)
  {
    var a := Put(s, p, LoadOnly, Begin, 0);
    var b := Put(s, p, LoadOnly, Reading, 0);
    assert Start(s, a, p, LoadOnly, id) && b == At(a, p, Reading) && BeginLoad(a, b, p);
    One(s, a, p, id);
    Then(s, a, b, p, id);
  }

  lemma LoadsAndReturns(s: Sys, b: Sys, p: Pid, id: string) returns (t: Sys)
    requires Alone(s, b, p, id) && b == Put(s, p, LoadOnly, Reading, 0) && p !in s.temps
    requires Records(s) != [] && ReadJournal(s.journal) == Ok(Records(s)) && Chained(Records(s), id)
    ensures var last := Records(s)[|Records(s)| - 1].cycle;
            t == Put(s, p, LoadOnly, Done(Returned(last)), |Records(s)|).(snapshot := HealedSnapshot(Records(s), s.snapshot, id))
    ensures Alone(s, t, p, id) && Settled(t, id)
  {
    var records, last := Records(s), Records(s)[|Records(s)| - 1].cycle;
    Loads(b, p, LoadOnly, records, id);
    var c := Put(b, p, LoadOnly, HasLoaded(last), |records|).(snapshot := HealedSnapshot(records, s.snapshot, id));
    Both(s, b, c, p, id);
    t := At(c, p, Done(Returned(last)));
    assert UseLoaded(c, t, p);
    Then(s, c, t, p, id);
    HealedIsSettled(s, t, p, id);
  }

  // ---------------------------------------------------------------- what a call throws

  /** Every error a call may be told, and of whom it is true. */
  predicate TrueOf(error: Error, op: Op) {
    match error
    case AcrossCycles => op.Save? && op.previous.cycleId != op.next.cycleId
    case NotOneTransition => op.Save? && op.previous.cycleId == op.next.cycleId && |op.next.history| != |op.previous.history| + 1
    case StaleCycle => op.Save?
    case AlreadyExists => op.Create?
    case LockTimeout => !op.LoadOnly?
    case CannotReadJournal => !op.Create?
    case NoValidRecords => !op.Create?
    case _ => false
  }

  predicate Told(proc: Proc) {
    match proc.pc
    case Reading => !proc.op.Create?
    case Finishing(Threw(error)) => TrueOf(error, proc.op)
    case Done(Threw(error)) => TrueOf(error, proc.op)
    case _ => true
  }

  /** Among all runs, with whatever other calls and kills, a call is told no error but these, and each only where it is true. */
  lemma ErrorsAreTrue(s: Sys, p: Pid, id: string)
    requires Reachable(s, id) && p in s.procs
    ensures Told(s.procs[p])
  {
    var states :| RunFrom(states, id) && states[|states| - 1] == s;
    RunTells(states, |states| - 1, p, id);
  }

  lemma {:induction false} RunTells(states: seq<Sys>, n: nat, p: Pid, id: string)
    requires RunFrom(states, id) && n < |states| && p in states[n].procs
    ensures Told(states[n].procs[p])
  {
    if n > 0 {
      var s, t := states[n - 1], states[n];
      assert Next(s, t, id);
      assert RunFrom(states[..n], id);
      EveryRunKeepsInv(states[..n], id);
      if p in s.procs { RunTells(states, n - 1, p, id); }
      if q :| Effect(s, t, q, id) { EffectTells(s, t, q, p, id); }
    }
  }

  lemma EffectTells(s: Sys, t: Sys, q: Pid, p: Pid, id: string)
    requires Inv(s, id) && Effect(s, t, q, id) && p in t.procs && (p in s.procs ==> Told(s.procs[p]))
    ensures Told(t.procs[p])
  {
    EffectMovesOne(s, t, q, id);
    if p == q {
      if ReadStep(s, t, p, id) { ReadTells(s, t, p, id); }
      else if UseLoaded(s, t, p) || AfterSnapshot(s, t, p) || Release(s, t, p) { EndTells(s, t, p); }
      else { BeginningTells(s, t, p, id); }
    }
  }

  lemma ReadTells(s: Sys, t: Sys, p: Pid, id: string)
    requires Inv(s, id) && ReadStep(s, t, p, id) && Told(s.procs[p])
    ensures Told(t.procs[p])
  {
    assert s.journal.Some? ==> ReadRecords(s.journal.value).Ok?;
    assert Records(s) != [] ==> Placed(Records(s)[|Records(s)| - 1], |Records(s)| - 1, id);
  }

  lemma EndTells(s: Sys, t: Sys, p: Pid)
    requires p in s.procs && Told(s.procs[p]) && (UseLoaded(s, t, p) || AfterSnapshot(s, t, p) || Release(s, t, p))
    ensures Told(t.procs[p])
  {
  }

  lemma BeginningTells(s: Sys, t: Sys, p: Pid, id: string)
    requires Effect(s, t, p, id) && Told(s.procs[p])
    requires !ReadStep(s, t, p, id) && !UseLoaded(s, t, p) && !AfterSnapshot(s, t, p) && !Release(s, t, p)
    ensures Told(t.procs[p])
  {
    if RefuseArguments(s, t, p, id) || LockTimesOut(s, t, p, id) || CreateChecks(s, t, p) || BeginLoad(s, t, p) {
    } else {
      assert !t.procs[p].pc.Finishing? && !t.procs[p].pc.Done? && !t.procs[p].pc.Reading?;
    }
  }
}
