/**
 * The on-disk formats of one cycle: the append-only journal, the state.json snapshot, and the
 * decision `load` takes from them. SHA-256 of a cycle is modelled as an injective constructor.
 */
module Journal {
  import opened Prelude
  import L = Lifecycle

  type Cycle = L.Cycle

  datatype Checksum = Sha(cycle: Cycle) | ForeignText(text: string)

  /** The previousChecksum property of a parsed record. */
  datatype PreviousField = Absent | IsNull | Is(checksum: Checksum)

  /** A parsed JSON value, as far as migrateJournalRecord looks at it. */
  datatype Parsed =
    | NotAnObject
    | Fields(version: int, sequence: int, metadataValid: bool, previous: PreviousField,
             checksum: Checksum, cycle: Option<Cycle>)

  /** A migrated (schema version 2) record. */
  datatype Record = Record(sequence: nat, previous: Option<Checksum>, checksum: Checksum, cycle: Cycle)

  /** One line of text: only white space, text that parses, or text that does not. */
  datatype Line = Blank | Json(value: Parsed) | Garbage

  /** The lines ended by a newline, and the text after the last newline. */
  datatype File = File(lines: seq<Line>, tail: Line)

  datatype Error =
    | NotARecord | UnsupportedVersion | SequenceMismatch | InvalidMetadata | InvalidCycle
    | ChecksumMismatch | ChainMismatch | CannotReadJournal | InvalidJson | NoValidRecords
    | CycleIdMismatch | AlreadyExists | StaleCycle | AcrossCycles | NotOneTransition | LockTimeout

  predicate AssertCycle(c: Cycle) {
    |c.cycleId| >= 3 && |c.objective| >= 8
  }

  predicate SamePrevious(field: PreviousField, expected: Option<Checksum>) {
    match field
    case Absent => false
    case IsNull => expected.None?
    case Is(c) => expected == Some(c)
  }

  function Migrate(value: Parsed, sequence: nat, previous: Option<Checksum>): (r: Result<Record, Error>)
    ensures r.Ok? ==> r.value.checksum == Sha(r.value.cycle)
  {
    match value
    case NotAnObject => Err(NotARecord)
    case Fields(version, seqNo, metadataValid, previousField, checksum, cycle) =>
      if version != 1 && version != 2 then Err(UnsupportedVersion)
      else if seqNo != sequence then Err(SequenceMismatch)
      else if !metadataValid then Err(InvalidMetadata)
      else if cycle.None? || !AssertCycle(cycle.value) then Err(InvalidCycle)
      else if checksum != Sha(cycle.value) then Err(ChecksumMismatch)
      else if version == 2 && !SamePrevious(previousField, previous) then Err(ChainMismatch)
      else Ok(Record(sequence, previous, checksum, cycle.value))
  }

  function MakeRecord(cycle: Cycle, sequence: nat, previous: Option<Checksum>): Record {
    Record(sequence, previous, Sha(cycle), cycle)
  }

  /** JSON.stringify of a record, parsed again. */
  function Encode(r: Record): Parsed {
    Fields(2, r.sequence, true, if r.previous.Some? then Is(r.previous.value) else IsNull, r.checksum, Some(r.cycle))
  }

  function LastChecksum(records: seq<Record>): Option<Checksum> {
    if records == [] then None else Some(records[|records| - 1].checksum)
  }

  /** One line added to the records collected so far; None stands for a skipped line. */
  function Take(records: seq<Record>, line: Line): Result<seq<Record>, Error> {
    match line
    case Blank => Ok(records)
    case Garbage => Err(InvalidJson)
    case Json(value) =>
      match Migrate(value, |records|, LastChecksum(records))
      case Err(e) => Err(e)
      case Ok(r) => Ok(records + [r])
  }

  /** The records of the first `n` lines. */
  function ReadUpTo(lines: seq<Line>, n: nat): Result<seq<Record>, Error>
    requires n <= |lines|
  {
    if n == 0 then Ok([])
    else
      match ReadUpTo(lines, n - 1)
      case Err(e) => Err(e)
      case Ok(records) => Take(records, lines[n - 1])
  }

  function ReadLines(lines: seq<Line>): Result<seq<Record>, Error> {
    ReadUpTo(lines, |lines|)
  }

  /** The records of a file: a trailing partial line is dropped, any other bad line is fatal. */
  function ReadRecords(file: File): Result<seq<Record>, Error> {
    match ReadLines(file.lines)
    case Err(e) => Err(e)
    case Ok(records) => if file.tail.Garbage? then Ok(records) else Take(records, file.tail)
  }

  function ReadJournal(journal: Option<File>): Result<seq<Record>, Error> {
    match journal
    case None => Err(CannotReadJournal)
    case Some(file) =>
      match ReadRecords(file)
      case Err(e) => Err(e)
      case Ok(records) => if records == [] then Err(NoValidRecords) else Ok(records)
  }

  /** The records any reader sees; none where there is no journal. */
  function RecordsOf(journal: Option<File>): seq<Record> {
    if journal.None? then []
    else match ReadRecords(journal.value) case Err(_) => [] case Ok(records) => records
  }

  /** readJournal as it executes: one pass over the raw lines, the text after the last newline included. */
  method ReadJournalLoop(journal: Option<File>) returns (result: Result<seq<Record>, Error>)
    ensures result == ReadJournal(journal)
  {
    if journal.None? { return Err(CannotReadJournal); }
    var lines := journal.value.lines;
    var raw := lines + [journal.value.tail];
    var records: seq<Record> := [];
    var index := 0;
    while index < |raw|
      invariant 0 <= index <= |raw|
      invariant index <= |lines| ==> ReadUpTo(lines, index) == Ok(records)
      invariant index == |raw| ==> ReadRecords(journal.value) == Ok(records)
    {
      if raw[index].Garbage? && index == |raw| - 1 {
        break;
      }
      var taken := Take(records, raw[index]);
      if taken.Err? {
        if index < |lines| { ErrorPersists(lines, index + 1); }
        return Err(taken.error);
      }
      records := taken.value;
      index := index + 1;
    }
    result := if records == [] then Err(NoValidRecords) else Ok(records);
  }

  lemma {:induction false} ErrorPersists(lines: seq<Line>, n: nat)
    requires n <= |lines| && ReadUpTo(lines, n).Err?
    ensures ReadLines(lines) == ReadUpTo(lines, n)
    decreases |lines| - n
  {
    if n < |lines| { ErrorPersists(lines, n + 1); }
  }

  lemma {:induction false} ReadSamePrefix(lines: seq<Line>, more: seq<Line>, n: nat)
    requires n <= |lines|
    ensures ReadUpTo(lines + more, n) == ReadUpTo(lines, n)
  {
    if n > 0 { ReadSamePrefix(lines, more, n - 1); }
  }

  // ---------------------------------------------------------------- what a readable journal is

  /** Sequence number, position and history length agree, and the checksum chain is intact. */
  ghost predicate Chained(records: seq<Record>, id: string) {
    && (forall i :: 0 <= i < |records| ==> Placed(records[i], i, id))
    && (records != [] ==> records[0].previous == None)
    && (forall i, j :: 0 <= i && j == i + 1 && j < |records| ==> records[j].previous == Some(records[i].checksum))
  }

  predicate Placed(r: Record, i: int, id: string) {
    && r.sequence == i && |r.cycle.history| == i && r.cycle.cycleId == id
    && AssertCycle(r.cycle) && r.checksum == Sha(r.cycle)
  }

  lemma ChainGrows(records: seq<Record>, id: string, next: Cycle)
    requires Chained(records, id) && next.cycleId == id && AssertCycle(next) && |next.history| == |records|
    ensures Chained(records + [MakeRecord(next, |records|, LastChecksum(records))], id)
  {
  }

  lemma PreviousIsLinked(records: seq<Record>, id: string)
    requires records != [] && Chained(records, id)
    ensures records[|records| - 1].previous == PreviousOfLatest(records)
  {
    if |records| > 1 { assert records[|records| - 1].previous == Some(records[|records| - 2].checksum); }
  }

  /** Writing the record the reader expects next extends what it reads by exactly that record. */
  lemma TakeEncoded(records: seq<Record>, next: Cycle)
    requires AssertCycle(next)
    ensures var r := MakeRecord(next, |records|, LastChecksum(records));
            Take(records, Json(Encode(r))) == Ok(records + [r])
  {
  }

  // ---------------------------------------------------------------- appending

  /** The text of `tail` with more text behind it: no two JSON texts concatenate to one. */
  function Glue(tail: Line, more: Line): Line {
    if tail.Blank? then more else Garbage
  }

  /** Part of the record's line has reached the file. */
  function AppendTorn(file: File): File {
    file.(tail := Glue(file.tail, Garbage))
  }

  /** All of the record's text, but not yet the newline. */
  function AppendText(file: File, r: Record): File {
    file.(tail := Glue(file.tail, Json(Encode(r))))
  }

  /** The whole line. */
  function AppendLine(file: File, r: Record): File {
    File(file.lines + [Glue(file.tail, Json(Encode(r)))], Blank)
  }

  lemma ReadAppendedLine(file: File, r: Record)
    ensures ReadLines(AppendLine(file, r).lines)
            == match ReadLines(file.lines)
               case Err(e) => Err(e)
               case Ok(records) => Take(records, Glue(file.tail, Json(Encode(r))))
  {
    ReadSamePrefix(file.lines, [Glue(file.tail, Json(Encode(r)))], |file.lines|);
  }

  /** A readable journal whose text ends in a newline, after each stage of one append. */
  lemma AppendStages(file: File, next: Cycle)
    requires file.tail == Blank && ReadRecords(file).Ok? && AssertCycle(next)
    ensures var records := ReadRecords(file).value;
            var r := MakeRecord(next, |records|, LastChecksum(records));
            && ReadRecords(AppendTorn(file)) == Ok(records)
            && ReadRecords(AppendText(file, r)) == Ok(records + [r])
            && ReadRecords(AppendLine(file, r)) == Ok(records + [r])
  {
    var records := ReadRecords(file).value;
    var r := MakeRecord(next, |records|, LastChecksum(records));
    ReadAppendedLine(file, r);
    TakeEncoded(records, next);
  }

  /**
   * An append keeps a readable journal readable exactly when the text before it ended in a
   * newline, the record carries the next sequence number and the last checksum, and its cycle
   * passes assertCycle (which save itself never asks). Whatever a crash inside an earlier write
   * left after the last newline, even a complete record, is glued to the new line.
   */
  lemma AppendKeepsReadable(file: File, r: Record)
    requires ReadRecords(file).Ok? && r.checksum == Sha(r.cycle)
    ensures var records := ReadRecords(file).value;
            ReadJournal(Some(AppendLine(file, r))).Ok? <==>
              file.tail == Blank && AssertCycle(r.cycle)
              && r.sequence == |records| && r.previous == LastChecksum(records)
  {
    var records := ReadRecords(file).value;
    ReadAppendedLine(file, r);
    if file.tail == Blank && AssertCycle(r.cycle) && r.sequence == |records| && r.previous == LastChecksum(records) {
      assert r == MakeRecord(r.cycle, |records|, LastChecksum(records));
      AppendStages(file, r.cycle);
    }
  }

  // ---------------------------------------------------------------- load

  /** state.json: absent, not JSON, or a JSON document. */
  datatype Snapshot = Missing | NotJson | Document(value: Parsed)

  /** The cycle `load` returns and the record it writes to state.json on the way, if any. */
  datatype Loaded = Loaded(cycle: Cycle, heal: Option<Record>)

  function PreviousOfLatest(records: seq<Record>): Option<Checksum>
    requires records != []
  {
    if |records| == 1 then None else Some(records[|records| - 2].checksum)
  }

  function Decide(records: seq<Record>, snapshot: Snapshot, id: string): Loaded
    requires records != []
  {
    var latest := records[|records| - 1];
    match snapshot
    case Missing => Loaded(latest.cycle, Some(latest))
    case NotJson => Loaded(latest.cycle, Some(latest))
    case Document(value) =>
      match Migrate(value, latest.sequence, PreviousOfLatest(records))
      case Err(_) => Loaded(latest.cycle, Some(latest))
      case Ok(envelope) =>
        if envelope.cycle.cycleId != id || envelope.checksum != latest.checksum then Loaded(latest.cycle, Some(latest))
        else if value.version == 1 then Loaded(envelope.cycle, Some(envelope))
        else Loaded(envelope.cycle, None)
  }

  function Load(journal: Option<File>, snapshot: Snapshot, id: string): Result<Loaded, Error> {
    match ReadJournal(journal)
    case Err(e) => Err(e)
    case Ok(records) =>
      if records[|records| - 1].cycle.cycleId != id then Err(CycleIdMismatch)
      else Ok(Decide(records, snapshot, id))
  }

  /** Whatever state.json holds, `load` answers with the last journal record, and heals with it. */
  lemma LoadIgnoresSnapshot(records: seq<Record>, snapshot: Snapshot, id: string)
    requires records != [] && Chained(records, id)
    ensures var last := records[|records| - 1];
            && Decide(records, snapshot, id).cycle == last.cycle
            && (Decide(records, snapshot, id).heal.Some? ==> Decide(records, snapshot, id).heal.value == last)
  {
    PreviousIsLinked(records, id);
  }

  /** The snapshot a load leaves behind is accepted by the next load without another write. */
  lemma HealingSettles(records: seq<Record>, snapshot: Snapshot, id: string)
    requires records != [] && Chained(records, id)
    ensures var d := Decide(records, snapshot, id);
            var settled := if d.heal.Some? then Document(Encode(d.heal.value)) else snapshot;
            Decide(records, settled, id) == Loaded(records[|records| - 1].cycle, None)
  {
    LoadIgnoresSnapshot(records, snapshot, id);
    PreviousIsLinked(records, id);
  }

  /** A snapshot of the latest record leaves the next load nothing to write. */
  lemma LatestSettles(records: seq<Record>, id: string)
    requires records != [] && Chained(records, id)
    ensures Decide(records, Document(Encode(records[|records| - 1])), id).heal.None?
  {
    HealingSettles(records, Missing, id);
  }

  /** Whole lines only, all of them readable, chained, and this cycle's own. */
  ghost predicate Sound(journal: Option<File>, id: string) {
    && (journal.Some? ==> journal.value.tail == Blank && ReadRecords(journal.value).Ok?)
    && Chained(RecordsOf(journal), id)
  }

  /** Opening for append creates the file where there is none. */
  function Opened(journal: Option<File>): File {
    if journal.Some? then journal.value else File([], Blank)
  }

  /** A sound journal after each stage of committing the next cycle, and the snapshot that ends it. */
  lemma CommitStages(journal: Option<File>, cycle: Cycle, id: string)
    requires Sound(journal, id)
    requires AssertCycle(cycle) && cycle.cycleId == id && |cycle.history| == |RecordsOf(journal)|
    ensures var records := RecordsOf(journal);
            var record := MakeRecord(cycle, |records|, LastChecksum(records));
            var appended := Some(AppendLine(Opened(journal), record));
            && Sound(Some(Opened(journal)), id) && RecordsOf(Some(Opened(journal))) == records
            && Sound(appended, id) && RecordsOf(appended) == records + [record]
            && Decide(records + [record], Document(Encode(record)), id).heal.None?
  {
    var records := RecordsOf(journal);
    var record := MakeRecord(cycle, |records|, LastChecksum(records));
    AppendStages(Opened(journal), cycle);
    ChainGrows(records, id, cycle);
    LatestSettles(records + [record], id);
  }

  // ---------------------------------------------------------------- records on their fields

  /** Every answer on one parsed record; of several faults, the first in this order is named. */
  lemma RecordReads(value: Parsed, sequence: nat, previous: Option<Checksum>)
    ensures var r := Migrate(value, sequence, previous);
            var numbered := value.Fields? && (value.version == 1 || value.version == 2) && value.sequence == sequence;
            var described := numbered && value.metadataValid;
            var whole := described && value.cycle.Some? && |value.cycle.value.cycleId| > 2 && |value.cycle.value.objective| > 7;
            var summed := whole && value.checksum == Sha(value.cycle.value);
            var linked := match value
                          case NotAnObject => false
                          case Fields(_, _, _, Absent, _, _) => false
                          case Fields(_, _, _, IsNull, _, _) => previous == None
                          case Fields(_, _, _, Is(c), _, _) => previous == Some(c);
            && (r == Err(NotARecord) <==> value == NotAnObject)
            && (r == Err(UnsupportedVersion) <==> value.Fields? && value.version != 1 && value.version != 2)
            && (r == Err(SequenceMismatch) <==> value.Fields? && (value.version == 1 || value.version == 2) && !numbered)
            && (r == Err(InvalidMetadata) <==> numbered && !described)
            && (r == Err(InvalidCycle) <==> described && !whole)
            && (r == Err(ChecksumMismatch) <==> whole && !summed)
            && (r == Err(ChainMismatch) <==> summed && value.version == 2 && !linked)
            && (r.Ok? <==> summed && (value.version == 1 || linked))
            && (r.Ok? ==> r.value == Record(sequence, previous, Sha(value.cycle.value), value.cycle.value))
  {
  }

  /** A record written by the first version of the format: no link to the one before. */
  function EncodeV1(r: Record): Parsed {
    Fields(1, r.sequence, true, Absent, r.checksum, Some(r.cycle))
  }

  function LegacyLines(records: seq<Record>): (lines: seq<Line>)
    ensures |lines| == |records| && forall i :: 0 <= i < |records| ==> lines[i] == Json(EncodeV1(records[i]))
  {
    seq(|records|, i requires 0 <= i < |records| => Json(EncodeV1(records[i])))
  }

  /** A journal of the first version is read as the chain it would be in the second. */
  lemma {:induction false} LegacyJournalReads(records: seq<Record>, id: string, n: nat)
    requires Chained(records, id) && n <= |records|
    ensures ReadUpTo(LegacyLines(records), n) == Ok(records[..n])
  {
    if n > 0 {
      LegacyJournalReads(records, id, n - 1);
      var r := records[n - 1];
      assert Placed(r, n - 1, id);
      assert n > 1 ==> r.previous == Some(records[n - 2].checksum);
      assert LastChecksum(records[..n - 1]) == r.previous;
      assert records[..n] == records[..n - 1] + [r];
    }
  }

  /** A snapshot of the first version that agrees with the journal is rewritten in the second. */
  lemma LegacySnapshotIsUpgraded(records: seq<Record>, id: string)
    requires records != [] && Chained(records, id)
    ensures var last := records[|records| - 1];
            Decide(records, Document(EncodeV1(last)), id) == Loaded(last.cycle, Some(last))
  {
    PreviousIsLinked(records, id);
    assert Placed(records[|records| - 1], |records| - 1, id);
  }

  /** What load answers, on the journal alone. */
  lemma LoadAnswers(journal: Option<File>, snapshot: Snapshot, id: string)
    ensures var read, r := ReadJournal(journal), Load(journal, snapshot, id);
            && (journal == None ==> r == Err(CannotReadJournal))
            && (journal.Some? && ReadRecords(journal.value) == Ok([]) ==> r == Err(NoValidRecords))
            && (journal.Some? && ReadRecords(journal.value).Err? ==> r == Err(ReadRecords(journal.value).error))
            && (read.Ok? ==> read.value != [] && (r == Err(CycleIdMismatch) <==> read.value[|read.value| - 1].cycle.cycleId != id))
            && (read.Ok? ==> r.Ok? || r == Err(CycleIdMismatch))
  {
  }

  /** A line that is no JSON is fatal, except behind the last newline. */
  lemma GarbageIsFatalInside(file: File, more: seq<Line>)
    requires ReadRecords(file).Ok? && file.tail == Blank
    ensures ReadRecords(file.(tail := Garbage)) == ReadRecords(file)
    ensures ReadRecords(File(file.lines + [Garbage] + more, Blank)) == Err(InvalidJson)
  {
    var lines := file.lines + [Garbage];
    ReadSamePrefix(file.lines, [Garbage] + more, |file.lines|);
    assert file.lines + [Garbage] + more == file.lines + ([Garbage] + more);
    assert (lines + more)[|file.lines|] == Garbage;
    assert ReadUpTo(lines + more, |file.lines| + 1) == Err(InvalidJson);
    ErrorPersists(lines + more, |file.lines| + 1);
  }
}
