/**
 * The delivery progress journal: one file per event in a directory, read in file-name order and
 * chained by digests.
 */
module Progress {
  import opened Prelude
  import Json

  /** SHA-256 of a payload's text, taken as injective; any other text may stand in a digest field too. */
  datatype Digest = Sha(payload: Payload) | OtherText(text: string)

  datatype Payload = Payload(
    sequence: int, previousDigest: Option<Digest>, cycleId: string, eventId: string, operationId: string, body: string)

  datatype Event = Event(payload: Payload, integrityDigest: Digest)

  /** `shaped`: every field has a supported value. */
  datatype Content = Unparsable | Parsed(event: Event, shaped: bool)

  type Directory = map<string, Content>

  datatype Error = BadFileName | BadEvent | SequenceGap | CycleMismatch | ChainMismatch

  // ---------------------------------------------------------------- file names

  predicate Digit(c: char) {
    '0' <= c <= '9'
  }

  predicate PortableChar(c: char) {
    Digit(c) || 'A' <= c <= 'Z' || 'a' <= c <= 'z' || c == '.' || c == '_' || c == '-'
  }

  predicate EndsInJson(name: string) {
    var n := |name|;
    n >= 5 && name[n - 5] == '.' && name[n - 4] == 'j' && name[n - 3] == 's' && name[n - 2] == 'o' && name[n - 1] == 'n'
  }

  /** Eight digits, a hyphen, a portable name, `.json`. */
  predicate GoodName(name: string) {
    && |name| >= 15 && EndsInJson(name) && name[8] == '-'
    && (forall i :: 0 <= i < 8 ==> Digit(name[i]))
    && (forall i :: 9 <= i < |name| - 5 ==> PortableChar(name[i]))
  }

  /** The order `sort()` gives strings, from position i on. */
  predicate LessFrom(a: string, b: string, i: nat)
    requires i <= |a| && i <= |b|
    decreases |a| - i
  {
    if i == |b| then false
    else if i == |a| then true
    else if a[i] != b[i] then a[i] < b[i]
    else LessFrom(a, b, i + 1)
  }

  predicate Less(a: string, b: string) {
    LessFrom(a, b, 0)
  }

  /** The order by the first difference. */
  lemma {:induction false} FirstDifference(a: string, b: string, i: nat, k: nat)
    requires i <= k < |a| && k < |b| && a[k] != b[k] && forall j :: i <= j < k ==> a[j] == b[j]
    ensures LessFrom(a, b, i) <==> a[k] < b[k]
    decreases k - i
  {
    if i < k { FirstDifference(a, b, i + 1, k); }
  }

  lemma {:induction false} LessIsStrict(a: string, b: string, i: nat)
    requires i <= |a| && i <= |b|
    ensures !(LessFrom(a, b, i) && LessFrom(b, a, i))
    decreases |a| - i
  {
    if i < |a| && i < |b| && a[i] == b[i] { LessIsStrict(a, b, i + 1); }
  }

  lemma {:induction false} LessIsTransitive(a: string, b: string, c: string, i: nat)
    requires i <= |a| && i <= |b| && i <= |c| && LessFrom(a, b, i) && LessFrom(b, c, i)
    ensures LessFrom(a, c, i)
    decreases |a| - i
  {
    if i < |a| && i < |b| && i < |c| && a[i] == b[i] && b[i] == c[i] { LessIsTransitive(a, b, c, i + 1); }
  }

  lemma {:induction false} LessIsTotal(a: string, b: string, i: nat)
    requires i <= |a| && i <= |b| && a[..i] == b[..i]
    ensures a == b || LessFrom(a, b, i) || LessFrom(b, a, i)
    decreases |a| - i
  {
    if i == |a| && i == |b| {
      assert a == a[..i] && b == b[..i];
    } else if i < |a| && i < |b| && a[i] == b[i] {
      assert a[..i + 1] == a[..i] + [a[i]] && b[..i + 1] == b[..i] + [b[i]];
      LessIsTotal(a, b, i + 1);
    }
  }

  // ---------------------------------------------------------------- reading

  /** What readdir, the filter on `.json` and the sort give. */
  ghost predicate Lists(names: seq<string>, files: Directory) {
    && (forall x :: x in names <==> x in files && EndsInJson(x))
    && (forall i, j :: 0 <= i < j < |names| ==> Less(names[i], names[j]))
  }

  function Expected(events: seq<Event>): Option<Digest> {
    if events == [] then None else Some(events[|events| - 1].integrityDigest)
  }

  /** The checks on one file, given the events read before it. */
  function ReadOne(files: Directory, name: string, cycleId: string, before: seq<Event>): Result<Event, Error>
    requires name in files
  {
    if !GoodName(name) then Err(BadFileName)
    else
      match files[name]
      case Unparsable => Err(BadEvent)
      case Parsed(event, shaped) =>
        if !shaped || event.integrityDigest != Sha(event.payload) then Err(BadEvent)
        else if event.payload.sequence != |before| + 1 then Err(SequenceGap)
        else if event.payload.cycleId != cycleId then Err(CycleMismatch)
        else if event.payload.previousDigest != Expected(before) then Err(ChainMismatch)
        else Ok(event)
  }

  /** The first n files read in order. */
  function ReadTo(files: Directory, names: seq<string>, n: nat, cycleId: string): Result<seq<Event>, Error>
    requires n <= |names| && forall x :: x in names ==> x in files
  {
    if n == 0 then Ok([])
    else
      var before := ReadTo(files, names, n - 1, cycleId);
      if before.Err? then before
      else
        var event := ReadOne(files, names[n - 1], cycleId, before.value);
        if event.Err? then Err(event.error) else Ok(before.value + [event.value])
  }

  function ReadAll(files: Directory, names: seq<string>, cycleId: string): Result<seq<Event>, Error>
    requires forall x :: x in names ==> x in files
  {
    ReadTo(files, names, |names|, cycleId)
  }

  lemma {:induction false} ErrorsStay(files: Directory, names: seq<string>, m: nat, n: nat, cycleId: string)
    requires m <= n <= |names| && (forall x :: x in names ==> x in files) && ReadTo(files, names, m, cycleId).Err?
    ensures ReadTo(files, names, n, cycleId) == ReadTo(files, names, m, cycleId)
  {
    if m < n { ErrorsStay(files, names, m, n - 1, cycleId); }
  }

  /** A journal as it can be read: numbered from one, of the cycle, each event sealed and chained to the one before. */
  ghost predicate Chained(events: seq<Event>, cycleId: string) {
    && (forall i :: 0 <= i < |events| ==>
          && events[i].payload.sequence == i + 1 && events[i].payload.cycleId == cycleId
          && events[i].integrityDigest == Sha(events[i].payload))
    && (events != [] ==> events[0].payload.previousDigest == None)
    && (forall i, j :: 0 <= i && j == i + 1 && j < |events| ==>
          events[j].payload.previousDigest == Some(events[i].integrityDigest))
  }

  /** The events in the listed files. */
  ghost predicate Stored(files: Directory, names: seq<string>, events: seq<Event>) {
    |names| == |events| && forall i :: 0 <= i < |names| ==>
      GoodName(names[i]) && names[i] in files && files[names[i]] == Parsed(events[i], true)
  }

  lemma {:induction false} ReadGivesChained(files: Directory, names: seq<string>, n: nat, cycleId: string)
    requires n <= |names| && (forall x :: x in names ==> x in files) && ReadTo(files, names, n, cycleId).Ok?
    ensures var events := ReadTo(files, names, n, cycleId).value;
            Stored(files, names[..n], events) && Chained(events, cycleId)
  {
    if n > 0 {
      ReadGivesChained(files, names, n - 1, cycleId);
      var event := ReadOne(files, names[n - 1], cycleId, ReadTo(files, names, n - 1, cycleId).value);
      assert event.Ok? && ReadTo(files, names, n, cycleId).value == ReadTo(files, names, n - 1, cycleId).value + [event.value];
    }
  }

  lemma {:induction false} ChainedCanBeRead(files: Directory, names: seq<string>, events: seq<Event>, n: nat, cycleId: string)
    requires Stored(files, names, events) && Chained(events, cycleId) && n <= |names| && forall x :: x in names ==> x in files
    ensures ReadTo(files, names, n, cycleId) == Ok(events[..n])
  {
    if n > 0 {
      ChainedCanBeRead(files, names, events, n - 1, cycleId);
      assert Expected(events[..n - 1]) == events[n - 1].payload.previousDigest;
      assert files[names[n - 1]] == Parsed(events[n - 1], true);
      assert events[..n] == events[..n - 1] + [events[n - 1]];
    }
  }

  /** readAllEvents reads a directory exactly when it stores a chained journal, and then it reads that journal. */
  lemma ReadsExactlyChained(files: Directory, names: seq<string>, events: seq<Event>, cycleId: string)
    requires forall x :: x in names ==> x in files
    ensures ReadAll(files, names, cycleId) == Ok(events) <==> Stored(files, names, events) && Chained(events, cycleId)
  {
    assert names[..|names|] == names && events[..|events|] == events;
    if ReadAll(files, names, cycleId).Ok? { ReadGivesChained(files, names, |names|, cycleId); }
    if Stored(files, names, events) && Chained(events, cycleId) {
      ChainedCanBeRead(files, names, events, |names|, cycleId);
    }
  }

  lemma {:induction false} SameBelow(a: seq<Event>, b: seq<Event>, cycleId: string, cycleId': string, k: nat, m: nat)
    requires Chained(a, cycleId) && Chained(b, cycleId') && k <= m < |a| && m < |b| && a[m] == b[m]
    ensures a[k] == b[k]
    decreases m - k
  {
    if k < m {
      SameBelow(a, b, cycleId, cycleId', k + 1, m);
      assert a[k + 1].payload.previousDigest == Some(a[k].integrityDigest);
      assert b[k + 1].payload.previousDigest == Some(b[k].integrityDigest);
    }
  }

  /** Two journals that end in the same digest are the same journal: the last digest fixes every event. */
  lemma SameLastDigestSameJournal(a: seq<Event>, b: seq<Event>, cycleId: string, cycleId': string)
    requires Chained(a, cycleId) && Chained(b, cycleId') && a != [] && b != []
    requires a[|a| - 1].integrityDigest == b[|b| - 1].integrityDigest
    ensures a == b
  {
    var n := |a| - 1;
    assert a[n].payload == b[|b| - 1].payload;
    assert |a| == |b|;
    forall k | 0 <= k < |a| ensures a[k] == b[k] { SameBelow(a, b, cycleId, cycleId', k, n); }
  }

  /** The loop of readAllEvents, with its running digest. */
  method ReadAllEvents(files: Directory, names: seq<string>, cycleId: string) returns (r: Result<seq<Event>, Error>)
    requires forall x :: x in names ==> x in files
    ensures r == ReadAll(files, names, cycleId)
  {
    var events: seq<Event> := [];
    var previousDigest: Option<Digest> := None;
    for i := 0 to |names|
      invariant ReadTo(files, names, i, cycleId) == Ok(events)
      invariant |events| == i && previousDigest == Expected(events)
    {
      var read := CheckFile(files, names[i], cycleId, events, previousDigest);
      if read.Err? {
        ErrorsStay(files, names, i + 1, |names|, cycleId);
        return Err(read.error);
      }
      events := events + [read.value];
      previousDigest := Some(read.value.integrityDigest);
    }
    r := Ok(events);
  }

  method CheckFile(files: Directory, name: string, cycleId: string, events: seq<Event>, previousDigest: Option<Digest>)
    returns (r: Result<Event, Error>)
    requires name in files && previousDigest == Expected(events)
    ensures r == ReadOne(files, name, cycleId, events)
  {
    if !GoodName(name) { return Err(BadFileName); }
    match files[name] {
      case Unparsable => return Err(BadEvent);
      case Parsed(event, shaped) =>
        if !shaped || event.integrityDigest != Sha(event.payload) { return Err(BadEvent); }
        if event.payload.sequence != |events| + 1 { return Err(SequenceGap); }
        if event.payload.cycleId != cycleId { return Err(CycleMismatch); }
        if event.payload.previousDigest != previousDigest { return Err(ChainMismatch); }
        r := Ok(event);
    }
  }

  // ---------------------------------------------------------------- zero-padded names

  function Pow10(w: nat): nat {
    if w == 0 then 1 else 10 * Pow10(w - 1)
  }

  function DigitChar(d: nat): (c: char)
    requires d < 10
    ensures Digit(c)
  {
    '0' + d as char
  }

  function Chars(digits: seq<Json.Digit>): (s: string)
    ensures |s| == |digits|
  {
    if digits == [] then "" else Chars(digits[..|digits| - 1]) + [DigitChar(digits[|digits| - 1])]
  }

  /** `String(n)` */
  function NumberText(n: nat): string {
    Chars(Json.Decimal(n))
  }

  lemma NumberTextEnds(n: nat)
    ensures NumberText(n) == if n < 10 then [DigitChar(n)] else NumberText(n / 10) + [DigitChar(n % 10)]
  {
    var digits := Json.Decimal(n);
    if n >= 10 { assert digits[..|digits| - 1] == Json.Decimal(n / 10); }
  }

  function ZeroPadding(k: nat): string {
    seq(k, _ => '0')
  }

  /** `String(n).padStart(8, "0")` */
  function Padded(n: nat): string {
    var d := NumberText(n);
    if |d| < 8 then ZeroPadding(8 - |d|) + d else d
  }

  /** The last w digits. */
  function Fixed(n: nat, w: nat): (s: string)
    ensures |s| == w && forall i :: 0 <= i < w ==> Digit(s[i])
  {
    if w == 0 then "" else Fixed(n / 10, w - 1) + [DigitChar(n % 10)]
  }

  lemma {:induction false} PaddingIsFixed(w: nat)
    ensures Fixed(0, w) == ZeroPadding(w)
  {
    if w > 0 { PaddingIsFixed(w - 1); }
  }

  lemma {:induction false} NumberTextFits(n: nat, w: nat)
    requires w >= 1 && n < Pow10(w)
    ensures |NumberText(n)| <= w && ZeroPadding(w - |NumberText(n)|) + NumberText(n) == Fixed(n, w)
  {
    NumberTextEnds(n);
    if n < 10 {
      PaddingIsFixed(w - 1);
    } else {
      NumberTextFits(n / 10, w - 1);
      var d := NumberText(n / 10);
      assert ZeroPadding(w - 1 - |d|) + (d + [DigitChar(n % 10)]) == ZeroPadding(w - 1 - |d|) + d + [DigitChar(n % 10)];
    }
  }

  lemma {:induction false} NumberTextIsLong(n: nat, w: nat)
    requires n >= Pow10(w)
    ensures |NumberText(n)| > w && forall i :: 0 <= i < |NumberText(n)| ==> Digit(NumberText(n)[i])
  {
    NumberTextEnds(n);
    if w > 0 {
      NumberTextIsLong(n / 10, w - 1);
    } else if n >= 10 {
      NumberTextIsLong(n / 10, 0);
    }
  }

  const SEQUENCES := 100000000

  lemma SequencesArePow10()
    ensures Pow10(8) == SEQUENCES
  {
    assert Pow10(2) == 100;
    assert Pow10(4) == 10000;
    assert Pow10(6) == 1000000;
  }

  /** Below 10^8 a padded number has eight digits; from there on it has more. */
  lemma PaddedWidth(n: nat)
    ensures n < SEQUENCES ==> Padded(n) == Fixed(n, 8)
    ensures n >= SEQUENCES ==> |Padded(n)| > 8 && forall i :: 0 <= i < |Padded(n)| ==> Digit(Padded(n)[i])
  {
    SequencesArePow10();
    if n < SEQUENCES { NumberTextFits(n, 8); } else { NumberTextIsLong(n, 8); }
  }

  /** Padded digits differ first where they order the numbers. */
  lemma {:induction false} FixedOrder(m: nat, n: nat, w: nat) returns (k: nat)
    requires m < n && n < Pow10(w)
    ensures k < w && Fixed(m, w)[k] < Fixed(n, w)[k] && forall j :: 0 <= j < k ==> Fixed(m, w)[j] == Fixed(n, w)[j]
  {
    if m / 10 == n / 10 {
      k := w - 1;
    } else {
      k := FixedOrder(m / 10, n / 10, w - 1);
    }
  }

  /** The event file's name: `${padded sequence}-${portable id}.json` */
  function FileName(sequence: nat, id: string): string {
    Padded(sequence) + "-" + id + ".json"
  }

  predicate PortableId(id: string) {
    id != "" && forall i :: 0 <= i < |id| ==> PortableChar(id[i])
  }

  /** A name is accepted by the reader exactly while its sequence has at most eight digits. */
  lemma NameIsGoodIffSequenceFits(sequence: nat, id: string)
    requires PortableId(id)
    ensures GoodName(FileName(sequence, id)) <==> sequence < SEQUENCES
  {
    PaddedWidth(sequence);
    if sequence < SEQUENCES { EightDigitsAreGood(Padded(sequence), id); } else { MoreDigitsAreNot(Padded(sequence), id); }
  }

  lemma EightDigitsAreGood(digits: string, id: string)
    requires |digits| == 8 && (forall i :: 0 <= i < 8 ==> Digit(digits[i])) && PortableId(id)
    ensures GoodName(digits + "-" + id + ".json")
  {
    var name := digits + "-" + id + ".json";
    assert forall i :: 0 <= i < 8 ==> name[i] == digits[i];
    assert forall i :: 9 <= i < |name| - 5 ==> name[i] == id[i - 9];
  }

  lemma MoreDigitsAreNot(digits: string, id: string)
    requires |digits| > 8 && forall i :: 0 <= i < |digits| ==> Digit(digits[i])
    ensures !GoodName(digits + "-" + id + ".json")
  {
    var name := digits + "-" + id + ".json";
    assert name[8] == digits[8] && Digit(digits[8]);
  }

  /** Below 10^8 the order of names is the order of sequences, whatever the ids. */
  lemma NameOrderIsSequenceOrder(m: nat, n: nat, id: string, id': string)
    requires m < SEQUENCES && n < SEQUENCES && m != n
    ensures Less(FileName(m, id), FileName(n, id')) <==> m < n
  {
    if m < n { SmallerNameFirst(m, n, id, id'); } else { SmallerNameFirst(n, m, id', id); LessIsStrict(FileName(m, id), FileName(n, id'), 0); }
  }

  lemma SmallerNameFirst(m: nat, n: nat, id: string, id': string)
    requires m < n < SEQUENCES
    ensures Less(FileName(m, id), FileName(n, id'))
  {
    PaddedWidth(m);
    PaddedWidth(n);
    SequencesArePow10();
    var k := FixedOrder(m, n, 8);
    var a, b := FileName(m, id), FileName(n, id');
    assert a == Fixed(m, 8) + ("-" + id + ".json") && b == Fixed(n, 8) + ("-" + id' + ".json");
    assert forall j :: 0 <= j <= k ==> a[j] == Fixed(m, 8)[j] && b[j] == Fixed(n, 8)[j];
    FirstDifference(a, b, 0, k);
  }

  // ---------------------------------------------------------------- listings

  ghost predicate Rises(names: seq<string>) {
    forall i, j :: 0 <= i < j < |names| ==> Less(names[i], names[j])
  }

  function First(names: seq<string>): string {
    if names == [] then "" else names[0]
  }

  lemma {:induction false} RisingUnique(a: seq<string>, b: seq<string>)
    requires Rises(a) && Rises(b) && (forall i :: 0 <= i < |a| ==> a[i] in b) && (forall i :: 0 <= i < |b| ==> b[i] in a)
    ensures a == b
    decreases |a|
  {
    if a == [] {
      assert b != [] ==> First(b) in a;
    } else {
      assert b != [] && First(b) in a;
      SameHead(a, b);
      TailIn(a, b);
      TailIn(b, a);
      RisingUnique(a[1..], b[1..]);
      assert a == [a[0]] + a[1..] && b == [b[0]] + b[1..];
    }
  }

  lemma SameHead(a: seq<string>, b: seq<string>)
    requires Rises(a) && Rises(b) && a != [] && b != [] && a[0] in b && b[0] in a
    ensures a[0] == b[0]
  {
    LessIsStrict(a[0], b[0], 0);
  }

  lemma TailIn(a: seq<string>, b: seq<string>)
    requires Rises(a) && a != [] && b != [] && a[0] == b[0] && forall i :: 0 <= i < |a| ==> a[i] in b
    ensures Rises(a[1..]) && forall i :: 0 <= i < |a[1..]| ==> a[1..][i] in b[1..]
  {
    forall i | 0 <= i < |a[1..]| ensures a[1..][i] in b[1..] {
      var x := a[i + 1];
      assert Less(a[0], x);
      LessIsStrict(a[0], x, 0);
      var k :| 0 <= k < |b| && b[k] == x;
      assert k > 0;
      assert b[1..][k - 1] == x;
    }
  }

  /** Where a new name falls among the old ones. */
  lemma {:induction false} InsertionPoint(names: seq<string>, name: string, n: nat) returns (p: nat)
    requires Rises(names) && name !in names && n <= |names|
    ensures p <= n && (forall i :: 0 <= i < p ==> Less(names[i], name)) && (forall i :: p <= i < n ==> Less(name, names[i]))
  {
    if n == 0 {
      p := 0;
    } else {
      LessIsTotal(names[n - 1], name, 0);
      if Less(names[n - 1], name) {
        p := n;
        forall i | 0 <= i < n - 1 ensures Less(names[i], name) { LessIsTransitive(names[i], names[n - 1], name, 0); }
      } else {
        p := InsertionPoint(names, name, n - 1);
      }
    }
  }

  lemma InsertedRises(names: seq<string>, name: string, p: nat)
    requires Rises(names) && p <= |names|
    requires (forall i :: 0 <= i < p ==> Less(names[i], name)) && (forall i :: p <= i < |names| ==> Less(name, names[i]))
    ensures Rises(names[..p] + [name] + names[p..])
  {
    var t := names[..p] + [name] + names[p..];
    forall i, j | 0 <= i < j < |t| ensures Less(t[i], t[j]) {
      var a := if i < p then i else i - 1;
      var b := if j < p then j else j - 1;
      assert i != p ==> t[i] == names[a];
      assert j != p ==> t[j] == names[b];
    }
  }

  /** The listing of a directory with one more event file. */
  lemma ListingWithOneMore(names: seq<string>, names': seq<string>, files: Directory, files': Directory, name: string) returns (p: nat)
    requires Lists(names, files) && Lists(names', files') && EndsInJson(name) && name !in files
    requires forall x :: x in files' <==> x in files || x == name
    ensures p <= |names| && names' == names[..p] + [name] + names[p..]
    ensures (forall i :: 0 <= i < p ==> Less(names[i], name)) && (forall i :: p <= i < |names| ==> Less(name, names[i]))
  {
    p := InsertionPoint(names, name, |names|);
    var t := names[..p] + [name] + names[p..];
    InsertedRises(names, name, p);
    assert names == names[..p] + names[p..];
    assert forall x :: x in t <==> x in names || x == name;
    RisingUnique(names', t);
  }

  // ---------------------------------------------------------------- appending

  function NextEvent(events: seq<Event>, cycleId: string, eventId: string, operationId: string, body: string): Event {
    var payload := Payload(|events| + 1, Expected(events), cycleId, eventId, operationId, body);
    Event(payload, Sha(payload))
  }

  lemma NextIsChained(events: seq<Event>, cycleId: string, eventId: string, operationId: string, body: string)
    requires Chained(events, cycleId)
    ensures Chained(events + [NextEvent(events, cycleId, eventId, operationId, body)], cycleId)
  {
  }

  /**
   * Appending to a journal that can be read leaves one that can be read if and only if the new name
   * is accepted and sorts behind the last one; then exactly the new event has been added.
   */
  lemma AppendKeepsReadableIff(
    files: Directory, names: seq<string>, names': seq<string>, cycleId: string, events: seq<Event>, name: string,
    eventId: string, operationId: string, body: string)
    requires Lists(names, files) && ReadAll(files, names, cycleId) == Ok(events) && EndsInJson(name) && name !in files
    requires var next := NextEvent(events, cycleId, eventId, operationId, body); Lists(names', files[name := Parsed(next, true)])
    ensures var next := NextEvent(events, cycleId, eventId, operationId, body);
            var r := ReadAll(files[name := Parsed(next, true)], names', cycleId);
            && (r.Ok? <==> GoodName(name) && (names == [] || Less(names[|names| - 1], name)))
            && (r.Ok? ==> r.value == events + [next])
  {
    var next := NextEvent(events, cycleId, eventId, operationId, body);
    var files' := files[name := Parsed(next, true)];
    ReadsExactlyChained(files, names, events, cycleId);
    var p := ListingWithOneMore(names, names', files, files', name);
    if p == |names| {
      assert names' == names + [name];
      if GoodName(name) {
        NextIsChained(events, cycleId, eventId, operationId, body);
        assert Stored(files', names', events + [next]);
        ReadsExactlyChained(files', names', events + [next], cycleId);
      } else {
        BadNameBlocks(files', names', |names|, cycleId);
      }
    } else {
      LessIsStrict(names[|names| - 1], name, 0);
      MisplacedBlocks(files', names', p, cycleId, next);
    }
  }

  lemma BadNameBlocks(files: Directory, names: seq<string>, p: nat, cycleId: string)
    requires p < |names| && (forall x :: x in names ==> x in files) && !GoodName(names[p])
    ensures ReadAll(files, names, cycleId).Err?
  {
    ErrorsStay2(files, names, p + 1, cycleId);
  }

  /** An event file out of its place blocks reading. */
  lemma MisplacedBlocks(files: Directory, names: seq<string>, p: nat, cycleId: string, event: Event)
    requires p < |names| && (forall x :: x in names ==> x in files)
    requires files[names[p]] == Parsed(event, true) && event.payload.sequence != p + 1
    ensures ReadAll(files, names, cycleId).Err?
  {
    if ReadTo(files, names, p, cycleId).Ok? {
      ReadGivesChained(files, names, p, cycleId);
      assert ReadOne(files, names[p], cycleId, ReadTo(files, names, p, cycleId).value).Err?;
    }
    ErrorsStay2(files, names, p + 1, cycleId);
  }

  lemma ErrorsStay2(files: Directory, names: seq<string>, m: nat, cycleId: string)
    requires m <= |names| && (forall x :: x in names ==> x in files) && ReadTo(files, names, m, cycleId).Err?
    ensures ReadAll(files, names, cycleId).Err?
  {
    ErrorsStay(files, names, m, |names|, cycleId);
  }

  /** The names the journal gives its own files: the i-th carries sequence i + 1. */
  ghost predicate OwnNames(names: seq<string>, ids: seq<string>) {
    |ids| == |names| && forall i :: 0 <= i < |names| ==> PortableId(ids[i]) && names[i] == FileName(i + 1, ids[i])
  }

  /** The next name of a journal's own is accepted behind the last one exactly while its sequence fits. */
  lemma OwnNameFits(names: seq<string>, ids: seq<string>, id: string, name: string)
    requires OwnNames(names, ids) && PortableId(id) && name == FileName(|names| + 1, id)
    ensures EndsInJson(name)
    ensures GoodName(name) <==> |names| + 1 < SEQUENCES
    ensures GoodName(name) ==> names == [] || Less(names[|names| - 1], name)
  {
    NameIsGoodIffSequenceFits(|names| + 1, id);
    NameEndsInJson(|names| + 1, id);
    if names != [] && |names| + 1 < SEQUENCES { NameOrderIsSequenceOrder(|names|, |names| + 1, ids[|names| - 1], id); }
  }

  /** A journal written by appends alone stays readable, and its own, exactly up to sequence 99,999,999. */
  lemma OwnJournalStaysReadable(
    files: Directory, names: seq<string>, names': seq<string>, ids: seq<string>, cycleId: string, events: seq<Event>, id: string,
    name: string, eventId: string, operationId: string, body: string)
    requires Lists(names, files) && ReadAll(files, names, cycleId) == Ok(events) && OwnNames(names, ids) && PortableId(id)
    requires name == FileName(|names| + 1, id)
    requires var next := NextEvent(events, cycleId, eventId, operationId, body); Lists(names', files[name := Parsed(next, true)])
    ensures var next := NextEvent(events, cycleId, eventId, operationId, body);
            ReadAll(files[name := Parsed(next, true)], names', cycleId) == Ok(events + [next]) <==> |events| + 1 < SEQUENCES
  {
    OwnNameFits(names, ids, id, name);
    BehindTheLastReadableIff(files, names, names', cycleId, events, name, eventId, operationId, body);
  }

  /** For a name that stands behind the last one whenever it is well formed, being well formed is enough, and new it is anyway. */
  lemma BehindTheLastReadableIff(
    files: Directory, names: seq<string>, names': seq<string>, cycleId: string, events: seq<Event>, name: string,
    eventId: string, operationId: string, body: string)
    requires Lists(names, files) && ReadAll(files, names, cycleId) == Ok(events) && EndsInJson(name)
    requires GoodName(name) ==> names == [] || Less(names[|names| - 1], name)
    requires var next := NextEvent(events, cycleId, eventId, operationId, body); Lists(names', files[name := Parsed(next, true)])
    ensures var next := NextEvent(events, cycleId, eventId, operationId, body);
            ReadAll(files[name := Parsed(next, true)], names', cycleId) == Ok(events + [next]) <==> GoodName(name)
    ensures |events| == |names|
  {
    ReadsExactlyChained(files, names, events, cycleId);
    NextNameIsNew(files, names, cycleId, name);
    AppendKeepsReadableIff(files, names, names', cycleId, events, name, eventId, operationId, body);
  }

  /** A name behind the last one is not in the directory yet. */
  lemma LastNameIsNew(files: Directory, names: seq<string>, name: string)
    requires Lists(names, files) && EndsInJson(name) && (names == [] || Less(names[|names| - 1], name))
    ensures name !in files
  {
    if name in files {
      var i :| 0 <= i < |names| && names[i] == name;
      if i < |names| - 1 { assert Less(names[i], names[|names| - 1]); }
      LessIsStrict(names[|names| - 1], name, 0);
    }
  }

  /** Nor is a name that no readable directory can hold. */
  lemma NextNameIsNew(files: Directory, names: seq<string>, cycleId: string, name: string)
    requires Lists(names, files) && ReadAll(files, names, cycleId).Ok? && EndsInJson(name)
    requires GoodName(name) ==> names == [] || Less(names[|names| - 1], name)
    ensures name !in files
  {
    if GoodName(name) {
      LastNameIsNew(files, names, name);
    } else if name in files {
      var i :| 0 <= i < |names| && names[i] == name;
      BadNameBlocks(files, names, i, cycleId);
    }
  }

  lemma OwnNamesStay(
    files: Directory, names: seq<string>, names': seq<string>, ids: seq<string>, id: string, name: string, content: Content)
    requires Lists(names, files) && OwnNames(names, ids) && PortableId(id) && |names| + 1 < SEQUENCES
    requires name == FileName(|names| + 1, id) && Lists(names', files[name := content])
    ensures names' == names + [name] && OwnNames(names', ids + [id])
  {
    OwnNameFits(names, ids, id, name);
    LastNameIsNew(files, names, name);
    var p := ListingWithOneMore(names, names', files, files[name := content], name);
    LastFallsBehind(names, name, p);
    assert names' == names + [name];
    OneMoreOwnName(names, ids, id, name);
  }

  lemma OneMoreOwnName(names: seq<string>, ids: seq<string>, id: string, name: string)
    requires OwnNames(names, ids) && PortableId(id) && name == FileName(|names| + 1, id)
    ensures OwnNames(names + [name], ids + [id])
  {
    var more, moreIds := names + [name], ids + [id];
    forall i | 0 <= i < |more| ensures PortableId(moreIds[i]) && more[i] == FileName(i + 1, moreIds[i]) {
      if i < |names| { assert more[i] == names[i] && moreIds[i] == ids[i]; }
    }
  }

  lemma NameEndsInJson(sequence: nat, id: string)
    ensures EndsInJson(FileName(sequence, id))
  {
  }

  lemma LastFallsBehind(names: seq<string>, name: string, p: nat)
    requires p <= |names| && forall i :: p <= i < |names| ==> Less(name, names[i])
    requires names == [] || Less(names[|names| - 1], name)
    ensures p == |names|
  {
    if names != [] { LessIsStrict(names[|names| - 1], name, 0); }
  }

  /** A temporary file left by a crash is not an event file: the listing does not change. */
  lemma TemporaryFilesAreIgnored(files: Directory, names: seq<string>, temporary: string, content: Content)
    requires !EndsInJson(temporary)
    ensures Lists(names, files[temporary := content]) <==> Lists(names, files)
    ensures Lists(names, files) ==> forall cycleId :: ReadAll(files[temporary := content], names, cycleId) == ReadAll(files, names, cycleId)
  {
    if Lists(names, files) {
      forall cycleId ensures ReadAll(files[temporary := content], names, cycleId) == ReadAll(files, names, cycleId) {
        OtherFilesDoNotMatter(files, names, |names|, cycleId, temporary, content);
      }
    }
  }

  lemma {:induction false} OtherFilesDoNotMatter(
    files: Directory, names: seq<string>, n: nat, cycleId: string, other: string, content: Content)
    requires n <= |names| && (forall x :: x in names ==> x in files) && other !in names
    ensures ReadTo(files[other := content], names, n, cycleId) == ReadTo(files, names, n, cycleId)
  {
    if n > 0 { OtherFilesDoNotMatter(files, names, n - 1, cycleId, other, content); }
  }

  // ---------------------------------------------------------------- the directory as it is written

  class ProgressJournal {
    var files: Directory

    constructor ()
      ensures files == map[]
    {
      files := map[];
    }

    /** appendDeliveryProgressEvent; a crash leaves the temporary file, before the rename. */
    method Append(
      names: seq<string>, cycleId: string, id: string, eventId: string, operationId: string, body: string,
      temporary: string, crash: bool) returns (r: Result<Event, Error>)
      requires Lists(names, files) && !EndsInJson(temporary) && temporary !in files
      modifies this
      ensures match ReadAll(old(files), names, cycleId)
              case Err(e) => r == Err(e) && files == old(files)
              case Ok(events) =>
                var next := NextEvent(events, cycleId, eventId, operationId, body);
                && r == Ok(next)
                && files == if crash then old(files)[temporary := Parsed(next, true)]
                            else old(files)[FileName(|events| + 1, id) := Parsed(next, true)]
    {
      var read := ReadAllEvents(files, names, cycleId);
      if read.Err? { return Err(read.error); }
      var event := NextEvent(read.value, cycleId, eventId, operationId, body);
      files := files[temporary := Parsed(event, true)];
      if crash { return Ok(event); }
      var content := files[temporary];
      files := files - {temporary};
      files := files[FileName(|read.value| + 1, id) := content];
      r := Ok(event);
    }
  }

  // ---------------------------------------------------------------- names and files on their parts

  /** Letters, digits, hyphen, dot and underscore, by their codes. */
  lemma PortableCharacters(c: char)
    ensures var u := c as int;
            && (Digit(c) <==> 48 <= u < 58)
            && (PortableChar(c) <==> 48 <= u < 58 || 65 <= u < 91 || 97 <= u < 123 || u == 45 || u == 46 || u == 95)
  {
  }

  lemma JsonEnds(name: string)
    ensures EndsInJson(name) <==> exists stem :: name == stem + ".json"
  {
    if EndsInJson(name) { assert name == name[..|name| - 5] + ".json"; }
  }

  /** An event file's name: eight digits, a hyphen, a portable id, `.json`. */
  ghost predicate NamedBy(name: string, number: string, id: string) {
    && name == number + "-" + id + ".json" && |number| == 8 && id != ""
    && (forall i :: 0 <= i < 8 ==> Digit(number[i])) && (forall i :: 0 <= i < |id| ==> PortableChar(id[i]))
  }

  lemma GoodNames(name: string)
    ensures GoodName(name) <==> exists number, id :: NamedBy(name, number, id)
  {
    if GoodName(name) { assert NamedBy(name, name[..8], name[9..|name| - 5]) by { PartsJoin(name); } }
    if number, id :| NamedBy(name, number, id) { EightDigitsAreGood(number, id); }
  }

  lemma PartsJoin(name: string)
    requires |name| >= 15 && EndsInJson(name) && name[8] == '-'
    ensures name == name[..8] + "-" + name[9..|name| - 5] + ".json"
  {
    JsonEnds(name);
    var stem :| name == stem + ".json";
    assert stem == name[..8] + "-" + name[9..|name| - 5];
  }

  /** Every answer on one file; of several faults, the first in this order is named. */
  lemma FileReads(files: Directory, name: string, cycleId: string, before: seq<Event>)
    requires name in files
    ensures var r, content := ReadOne(files, name, cycleId, before), files[name];
            var sound := content.Parsed? && content.shaped && content.event.integrityDigest == Sha(content.event.payload);
            && (r == Err(BadFileName) <==> !GoodName(name))
            && (r == Err(BadEvent) <==> GoodName(name) && !sound)
            && (r == Err(SequenceGap) <==> GoodName(name) && sound && content.event.payload.sequence != |before| + 1)
            && (r == Err(CycleMismatch) <==>
                  GoodName(name) && sound && content.event.payload.sequence == |before| + 1 && content.event.payload.cycleId != cycleId)
            && (r == Err(ChainMismatch) <==>
                  GoodName(name) && sound && content.event.payload.sequence == |before| + 1 && content.event.payload.cycleId == cycleId
                  && content.event.payload.previousDigest
                     != (if before == [] then None else Some(before[|before| - 1].integrityDigest)))
            && (r.Ok? ==> sound && r.value == content.event)
  {
  }

  /** Reading stops at the first file that fails, with that file's fault. */
  lemma FirstFaultIsNamed(files: Directory, names: seq<string>, n: nat, cycleId: string)
    requires n < |names| && (forall x :: x in names ==> x in files) && ReadTo(files, names, n, cycleId).Ok?
    requires ReadOne(files, names[n], cycleId, ReadTo(files, names, n, cycleId).value).Err?
    ensures ReadAll(files, names, cycleId) == Err(ReadOne(files, names[n], cycleId, ReadTo(files, names, n, cycleId).value).error)
  {
    ErrorsStay(files, names, n + 1, |names|, cycleId);
  }
}
