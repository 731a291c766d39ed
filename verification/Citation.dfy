/** The normal form of public source text, and the search for the k-th citation of a quote in it. */
module Citation {
  import opened Prelude

  // ---------------------------------------------------------------- normalizePublicText

  /** `replace(/\r\n?/g, "\n")` */
  function UnifyNewlines(s: string): string {
    if s == "" then ""
    else if s[0] == '\r' then "\n" + UnifyNewlines(if |s| > 1 && s[1] == '\n' then s[2..] else s[1..])
    else [s[0]] + UnifyNewlines(s[1..])
  }

  predicate Blank(c: char) {
    c == ' ' || c == '\t'
  }

  function DropBlanks(s: string): (r: string)
    ensures |r| <= |s| && (r != "" ==> !Blank(r[0]))
    ensures s != "" && Blank(s[0]) ==> |r| < |s|
  {
    if s != "" && Blank(s[0]) then DropBlanks(s[1..]) else s
  }

  /** `replace(/[\t ]+/g, " ")` */
  function CollapseBlanks(s: string): string
    decreases |s|
  {
    if s == "" then ""
    else if Blank(s[0]) then " " + CollapseBlanks(DropBlanks(s))
    else [s[0]] + CollapseBlanks(s[1..])
  }

  function DropSpaces(s: string): (r: string)
    ensures |r| <= |s| && (r != "" ==> r[0] != ' ')
    ensures s == "" || s[0] != ' ' ==> r == s
  {
    if s != "" && s[0] == ' ' then DropSpaces(s[1..]) else s
  }

  predicate LineEndsHere(s: string) {
    var rest := DropSpaces(s);
    rest != "" && rest[0] == '\n'
  }

  // The third replacement: at each place, any spaces, a newline and any spaces become a newline.
  function TrimLines(s: string): string
    decreases |s|
  {
    if s == "" then ""
    else if LineEndsHere(s) then "\n" + TrimLines(DropSpaces(DropSpaces(s)[1..]))
    else [s[0]] + TrimLines(s[1..])
  }

  function DropNewlines(s: string): (r: string)
    ensures |r| <= |s| && (r != "" ==> r[0] != '\n')
    ensures s != "" && s[0] == '\n' ==> |r| < |s|
  {
    if s != "" && s[0] == '\n' then DropNewlines(s[1..]) else s
  }

  predicate StartsWithThree(s: string) {
    |s| >= 3 && s[0] == '\n' && s[1] == '\n' && s[2] == '\n'
  }

  /** `replace(/\n{3,}/g, "\n\n")` */
  function LimitNewlines(s: string): string
    decreases |s|
  {
    if s == "" then ""
    else if StartsWithThree(s) then "\n\n" + LimitNewlines(DropNewlines(s))
    else [s[0]] + LimitNewlines(s[1..])
  }

  function NormalizePublicText(s: string): string {
    Trim(LimitNewlines(TrimLines(CollapseBlanks(UnifyNewlines(s)))))
  }

  // ---------------------------------------------------------------- the normal form

  predicate BadPair(c: char, d: char) {
    (c == ' ' && d == ' ') || (c == ' ' && d == '\n') || (c == '\n' && d == ' ')
  }

  ghost predicate Lacks(s: string, c: char) {
    forall i :: 0 <= i < |s| ==> s[i] != c
  }

  ghost predicate SingleSpaces(s: string) {
    forall i, j :: 0 <= i && j == i + 1 && j < |s| ==> !(s[i] == ' ' && s[j] == ' ')
  }

  ghost predicate GoodPairs(s: string) {
    forall i, j :: 0 <= i && j == i + 1 && j < |s| ==> !BadPair(s[i], s[j])
  }

  ghost predicate ShortGaps(s: string) {
    forall i, j, k :: 0 <= i && j == i + 1 && k == j + 1 && k < |s| ==> !(s[i] == '\n' && s[j] == '\n' && s[k] == '\n')
  }

  /** No tabs or carriage returns, single spaces inside lines, no more than one empty line, nothing around. */
  ghost predicate Normal(s: string) {
    Lacks(s, '\r') && Lacks(s, '\t') && GoodPairs(s) && ShortGaps(s) && Trimmed(s)
  }

  lemma {:induction false} UnifyLacksReturns(s: string)
    ensures Lacks(UnifyNewlines(s), '\r')
  {
    if s != "" {
      UnifyLacksReturns(if s[0] == '\r' && |s| > 1 && s[1] == '\n' then s[2..] else s[1..]);
    }
  }

  lemma {:induction false} UnifyFixes(s: string)
    requires Lacks(s, '\r')
    ensures UnifyNewlines(s) == s
  {
    if s != "" { UnifyFixes(s[1..]); }
  }

  lemma {:induction false} DropBlanksLacks(s: string, c: char)
    requires Lacks(s, c)
    ensures Lacks(DropBlanks(s), c)
  {
    if s != "" && Blank(s[0]) { DropBlanksLacks(s[1..], c); }
  }

  lemma {:induction false} CollapseShape(s: string)
    requires Lacks(s, '\r')
    ensures var r := CollapseBlanks(s);
            && Lacks(r, '\r') && Lacks(r, '\t') && SingleSpaces(r)
            && (r != "" ==> s != "" && r[0] == if Blank(s[0]) then ' ' else s[0])
    decreases |s|
  {
    if s != "" {
      if Blank(s[0]) {
        DropBlanksLacks(s, '\r');
        CollapseShape(DropBlanks(s));
      } else {
        CollapseShape(s[1..]);
      }
    }
  }

  lemma {:induction false} CollapseFixes(s: string)
    requires Lacks(s, '\t') && SingleSpaces(s)
    ensures CollapseBlanks(s) == s
  {
    if s != "" {
      CollapseFixes(s[1..]);
      if s[0] == ' ' { assert DropBlanks(s) == s[1..]; }
    }
  }

  lemma {:induction false} DropSpacesKeeps(s: string, c: char)
    requires Lacks(s, c)
    ensures Lacks(DropSpaces(s), c)
  {
    if s != "" && s[0] == ' ' { DropSpacesKeeps(s[1..], c); }
  }

  lemma {:induction false} DropSpacesSingle(s: string)
    requires SingleSpaces(s)
    ensures SingleSpaces(DropSpaces(s))
  {
    if s != "" && s[0] == ' ' { DropSpacesSingle(s[1..]); }
  }

  lemma {:induction false} TrimLinesShape(s: string)
    requires Lacks(s, '\r') && Lacks(s, '\t') && SingleSpaces(s)
    ensures var r := TrimLines(s);
            && Lacks(r, '\r') && Lacks(r, '\t') && GoodPairs(r)
            && (r != "" ==> s != "" && r[0] == if LineEndsHere(s) then '\n' else s[0])
    decreases |s|
  {
    if s != "" {
      if LineEndsHere(s) {
        var rest := DropSpaces(s)[1..];
        DropSpacesKeeps(s, '\r');
        DropSpacesKeeps(s, '\t');
        DropSpacesSingle(s);
        DropSpacesKeeps(rest, '\r');
        DropSpacesKeeps(rest, '\t');
        DropSpacesSingle(rest);
        TrimLinesShape(DropSpaces(rest));
      } else {
        TrimLinesShape(s[1..]);
      }
    }
  }

  lemma {:induction false} TrimLinesFixes(s: string)
    requires GoodPairs(s)
    ensures TrimLines(s) == s
  {
    if s != "" {
      TrimLinesFixes(s[1..]);
      if s[0] == ' ' && |s| > 1 { assert !BadPair(s[0], s[1]); }
      if s[0] == '\n' && |s| > 1 { assert !BadPair(s[0], s[1]); }
    }
  }

  lemma {:induction false} DropNewlinesShape(s: string)
    requires Lacks(s, '\r') && Lacks(s, '\t') && GoodPairs(s)
    ensures var r := DropNewlines(s);
            && Lacks(r, '\r') && Lacks(r, '\t') && GoodPairs(r)
            && (s != "" && s[0] == '\n' && r != "" ==> r[0] != ' ')
  {
    if s != "" && s[0] == '\n' {
      if |s| > 1 { assert !BadPair(s[0], s[1]); }
      DropNewlinesShape(s[1..]);
    }
  }

  lemma {:induction false} LimitShape(s: string)
    requires Lacks(s, '\r') && Lacks(s, '\t') && GoodPairs(s)
    ensures var r := LimitNewlines(s);
            && Lacks(r, '\r') && Lacks(r, '\t') && GoodPairs(r) && ShortGaps(r)
            && (s != "" ==> r != "" && r[0] == s[0])
            && (|s| > 1 ==> |r| > 1 && (s[0] == '\n' ==> r[1] == s[1]))
            && (|s| == 1 ==> r == s)
    decreases |s|
  {
    if s != "" {
      if StartsWithThree(s) {
        DropNewlinesShape(s);
        LimitShape(DropNewlines(s));
      } else {
        if |s| > 1 { assert !BadPair(s[0], s[1]); }
        LimitShape(s[1..]);
      }
    }
  }

  lemma {:induction false} LimitFixes(s: string)
    requires ShortGaps(s)
    ensures LimitNewlines(s) == s
  {
    if s != "" { LimitFixes(s[1..]); }
  }

  lemma NormalInside(s: string, i: nat, j: nat)
    requires i <= j <= |s| && Lacks(s, '\r') && Lacks(s, '\t') && GoodPairs(s) && ShortGaps(s) && Trimmed(s[i..j])
    ensures Normal(s[i..j])
  {
    var t := s[i..j];
    forall a, b | 0 <= a && b == a + 1 && b < |t| ensures !BadPair(t[a], t[b]) { assert !BadPair(s[i + a], s[i + b]); }
    forall a, b, c | 0 <= a && b == a + 1 && c == b + 1 && c < |t|
      ensures !(t[a] == '\n' && t[b] == '\n' && t[c] == '\n')
    {
      assert !(s[i + a] == '\n' && s[i + b] == '\n' && s[i + c] == '\n');
    }
  }

  /** Whatever the text, its normalisation is normal. */
  lemma NormalizedIsNormal(s: string)
    ensures Normal(NormalizePublicText(s))
  {
    UnifyLacksReturns(s);
    CollapseShape(UnifyNewlines(s));
    TrimLinesShape(CollapseBlanks(UnifyNewlines(s)));
    var lines := TrimLines(CollapseBlanks(UnifyNewlines(s)));
    LimitShape(lines);
    var t := LimitNewlines(lines);
    TrimIsTrimmed(t);
    NormalInside(t, SkipSpace(t, 0), DropSpace(t, SkipSpace(t, 0), |t|));
  }

  /** And normalising changes nothing exactly on normal text. */
  lemma FixedIffNormal(s: string)
    ensures NormalizePublicText(s) == s <==> Normal(s)
  {
    if Normal(s) {
      UnifyFixes(s);
      assert SingleSpaces(s) by {
        forall i, j | 0 <= i && j == i + 1 && j < |s| ensures !(s[i] == ' ' && s[j] == ' ') { assert !BadPair(s[i], s[j]); }
      }
      CollapseFixes(s);
      TrimLinesFixes(s);
      LimitFixes(s);
      TrimFixes(s);
    }
    NormalizedIsNormal(s);
  }

  lemma NormalizeIsIdempotent(s: string)
    ensures NormalizePublicText(NormalizePublicText(s)) == NormalizePublicText(s)
  {
    NormalizedIsNormal(s);
    FixedIffNormal(NormalizePublicText(s));
  }

  // ---------------------------------------------------------------- locateExactCitation

  predicate OccursAt(text: string, quote: string, i: nat) {
    i + |quote| <= |text| && text[i..i + |quote|] == quote
  }

  /** `indexOf(quote, from)` */
  function IndexOf(text: string, quote: string, from: nat): (r: Option<nat>)
    ensures r.Some? ==> from <= r.value && r.value + |quote| <= |text|
    decreases |text| + 1 - from
  {
    if from + |quote| > |text| then None
    else if OccursAt(text, quote, from) then Some(from)
    else IndexOf(text, quote, from + 1)
  }

  /** The search is exact: it stops at the first occurrence, and fails only where there is none. */
  lemma {:induction false} IndexOfExactly(text: string, quote: string, from: nat)
    ensures var r := IndexOf(text, quote, from);
            && (r.Some? ==> OccursAt(text, quote, r.value))
            && forall i :: from <= i < (if r.Some? then r.value else |text| + 1) ==> !OccursAt(text, quote, i)
    decreases |text| + 1 - from
  {
    if from + |quote| <= |text| && !OccursAt(text, quote, from) { IndexOfExactly(text, quote, from + 1); }
  }

  /** Occurrences from a position on, each the first that does not overlap the one before. */
  function Greedy(text: string, quote: string, from: nat): seq<nat>
    requires quote != ""
    decreases |text| + 1 - from
  {
    var found := IndexOf(text, quote, from);
    if found.None? then [] else [found.value] + Greedy(text, quote, found.value + |quote|)
  }

  datatype Located = Located(quote: string, start: nat, end: nat, occurrence: int)

  datatype Error = BadOccurrence | QuoteTooShort | QuoteTooLong | NotFound

  function Locate(text: string, quote: string, occurrence: int): Result<Located, Error> {
    var q := NormalizePublicText(quote);
    if occurrence < 0 then Err(BadOccurrence)
    else if |q| < 12 then Err(QuoteTooShort)
    else if |q| > 2000 then Err(QuoteTooLong)
    else
      var starts := Greedy(text, q, 0);
      if occurrence < |starts| then Ok(Located(q, starts[occurrence], starts[occurrence] + |q|, occurrence)) else Err(NotFound)
  }

  /** The greedy list: the first occurrence, then each time the first one that does not overlap, to the end. */
  lemma {:induction false} GreedyExactly(text: string, quote: string, from: nat, k: nat)
    requires quote != ""
    ensures var starts := Greedy(text, quote, from);
            && (k < |starts| ==> OccursAt(text, quote, starts[k]))
            && (k <= |starts| ==>
                  var low := if k == 0 then from else starts[k - 1] + |quote|;
                  && (k < |starts| ==> low <= starts[k])
                  && forall i :: low <= i < (if k < |starts| then starts[k] else |text| + 1) ==> !OccursAt(text, quote, i))
    decreases k
  {
    var found := IndexOf(text, quote, from);
    IndexOfExactly(text, quote, from);
    if found.Some? && k > 0 {
      GreedyExactly(text, quote, found.value + |quote|, k - 1);
    }
  }

  lemma OneMoreStart(text: string, q: string, cursor: nat, starts: seq<nat>)
    requires q != ""
    ensures match IndexOf(text, q, cursor)
            case None => starts + Greedy(text, q, cursor) == starts
            case Some(found) => starts + Greedy(text, q, cursor) == starts + [found] + Greedy(text, q, found + |q|)
  {
  }

  /** The loop with its cursor and its list of starts. */
  method FindStarts(text: string, q: string) returns (starts: seq<nat>)
    requires q != ""
    ensures starts == Greedy(text, q, 0)
  {
    starts := [];
    var cursor: nat := 0;
    while cursor + |q| <= |text|
      invariant Greedy(text, q, 0) == starts + Greedy(text, q, cursor)
      decreases |text| - cursor
    {
      var found := IndexOf(text, q, cursor);
      OneMoreStart(text, q, cursor, starts);
      if found.None? { break; }
      starts := starts + [found.value];
      cursor := found.value + |q|;
    }
    OneMoreStart(text, q, cursor, starts);
  }

  method LocateExactCitation(text: string, quote: string, occurrence: int) returns (r: Result<Located, Error>)
    ensures r == Locate(text, quote, occurrence)
    ensures r.Ok? ==> r.value.end <= |text| && text[r.value.start..r.value.end] == r.value.quote == NormalizePublicText(quote)
  {
    if occurrence < 0 { return Err(BadOccurrence); }
    var q := NormalizePublicText(quote);
    if |q| < 12 { return Err(QuoteTooShort); }
    if |q| > 2000 { return Err(QuoteTooLong); }
    var starts := FindStarts(text, q);
    if occurrence >= |starts| { return Err(NotFound); }
    GreedyExactly(text, q, 0, occurrence);
    r := Ok(Located(q, starts[occurrence], starts[occurrence] + |q|, occurrence));
  }

  ghost predicate Apart(text: string, quote: string, from: nat, places: seq<nat>) {
    && (forall i :: 0 <= i < |places| ==> OccursAt(text, quote, places[i]) && from <= places[i])
    && (forall i, j :: 0 <= i && j == i + 1 && j < |places| ==> places[i] + |quote| <= places[j])
  }

  /** No other choice of non-overlapping occurrences is longer, or has its k-th one further left. */
  lemma {:induction false} GreedyIsBest(text: string, quote: string, from: nat, places: seq<nat>)
    requires quote != "" && Apart(text, quote, from, places)
    ensures |places| <= |Greedy(text, quote, from)|
    ensures forall k :: 0 <= k < |places| ==> Greedy(text, quote, from)[k] <= places[k]
    decreases |places|
  {
    if places != [] {
      IndexOfExactly(text, quote, from);
      assert OccursAt(text, quote, places[0]) && from <= places[0];
      assert IndexOf(text, quote, from).Some?;
      var first := IndexOf(text, quote, from).value;
      assert first <= places[0];
      var rest := places[1..];
      LaterPlaces(text, quote, from, places, 1);
      GreedyIsBest(text, quote, first + |quote|, rest);
    }
  }

  lemma {:induction false} LaterPlaces(text: string, quote: string, from: nat, places: seq<nat>, n: nat)
    requires Apart(text, quote, from, places) && 1 <= n <= |places|
    ensures forall k :: n <= k < |places| ==> places[0] + |quote| <= places[k]
    decreases |places| - n
  {
    if n < |places| {
      LaterPlaces(text, quote, from, places, n + 1);
      PlacesRise(text, quote, from, places, n);
    }
  }

  lemma {:induction false} PlacesRise(text: string, quote: string, from: nat, places: seq<nat>, n: nat)
    requires Apart(text, quote, from, places) && 1 <= n < |places|
    ensures places[0] + |quote| <= places[n]
  {
    if n > 1 { PlacesRise(text, quote, from, places, n - 1); }
  }

  /** A citation locates itself: its own quote and number give the same citation again. */
  lemma CitationRoundTrip(text: string, quote: string, occurrence: int)
    requires Locate(text, quote, occurrence).Ok?
    ensures var c := Locate(text, quote, occurrence).value; Locate(text, c.quote, c.occurrence) == Ok(c)
  {
    NormalizeIsIdempotent(quote);
  }

  /** An occurrence is a way to write the text around the quote. */
  lemma OccursExactly(text: string, quote: string, i: nat)
    ensures OccursAt(text, quote, i) <==> exists before, after :: text == before + quote + after && |before| == i
  {
    if OccursAt(text, quote, i) {
      assert text == text[..i] + quote + text[i + |quote|..] && |text[..i]| == i;
    }
    if before, after :| text == before + quote + after && |before| == i {
      assert text[i..i + |quote|] == quote;
    }
  }

  lemma GreedyIsApart(text: string, quote: string)
    requires quote != ""
    ensures Apart(text, quote, 0, Greedy(text, quote, 0))
  {
    forall k | 0 <= k < |Greedy(text, quote, 0)| ensures OccursAt(text, quote, Greedy(text, quote, 0)[k]) {
      GreedyExactly(text, quote, 0, k);
    }
    forall i, j | 0 <= i && j == i + 1 && j < |Greedy(text, quote, 0)|
      ensures Greedy(text, quote, 0)[i] + |quote| <= Greedy(text, quote, 0)[j]
    {
      GreedyExactly(text, quote, 0, j);
    }
  }

  /** Every answer, on the normalised quote and the occurrences the text has room for. */
  lemma LocateAnswers(text: string, quote: string, occurrence: int)
    ensures var q, r := NormalizePublicText(quote), Locate(text, quote, occurrence);
            && (r == Err(BadOccurrence) <==> occurrence < 0)
            && (r == Err(QuoteTooShort) <==> occurrence >= 0 && |q| <= 11)
            && (r == Err(QuoteTooLong) <==> occurrence >= 0 && |q| >= 2001)
            && (r == Err(NotFound) <==> occurrence >= 0 && 12 <= |q| <= 2000
                                        && forall places :: Apart(text, q, 0, places) ==> |places| <= occurrence)
            && (r.Ok? ==>
                  && r.value.quote == q && r.value.occurrence == occurrence && r.value.end == r.value.start + |q|
                  && OccursAt(text, q, r.value.start))
  {
    var q := NormalizePublicText(quote);
    if q != "" {
      GreedyIsApart(text, q);
      forall places | Apart(text, q, 0, places) ensures |places| <= |Greedy(text, q, 0)| { GreedyIsBest(text, q, 0, places); }
    }
  }
}
