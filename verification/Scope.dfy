/** Path-scope rules of a delivery handoff: which changed files a rule covers, and the violations. */
module Scope {
  import opened Prelude

  datatype Error = UnsupportedGlob(rule: string) | InvalidPath(path: string)

  // ---------------------------------------------------------------- the rules, as the code reads them

  predicate NoSpace(s: string) {
    forall i :: 0 <= i < |s| ==> !IsSpace(s[i])
  }

  /** Neither blank nor containing white space. */
  predicate Enforceable(rule: string) {
    rule != "" && NoSpace(rule)
  }

  /** The code asks for a non-empty trimmed text instead; without white space that is the same. */
  lemma EnforceableByTrim(rule: string)
    ensures Enforceable(rule) <==> Trim(rule) != "" && NoSpace(rule)
  {
    if NoSpace(rule) { TrimFixes(rule); }
  }

  function ForwardSlashes(s: string): string {
    seq(|s|, i requires 0 <= i < |s| => if s[i] == '\\' then '/' else s[i])
  }

  function DropDotSlash(s: string): string {
    if |s| >= 2 && s[0] == '.' && s[1] == '/' then s[2..] else s
  }

  function DropLastSlash(s: string): string {
    if s != "" && s[|s| - 1] == '/' then s[..|s| - 1] else s
  }

  function Normalized(rawRule: string): string {
    DropLastSlash(DropDotSlash(ForwardSlashes(rawRule)))
  }

  predicate EndsInDirGlob(rule: string) {
    var n := |rule|;
    n >= 3 && rule[n - 3] == '/' && rule[n - 2] == '*' && rule[n - 1] == '*'
  }

  /** `path === rule || path.startsWith(rule + "/")` */
  predicate AtOrBelow(path: string, rule: string) {
    path == rule || rule + "/" <= path
  }

  function RuleMatches(path: string, rawRule: string): Result<bool, Error> {
    var rule := Normalized(rawRule);
    if !Enforceable(rule) then Ok(false)
    else if EndsInDirGlob(rule) then Ok(AtOrBelow(path, DropLastSlash(rule[..|rule| - 3])))
    else if '*' in rule then Err(UnsupportedGlob(rawRule))
    else if '/' !in rule && '.' !in rule then Ok(AtOrBelow(path, rule) || rule in Split(path))
    else if '.' in Split(rule)[|Split(rule)| - 1] then Ok(path == rule)
    else Ok(AtOrBelow(path, rule))
  }

  /** The path is `..` or starts with `../`. */
  predicate ClimbsOut(path: string) {
    |path| >= 2 && path[0] == '.' && path[1] == '.' && (|path| == 2 || path[2] == '/')
  }

  /** The path as it is compared, or an error for one outside the repository. */
  function NormalizePath(value: string): Result<string, Error> {
    var path := DropDotSlash(ForwardSlashes(value));
    if path == "" || path[0] == '/' || ClimbsOut(path) then Err(InvalidPath(value)) else Ok(path)
  }

  // ---------------------------------------------------------------- segments

  /** `split("/")`: never empty. */
  function Split(s: string): (r: seq<string>)
    ensures r != []
  {
    if s == "" then [""] else Prefixed(s[0], Split(s[1..]))
  }

  function Join(segments: seq<string>): string {
    if segments == [] then ""
    else if |segments| == 1 then segments[0]
    else segments[0] + "/" + Join(segments[1..])
  }

  /** A character in front of a split text. */
  function Prefixed(c: char, rest: seq<string>): seq<string>
    requires rest != []
  {
    if c == '/' then [""] + rest else [[c] + rest[0]] + rest[1..]
  }

  lemma PrefixedAppend(c: char, xs: seq<string>, ys: seq<string>)
    requires xs != []
    ensures Prefixed(c, xs + ys) == Prefixed(c, xs) + ys
  {
  }

  lemma {:induction false} SplitAppend(a: string, b: string)
    ensures Split(a + "/" + b) == Split(a) + Split(b)
  {
    var s := a + "/" + b;
    if a == "" {
      assert s[1..] == b;
    } else {
      SplitAppend(a[1..], b);
      assert s[0] == a[0] && s[1..] == a[1..] + "/" + b;
      PrefixedAppend(a[0], Split(a[1..]), Split(b));
    }
  }

  lemma {:induction false} SplitPlain(s: string)
    requires '/' !in s
    ensures Split(s) == [s]
  {
    if s != "" {
      SplitPlain(s[1..]);
      assert [s[0]] + s[1..] == s;
    }
  }

  lemma JoinPrefixed(c: char, rest: seq<string>)
    requires rest != []
    ensures Join(Prefixed(c, rest)) == [c] + Join(rest)
  {
    if c == '/' {
      assert ([""] + rest)[1..] == rest;
    } else if |rest| > 1 {
      assert ([[c] + rest[0]] + rest[1..])[1..] == rest[1..];
      assert [c] + (rest[0] + "/" + Join(rest[1..])) == [c] + rest[0] + "/" + Join(rest[1..]);
    }
  }

  lemma {:induction false} JoinSplit(s: string)
    ensures Join(Split(s)) == s
  {
    if s != "" {
      JoinSplit(s[1..]);
      JoinPrefixed(s[0], Split(s[1..]));
    }
  }

  lemma {:induction false} JoinAppend(xs: seq<string>, ys: seq<string>)
    requires xs != [] && ys != []
    ensures Join(xs + ys) == Join(xs) + "/" + Join(ys)
  {
    if |xs| == 1 {
      assert (xs + ys)[1..] == ys;
    } else {
      JoinAppend(xs[1..], ys);
      assert (xs + ys)[1..] == xs[1..] + ys;
      assert xs[0] + "/" + (Join(xs[1..]) + "/" + Join(ys)) == xs[0] + "/" + Join(xs[1..]) + "/" + Join(ys);
    }
  }

  /** The string test is the test on segments: equal or below means the segments are a prefix. */
  lemma AtOrBelowIsSegmentPrefix(path: string, rule: string)
    ensures AtOrBelow(path, rule) <==> Split(rule) <= Split(path)
  {
    if path != rule && rule + "/" <= path {
      var rest := path[|rule| + 1..];
      assert path == rule + "/" + rest;
      SplitAppend(rule, rest);
    }
    if Split(rule) <= Split(path) {
      var more := Split(path)[|Split(rule)|..];
      assert Split(path) == Split(rule) + more;
      JoinSplit(path);
      JoinSplit(rule);
      if more == [] {
        assert Split(path) == Split(rule);
      } else {
        JoinAppend(Split(rule), more);
        assert path == rule + "/" + Join(more);
      }
    }
  }

  // ---------------------------------------------------------------- what a rule means

  datatype Meaning =
    | Nothing                                  // blank once normalised
    | Under(directory: seq<string>)            // dir/**, and paths whose last segment has no dot
    | Anywhere(name: string)                   // a bare name, as any segment
    | Exactly(file: seq<string>)               // a last segment with a dot: that path only
    | Unsupported                              // any other glob

  function Meant(rawRule: string): Meaning {
    var rule := Normalized(rawRule);
    if !Enforceable(rule) then Nothing
    else if EndsInDirGlob(rule) then Under(Split(DropLastSlash(rule[..|rule| - 3])))
    else if '*' in rule then Unsupported
    else PlainMeaning(rule)
  }

  function PlainMeaning(rule: string): Meaning {
    var segments := Split(rule);
    if '.' in segments[|segments| - 1] then Exactly(segments)
    else if |segments| == 1 then Anywhere(rule)
    else Under(segments)
  }

  predicate Covers(m: Meaning, segments: seq<string>) {
    match m
    case Under(directory) => directory <= segments
    case Anywhere(name) => name in segments
    case Exactly(file) => segments == file
    case _ => false
  }

  lemma {:induction false} OneSegmentIffNoSlash(s: string)
    ensures |Split(s)| == 1 <==> '/' !in s
  {
    if s != "" { OneSegmentIffNoSlash(s[1..]); }
  }

  lemma SameSegmentsSamePath(path: string, rule: string)
    ensures Split(path) == Split(rule) <==> path == rule
  {
    JoinSplit(path);
    JoinSplit(rule);
  }

  lemma BareNameOnSegments(path: string, name: string)
    requires '/' !in name
    ensures AtOrBelow(path, name) || name in Split(path) <==> name in Split(path)
  {
    AtOrBelowIsSegmentPrefix(path, name);
    SplitPlain(name);
  }

  /** The last three branches, for a normalised rule that is no directory glob. */
  lemma PlainRuleOnSegments(path: string, rule: string)
    requires rule != "" && '*' !in rule
    ensures (if '/' !in rule && '.' !in rule then AtOrBelow(path, rule) || rule in Split(path)
             else if '.' in Split(rule)[|Split(rule)| - 1] then path == rule
             else AtOrBelow(path, rule))
            <==> Covers(PlainMeaning(rule), Split(path))
  {
    OneSegmentIffNoSlash(rule);
    AtOrBelowIsSegmentPrefix(path, rule);
    SameSegmentsSamePath(path, rule);
    if '/' !in rule {
      SplitPlain(rule);
      BareNameOnSegments(path, rule);
    }
  }

  /** ruleMatches decides on segments, whatever the strings: no rule covers half a segment. */
  lemma RuleMatchesOnSegments(path: string, rawRule: string)
    ensures RuleMatches(path, rawRule)
            == if Meant(rawRule).Unsupported? then Err(UnsupportedGlob(rawRule))
               else Ok(Covers(Meant(rawRule), Split(path)))
  {
    var rule := Normalized(rawRule);
    if EndsInDirGlob(rule) {
      AtOrBelowIsSegmentPrefix(path, DropLastSlash(rule[..|rule| - 3]));
    } else if rule != "" && '*' !in rule {
      PlainRuleOnSegments(path, rule);
    }
  }

  // ---------------------------------------------------------------- scanning rules

  /** A rule with what it means. */
  datatype Rule = Rule(text: string, meaning: Meaning)

  function ParsedTo(rules: seq<string>, n: nat): (r: seq<Rule>)
    requires n <= |rules|
    ensures |r| == n
  {
    if n == 0 then [] else ParsedTo(rules, n - 1) + [Rule(rules[n - 1], Meant(rules[n - 1]))]
  }

  function Parsed(rules: seq<string>): (r: seq<Rule>)
    ensures |r| == |rules|
  {
    ParsedTo(rules, |rules|)
  }

  lemma {:induction false} ParsedToAt(rules: seq<string>, n: nat, k: nat)
    requires k < n <= |rules|
    ensures ParsedTo(rules, n)[k] == Rule(rules[k], Meant(rules[k]))
  {
    assert ParsedTo(rules, n) == ParsedTo(rules, n - 1) + [Rule(rules[n - 1], Meant(rules[n - 1]))];
    if k < n - 1 { ParsedToAt(rules, n - 1, k); }
  }

  lemma ParsedAt(rules: seq<string>, k: nat)
    requires k < |rules|
    ensures Parsed(rules)[k] == Rule(rules[k], Meant(rules[k]))
  {
    ParsedToAt(rules, |rules|, k);
  }

  function EnforceableTo(rules: seq<string>, n: nat): seq<string>
    requires n <= |rules|
  {
    if n == 0 then []
    else EnforceableTo(rules, n - 1) + (if Enforceable(rules[n - 1]) then [rules[n - 1]] else [])
  }

  /** `filter(enforceableRule)` */
  function EnforceableOf(rules: seq<string>): seq<string> {
    EnforceableTo(rules, |rules|)
  }

  lemma {:induction false} EnforceableMembers(rules: seq<string>, n: nat, x: string)
    requires n <= |rules|
    ensures x in EnforceableTo(rules, n) <==> Enforceable(x) && exists k :: 0 <= k < n && rules[k] == x
  {
    if n > 0 { EnforceableMembers(rules, n - 1, x); }
  }

  predicate Covered(rules: seq<Rule>, segments: seq<string>) {
    exists k :: 0 <= k < |rules| && Covers(rules[k].meaning, segments)
  }

  /** An unsupported rule comes before every rule that covers the path. */
  predicate ScanRaises(rules: seq<Rule>, segments: seq<string>) {
    exists k :: 0 <= k < |rules| && rules[k].meaning.Unsupported?
      && forall j :: 0 <= j < k ==> !Covers(rules[j].meaning, segments)
  }

  datatype Outcome = Matched | Missed | Raised

  /** The scan from rule k on. */
  function Scan(rules: seq<Rule>, segments: seq<string>, k: nat): Outcome
    requires k <= |rules|
    decreases |rules| - k
  {
    if k == |rules| then Missed
    else if rules[k].meaning.Unsupported? then Raised
    else if Covers(rules[k].meaning, segments) then Matched
    else Scan(rules, segments, k + 1)
  }

  lemma {:induction false} ScanStops(rules: seq<Rule>, segments: seq<string>, k: nat) returns (j: nat)
    requires k <= |rules|
    ensures k <= j <= |rules| && forall i :: k <= i < j ==> !Covers(rules[i].meaning, segments) && !rules[i].meaning.Unsupported?
    ensures match Scan(rules, segments, k)
            case Missed => j == |rules|
            case Raised => j < |rules| && rules[j].meaning.Unsupported?
            case Matched => j < |rules| && Covers(rules[j].meaning, segments)
    decreases |rules| - k
  {
    if k == |rules| || rules[k].meaning.Unsupported? || Covers(rules[k].meaning, segments) {
      j := k;
    } else {
      j := ScanStops(rules, segments, k + 1);
    }
  }

  /** The scan raises where an unsupported rule comes first, and otherwise finds a covering rule if there is one. */
  lemma ScanExactly(rules: seq<Rule>, segments: seq<string>)
    ensures Scan(rules, segments, 0) == Raised <==> ScanRaises(rules, segments)
    ensures Scan(rules, segments, 0) != Raised ==> (Scan(rules, segments, 0) == Matched <==> Covered(rules, segments))
  {
    var j := ScanStops(rules, segments, 0);
  }

  method MatchRule(path: string, rules: seq<string>, k: nat, ghost parsed: seq<Rule>)
    returns (r: Result<bool, Error>)
    requires k < |rules| && parsed == Parsed(rules)
    ensures parsed[k].text == rules[k]
    ensures r == if parsed[k].meaning.Unsupported? then Err(UnsupportedGlob(rules[k]))
                 else Ok(Covers(parsed[k].meaning, Split(path)))
  {
    RuleMatchesOnSegments(path, rules[k]);
    ParsedAt(rules, k);
    r := RuleMatches(path, rules[k]);
  }

  /** `some(rule => ruleMatches(path, rule))`: stops at the first match, or at the first raise. */
  method SomeMatches(path: string, rules: seq<string>, ghost parsed: seq<Rule>, ghost segments: seq<string>)
    returns (r: Result<bool, Error>)
    requires parsed == Parsed(rules) && segments == Split(path)
    ensures r.Err? <==> Scan(parsed, segments, 0) == Raised
    ensures r.Ok? ==> r.value == Covered(parsed, segments)
  {
    for k := 0 to |rules|
      invariant Scan(parsed, segments, 0) == Scan(parsed, segments, k)
    {
      var one := MatchRule(path, rules, k, parsed);
      if one != Ok(false) {
        ScanExactly(parsed, segments);
        return one;
      }
    }
    ScanExactly(parsed, segments);
    r := Ok(false);
  }

  // ---------------------------------------------------------------- violations

  datatype Violation = NothingAllowed | Outside(path: string) | Forbidden(path: string, rule: string)

  /** A changed file as the rules see it. */
  datatype File = File(path: Result<string, Error>, segments: seq<string>)

  function FileOf(changed: string): File {
    var path := NormalizePath(changed);
    File(path, if path.Ok? then Split(path.value) else [])
  }

  function FilesTo(changed: seq<string>, n: nat): (r: seq<File>)
    requires n <= |changed|
    ensures |r| == n
  {
    if n == 0 then [] else FilesTo(changed, n - 1) + [FileOf(changed[n - 1])]
  }

  function Files(changed: seq<string>): (r: seq<File>)
    ensures |r| == |changed|
  {
    FilesTo(changed, |changed|)
  }

  lemma {:induction false} FilesToAt(changed: seq<string>, n: nat, k: nat)
    requires k < n <= |changed|
    ensures FilesTo(changed, n)[k] == FileOf(changed[k])
  {
    if k < n - 1 { FilesToAt(changed, n - 1, k); }
  }

  /** The forbidden rules a path matches, among the first n, in rule order. */
  function ForbiddenMatches(path: string, segments: seq<string>, forbidden: seq<Rule>, n: nat): seq<Violation>
    requires n <= |forbidden|
  {
    if n == 0 then []
    else
      ForbiddenMatches(path, segments, forbidden, n - 1)
      + (if Covers(forbidden[n - 1].meaning, segments) then [Forbidden(path, forbidden[n - 1].text)] else [])
  }

  function FileViolations(file: File, allowed: seq<Rule>, forbidden: seq<Rule>): seq<Violation> {
    if file.path.Err? then []
    else
      (if Covered(allowed, file.segments) then [] else [Outside(file.path.value)])
      + ForbiddenMatches(file.path.value, file.segments, forbidden, |forbidden|)
  }

  function PartsTo(files: seq<File>, n: nat, allowed: seq<Rule>, forbidden: seq<Rule>): (r: seq<seq<Violation>>)
    requires n <= |files|
    ensures |r| == n
  {
    if n == 0 then [] else PartsTo(files, n - 1, allowed, forbidden) + [FileViolations(files[n - 1], allowed, forbidden)]
  }

  lemma {:induction false} PartsAt(files: seq<File>, n: nat, k: nat, allowed: seq<Rule>, forbidden: seq<Rule>)
    requires k < n <= |files|
    ensures PartsTo(files, n, allowed, forbidden)[k] == FileViolations(files[k], allowed, forbidden)
  {
    if k < n - 1 { PartsAt(files, n - 1, k, allowed, forbidden); }
  }

  /** The first n parts, one after the other. */
  function Flat<T>(parts: seq<seq<T>>, n: nat): seq<T>
    requires n <= |parts|
  {
    if n == 0 then [] else Flat(parts, n - 1) + parts[n - 1]
  }

  function AllViolations(files: seq<File>, allowed: seq<Rule>, forbidden: seq<Rule>): seq<Violation> {
    Flat(PartsTo(files, |files|, allowed, forbidden), |files|)
  }

  predicate FileRaises(file: File, allowed: seq<Rule>, forbidden: seq<Rule>) {
    || file.path.Err?
    || Scan(allowed, file.segments, 0) == Raised
    || exists k :: 0 <= k < |forbidden| && forbidden[k].meaning.Unsupported?
  }

  /** Some check among the first n files raises. */
  predicate RaisesTo(files: seq<File>, n: nat, allowed: seq<Rule>, forbidden: seq<Rule>)
    requires n <= |files|
  {
    n > 0 && (RaisesTo(files, n - 1, allowed, forbidden) || FileRaises(files[n - 1], allowed, forbidden))
  }

  lemma {:induction false} RaisesMonotone(files: seq<File>, m: nat, n: nat, allowed: seq<Rule>, forbidden: seq<Rule>)
    requires m <= n <= |files| && RaisesTo(files, m, allowed, forbidden)
    ensures RaisesTo(files, n, allowed, forbidden)
  {
    if m < n { RaisesMonotone(files, m, n - 1, allowed, forbidden); }
  }

  /** The loop over the files raises exactly when some file's check does. */
  lemma {:induction false} RaisesExactly(files: seq<File>, n: nat, allowed: seq<Rule>, forbidden: seq<Rule>)
    requires n <= |files|
    ensures RaisesTo(files, n, allowed, forbidden)
            <==> exists i :: 0 <= i < n && FileRaises(files[i], allowed, forbidden)
  {
    if n > 0 { RaisesExactly(files, n - 1, allowed, forbidden); }
  }

  /** `[...new Set(violations)]` */
  function WithoutRepeats(vs: seq<Violation>): (r: seq<Violation>)
    ensures forall v :: v in r <==> v in vs
    ensures NoDup(r)
  {
    if vs == [] then []
    else
      var front := WithoutRepeats(vs[..|vs| - 1]);
      var last := vs[|vs| - 1];
      assert forall v :: v in vs <==> v in vs[..|vs| - 1] || v == last;
      if last in front then front else front + [last]
  }

  method CheckForbidden(path: string, rules: seq<string>, ghost parsed: seq<Rule>)
    returns (r: Result<seq<Violation>, Error>)
    requires parsed == Parsed(rules)
    ensures r.Err? <==> exists k :: 0 <= k < |parsed| && parsed[k].meaning.Unsupported?
    ensures r.Ok? ==> r.value == ForbiddenMatches(path, Split(path), parsed, |parsed|)
  {
    var violations: seq<Violation> := [];
    for k := 0 to |rules|
      invariant forall j :: 0 <= j < k ==> !parsed[j].meaning.Unsupported?
      invariant violations == ForbiddenMatches(path, Split(path), parsed, k)
    {
      var one := MatchRule(path, rules, k, parsed);
      if one.Err? { return Err(one.error); }
      if one.value { violations := violations + [Forbidden(path, rules[k])]; }
    }
    r := Ok(violations);
  }

  /** One file: outside the allowed rules first, then the forbidden rules it matches. */
  method CheckFile(changed: string, allowed: seq<string>, forbidden: seq<string>, ghost file: File)
    returns (r: Result<seq<Violation>, Error>)
    requires file == FileOf(changed)
    ensures r.Err? <==> FileRaises(file, Parsed(allowed), Parsed(forbidden))
    ensures r.Ok? ==> r.value == FileViolations(file, Parsed(allowed), Parsed(forbidden))
  {
    var normal := NormalizePath(changed);
    if normal.Err? { return Err(normal.error); }
    var matched := SomeMatches(normal.value, allowed, Parsed(allowed), file.segments);
    if matched.Err? { return Err(matched.error); }
    var matches := CheckForbidden(normal.value, forbidden, Parsed(forbidden));
    if matches.Err? { return matches; }
    var outside := if matched.value then [] else [Outside(normal.value)];
    r := Ok(outside + matches.value);
  }

  /** The loop over the changed files. */
  method CheckFiles(changed: seq<string>, allowedRules: seq<string>, forbiddenRules: seq<string>)
    returns (r: Result<seq<Violation>, Error>)
    ensures var allowed, forbidden := Parsed(allowedRules), Parsed(forbiddenRules);
            var files := Files(changed);
            && (r.Err? <==> RaisesTo(files, |files|, allowed, forbidden))
            && (r.Ok? ==> r.value == AllViolations(files, allowed, forbidden))
  {
    ghost var allowed, forbidden, files := Parsed(allowedRules), Parsed(forbiddenRules), Files(changed);
    ghost var parts := PartsTo(files, |files|, allowed, forbidden);
    var violations: seq<Violation> := [];
    for i := 0 to |changed|
      invariant !RaisesTo(files, i, allowed, forbidden)
      invariant violations == Flat(parts, i)
    {
      FilesToAt(changed, |changed|, i);
      PartsAt(files, |files|, i, allowed, forbidden);
      var file := CheckFile(changed[i], allowedRules, forbiddenRules, files[i]);
      if file.Err? {
        RaisesMonotone(files, i + 1, |files|, allowed, forbidden);
        return Err(file.error);
      }
      violations := violations + file.value;
    }
    r := Ok(violations);
  }

  /**
   * scopeViolations. It raises exactly when a file's check reaches an unsupported glob or a path
   * outside the repository; otherwise it reports what ViolationsExactly says, each once, and nothing
   * at all if and only if the change is in scope.
   */
  method ScopeViolations(changed: seq<string>, allowedScope: seq<string>, forbiddenScope: seq<string>)
    returns (r: Result<seq<Violation>, Error>)
    ensures var allowed, forbidden := Parsed(EnforceableOf(allowedScope)), Parsed(EnforceableOf(forbiddenScope));
            var files := Files(changed);
            && (r.Err? <==> allowed != [] && RaisesTo(files, |files|, allowed, forbidden))
            && (r.Ok? ==> r.value == if allowed == [] then [NothingAllowed]
                                     else WithoutRepeats(AllViolations(files, allowed, forbidden)))
    ensures r.Ok? ==> (r.value == [] <==> InScope(Files(changed), allowedScope, forbiddenScope))
  {
    var allowedRules, forbiddenRules := EnforceableOf(allowedScope), EnforceableOf(forbiddenScope);
    SomeEnforceable(allowedScope);
    if allowedRules == [] { return Ok([NothingAllowed]); }
    var found := CheckFiles(changed, allowedRules, forbiddenRules);
    if found.Err? { return found; }
    CheckedFilesAreInside(changed, Parsed(allowedRules), Parsed(forbiddenRules));
    NoViolationsIffInScope(Files(changed), allowedScope, forbiddenScope);
    r := Ok(WithoutRepeats(found.value));
  }

  // ---------------------------------------------------------------- what is reported

  predicate Forbids(forbidden: seq<Rule>, rule: string, segments: seq<string>) {
    exists k :: 0 <= k < |forbidden| && forbidden[k].text == rule && Covers(forbidden[k].meaning, segments)
  }

  /** What one changed file contributes, said of one violation. */
  predicate HasViolation(v: Violation, file: File, allowed: seq<Rule>, forbidden: seq<Rule>) {
    && file.path.Ok?
    && match v
       case NothingAllowed => false
       case Outside(p) => p == file.path.value && !Covered(allowed, file.segments)
       case Forbidden(p, rule) => p == file.path.value && Forbids(forbidden, rule, file.segments)
  }

  lemma {:induction false} ForbiddenMatchesExactly(
    v: Violation, path: string, segments: seq<string>, forbidden: seq<Rule>, n: nat)
    requires n <= |forbidden|
    ensures v in ForbiddenMatches(path, segments, forbidden, n)
            <==> v.Forbidden? && v.path == path
                 && exists k :: 0 <= k < n && forbidden[k].text == v.rule && Covers(forbidden[k].meaning, segments)
  {
    if n > 0 { ForbiddenMatchesExactly(v, path, segments, forbidden, n - 1); }
  }

  lemma FileViolationsExactly(v: Violation, file: File, allowed: seq<Rule>, forbidden: seq<Rule>)
    ensures v in FileViolations(file, allowed, forbidden) <==> HasViolation(v, file, allowed, forbidden)
  {
    if file.path.Ok? {
      ForbiddenMatchesExactly(v, file.path.value, file.segments, forbidden, |forbidden|);
    }
  }

  lemma {:induction false} FlatMembers<T>(parts: seq<seq<T>>, n: nat, x: T)
    requires n <= |parts|
    ensures x in Flat(parts, n) <==> exists i :: 0 <= i < n && x in parts[i]
  {
    if n > 0 { FlatMembers(parts, n - 1, x); }
  }

  lemma {:induction false} FlatEmpty<T>(parts: seq<seq<T>>, n: nat)
    requires n <= |parts|
    ensures Flat(parts, n) == [] <==> forall i :: 0 <= i < n ==> parts[i] == []
  {
    if n > 0 { FlatEmpty(parts, n - 1); }
  }

  /** Reported are exactly the files no allowed rule covers, and the forbidden rules that cover a file. */
  lemma ViolationsExactly(v: Violation, files: seq<File>, allowed: seq<Rule>, forbidden: seq<Rule>)
    ensures v in AllViolations(files, allowed, forbidden)
            <==> exists i :: 0 <= i < |files| && HasViolation(v, files[i], allowed, forbidden)
  {
    var parts := PartsTo(files, |files|, allowed, forbidden);
    FlatMembers(parts, |files|, v);
    forall i | 0 <= i < |files| ensures v in parts[i] <==> HasViolation(v, files[i], allowed, forbidden) {
      PartsAt(files, |files|, i, allowed, forbidden);
      FileViolationsExactly(v, files[i], allowed, forbidden);
    }
  }

  // ---------------------------------------------------------------- what no violations means

  ghost predicate CoveredBy(scope: seq<string>, segments: seq<string>) {
    exists rule :: rule in scope && Enforceable(rule) && Covers(Meant(rule), segments)
  }

  /** Inside the repository, covered by an allowed rule and by no forbidden one, on segments. */
  ghost predicate FileInScope(file: File, allowedScope: seq<string>, forbiddenScope: seq<string>) {
    file.path.Ok? && CoveredBy(allowedScope, file.segments) && !CoveredBy(forbiddenScope, file.segments)
  }

  lemma CoveredIsCoveredBy(scope: seq<string>, segments: seq<string>)
    ensures Covered(Parsed(EnforceableOf(scope)), segments) <==> CoveredBy(scope, segments)
  {
    var rules := EnforceableOf(scope);
    if Covered(Parsed(rules), segments) {
      var k :| 0 <= k < |rules| && Covers(Parsed(rules)[k].meaning, segments);
      ParsedAt(rules, k);
      EnforceableMembers(scope, |scope|, rules[k]);
    }
    if CoveredBy(scope, segments) {
      var rule :| rule in scope && Enforceable(rule) && Covers(Meant(rule), segments);
      EnforceableMembers(scope, |scope|, rule);
      var k :| 0 <= k < |rules| && rules[k] == rule;
      ParsedAt(rules, k);
    }
  }

  lemma NoneReported(files: seq<File>, allowed: seq<Rule>, forbidden: seq<Rule>)
    requires forall i :: 0 <= i < |files| ==> files[i].path.Ok?
    ensures AllViolations(files, allowed, forbidden) == []
            <==> forall i :: 0 <= i < |files| ==> Covered(allowed, files[i].segments) && !Covered(forbidden, files[i].segments)
  {
    var parts := PartsTo(files, |files|, allowed, forbidden);
    FlatEmpty(parts, |files|);
    forall i | 0 <= i < |files|
      ensures parts[i] == [] <==> Covered(allowed, files[i].segments) && !Covered(forbidden, files[i].segments)
    {
      PartsAt(files, |files|, i, allowed, forbidden);
      CleanFile(files[i], allowed, forbidden);
    }
  }

  lemma CleanFile(file: File, allowed: seq<Rule>, forbidden: seq<Rule>)
    requires file.path.Ok?
    ensures FileViolations(file, allowed, forbidden) == []
            <==> Covered(allowed, file.segments) && !Covered(forbidden, file.segments)
  {
    NoneForbidden(file.path.value, file.segments, forbidden, |forbidden|);
  }

  lemma {:induction false} NoneForbidden(path: string, segments: seq<string>, forbidden: seq<Rule>, n: nat)
    requires n <= |forbidden|
    ensures ForbiddenMatches(path, segments, forbidden, n) == []
            <==> forall k :: 0 <= k < n ==> !Covers(forbidden[k].meaning, segments)
  {
    if n > 0 { NoneForbidden(path, segments, forbidden, n - 1); }
  }

  lemma NothingLeftIffNothing(vs: seq<Violation>)
    ensures WithoutRepeats(vs) == [] <==> vs == []
  {
    if vs != [] { assert vs[0] in WithoutRepeats(vs); }
  }

  /** Some allowed rule can be enforced, and every changed file is in scope. */
  ghost predicate InScope(files: seq<File>, allowedScope: seq<string>, forbiddenScope: seq<string>) {
    && HasEnforceable(allowedScope)
    && forall i :: 0 <= i < |files| ==> FileInScope(files[i], allowedScope, forbiddenScope)
  }

  ghost predicate HasEnforceable(scope: seq<string>) {
    exists rule :: rule in scope && Enforceable(rule)
  }

  lemma SomeEnforceable(scope: seq<string>)
    ensures EnforceableOf(scope) != [] <==> HasEnforceable(scope)
  {
    if rule :| rule in scope && Enforceable(rule) { EnforceableMembers(scope, |scope|, rule); }
    if EnforceableOf(scope) != [] { EnforceableMembers(scope, |scope|, EnforceableOf(scope)[0]); }
  }

  /** Of files inside the repository: nothing is reported if and only if every one is in scope. */
  lemma NoViolationsIffInScope(files: seq<File>, allowedScope: seq<string>, forbiddenScope: seq<string>)
    requires forall i :: 0 <= i < |files| ==> files[i].path.Ok?
    ensures WithoutRepeats(AllViolations(files, Parsed(EnforceableOf(allowedScope)),
                                         Parsed(EnforceableOf(forbiddenScope)))) == []
            <==> forall i :: 0 <= i < |files| ==> FileInScope(files[i], allowedScope, forbiddenScope)
  {
    NoneReported(files, Parsed(EnforceableOf(allowedScope)), Parsed(EnforceableOf(forbiddenScope)));
    NothingLeftIffNothing(AllViolations(files, Parsed(EnforceableOf(allowedScope)),
                                        Parsed(EnforceableOf(forbiddenScope))));
    forall i | 0 <= i < |files|
      ensures FileInScope(files[i], allowedScope, forbiddenScope)
              <==> Covered(Parsed(EnforceableOf(allowedScope)), files[i].segments)
                   && !Covered(Parsed(EnforceableOf(forbiddenScope)), files[i].segments)
    {
      CoveredIsCoveredBy(allowedScope, files[i].segments);
      CoveredIsCoveredBy(forbiddenScope, files[i].segments);
    }
  }

  lemma CheckedFilesAreInside(changed: seq<string>, allowed: seq<Rule>, forbidden: seq<Rule>)
    requires !RaisesTo(Files(changed), |changed|, allowed, forbidden)
    ensures forall i :: 0 <= i < |changed| ==> Files(changed)[i].path.Ok?
  {
    forall i | 0 <= i < |changed| ensures Files(changed)[i].path.Ok? {
      RaisesExactly(Files(changed), |changed|, allowed, forbidden);
    }
  }

  /** A dotted name is compared whole: it does not reach below a directory of that name. */
  lemma DottedNameMissesItsDirectory(path: string, name: string, rest: string)
    requires Enforceable(name) && Normalized(name) == name && '/' !in name && '.' in name && '*' !in name
    ensures RuleMatches(name, name) == Ok(true) && RuleMatches(name + "/" + rest, name) == Ok(false)
  {
    SplitPlain(name);
    assert |name + "/" + rest| > |name|;
  }

  // ---------------------------------------------------------------- paths and rules on their characters

  lemma SlashesTurn(s: string)
    ensures |ForwardSlashes(s)| == |s|
    ensures forall i :: 0 <= i < |s| ==> ForwardSlashes(s)[i] == if s[i] == '\\' then '/' else s[i]
  {
  }

  lemma DotSlashGoes(s: string)
    ensures DropDotSlash("./" + s) == s
    ensures !("./" <= s) ==> DropDotSlash(s) == s
  {
  }

  lemma LastSlashGoes(s: string)
    ensures DropLastSlash(s + "/") == s
    ensures s == "" || s[|s| - 1] != '/' ==> DropLastSlash(s) == s
  {
  }

  /** A changed path is compared with slashes turned forward and without a leading `./`; outside the repository it raises. */
  lemma PathReads(s: string)
    ensures var turned := ForwardSlashes(s);
            var path := if "./" <= turned then turned[2..] else turned;
            NormalizePath(s) == if path == "" || "/" <= path || path == ".." || "../" <= path then Err(InvalidPath(s)) else Ok(path)
  {
  }

  /** A rule is read the same way, and without one trailing slash. */
  lemma RuleReads(s: string)
    ensures var turned := ForwardSlashes(s);
            var rule := if "./" <= turned then turned[2..] else turned;
            Normalized(s) == if rule != "" && rule[|rule| - 1] == '/' then rule[..|rule| - 1] else rule
  {
  }

  /** What a rule means, on its normalised text: nothing, a directory glob, another glob, a file, a name or a directory. */
  lemma RuleMeans(rawRule: string)
    ensures var rule, meaning := Normalized(rawRule), Meant(rawRule);
            var enforceable := rule != "" && forall i :: 0 <= i < |rule| ==> !IsSpace(rule[i]);
            var last := Split(rule)[|Split(rule)| - 1];
            && (meaning == Nothing <==> !enforceable)
            && (enforceable && (exists d :: rule == d + "/**") ==>
                  meaning == Under(Split(DropLastSlash(rule[..|rule| - 3]))))
            && (meaning == Unsupported <==> enforceable && '*' in rule && forall d :: rule != d + "/**")
            && (enforceable && '*' !in rule && '.' in last ==> meaning == Exactly(Split(rule)))
            && (enforceable && '*' !in rule && '.' !in last && '/' !in rule ==> meaning == Anywhere(rule))
            && (enforceable && '*' !in rule && '.' !in last && '/' in rule ==> meaning == Under(Split(rule)))
  {
    var rule := Normalized(rawRule);
    GlobEnds(rule);
    OneSegmentIffNoSlash(rule);
  }

  lemma GlobEnds(rule: string)
    ensures EndsInDirGlob(rule) <==> exists d :: rule == d + "/**"
  {
    if EndsInDirGlob(rule) { assert rule == rule[..|rule| - 3] + "/**"; }
  }
}
