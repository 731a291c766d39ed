/**
 * JSON values and the text stableSerialize makes of them. Strings are UTF-16 code units, as
 * JSON.stringify sees them; a finite number is its sign, its shortest significant digits and
 * its decimal exponent, the three things ECMAScript's Number::toString prints.
 */
module Json {

  type Unit = u: int | 0 <= u < 0x10000 witness 0

  type Text = seq<Unit>

  type Digit = d: int | 0 <= d <= 9 witness 0

  /** Zero, or +-0.d1d2...dk * 10^exponent with d1 and dk not 0. */
  datatype NumberParts = Zero | Finite(negative: bool, digits: seq<Digit>, exponent: int)

  type Number = n: NumberParts |
    n.Zero? || (n.digits != [] && n.digits[0] != 0 && n.digits[|n.digits| - 1] != 0)
    witness Zero

  datatype Entry<T> = Entry(key: Text, value: T)

  datatype Json =
    | Null
    | Bool(b: bool)
    | Num(n: Number)
    | Str(s: Text)
    | Arr(items: seq<Json>)
    | Obj(fields: seq<Entry<Json>>)

  predicate DistinctKeys<T>(es: seq<Entry<T>>) {
    forall i, j :: 0 <= i < j < |es| ==> es[i].key != es[j].key
  }

  /** Keys are distinct in every object at every level. */
  predicate Valid(v: Json) {
    match v
    case Arr(items) => forall i :: 0 <= i < |items| ==> Valid(items[i])
    case Obj(fields) => DistinctKeys(fields) && forall i :: 0 <= i < |fields| ==> Valid(fields[i].value)
    case _ => true
  }

  // ---------------------------------------------------------------- characters

  const QUOTE: Unit := 34
  const COMMA: Unit := 44
  const COLON: Unit := 58
  const OPEN_BRACKET: Unit := 91
  const BACKSLASH: Unit := 92
  const CLOSE_BRACKET: Unit := 93
  const OPEN_BRACE: Unit := 123
  const CLOSE_BRACE: Unit := 125
  const PLUS: Unit := 43
  const MINUS: Unit := 45
  const POINT: Unit := 46
  const LETTER_E: Unit := 101
  const LETTER_U: Unit := 117

  const NULL_TEXT: Text := [110, 117, 108, 108]
  const TRUE_TEXT: Text := [116, 114, 117, 101]
  const FALSE_TEXT: Text := [102, 97, 108, 115, 101]

  // ---------------------------------------------------------------- strings

  predicate HighSurrogate(u: Unit) { 0xD800 <= u <= 0xDBFF }

  predicate LowSurrogate(u: Unit) { 0xDC00 <= u <= 0xDFFF }

  function HexDigit(d: int): Unit
    requires 0 <= d < 16
  {
    if d < 10 then 48 + d else 87 + d
  }

  function UnicodeEscape(u: Unit): Text {
    [BACKSLASH, LETTER_U, HexDigit(u / 4096), HexDigit(u / 256 % 16), HexDigit(u / 16 % 16), HexDigit(u % 16)]
  }

  /** The letter of a two-character escape, or 0 where there is none. */
  function ShortEscape(u: Unit): Unit {
    if u == 8 then 98 else if u == 9 then 116 else if u == 10 then 110 else if u == 12 then 102
    else if u == 13 then 114 else if u == QUOTE || u == BACKSLASH then u else 0
  }

  /** QuoteJSONString for one code unit that is not half of a surrogate pair. */
  function Escape(u: Unit): Text {
    if ShortEscape(u) != 0 then [BACKSLASH, ShortEscape(u)]
    else if u < 0x20 || HighSurrogate(u) || LowSurrogate(u) then UnicodeEscape(u)
    else [u]
  }

  predicate StartsWithPair(s: Text) {
    |s| >= 2 && HighSurrogate(s[0]) && LowSurrogate(s[1])
  }

  function QuotedBody(s: Text): Text {
    if s == [] then []
    else if StartsWithPair(s) then s[..2] + QuotedBody(s[2..])
    else Escape(s[0]) + QuotedBody(s[1..])
  }

  function Quote(s: Text): Text {
    [QUOTE] + QuotedBody(s) + [QUOTE]
  }

  // ---------------------------------------------------------------- numbers

  function Decimal(n: nat): seq<Digit> {
    if n < 10 then [n] else Decimal(n / 10) + [n % 10]
  }

  function DigitText(ds: seq<Digit>): Text {
    seq(|ds|, i requires 0 <= i < |ds| => (var u: int := ds[i]; 48 + u))
  }

  function Zeros(n: nat): Text {
    seq(n, _ => 48)
  }

  function ExponentText(n: int): Text {
    [LETTER_E] + [if n < 0 then MINUS else PLUS] + DigitText(Decimal(if n < 1 then 1 - n else n - 1))
  }

  function Magnitude(ds: seq<Digit>, n: int): Text
    requires ds != []
  {
    var k := |ds|;
    if -5 <= n <= 21 then
      if k <= n then DigitText(ds) + Zeros(n - k)
      else if 0 < n then DigitText(ds[..n]) + [POINT] + DigitText(ds[n..])
      else [48, POINT] + Zeros(-n) + DigitText(ds)
    else if k == 1 then DigitText(ds) + ExponentText(n)
    else DigitText(ds[..1]) + [POINT] + DigitText(ds[1..]) + ExponentText(n)
  }

  function NumberText(n: Number): Text {
    match n
    case Zero => [48]
    case Finite(negative, digits, exponent) =>
      (if negative then [MINUS] else []) + Magnitude(digits, exponent)
  }

  // ---------------------------------------------------------------- sorting and serializing

  type Order = (Text, Text) -> bool

  /** `a.localeCompare(b) <= 0` for some locale: total and transitive; distinct keys may tie. */
  ghost predicate TotalPreorder(le: Order) {
    && (forall a, b :: le(a, b) || le(b, a))
    && (forall a, b, c :: le(a, b) && le(b, c) ==> le(a, c))
  }

  /** Places x behind every entry that may stand before it: the step of a stable sort. */
  function Insert<T>(sorted: seq<Entry<T>>, x: Entry<T>, le: Order): (r: seq<Entry<T>>)
    ensures |r| == |sorted| + 1
  {
    if sorted == [] || le(sorted[|sorted| - 1].key, x.key) then sorted + [x]
    else Insert(sorted[..|sorted| - 1], x, le) + [sorted[|sorted| - 1]]
  }

  function Sort<T>(es: seq<Entry<T>>, le: Order): (r: seq<Entry<T>>)
    ensures |r| == |es|
  {
    if es == [] then [] else Insert(Sort(es[..|es| - 1], le), es[|es| - 1], le)
  }

  function JoinItems(texts: seq<Text>): Text {
    if texts == [] then []
    else if |texts| == 1 then texts[0]
    else texts[0] + [COMMA] + JoinItems(texts[1..])
  }

  function EntryText(e: Entry<Text>): Text {
    Quote(e.key) + [COLON] + e.value
  }

  function EntryTexts(es: seq<Entry<Text>>): seq<Text> {
    seq(|es|, i requires 0 <= i < |es| => EntryText(es[i]))
  }

  /** stableSerialize; sorting looks at keys only, so it may follow the serializing of the values. */
  function StableSerialize(v: Json, le: Order): Text {
    match v
    case Null => NULL_TEXT
    case Bool(b) => if b then TRUE_TEXT else FALSE_TEXT
    case Num(n) => NumberText(n)
    case Str(s) => Quote(s)
    case Arr(items) =>
      [OPEN_BRACKET]
      + JoinItems(seq(|items|, i requires 0 <= i < |items| => StableSerialize(items[i], le)))
      + [CLOSE_BRACKET]
    case Obj(fields) =>
      var entries := seq(|fields|, i requires 0 <= i < |fields| =>
        Entry(fields[i].key, StableSerialize(fields[i].value, le)));
      [OPEN_BRACE] + JoinItems(EntryTexts(Sort(entries, le))) + [CLOSE_BRACE]
  }

  /** Equal up to the order of object keys, at every level. */
  predicate Equivalent(v: Json, w: Json)
    decreases v
  {
    match (v, w)
    case (Arr(xs), Arr(ys)) => |xs| == |ys| && forall i :: 0 <= i < |xs| ==> Equivalent(xs[i], ys[i])
    case (Obj(fs), Obj(gs)) =>
      |fs| == |gs| && forall i :: 0 <= i < |fs| ==> HasEntry(gs, fs[i])
    case _ => v == w
  }

  predicate HasEntry(gs: seq<Entry<Json>>, e: Entry<Json>)
    decreases e
  {
    exists j :: 0 <= j < |gs| && e.key == gs[j].key && Equivalent(e.value, gs[j].value)
  }

  // ---------------------------------------------------------------- numbers print injectively

  ghost predicate NumberChar(u: Unit) {
    48 <= u <= 57 || u == PLUS || u == MINUS || u == POINT || u == LETTER_E
  }

  ghost predicate AllDigits(t: Text) {
    forall i :: 0 <= i < |t| ==> 48 <= t[i] <= 57
  }

  lemma DigitTextFacts(ds: seq<Digit>)
    ensures AllDigits(DigitText(ds)) && |DigitText(ds)| == |ds|
  {
  }

  lemma DigitTextInjective(ds: seq<Digit>, es: seq<Digit>)
    requires DigitText(ds) == DigitText(es)
    ensures ds == es
  {
    assert |ds| == |DigitText(ds)| == |es|;
    forall i | 0 <= i < |ds| ensures ds[i] == es[i] {
      assert DigitText(ds)[i] == DigitText(es)[i];
    }
  }

  function DecimalValue(ds: seq<Digit>): nat {
    if ds == [] then 0 else DecimalValue(ds[..|ds| - 1]) * 10 + ds[|ds| - 1]
  }

  lemma {:induction false} DecimalRoundTrip(n: nat)
    ensures DecimalValue(Decimal(n)) == n && Decimal(n) != []
  {
    if n < 10 {
      assert Decimal(n)[..0] == [];
    } else {
      DecimalRoundTrip(n / 10);
      assert Decimal(n)[..|Decimal(n)| - 1] == Decimal(n / 10);
    }
  }

  /** How many characters at the front of `t` belong to a class. */
  function LeadingRun(t: Text, p: Unit -> bool): nat {
    if t != [] && p(t[0]) then 1 + LeadingRun(t[1..], p) else 0
  }

  lemma {:induction false} LeadingRunIs(s: Text, a: Text, p: Unit -> bool)
    requires (forall i :: 0 <= i < |s| ==> p(s[i])) && (a != [] ==> !p(a[0]))
    ensures LeadingRun(s + a, p) == |s|
  {
    if s == [] {
      assert s + a == a;
    } else {
      assert (s + a)[1..] == s[1..] + a;
      LeadingRunIs(s[1..], a, p);
    }
  }

  /** A run of a class, ended by a character outside it, is cut off in one way only. */
  lemma RunUnique(s: Text, t: Text, a: Text, b: Text, p: Unit -> bool)
    requires (forall i :: 0 <= i < |s| ==> p(s[i])) && (a != [] ==> !p(a[0]))
    requires (forall i :: 0 <= i < |t| ==> p(t[i])) && (b != [] ==> !p(b[0]))
    requires s + a == t + b
    ensures s == t && a == b
  {
    LeadingRunIs(s, a, p);
    LeadingRunIs(t, b, p);
    assert (s + a)[..|s|] == s && (t + b)[..|t|] == t;
    assert (s + a)[|s|..] == a && (t + b)[|t|..] == b;
  }

  /** Text split at the first occurrence of a separator is split in one way only. */
  lemma SplitUnique(s: Text, t: Text, c: Unit, a: Text, b: Text)
    requires c !in s && c !in t && s + [c] + a == t + [c] + b
    ensures s == t && a == b
  {
    assert s + [c] + a == s + ([c] + a) && t + [c] + b == t + ([c] + b);
    RunUnique(s, t, [c] + a, [c] + b, u => u != c);
    assert ([c] + a)[1..] == a && ([c] + b)[1..] == b;
  }

  function TrailingZeros(t: Text): nat {
    if t != [] && t[|t| - 1] == 48 then 1 + TrailingZeros(t[..|t| - 1]) else 0
  }

  lemma {:induction false} TrailingZerosAre(s: Text, m: nat)
    requires s != [] && s[|s| - 1] != 48
    ensures TrailingZeros(s + Zeros(m)) == m
  {
    if m == 0 {
      assert s + Zeros(0) == s;
    } else {
      assert (s + Zeros(m))[..|s| + m - 1] == s + Zeros(m - 1);
      TrailingZerosAre(s, m - 1);
    }
  }

  /** Significant digits followed by zeros, the last significant digit not zero. */
  lemma TrailingZerosUnique(ds: seq<Digit>, m: nat, es: seq<Digit>, n: nat)
    requires ds != [] && es != [] && ds[|ds| - 1] != 0 && es[|es| - 1] != 0
    requires DigitText(ds) + Zeros(m) == DigitText(es) + Zeros(n)
    ensures ds == es && m == n
  {
    TrailingZerosAre(DigitText(ds), m);
    TrailingZerosAre(DigitText(es), n);
    assert (DigitText(ds) + Zeros(m))[..|ds|] == DigitText(ds);
    assert (DigitText(es) + Zeros(n))[..|es|] == DigitText(es);
    assert |DigitText(ds) + Zeros(m)| == |ds| + m && |DigitText(es) + Zeros(n)| == |es| + n;
    DigitTextInjective(ds, es);
  }

  /** Zeros followed by significant digits, the first significant digit not zero. */
  lemma LeadingZerosUnique(m: nat, ds: seq<Digit>, n: nat, es: seq<Digit>)
    requires ds != [] && es != [] && ds[0] != 0 && es[0] != 0
    requires Zeros(m) + DigitText(ds) == Zeros(n) + DigitText(es)
    ensures ds == es && m == n
  {
    RunUnique(Zeros(m), Zeros(n), DigitText(ds), DigitText(es), u => u == 48);
    DigitTextInjective(ds, es);
  }

  /** The four layouts Number::toString chooses between. */
  datatype Layout = Integer | Mixed | Fraction | Scientific

  function LayoutOf(ds: seq<Digit>, n: int): Layout {
    if -5 <= n <= 21 then
      if |ds| <= n then Integer else if 0 < n then Mixed else Fraction
    else Scientific
  }

  /** The part before the exponent. */
  function Mantissa(ds: seq<Digit>): Text
    requires ds != []
  {
    if |ds| == 1 then DigitText(ds) else DigitText(ds[..1]) + [POINT] + DigitText(ds[1..])
  }

  lemma MantissaFacts(ds: seq<Digit>)
    requires ds != []
    ensures LETTER_E !in Mantissa(ds)
    ensures Mantissa(ds) != [] && 48 <= Mantissa(ds)[0] <= 57
    ensures forall i :: 0 <= i < |Mantissa(ds)| ==> NumberChar(Mantissa(ds)[i])
  {
  }

  lemma MantissaInjective(ds: seq<Digit>, es: seq<Digit>)
    requires ds != [] && es != [] && Mantissa(ds) == Mantissa(es)
    ensures ds == es
  {
    assert |Mantissa(ds)| == (if |ds| == 1 then 1 else |ds| + 1);
    assert |Mantissa(es)| == (if |es| == 1 then 1 else |es| + 1);
    if |ds| == 1 {
      DigitTextInjective(ds, es);
    } else {
      SplitUnique(DigitText(ds[..1]), DigitText(es[..1]), POINT, DigitText(ds[1..]), DigitText(es[1..]));
      DigitTextInjective(ds[..1], es[..1]);
      DigitTextInjective(ds[1..], es[1..]);
      assert ds == ds[..1] + ds[1..] && es == es[..1] + es[1..];
    }
  }

  lemma ScientificIsMantissaAndExponent(ds: seq<Digit>, n: int)
    requires ds != [] && LayoutOf(ds, n) == Scientific
    ensures Magnitude(ds, n)
            == Mantissa(ds) + [LETTER_E] + ([if n < 0 then MINUS else PLUS] + DigitText(Decimal(if n < 1 then 1 - n else n - 1)))
  {
  }

  /** The layout can be read off the text. */
  lemma LayoutShows(ds: seq<Digit>, n: int)
    requires ds != [] && ds[0] != 0
    ensures var t := Magnitude(ds, n);
            && t != [] && 48 <= t[0] <= 57
            && (LETTER_E in t <==> LayoutOf(ds, n) == Scientific)
            && (LayoutOf(ds, n) == Integer ==> POINT !in t)
            && (LayoutOf(ds, n) == Mixed ==> POINT in t)
            && (LayoutOf(ds, n) == Fraction ==> POINT in t)
            && (LayoutOf(ds, n) in {Integer, Mixed} ==> t[0] != 48)
            && (LayoutOf(ds, n) == Fraction ==> t[0] == 48 && |t| > 1)
  {
    var t := Magnitude(ds, n);
    match LayoutOf(ds, n) {
      case Integer =>
        assert AllDigits(t);
      case Mixed =>
        assert t[n] == POINT;
        assert t[0] == DigitText(ds)[0];
        forall i | 0 <= i < |t| ensures t[i] != LETTER_E {
        }
      case Fraction =>
        assert t[1] == POINT;
        forall i | 0 <= i < |t| ensures t[i] != LETTER_E {
        }
      case Scientific =>
        ScientificIsMantissaAndExponent(ds, n);
        MantissaFacts(ds);
        assert t[|Mantissa(ds)|] == LETTER_E;
    }
  }

  lemma ScientificInjective(ds: seq<Digit>, m: int, es: seq<Digit>, n: int)
    requires ds != [] && es != [] && LayoutOf(ds, m) == Scientific && LayoutOf(es, n) == Scientific
    requires Magnitude(ds, m) == Magnitude(es, n)
    ensures ds == es && m == n
  {
    ScientificIsMantissaAndExponent(ds, m);
    ScientificIsMantissaAndExponent(es, n);
    MantissaFacts(ds);
    MantissaFacts(es);
    var a := [if m < 0 then MINUS else PLUS] + DigitText(Decimal(if m < 1 then 1 - m else m - 1));
    var b := [if n < 0 then MINUS else PLUS] + DigitText(Decimal(if n < 1 then 1 - n else n - 1));
    SplitUnique(Mantissa(ds), Mantissa(es), LETTER_E, a, b);
    MantissaInjective(ds, es);
    assert a[0] == b[0] && a[1..] == b[1..];
    DigitTextInjective(Decimal(if m < 1 then 1 - m else m - 1), Decimal(if n < 1 then 1 - n else n - 1));
    DecimalRoundTrip(if m < 1 then 1 - m else m - 1);
    DecimalRoundTrip(if n < 1 then 1 - n else n - 1);
  }

  lemma SameLayout(ds: seq<Digit>, m: int, es: seq<Digit>, n: int)
    requires ds != [] && ds[0] != 0 && es != [] && es[0] != 0 && Magnitude(ds, m) == Magnitude(es, n)
    ensures LayoutOf(ds, m) == LayoutOf(es, n)
  {
    LayoutShows(ds, m);
    LayoutShows(es, n);
  }

  lemma MixedInjective(ds: seq<Digit>, m: int, es: seq<Digit>, n: int)
    requires ds != [] && es != [] && LayoutOf(ds, m) == Mixed && LayoutOf(es, n) == Mixed
    requires Magnitude(ds, m) == Magnitude(es, n)
    ensures ds == es && m == n
  {
    SplitUnique(DigitText(ds[..m]), DigitText(es[..n]), POINT, DigitText(ds[m..]), DigitText(es[n..]));
    DigitTextInjective(ds[..m], es[..n]);
    DigitTextInjective(ds[m..], es[n..]);
    assert ds == ds[..m] + ds[m..] && es == es[..n] + es[n..];
  }

  lemma FractionInjective(ds: seq<Digit>, m: int, es: seq<Digit>, n: int)
    requires ds != [] && es != [] && LayoutOf(ds, m) == Fraction && LayoutOf(es, n) == Fraction
    requires ds[0] != 0 && es[0] != 0 && Magnitude(ds, m) == Magnitude(es, n)
    ensures ds == es && m == n
  {
    var x, y := Magnitude(ds, m), Magnitude(es, n);
    assert x[2..] == Zeros(-m) + DigitText(ds) && y[2..] == Zeros(-n) + DigitText(es);
    LeadingZerosUnique(-m, ds, -n, es);
  }

  lemma MagnitudeInjective(ds: seq<Digit>, m: int, es: seq<Digit>, n: int)
    requires ds != [] && ds[0] != 0 && ds[|ds| - 1] != 0
    requires es != [] && es[0] != 0 && es[|es| - 1] != 0
    requires Magnitude(ds, m) == Magnitude(es, n)
    ensures ds == es && m == n
  {
    SameLayout(ds, m, es, n);
    match LayoutOf(ds, m) {
      case Integer =>
        TrailingZerosUnique(ds, m - |ds|, es, n - |es|);
      case Mixed =>
        MixedInjective(ds, m, es, n);
      case Fraction =>
        FractionInjective(ds, m, es, n);
      case Scientific =>
        ScientificInjective(ds, m, es, n);
    }
  }

  lemma MagnitudeChars(ds: seq<Digit>, n: int)
    requires ds != []
    ensures forall i :: 0 <= i < |Magnitude(ds, n)| ==> NumberChar(Magnitude(ds, n)[i])
  {
    if LayoutOf(ds, n) == Scientific {
      ScientificIsMantissaAndExponent(ds, n);
      MantissaFacts(ds);
      DigitTextFacts(Decimal(if n < 1 then 1 - n else n - 1));
    } else {
      DigitTextFacts(ds);
    }
  }

  lemma NumberTextChars(n: Number)
    ensures NumberText(n) != [] && (48 <= NumberText(n)[0] <= 57 || NumberText(n)[0] == MINUS)
    ensures forall i :: 0 <= i < |NumberText(n)| ==> NumberChar(NumberText(n)[i])
  {
    if n.Finite? {
      MagnitudeChars(n.digits, n.exponent);
      LayoutShows(n.digits, n.exponent);
    }
  }

  lemma NumberTextShows(n: Number)
    ensures n.Zero? <==> NumberText(n) == [48]
    ensures n.Finite? ==> (n.negative <==> NumberText(n)[0] == MINUS)
    ensures n.Finite? ==> Magnitude(n.digits, n.exponent) == if n.negative then NumberText(n)[1..] else NumberText(n)
  {
    if n.Finite? {
      LayoutShows(n.digits, n.exponent);
      assert Magnitude(n.digits, n.exponent) != [48] by { assert LETTER_E !in [48]; }
    }
  }

  /** Number::toString is injective on finite numbers (minus zero prints, and counts, as zero). */
  lemma NumberTextInjective(m: Number, n: Number)
    requires NumberText(m) == NumberText(n)
    ensures m == n
  {
    NumberTextShows(m);
    NumberTextShows(n);
    if m.Finite? {
      MagnitudeInjective(m.digits, m.exponent, n.digits, n.exponent);
    }
  }

  // ---------------------------------------------------------------- strings print injectively

  lemma HexDigits(u: Unit)
    ensures u == u / 4096 * 4096 + u / 256 % 16 * 256 + u / 16 % 16 * 16 + u % 16
    ensures u / 4096 < 16
  {
  }

  lemma UnicodeEscapeInjective(u: Unit, v: Unit)
    requires UnicodeEscape(u) == UnicodeEscape(v)
    ensures u == v
  {
    HexDigits(u);
    HexDigits(v);
    var x, y := UnicodeEscape(u), UnicodeEscape(v);
    assert x[2] == y[2] && x[3] == y[3] && x[4] == y[4] && x[5] == y[5];
  }

  /** The first two characters tell how long an escape is. */
  function EscapeLength(t: Text): nat {
    if t == [] || t[0] != BACKSLASH then 1 else if |t| > 1 && t[1] == LETTER_U then 6 else 2
  }

  lemma EscapeShape(u: Unit, k: Text)
    ensures EscapeLength(Escape(u) + k) == |Escape(u)|
    ensures Escape(u)[0] != QUOTE && !HighSurrogate(Escape(u)[0])
    ensures |Escape(u)| == 2 ==> Escape(u)[1] == ShortEscape(u) != 0
    ensures |Escape(u)| == 6 ==> Escape(u) == UnicodeEscape(u)
    ensures |Escape(u)| == 1 ==> Escape(u) == [u]
  {
  }

  lemma EscapeUnique(u: Unit, v: Unit, a: Text, b: Text)
    requires Escape(u) + a == Escape(v) + b
    ensures u == v && a == b
  {
    EscapeShape(u, a);
    EscapeShape(v, b);
    var n := |Escape(u)|;
    assert (Escape(u) + a)[..n] == Escape(u) && (Escape(v) + b)[..n] == Escape(v);
    assert (Escape(u) + a)[n..] == a && (Escape(v) + b)[n..] == b;
    assert Escape(u) == Escape(v);
    if n == 6 { UnicodeEscapeInjective(u, v); }
  }

  /** A quoted body, its closing quote, and what follows. */
  function BodyTo(s: Text, k: Text): Text {
    if s == [] then [QUOTE] + k
    else if StartsWithPair(s) then s[..2] + BodyTo(s[2..], k)
    else Escape(s[0]) + BodyTo(s[1..], k)
  }

  lemma Reassociate(a: Text, b: Text, c: Text, d: Text)
    ensures a + b + c + d == a + (b + c + d)
  {
  }

  lemma {:induction false} QuoteIsBodyTo(s: Text, k: Text)
    ensures QuotedBody(s) + [QUOTE] + k == BodyTo(s, k)
  {
    if s == [] {
    } else if StartsWithPair(s) {
      QuoteIsBodyTo(s[2..], k);
      Reassociate(s[..2], QuotedBody(s[2..]), [QUOTE], k);
    } else {
      QuoteIsBodyTo(s[1..], k);
      Reassociate(Escape(s[0]), QuotedBody(s[1..]), [QUOTE], k);
    }
  }

  lemma BodyToStarts(s: Text, k: Text)
    ensures BodyTo(s, k) != []
    ensures BodyTo(s, k)[0] == QUOTE <==> s == []
    ensures HighSurrogate(BodyTo(s, k)[0]) <==> StartsWithPair(s)
  {
    if s != [] { EscapeShape(s[0], []); }
  }

  lemma {:induction false} BodyToUnique(s: Text, t: Text, a: Text, b: Text)
    requires BodyTo(s, a) == BodyTo(t, b)
    ensures s == t && a == b
    decreases |s|
  {
    BodyToStarts(s, a);
    BodyToStarts(t, b);
    if s == [] {
      assert ([QUOTE] + a)[1..] == a && ([QUOTE] + b)[1..] == b;
    } else if StartsWithPair(s) {
      var x, y := BodyTo(s, a), BodyTo(t, b);
      assert x[..2] == s[..2] && y[..2] == t[..2];
      assert x[2..] == BodyTo(s[2..], a) && y[2..] == BodyTo(t[2..], b);
      BodyToUnique(s[2..], t[2..], a, b);
      assert s == s[..2] + s[2..] && t == t[..2] + t[2..];
    } else {
      EscapeUnique(s[0], t[0], BodyTo(s[1..], a), BodyTo(t[1..], b));
      BodyToUnique(s[1..], t[1..], a, b);
      assert s == [s[0]] + s[1..] && t == [t[0]] + t[1..];
    }
  }

  // ---------------------------------------------------------------- values print injectively

  /** The text of a value printed with its fields in the given order, and what follows. */
  function PrintTo(v: Json, k: Text): Text
    decreases v, 1
  {
    match v
    case Null => NULL_TEXT + k
    case Bool(b) => (if b then TRUE_TEXT else FALSE_TEXT) + k
    case Num(n) => NumberText(n) + k
    case Str(s) => [QUOTE] + BodyTo(s, k)
    case Arr(items) => [OPEN_BRACKET] + ItemsTo(items, [CLOSE_BRACKET] + k, true)
    case Obj(fields) => [OPEN_BRACE] + FieldsTo(fields, [CLOSE_BRACE] + k, true)
  }

  function ItemsTo(items: seq<Json>, k: Text, first: bool): Text
    decreases items, 0
  {
    if items == [] then k
    else (if first then [] else [COMMA]) + PrintTo(items[0], ItemsTo(items[1..], k, false))
  }

  function FieldsTo(fields: seq<Entry<Json>>, k: Text, first: bool): Text
    decreases fields, 0
  {
    if fields == [] then k
    else
      (if first then [] else [COMMA]) + [QUOTE]
      + BodyTo(fields[0].key, [COLON] + PrintTo(fields[0].value, FieldsTo(fields[1..], k, false)))
  }

  /** What may follow a value in a serialized text. */
  ghost predicate Stop(k: Text) {
    k == [] || k[0] == COMMA || k[0] == CLOSE_BRACKET || k[0] == CLOSE_BRACE
  }

  /** The first character of a printed value tells its kind. */
  ghost predicate Opens(v: Json, u: Unit) {
    match v
    case Null => u == 110
    case Bool(b) => u == if b then 116 else 102
    case Num(_) => 48 <= u <= 57 || u == MINUS
    case Str(_) => u == QUOTE
    case Arr(_) => u == OPEN_BRACKET
    case Obj(_) => u == OPEN_BRACE
  }

  lemma PrintOpens(v: Json, k: Text)
    ensures PrintTo(v, k) != [] && Opens(v, PrintTo(v, k)[0])
  {
    if v.Num? { NumberTextChars(v.n); }
  }

  lemma {:induction false} PrintUnique(v: Json, w: Json, a: Text, b: Text)
    requires Stop(a) && Stop(b) && PrintTo(v, a) == PrintTo(w, b)
    ensures v == w && a == b
    decreases v, 1
  {
    PrintOpens(v, a);
    PrintOpens(w, b);
    var x, y := PrintTo(v, a), PrintTo(w, b);
    match v {
      case Null => assert x[4..] == a && y[4..] == b;
      case Bool(c) => assert x[if c then 4 else 5..] == a && y[if c then 4 else 5..] == b;
      case Num(n) =>
        NumberTextChars(n);
        NumberTextChars(w.n);
        RunUnique(NumberText(n), NumberText(w.n), a, b, u => 48 <= u <= 57 || u == PLUS || u == MINUS || u == POINT || u == LETTER_E);
        NumberTextInjective(n, w.n);
      case Str(s) =>
        assert x[1..] == BodyTo(s, a) && y[1..] == BodyTo(w.s, b);
        BodyToUnique(s, w.s, a, b);
      case Arr(items) =>
        assert x[1..] == ItemsTo(items, [CLOSE_BRACKET] + a, true) && y[1..] == ItemsTo(w.items, [CLOSE_BRACKET] + b, true);
        ItemsUnique(items, w.items, a, b, true);
      case Obj(fields) =>
        assert x[1..] == FieldsTo(fields, [CLOSE_BRACE] + a, true) && y[1..] == FieldsTo(w.fields, [CLOSE_BRACE] + b, true);
        FieldsUnique(fields, w.fields, a, b, true);
    }
  }

  lemma ItemsToStarts(items: seq<Json>, a: Text, first: bool)
    ensures var t := ItemsTo(items, [CLOSE_BRACKET] + a, first);
            && t != []
            && (t[0] == CLOSE_BRACKET <==> items == [])
            && (!first ==> Stop(t))
  {
    if items != [] { PrintOpens(items[0], ItemsTo(items[1..], [CLOSE_BRACKET] + a, false)); }
  }

  lemma {:induction false} ItemsUnique(xs: seq<Json>, ys: seq<Json>, a: Text, b: Text, first: bool)
    requires ItemsTo(xs, [CLOSE_BRACKET] + a, first) == ItemsTo(ys, [CLOSE_BRACKET] + b, first)
    ensures xs == ys && a == b
    decreases xs, 0
  {
    ItemsToStarts(xs, a, first);
    ItemsToStarts(ys, b, first);
    if xs == [] {
      assert ([CLOSE_BRACKET] + a)[1..] == a && ([CLOSE_BRACKET] + b)[1..] == b;
    } else {
      var p, q := ItemsTo(xs[1..], [CLOSE_BRACKET] + a, false), ItemsTo(ys[1..], [CLOSE_BRACKET] + b, false);
      if first {
        assert PrintTo(xs[0], p) == ItemsTo(xs, [CLOSE_BRACKET] + a, first);
        assert PrintTo(ys[0], q) == ItemsTo(ys, [CLOSE_BRACKET] + b, first);
      } else {
        assert PrintTo(xs[0], p) == ItemsTo(xs, [CLOSE_BRACKET] + a, first)[1..];
        assert PrintTo(ys[0], q) == ItemsTo(ys, [CLOSE_BRACKET] + b, first)[1..];
      }
      ItemsToStarts(xs[1..], a, false);
      ItemsToStarts(ys[1..], b, false);
      PrintUnique(xs[0], ys[0], p, q);
      ItemsUnique(xs[1..], ys[1..], a, b, false);
      assert xs == [xs[0]] + xs[1..] && ys == [ys[0]] + ys[1..];
    }
  }

  lemma FieldsToStarts(fields: seq<Entry<Json>>, a: Text, first: bool)
    ensures var t := FieldsTo(fields, [CLOSE_BRACE] + a, first);
            && t != []
            && (t[0] == CLOSE_BRACE <==> fields == [])
            && (!first ==> Stop(t))
  {
  }

  lemma {:induction false} FieldsUnique(xs: seq<Entry<Json>>, ys: seq<Entry<Json>>, a: Text, b: Text, first: bool)
    requires FieldsTo(xs, [CLOSE_BRACE] + a, first) == FieldsTo(ys, [CLOSE_BRACE] + b, first)
    ensures xs == ys && a == b
    decreases xs, 0
  {
    FieldsToStarts(xs, a, first);
    FieldsToStarts(ys, b, first);
    if xs == [] {
      assert ([CLOSE_BRACE] + a)[1..] == a && ([CLOSE_BRACE] + b)[1..] == b;
    } else {
      var n := if first then 1 else 2;
      var p, q := FieldsTo(xs[1..], [CLOSE_BRACE] + a, false), FieldsTo(ys[1..], [CLOSE_BRACE] + b, false);
      var r, t := [COLON] + PrintTo(xs[0].value, p), [COLON] + PrintTo(ys[0].value, q);
      assert FieldsTo(xs, [CLOSE_BRACE] + a, first)[n..] == BodyTo(xs[0].key, r);
      assert FieldsTo(ys, [CLOSE_BRACE] + b, first)[n..] == BodyTo(ys[0].key, t);
      BodyToUnique(xs[0].key, ys[0].key, r, t);
      assert r[1..] == PrintTo(xs[0].value, p) && t[1..] == PrintTo(ys[0].value, q);
      FieldsToStarts(xs[1..], a, false);
      FieldsToStarts(ys[1..], b, false);
      PrintUnique(xs[0].value, ys[0].value, p, q);
      FieldsUnique(xs[1..], ys[1..], a, b, false);
      assert xs == [xs[0]] + xs[1..] && ys == [ys[0]] + ys[1..];
    }
  }
}
