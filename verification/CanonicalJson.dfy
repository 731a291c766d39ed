/**
 * What stableSerialize identifies. Its text is that of the value with the fields of every object
 * sorted, so two values with one text are equal up to key order whatever the locale; two values
 * equal up to key order have one text exactly when the locale orders the keys of every object
 * strictly. `localeCompare` may tie two distinct keys, and the stable sort then keeps them in the
 * order they came in.
 */
module CanonicalJson {
  import opened Json

  /** The value stableSerialize prints: the same one with the fields of every object sorted. */
  function Canon(v: Json, le: Order): Json {
    match v
    case Arr(items) => Arr(seq(|items|, i requires 0 <= i < |items| => Canon(items[i], le)))
    case Obj(fields) => Obj(Sort(CanonFields(v, le), le))
    case _ => v
  }

  function CanonFields(v: Json, le: Order): (r: seq<Entry<Json>>)
    requires v.Obj?
    ensures |r| == |v.fields|
    ensures forall i :: 0 <= i < |r| ==> r[i].key == v.fields[i].key
    decreases v, 0
  {
    seq(|v.fields|, i requires 0 <= i < |v.fields| =>
      Entry(v.fields[i].key, Canon(v.fields[i].value, le)))
  }

  /** No two keys of one object compare equal under the order, at any level. */
  predicate NoTies(v: Json, le: Order) {
    match v
    case Arr(items) => forall i :: 0 <= i < |items| ==> NoTies(items[i], le)
    case Obj(fields) =>
      && StrictKeys(fields, le)
      && forall i :: 0 <= i < |fields| ==> NoTies(fields[i].value, le)
    case _ => true
  }

  predicate StrictKeys<T>(es: seq<Entry<T>>, le: Order) {
    forall i, j :: 0 <= i < |es| && 0 <= j < |es| && i != j ==> !Tied(es[i].key, es[j].key, le)
  }

  predicate Tied(a: Text, b: Text, le: Order) {
    le(a, b) && le(b, a)
  }

  // ---------------------------------------------------------------- the sort

  lemma {:induction false} InsertMembers<T>(s: seq<Entry<T>>, x: Entry<T>, le: Order, e: Entry<T>)
    ensures e in Insert(s, x, le) <==> e in s || e == x
  {
    if s == [] || le(s[|s| - 1].key, x.key) {
    } else {
      InsertMembers(s[..|s| - 1], x, le, e);
      assert s == s[..|s| - 1] + [s[|s| - 1]];
    }
  }

  lemma {:induction false} SortMembers<T>(es: seq<Entry<T>>, le: Order, e: Entry<T>)
    ensures e in Sort(es, le) <==> e in es
  {
    if es != [] {
      var front, last := es[..|es| - 1], es[|es| - 1];
      SortMembers(front, le, e);
      InsertMembers(Sort(front, le), last, le, e);
      assert es == front + [last];
      assert e in es <==> e in front || e == last;
    }
  }

  ghost predicate Sorted<T>(s: seq<Entry<T>>, le: Order) {
    forall i, j :: 0 <= i < j < |s| ==> le(s[i].key, s[j].key)
  }

  lemma {:induction false} InsertSorts<T>(s: seq<Entry<T>>, x: Entry<T>, le: Order)
    requires TotalPreorder(le) && Sorted(s, le)
    ensures Sorted(Insert(s, x, le), le)
  {
    if s == [] || le(s[|s| - 1].key, x.key) {
      forall i | 0 <= i < |s| ensures le(s[i].key, x.key) {
        assert i == |s| - 1 || le(s[i].key, s[|s| - 1].key);
      }
    } else {
      var front, last := s[..|s| - 1], s[|s| - 1];
      InsertSorts(front, x, le);
      var r := Insert(front, x, le);
      forall i | 0 <= i < |r| ensures le(r[i].key, last.key) {
        InsertMembers(front, x, le, r[i]);
      }
    }
  }

  lemma {:induction false} SortSorts<T>(es: seq<Entry<T>>, le: Order)
    requires TotalPreorder(le)
    ensures Sorted(Sort(es, le), le)
  {
    if es != [] {
      SortSorts(es[..|es| - 1], le);
      InsertSorts(Sort(es[..|es| - 1], le), es[|es| - 1], le);
    }
  }

  lemma {:induction false} InsertKeepsDistinct<T>(s: seq<Entry<T>>, x: Entry<T>, le: Order)
    requires DistinctKeys(s) && forall i :: 0 <= i < |s| ==> s[i].key != x.key
    ensures DistinctKeys(Insert(s, x, le))
  {
    if s == [] || le(s[|s| - 1].key, x.key) {
    } else {
      var front, last := s[..|s| - 1], s[|s| - 1];
      InsertKeepsDistinct(front, x, le);
      var r := Insert(front, x, le);
      forall i | 0 <= i < |r| ensures r[i].key != last.key {
        InsertMembers(front, x, le, r[i]);
      }
    }
  }

  lemma {:induction false} SortKeepsDistinct<T>(es: seq<Entry<T>>, le: Order)
    requires DistinctKeys(es)
    ensures DistinctKeys(Sort(es, le))
  {
    if es != [] {
      var front := es[..|es| - 1];
      SortKeepsDistinct(front, le);
      forall i | 0 <= i < |front| ensures Sort(front, le)[i].key != es[|es| - 1].key {
        SortMembers(front, le, Sort(front, le)[i]);
      }
      InsertKeepsDistinct(Sort(front, le), es[|es| - 1], le);
    }
  }

  /** Some p < q with a at p and b at q. */
  ghost predicate Before<T(!new)>(s: seq<T>, a: T, b: T) {
    exists p, q :: 0 <= p < q < |s| && s[p] == a && s[q] == b
  }

  lemma {:induction false} InsertGoesBehind<T(!new)>(s: seq<Entry<T>>, x: Entry<T>, le: Order, a: Entry<T>)
    requires a in s && le(a.key, x.key)
    ensures Before(Insert(s, x, le), a, x)
  {
    if le(s[|s| - 1].key, x.key) {
      var p :| 0 <= p < |s| && s[p] == a;
      assert (s + [x])[p] == a && (s + [x])[|s|] == x;
    } else {
      var front := s[..|s| - 1];
      assert s == front + [s[|s| - 1]];
      InsertGoesBehind(front, x, le, a);
      var p, q :| 0 <= p < q < |Insert(front, x, le)| && Insert(front, x, le)[p] == a && Insert(front, x, le)[q] == x;
      assert Insert(s, x, le)[p] == a && Insert(s, x, le)[q] == x;
    }
  }

  lemma {:induction false} InsertKeepsOrder<T(!new)>(s: seq<Entry<T>>, x: Entry<T>, le: Order, a: Entry<T>, b: Entry<T>)
    requires Before(s, a, b)
    ensures Before(Insert(s, x, le), a, b)
  {
    var p, q :| 0 <= p < q < |s| && s[p] == a && s[q] == b;
    var r := Insert(s, x, le);
    if le(s[|s| - 1].key, x.key) {
      assert r[p] == a && r[q] == b;
    } else {
      var front := s[..|s| - 1];
      if q < |front| {
        assert front[p] == a && front[q] == b;
        InsertKeepsOrder(front, x, le, a, b);
        var p', q' :| 0 <= p' < q' < |Insert(front, x, le)| && Insert(front, x, le)[p'] == a && Insert(front, x, le)[q'] == b;
        assert r[p'] == a && r[q'] == b;
      } else {
        assert front[p] == a;
        InsertMembers(front, x, le, a);
        var p' :| 0 <= p' < |Insert(front, x, le)| && Insert(front, x, le)[p'] == a;
        assert r[p'] == a && r[|r| - 1] == b;
      }
    }
  }

  /** The sort is stable: what comes first and may stand first, stands first. */
  lemma {:induction false} SortIsStable<T(!new)>(es: seq<Entry<T>>, i: nat, j: nat, le: Order)
    requires i < j < |es| && le(es[i].key, es[j].key)
    ensures Before(Sort(es, le), es[i], es[j])
  {
    var front := es[..|es| - 1];
    if j == |front| {
      assert front[i] == es[i];
      SortMembers(front, le, es[i]);
      InsertGoesBehind(Sort(front, le), es[j], le, es[i]);
    } else {
      SortIsStable(front, i, j, le);
      InsertKeepsOrder(Sort(front, le), es[|es| - 1], le, es[i], es[j]);
    }
  }

  lemma HeadIsLeast<T>(s: seq<Entry<T>>, e: Entry<T>, le: Order)
    requires Sorted(s, le) && e in s && TotalPreorder(le)
    ensures le(s[0].key, e.key)
  {
    assert le(e.key, e.key);
  }

  lemma HeadsAgree<T>(s: seq<Entry<T>>, t: seq<Entry<T>>, le: Order)
    requires TotalPreorder(le) && s != [] && t != []
    requires Sorted(s, le) && Sorted(t, le) && StrictKeys(s, le) && s[0] in t && t[0] in s
    ensures s[0] == t[0]
  {
    HeadIsLeast(s, t[0], le);
    HeadIsLeast(t, s[0], le);
    var j :| 0 <= j < |s| && s[j] == t[0];
    assert Tied(s[0].key, s[j].key, le);
  }

  /** Strictly sorted sequences with the same elements are the same sequence. */
  lemma {:induction false} StrictlySortedUnique<T>(s: seq<Entry<T>>, t: seq<Entry<T>>, le: Order)
    requires TotalPreorder(le)
    requires |s| == |t| && Sorted(s, le) && Sorted(t, le) && StrictKeys(s, le) && StrictKeys(t, le)
    requires forall i :: 0 <= i < |s| ==> s[i] in t
    requires forall i :: 0 <= i < |t| ==> t[i] in s
    ensures s == t
  {
    if s != [] {
      HeadsAgree(s, t, le);
      StrictTail(s, t, le);
      StrictTail(t, s, le);
      StrictlySortedUnique(s[1..], t[1..], le);
      assert s == [s[0]] + s[1..] && t == [t[0]] + t[1..];
    }
  }

  lemma StrictTail<T>(s: seq<Entry<T>>, t: seq<Entry<T>>, le: Order)
    requires |s| == |t| > 0 && Sorted(s, le) && StrictKeys(s, le) && s[0] == t[0]
    requires forall i :: 0 <= i < |s| ==> s[i] in t
    ensures Sorted(s[1..], le) && StrictKeys(s[1..], le)
    ensures forall i :: 0 <= i < |s[1..]| ==> s[1..][i] in t[1..]
  {
    forall i | 0 <= i < |s[1..]| ensures s[1..][i] in t[1..] {
      assert s[1..][i] == s[i + 1] && le(s[0].key, s[i + 1].key) && !Tied(s[0].key, s[i + 1].key, le);
      var k :| 0 <= k < |t| && t[k] == s[i + 1];
      assert k != 0;
      assert t[1..][k - 1] == t[k];
    }
  }

  // ---------------------------------------------------------------- the text is the printed canon

  ghost predicate Prints(t: Text, v: Json) {
    forall k :: t + k == PrintTo(v, k)
  }

  ghost predicate PrintsEntry(e: Entry<Text>, f: Entry<Json>) {
    e.key == f.key && Prints(e.value, f.value)
  }

  lemma {:induction false} InsertAlongside(es: seq<Entry<Text>>, e: Entry<Text>, fs: seq<Entry<Json>>, f: Entry<Json>, le: Order)
    requires |es| == |fs| && PrintsEntry(e, f)
    requires forall i :: 0 <= i < |es| ==> PrintsEntry(es[i], fs[i])
    ensures forall i :: 0 <= i <= |es| ==> PrintsEntry(Insert(es, e, le)[i], Insert(fs, f, le)[i])
  {
    if es != [] {
      var n := |es| - 1;
      assert PrintsEntry(es[n], fs[n]);
      if !le(es[n].key, e.key) {
        InsertAlongside(es[..n], e, fs[..n], f, le);
      }
    }
  }

  /** Sorting the serialized entries is sorting the entries: only keys are compared. */
  lemma {:induction false} SortAlongside(es: seq<Entry<Text>>, fs: seq<Entry<Json>>, le: Order)
    requires |es| == |fs|
    requires forall i :: 0 <= i < |es| ==> PrintsEntry(es[i], fs[i])
    ensures forall i :: 0 <= i < |es| ==> PrintsEntry(Sort(es, le)[i], Sort(fs, le)[i])
  {
    if es != [] {
      var n := |es| - 1;
      SortAlongside(es[..n], fs[..n], le);
      assert PrintsEntry(es[n], fs[n]);
      InsertAlongside(Sort(es[..n], le), es[n], Sort(fs[..n], le), fs[n], le);
    }
  }

  lemma Glue(a: Text, b: Text, c: Text, d: Text)
    ensures a + b + c + d == a + (b + (c + d))
  {
  }

  lemma {:induction false} JoinedItems(ts: seq<Text>, vs: seq<Json>, k: Text)
    requires |ts| == |vs| && forall i :: 0 <= i < |ts| ==> Prints(ts[i], vs[i])
    ensures JoinItems(ts) + k == ItemsTo(vs, k, true)
    ensures ts != [] ==> [COMMA] + (JoinItems(ts) + k) == ItemsTo(vs, k, false)
  {
    if ts != [] {
      var rest := ItemsTo(vs[1..], k, false);
      assert Prints(ts[0], vs[0]);
      assert ItemsTo(vs, k, true) == ts[0] + rest;
      assert ItemsTo(vs, k, false) == [COMMA] + (ts[0] + rest);
      if |ts| == 1 {
        assert vs[1..] == [];
      } else {
        JoinedItems(ts[1..], vs[1..], k);
        Glue(ts[0], [COMMA], JoinItems(ts[1..]), k);
      }
    }
  }

  lemma EntryPrints(e: Entry<Text>, f: Entry<Json>, k: Text)
    requires PrintsEntry(e, f)
    ensures EntryText(e) + k == [QUOTE] + BodyTo(f.key, [COLON] + PrintTo(f.value, k))
  {
    QuoteIsBodyTo(e.key, [COLON] + (e.value + k));
    assert EntryText(e) + k == [QUOTE] + (QuotedBody(e.key) + [QUOTE] + ([COLON] + (e.value + k)));
  }

  lemma FirstField(e: Entry<Text>, fs: seq<Entry<Json>>, k: Text)
    requires fs != [] && PrintsEntry(e, fs[0])
    ensures FieldsTo(fs, k, true) == EntryText(e) + FieldsTo(fs[1..], k, false)
    ensures FieldsTo(fs, k, false) == [COMMA] + (EntryText(e) + FieldsTo(fs[1..], k, false))
  {
    EntryPrints(e, fs[0], FieldsTo(fs[1..], k, false));
  }

  lemma {:induction false} JoinedFields(es: seq<Entry<Text>>, fs: seq<Entry<Json>>, k: Text)
    requires |es| == |fs| && forall i :: 0 <= i < |es| ==> PrintsEntry(es[i], fs[i])
    ensures JoinItems(EntryTexts(es)) + k == FieldsTo(fs, k, true)
    ensures es != [] ==> [COMMA] + (JoinItems(EntryTexts(es)) + k) == FieldsTo(fs, k, false)
  {
    if es != [] {
      FirstField(es[0], fs, k);
      if |es| == 1 {
        assert EntryTexts(es) == [EntryText(es[0])] && fs[1..] == [];
      } else {
        JoinedFields(es[1..], fs[1..], k);
        assert EntryTexts(es)[1..] == EntryTexts(es[1..]);
        Glue(EntryText(es[0]), [COMMA], JoinItems(EntryTexts(es[1..])), k);
      }
    }
  }

  lemma ItemsPrint(ts: seq<Text>, vs: seq<Json>)
    requires |ts| == |vs| && forall i :: 0 <= i < |ts| ==> Prints(ts[i], vs[i])
    ensures Prints([OPEN_BRACKET] + JoinItems(ts) + [CLOSE_BRACKET], Arr(vs))
  {
    forall k ensures [OPEN_BRACKET] + JoinItems(ts) + [CLOSE_BRACKET] + k == PrintTo(Arr(vs), k) {
      JoinedItems(ts, vs, [CLOSE_BRACKET] + k);
      Glue([OPEN_BRACKET], JoinItems(ts), [CLOSE_BRACKET], k);
    }
  }

  lemma FieldsPrint(es: seq<Entry<Text>>, fs: seq<Entry<Json>>)
    requires |es| == |fs| && forall i :: 0 <= i < |es| ==> PrintsEntry(es[i], fs[i])
    ensures Prints([OPEN_BRACE] + JoinItems(EntryTexts(es)) + [CLOSE_BRACE], Obj(fs))
  {
    forall k ensures [OPEN_BRACE] + JoinItems(EntryTexts(es)) + [CLOSE_BRACE] + k == PrintTo(Obj(fs), k) {
      JoinedFields(es, fs, [CLOSE_BRACE] + k);
      Glue([OPEN_BRACE], JoinItems(EntryTexts(es)), [CLOSE_BRACE], k);
    }
  }

  lemma QuotePrints(s: Text)
    ensures Prints(Quote(s), Str(s))
  {
    forall k ensures Quote(s) + k == PrintTo(Str(s), k) {
      QuoteIsBodyTo(s, k);
      assert Quote(s) + k == [QUOTE] + (QuotedBody(s) + [QUOTE] + k);
    }
  }

  /** stableSerialize is the plain printer after sorting: one text per canonical value. */
  lemma {:induction false} SerializePrintsCanon(v: Json, le: Order)
    ensures Prints(StableSerialize(v, le), Canon(v, le))
    decreases v
  {
    match v {
      case Str(s) =>
        QuotePrints(s);
      case Arr(items) =>
        var ts := seq(|items|, i requires 0 <= i < |items| => StableSerialize(items[i], le));
        var vs := Canon(v, le).items;
        forall i | 0 <= i < |items| ensures Prints(ts[i], vs[i]) { SerializePrintsCanon(items[i], le); }
        ItemsPrint(ts, vs);
      case Obj(fields) =>
        var es := seq(|fields|, i requires 0 <= i < |fields| => Entry(fields[i].key, StableSerialize(fields[i].value, le)));
        var fs := CanonFields(v, le);
        forall i | 0 <= i < |fields| ensures PrintsEntry(es[i], fs[i]) { SerializePrintsCanon(fields[i].value, le); }
        SortAlongside(es, fs, le);
        FieldsPrint(Sort(es, le), Sort(fs, le));
      case _ =>
    }
  }

  /** The text determines the canonical value, for any comparison at all. */
  lemma SameTextIffSameCanon(v: Json, w: Json, le: Order)
    ensures StableSerialize(v, le) == StableSerialize(w, le) <==> Canon(v, le) == Canon(w, le)
  {
    SerializePrintsCanon(v, le);
    SerializePrintsCanon(w, le);
    var s, t := StableSerialize(v, le), StableSerialize(w, le);
    assert s + [] == s && t + [] == t;
    if s == t {
      PrintUnique(Canon(v, le), Canon(w, le), [], []);
    }
  }

  // ---------------------------------------------------------------- text and equivalence

  lemma {:induction false} SameCanonIsEquivalent(v: Json, w: Json, le: Order)
    requires Canon(v, le) == Canon(w, le)
    ensures Equivalent(v, w)
    decreases v
  {
    match v {
      case Arr(xs) =>
        var ys := w.items;
        assert |Canon(v, le).items| == |xs| && |Canon(w, le).items| == |ys|;
        forall i | 0 <= i < |xs| ensures Equivalent(xs[i], ys[i]) {
          assert Canon(v, le).items[i] == Canon(w, le).items[i];
          SameCanonIsEquivalent(xs[i], ys[i], le);
        }
      case Obj(fs) =>
        var gs := w.fields;
        var cf, cg := CanonFields(v, le), CanonFields(w, le);
        assert Sort(cf, le) == Sort(cg, le);
        forall i | 0 <= i < |fs| ensures HasEntry(gs, fs[i]) {
          SortMembers(cf, le, cf[i]);
          SortMembers(cg, le, cf[i]);
          var j :| 0 <= j < |cg| && cg[j] == cf[i];
          SameCanonIsEquivalent(fs[i].value, gs[j].value, le);
        }
      case _ =>
    }
  }

  /** Injective: whatever the locale, one text means equal up to key order at every level. */
  lemma SameTextIsEquivalent(v: Json, w: Json, le: Order)
    requires StableSerialize(v, le) == StableSerialize(w, le)
    ensures Equivalent(v, w)
  {
    SameTextIffSameCanon(v, w, le);
    SameCanonIsEquivalent(v, w, le);
  }

  function Elements<T(==)>(es: seq<T>): set<T> {
    set i | 0 <= i < |es| :: es[i]
  }

  lemma {:induction false} DistinctCount<T>(es: seq<Entry<T>>)
    requires DistinctKeys(es)
    ensures |Elements(es)| == |es|
  {
    if es == [] {
    } else {
      var front, last := es[..|es| - 1], es[|es| - 1];
      DistinctCount(front);
      assert forall i :: 0 <= i < |front| ==> front[i] == es[i];
      assert Elements(es) == Elements(front) + {last};
      assert last !in Elements(front);
    }
  }

  /** As many distinct elements, each found in the other sequence: the converse holds too. */
  lemma DistinctCovers<T>(es: seq<Entry<T>>, fs: seq<Entry<T>>)
    requires |es| == |fs| && DistinctKeys(es) && DistinctKeys(fs)
    requires forall i :: 0 <= i < |es| ==> es[i] in fs
    ensures forall j :: 0 <= j < |fs| ==> fs[j] in es
  {
    DistinctCount(es);
    DistinctCount(fs);
    assert Elements(es) <= Elements(fs);
    EqualWhenAsMany(Elements(es), Elements(fs));
    forall j | 0 <= j < |fs| ensures fs[j] in es {
      assert fs[j] in Elements(fs);
    }
  }

  lemma EqualWhenAsMany<T>(s: set<T>, t: set<T>)
    requires s <= t && |s| == |t|
    ensures s == t
  {
    assert |t - s| == |t| - |s|;
  }

  lemma StrictKeysCarry<S, T>(es: seq<Entry<S>>, fs: seq<Entry<T>>, le: Order)
    requires StrictKeys(es, le) && DistinctKeys(fs)
    requires forall i :: 0 <= i < |fs| ==> exists j :: 0 <= j < |es| && es[j].key == fs[i].key
    ensures StrictKeys(fs, le)
  {
    forall i, j | 0 <= i < |fs| && 0 <= j < |fs| && i != j ensures !Tied(fs[i].key, fs[j].key, le) {
      var p :| 0 <= p < |es| && es[p].key == fs[i].key;
      var q :| 0 <= q < |es| && es[q].key == fs[j].key;
      assert fs[i].key != fs[j].key;
      assert p != q;
    }
  }

  lemma {:induction false} EquivalentHasSameCanon(v: Json, w: Json, le: Order)
    requires TotalPreorder(le) && Valid(v) && Valid(w) && Equivalent(v, w) && NoTies(v, le)
    ensures Canon(v, le) == Canon(w, le)
    decreases v
  {
    match v {
      case Arr(xs) =>
        var ys := w.items;
        forall i | 0 <= i < |xs| ensures Canon(v, le).items[i] == Canon(w, le).items[i] {
          EquivalentHasSameCanon(xs[i], ys[i], le);
        }
      case Obj(fs) =>
        var gs := w.fields;
        var cf, cg := CanonFields(v, le), CanonFields(w, le);
        forall i | 0 <= i < |fs| ensures cf[i] in cg {
          assert HasEntry(gs, fs[i]);
          var j :| 0 <= j < |gs| && fs[i].key == gs[j].key && Equivalent(fs[i].value, gs[j].value);
          EquivalentHasSameCanon(fs[i].value, gs[j].value, le);
          assert cg[j] == cf[i];
        }
        SameSortedFields(cf, cg, le);
      case _ =>
    }
  }

  lemma SameSortedFields(cf: seq<Entry<Json>>, cg: seq<Entry<Json>>, le: Order)
    requires TotalPreorder(le) && |cf| == |cg| && DistinctKeys(cf) && DistinctKeys(cg) && StrictKeys(cf, le)
    requires forall i :: 0 <= i < |cf| ==> cf[i] in cg
    ensures Sort(cf, le) == Sort(cg, le)
  {
    DistinctCovers(cf, cg);
    var s, t := Sort(cf, le), Sort(cg, le);
    forall i | 0 <= i < |s| ensures s[i] in t && s[i] in cf {
      SortMembers(cf, le, s[i]);
      SortMembers(cg, le, s[i]);
    }
    forall i | 0 <= i < |t| ensures t[i] in s && t[i] in cf {
      SortMembers(cg, le, t[i]);
      SortMembers(cf, le, t[i]);
    }
    SortSorts(cf, le);
    SortSorts(cg, le);
    SortKeepsDistinct(cf, le);
    SortKeepsDistinct(cg, le);
    StrictKeysCarry(cf, s, le);
    StrictKeysCarry(cf, t, le);
    StrictlySortedUnique(s, t, le);
  }

  lemma {:induction false} EquivalentReflexive(v: Json)
    ensures Equivalent(v, v)
  {
    match v {
      case Arr(items) => forall i | 0 <= i < |items| ensures Equivalent(items[i], items[i]) { EquivalentReflexive(items[i]); }
      case Obj(fields) =>
        forall i | 0 <= i < |fields| ensures HasEntry(fields, fields[i]) {
          EquivalentReflexive(fields[i].value);
        }
      case _ =>
    }
  }

  // ---------------------------------------------------------------- ties

  lemma SwapIsEquivalent(fields: seq<Entry<Json>>, i: nat, j: nat)
    requires i < j < |fields|
    ensures Equivalent(Obj(fields), Obj(fields[i := fields[j]][j := fields[i]]))
    ensures Valid(Obj(fields)) ==> Valid(Obj(fields[i := fields[j]][j := fields[i]]))
  {
    var swapped := fields[i := fields[j]][j := fields[i]];
    forall m | 0 <= m < |fields| ensures HasEntry(swapped, fields[m]) {
      EquivalentReflexive(fields[m].value);
      assert fields[m] == swapped[if m == i then j else if m == j then i else m];
    }
  }

  /** Two tied keys swapped: equal up to key order, printed in the other order. */
  lemma SwapShows(fields: seq<Entry<Json>>, i: nat, j: nat, le: Order)
    requires DistinctKeys(fields) && i < j < |fields| && Tied(fields[i].key, fields[j].key, le)
    ensures Canon(Obj(fields), le) != Canon(Obj(fields[i := fields[j]][j := fields[i]]), le)
  {
    var w := Obj(fields[i := fields[j]][j := fields[i]]);
    var cf, cg := CanonFields(Obj(fields), le), CanonFields(w, le);
    SortIsStable(cf, i, j, le);
    SortIsStable(cg, i, j, le);
    SortKeepsDistinct(cf, le);
    NotBothBefore(Sort(cf, le), Sort(cg, le), cf[i], cf[j]);
  }

  lemma NotBothBefore(s: seq<Entry<Json>>, t: seq<Entry<Json>>, a: Entry<Json>, b: Entry<Json>)
    requires DistinctKeys(s) && Before(s, a, b) && Before(t, b, a)
    ensures s != t
  {
    var p, q :| 0 <= p < q < |s| && s[p] == a && s[q] == b;
    var p', q' :| 0 <= p' < q' < |t| && t[p'] == b && t[q'] == a;
    if p == q' {
      assert s[p'] != b || p' == q;
    } else {
      assert q' < |s| ==> s[q'] != a;
    }
  }

  /** A value inside an object replaced by one with another text changes the object's text. */
  lemma FieldChange(fields: seq<Entry<Json>>, i: nat, x: Json, le: Order)
    requires Valid(Obj(fields)) && i < |fields| && Canon(fields[i].value, le) != Canon(x, le)
    ensures Canon(Obj(fields), le) != Canon(Obj(fields[i := Entry(fields[i].key, x)]), le)
  {
    var w := Obj(fields[i := Entry(fields[i].key, x)]);
    var cf, cg := CanonFields(Obj(fields), le), CanonFields(w, le);
    forall j | 0 <= j < |cg| ensures cg[j] != cf[i] {
      if j != i { assert cg[j].key == fields[j].key; }
    }
    SortMembers(cf, le, cf[i]);
    SortMembers(cg, le, cf[i]);
  }

  lemma FieldEquivalent(fields: seq<Entry<Json>>, i: nat, x: Json)
    requires Valid(Obj(fields)) && i < |fields| && Valid(x) && Equivalent(fields[i].value, x)
    ensures Valid(Obj(fields[i := Entry(fields[i].key, x)]))
    ensures Equivalent(Obj(fields), Obj(fields[i := Entry(fields[i].key, x)]))
  {
    var changed := fields[i := Entry(fields[i].key, x)];
    forall j | 0 <= j < |fields| ensures HasEntry(changed, fields[j]) {
      EquivalentReflexive(fields[j].value);
      assert fields[j].key == changed[j].key;
    }
  }

  lemma TiedKeysShow(fields: seq<Entry<Json>>, le: Order) returns (w: Json)
    requires Valid(Obj(fields)) && !StrictKeys(fields, le)
    ensures Valid(w) && Equivalent(Obj(fields), w) && Canon(Obj(fields), le) != Canon(w, le)
  {
    var i, j :| 0 <= i < |fields| && 0 <= j < |fields| && i != j && Tied(fields[i].key, fields[j].key, le);
    var p, q := if i < j then i else j, if i < j then j else i;
    w := Obj(fields[p := fields[q]][q := fields[p]]);
    SwapIsEquivalent(fields, p, q);
    SwapShows(fields, p, q, le);
  }

  lemma ItemChange(items: seq<Json>, i: nat, x: Json, le: Order)
    requires Valid(Arr(items)) && i < |items|
    requires Valid(x) && Equivalent(items[i], x) && Canon(items[i], le) != Canon(x, le)
    ensures Valid(Arr(items[i := x])) && Equivalent(Arr(items), Arr(items[i := x]))
    ensures Canon(Arr(items), le) != Canon(Arr(items[i := x]), le)
  {
    var w := items[i := x];
    forall j | 0 <= j < |items| ensures Equivalent(items[j], w[j]) {
      if j != i { EquivalentReflexive(items[j]); }
    }
    assert Canon(Arr(items), le).items[i] != Canon(Arr(w), le).items[i];
  }

  /** Wherever two keys tie, some value equal up to key order prints differently. */
  lemma {:induction false} TiesShow(v: Json, le: Order) returns (w: Json)
    requires Valid(v) && !NoTies(v, le)
    ensures Valid(w) && Equivalent(v, w) && Canon(v, le) != Canon(w, le)
    decreases v
  {
    if v.Arr? {
      var i :| 0 <= i < |v.items| && !NoTies(v.items[i], le);
      var x := TiesShow(v.items[i], le);
      ItemChange(v.items, i, x, le);
      w := Arr(v.items[i := x]);
    } else if !StrictKeys(v.fields, le) {
      w := TiedKeysShow(v.fields, le);
    } else {
      var i :| 0 <= i < |v.fields| && !NoTies(v.fields[i].value, le);
      var x := TiesShow(v.fields[i].value, le);
      FieldEquivalent(v.fields, i, x);
      FieldChange(v.fields, i, x, le);
      w := Obj(v.fields[i := Entry(v.fields[i].key, x)]);
    }
  }

  /** U+00E9 and its decomposition U+0065 U+0301 are distinct keys that localeCompare calls equal. */
  lemma ComposedKeysPrintTwoWays(le: Order)
    requires Tied([0xE9], [0x65, 0x301], le)
    ensures var v := Obj([Entry([0xE9], Null), Entry([0x65, 0x301], Bool(true))]);
            var w := Obj([Entry([0x65, 0x301], Bool(true)), Entry([0xE9], Null)]);
            Valid(v) && Valid(w) && Equivalent(v, w) && StableSerialize(v, le) != StableSerialize(w, le)
  {
    var fields := [Entry([0xE9], Null), Entry([0x65, 0x301], Bool(true))];
    assert fields[0].key != fields[1].key;
    SwapIsEquivalent(fields, 0, 1);
    SwapShows(fields, 0, 1, le);
    var w := Obj([Entry([0x65, 0x301], Bool(true)), Entry([0xE9], Null)]);
    assert fields[0 := fields[1]][1 := fields[0]] == w.fields;
    SameTextIffSameCanon(Obj(fields), w, le);
  }

  /**
   * The law the request hashes rest on, and exactly when it holds: v prints like every value equal
   * to it up to key order if and only if no two keys of one of its objects tie.
   */
  lemma PrintsCanonicallyIffNoTies(v: Json, le: Order)
    requires TotalPreorder(le) && Valid(v)
    ensures (forall w :: Valid(w) && Equivalent(v, w) ==> StableSerialize(v, le) == StableSerialize(w, le))
            <==> NoTies(v, le)
  {
    if NoTies(v, le) {
      forall w | Valid(w) && Equivalent(v, w) ensures StableSerialize(v, le) == StableSerialize(w, le) {
        EquivalentHasSameCanon(v, w, le);
        SameTextIffSameCanon(v, w, le);
      }
    } else {
      var w := TiesShow(v, le);
      SameTextIffSameCanon(v, w, le);
    }
  }

  /** With no ties: same text if and only if equal up to key order. */
  lemma SameTextIffEquivalent(v: Json, w: Json, le: Order)
    requires TotalPreorder(le) && Valid(v) && Valid(w) && NoTies(v, le)
    ensures StableSerialize(v, le) == StableSerialize(w, le) <==> Equivalent(v, w)
  {
    if StableSerialize(v, le) == StableSerialize(w, le) { SameTextIsEquivalent(v, w, le); }
    if Equivalent(v, w) { PrintsCanonicallyIffNoTies(v, le); }
  }

  /** An order that never ties distinct keys, as comparing code units does, serves every value. */
  lemma {:induction false} StrictOrderNeverTies(v: Json, le: Order)
    requires Valid(v) && forall a, b :: le(a, b) && le(b, a) ==> a == b
    ensures NoTies(v, le)
  {
    match v {
      case Arr(items) => forall i | 0 <= i < |items| ensures NoTies(items[i], le) { StrictOrderNeverTies(items[i], le); }
      case Obj(fields) =>
        forall i | 0 <= i < |fields| ensures NoTies(fields[i].value, le) { StrictOrderNeverTies(fields[i].value, le); }
      case _ =>
    }
  }
}
