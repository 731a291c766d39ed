/**
 * normalizeJsonValue over an object graph that may share nodes and close cycles: a depth-first walk
 * with one counter of visited values and one set of objects on the way down.
 */
module PayloadGraph {
  import opened Prelude

  datatype Primitive = Null | Bool(b: bool) | Number(text: string) | Text(s: string)

  type Ref = nat

  /** What a property or element holds; `Unsupported` is undefined, a bigint, a symbol or a function. */
  datatype Value = Leaf(p: Primitive) | NotFinite | Unsupported | Object(r: Ref)

  datatype Kind = Array | Plain | Exotic

  /** An object: its elements, or the values of its own enumerable string keys in order. */
  datatype Node = Node(kind: Kind, keys: seq<string>, items: seq<Value>)

  type Graph = map<Ref, Node>

  datatype Field = Field(key: string, value: Tree)

  datatype Tree = LeafTree(p: Primitive) | ArrayTree(items: seq<Tree>) | ObjectTree(fields: seq<Field>)

  datatype Code = InvalidInput | NonJson | LimitExceeded

  const MAX_DEPTH := 20
  const MAX_NODES := 10000

  ghost predicate Closed(g: Graph) {
    forall r :: r in g ==>
      && (g[r].kind == Plain ==> |g[r].keys| == |g[r].items|)
      && forall i :: 0 <= i < |g[r].items| ==> Known(g, g[r].items[i])
  }

  predicate Known(g: Graph, v: Value) {
    v.Object? ==> v.r in g
  }

  // ---------------------------------------------------------------- keys

  predicate Control(c: char) {
    var u := c as int;
    u <= 8 || u == 11 || u == 12 || 14 <= u <= 31 || u == 127
  }

  predicate ValidKey(key: string) {
    var k := Trim(key);
    0 < |k| <= 256 && forall i :: 0 <= i < |k| ==> !Control(k[i])
  }

  /** Index of a key among fields, or their number. */
  function Position(fields: seq<Field>, key: string): (i: nat)
    ensures i <= |fields|
    ensures i < |fields| ==> fields[i].key == key
    ensures forall j :: 0 <= j < i ==> fields[j].key != key
  {
    if fields == [] || fields[0].key == key then 0 else 1 + Position(fields[1..], key)
  }

  const PROTO := "__proto__"

  /** `object[key] = value` on a plain object: `__proto__` makes no own property. */
  function Assign(fields: seq<Field>, key: string, value: Tree): seq<Field> {
    var i := Position(fields, key);
    if key == PROTO then fields
    else if i < |fields| then fields[i := Field(key, value)]
    else fields + [Field(key, value)]
  }

  // ---------------------------------------------------------------- the unfolding

  /** Unfolded from this value at this depth, everything is supported and no deeper than the limit. */
  ghost predicate Fits(g: Graph, v: Value, depth: nat)
    requires Closed(g) && Known(g, v) && depth <= MAX_DEPTH + 1
    decreases MAX_DEPTH + 1 - depth
  {
    && depth <= MAX_DEPTH
    && match v
       case Leaf(_) => true
       case Object(r) =>
         && !g[r].kind.Exotic?
         && (forall i :: 0 <= i < |g[r].items| ==> ItemFits(g, r, i, depth))
       case _ => false
  }

  ghost predicate ItemFits(g: Graph, r: Ref, i: nat, depth: nat)
    requires Closed(g) && r in g && i < |g[r].items| && depth <= MAX_DEPTH
    decreases MAX_DEPTH + 1 - depth, 0
  {
    (g[r].kind.Plain? ==> ValidKey(g[r].keys[i])) && Fits(g, g[r].items[i], depth + 1)
  }

  /** On the way down from the ancestors, the value has a fault that the code names. */
  ghost predicate Faulty(g: Graph, v: Value, depth: nat, ancestors: set<Ref>, code: Code)
    requires Closed(g) && Known(g, v) && depth <= MAX_DEPTH + 1
    decreases MAX_DEPTH + 1 - depth, 2
  {
    if depth > MAX_DEPTH then code == LimitExceeded
    else
      match v
      case Leaf(_) => false
      case Object(r) =>
        if r in ancestors || g[r].kind.Exotic? then code == NonJson
        else ItemsFaulty(g, r, depth, ancestors + {r}, code)
      case _ => code == NonJson
  }

  ghost predicate ItemsFaulty(g: Graph, r: Ref, depth: nat, ancestors: set<Ref>, code: Code)
    requires Closed(g) && r in g && depth <= MAX_DEPTH
    decreases MAX_DEPTH + 1 - depth, 1
  {
    exists i :: 0 <= i < |g[r].items| && ItemFaulty(g, r, i, depth, ancestors, code)
  }

  ghost predicate ItemFaulty(g: Graph, r: Ref, i: nat, depth: nat, ancestors: set<Ref>, code: Code)
    requires Closed(g) && r in g && i < |g[r].items| && depth <= MAX_DEPTH
    decreases MAX_DEPTH + 1 - depth, 0
  {
    (g[r].kind.Plain? && !ValidKey(g[r].keys[i]) && code == InvalidInput)
    || Faulty(g, g[r].items[i], depth + 1, ancestors, code)
  }

  /** How many values the unfolding has, cut below the depth limit. */
  function Size(g: Graph, v: Value, depth: nat): (n: nat)
    requires Closed(g) && Known(g, v) && depth <= MAX_DEPTH + 1
    ensures n >= 1
    decreases MAX_DEPTH + 1 - depth, 1, 0
  {
    if depth <= MAX_DEPTH && v.Object? then 1 + SizeTo(g, v.r, |g[v.r].items|, depth) else 1
  }

  /** The sizes of an object's first n items together. */
  function SizeTo(g: Graph, r: Ref, n: nat, depth: nat): nat
    requires Closed(g) && r in g && n <= |g[r].items| && depth <= MAX_DEPTH
    decreases MAX_DEPTH + 1 - depth, 0, n
  {
    if n == 0 then 0 else SizeTo(g, r, n - 1, depth) + Size(g, g[r].items[n - 1], depth + 1)
  }

  /** What the walk builds from a value that fits. */
  ghost function Built(g: Graph, v: Value, depth: nat): Tree
    requires Closed(g) && Known(g, v) && depth <= MAX_DEPTH + 1 && Fits(g, v, depth)
    decreases MAX_DEPTH + 1 - depth, 1, 0
  {
    match v
    case Leaf(p) => LeafTree(p)
    case Object(r) =>
      if g[r].kind.Array? then ArrayTree(ItemsTo(g, r, |g[r].items|, depth))
      else ObjectTree(FieldsTo(g, r, |g[r].items|, depth))
  }

  ghost function ItemsTo(g: Graph, r: Ref, n: nat, depth: nat): seq<Tree>
    requires Closed(g) && r in g && n <= |g[r].items| && depth <= MAX_DEPTH
    requires forall i :: 0 <= i < n ==> ItemFits(g, r, i, depth)
    decreases MAX_DEPTH + 1 - depth, 0, n
  {
    if n == 0 then []
    else
      assert ItemFits(g, r, n - 1, depth);
      ItemsTo(g, r, n - 1, depth) + [Built(g, g[r].items[n - 1], depth + 1)]
  }

  ghost function FieldsTo(g: Graph, r: Ref, n: nat, depth: nat): seq<Field>
    requires Closed(g) && r in g && g[r].kind.Plain? && n <= |g[r].items| && depth <= MAX_DEPTH
    requires forall i :: 0 <= i < n ==> ItemFits(g, r, i, depth)
    decreases MAX_DEPTH + 1 - depth, 0, n
  {
    if n == 0 then []
    else
      assert ItemFits(g, r, n - 1, depth);
      Assign(FieldsTo(g, r, n - 1, depth), Trim(g[r].keys[n - 1]), Built(g, g[r].items[n - 1], depth + 1))
  }

  // ---------------------------------------------------------------- cycles

  predicate Child(g: Graph, r: Ref, v: Value) {
    r in g && v in g[r].items
  }

  /** A way down the graph, each object an item of the one before. */
  ghost predicate Chain(g: Graph, path: seq<Ref>) {
    && (forall i :: 0 <= i < |path| ==> path[i] in g)
    && (forall i, j :: 0 <= i && j == i + 1 && j < |path| ==> Child(g, path[i], Object(path[j])))
  }

  lemma ChildFits(g: Graph, r: Ref, v: Value, depth: nat)
    requires Closed(g) && Child(g, r, v) && depth <= MAX_DEPTH && Fits(g, Object(r), depth)
    ensures Known(g, v) && Fits(g, v, depth + 1)
  {
    var i :| 0 <= i < |g[r].items| && g[r].items[i] == v;
    assert ItemFits(g, r, i, depth);
  }

  lemma {:induction false} ChainFits(g: Graph, path: seq<Ref>, j: nat, depth: nat)
    requires Closed(g) && Chain(g, path) && j < |path| && depth <= MAX_DEPTH && Fits(g, Object(path[0]), depth)
    ensures depth + j <= MAX_DEPTH && Fits(g, Object(path[j]), depth + j)
  {
    if j > 0 {
      ChainFits(g, path, j - 1, depth);
      assert Child(g, path[j - 1], Object(path[j]));
      ChildFits(g, path[j - 1], Object(path[j]), depth + j - 1);
    }
  }

  /** An object that reaches itself unfolds for ever: it fits at no depth. */
  lemma {:induction false} CycleNeverFits(g: Graph, path: seq<Ref>, depth: nat)
    requires Closed(g) && Chain(g, path) && path != [] && Child(g, path[|path| - 1], Object(path[0])) && depth <= MAX_DEPTH + 1
    ensures !Fits(g, Object(path[0]), depth)
    decreases MAX_DEPTH + 1 - depth
  {
    if Fits(g, Object(path[0]), depth) {
      ChainFits(g, path, |path| - 1, depth);
      ChildFits(g, path[|path| - 1], Object(path[0]), depth + |path| - 1);
      CycleNeverFits(g, path, depth + |path|);
    }
  }

  /** So a value met again on the way down to it does not fit. */
  lemma RevisitNeverFits(g: Graph, path: seq<Ref>, r: Ref, depth: nat)
    requires Closed(g) && Chain(g, path) && r in path && Child(g, path[|path| - 1], Object(r)) && depth <= MAX_DEPTH + 1
    ensures !Fits(g, Object(r), depth)
  {
    var i :| 0 <= i < |path| && path[i] == r;
    var tail := path[i..];
    forall a, b | 0 <= a && b == a + 1 && b < |tail| ensures Child(g, tail[a], Object(tail[b])) {
      assert Child(g, path[i + a], Object(path[i + b]));
    }
    CycleNeverFits(g, tail, depth);
  }

  lemma {:induction false} SizesGrow(g: Graph, r: Ref, m: nat, n: nat, depth: nat)
    requires Closed(g) && r in g && m <= n <= |g[r].items| && depth <= MAX_DEPTH
    ensures SizeTo(g, r, m, depth) <= SizeTo(g, r, n, depth)
  {
    if m < n { SizesGrow(g, r, m, n - 1, depth); }
  }

  // ---------------------------------------------------------------- the walk

  ghost predicate OnTheWay(g: Graph, path: seq<Ref>, ancestors: set<Ref>, v: Value, depth: nat) {
    && Closed(g) && Known(g, v) && |path| == depth <= MAX_DEPTH + 1 && Chain(g, path)
    && (forall r :: r in ancestors <==> r in path)
    && (path != [] ==> Child(g, path[|path| - 1], v))
  }

  /** The shared state of one normalisation. */
  class Walk {
    var nodes: nat
    var ancestors: set<Ref>

    constructor ()
      ensures nodes == 0 && ancestors == {}
    {
      nodes, ancestors := 0, {};
    }

    /**
     * normalizeJsonValue: it succeeds exactly when the value fits and the counter stays within the
     * limit, and it leaves the ancestors as it found them however it ends. `path` is the way here.
     */
    method NormalizeJsonValue(g: Graph, v: Value, depth: nat, ghost path: seq<Ref>) returns (r: Result<Tree, Code>)
      requires OnTheWay(g, path, ancestors, v, depth)
      modifies this
      ensures ancestors == old(ancestors)
      ensures r.Ok? <==> Fits(g, v, depth) && old(nodes) + Size(g, v, depth) <= MAX_NODES
      ensures r.Ok? ==> nodes == old(nodes) + Size(g, v, depth) && r.value == Built(g, v, depth)
      ensures r.Err? ==> Faulty(g, v, depth, ancestors, r.error)
                         || (r.error == LimitExceeded && old(nodes) + Size(g, v, depth) > MAX_NODES)
      decreases MAX_DEPTH + 1 - depth, 1
    {
      nodes := nodes + 1;
      if nodes > MAX_NODES || depth > MAX_DEPTH { return Err(LimitExceeded); }
      match v {
        case Leaf(p) =>
          return Ok(LeafTree(p));
        case NotFinite =>
          return Err(NonJson);
        case Unsupported =>
          return Err(NonJson);
        case Object(ref) =>
          if ref in ancestors {
            RevisitNeverFits(g, path, ref, depth);
            return Err(NonJson);
          }
          ancestors := ancestors + {ref};
          if g[ref].kind.Array? {
            r := WalkArray(g, ref, depth, path + [ref]);
          } else if g[ref].kind.Exotic? {
            r := Err(NonJson);
          } else {
            r := WalkObject(g, ref, depth, path + [ref]);
          }
          ancestors := ancestors - {ref};
          assert Fits(g, v, depth) <==> !g[ref].kind.Exotic? && ItemsFit(g, ref, |g[ref].items|, depth);
          assert Size(g, v, depth) == 1 + SizeTo(g, ref, |g[ref].items|, depth);
      }
    }

    /** `value.map(...)` */
    method WalkArray(g: Graph, ref: Ref, depth: nat, ghost path: seq<Ref>) returns (r: Result<Tree, Code>)
      requires OnTheObject(g, path, ancestors, ref, depth) && g[ref].kind.Array? && nodes <= MAX_NODES
      modifies this
      ensures ancestors == old(ancestors)
      ensures r.Ok? <==> ItemsFit(g, ref, |g[ref].items|, depth) && old(nodes) + SizeTo(g, ref, |g[ref].items|, depth) <= MAX_NODES
      ensures r.Ok? ==> nodes == old(nodes) + SizeTo(g, ref, |g[ref].items|, depth)
                        && r.value == ArrayTree(ItemsTo(g, ref, |g[ref].items|, depth))
      ensures r.Err? ==> ItemsFaulty(g, ref, depth, ancestors, r.error)
                         || (r.error == LimitExceeded && old(nodes) + SizeTo(g, ref, |g[ref].items|, depth) > MAX_NODES)
      decreases MAX_DEPTH + 1 - depth, 0
    {
      var items: seq<Tree> := [];
      for i := 0 to |g[ref].items|
        invariant ancestors == old(ancestors)
        invariant ItemsFit(g, ref, i, depth)
        invariant nodes == old(nodes) + SizeTo(g, ref, i, depth) <= MAX_NODES
        invariant items == ItemsTo(g, ref, i, depth)
      {
        var item := NormalizeJsonValue(g, g[ref].items[i], depth + 1, path);
        SizesGrow(g, ref, i + 1, |g[ref].items|, depth);
        assert ItemFits(g, ref, i, depth) <==> Fits(g, g[ref].items[i], depth + 1);
        if item.Err? {
          assert Faulty(g, g[ref].items[i], depth + 1, ancestors, item.error) ==> ItemFaulty(g, ref, i, depth, ancestors, item.error);
          return Err(item.error);
        }
        items := items + [item.value];
      }
      r := Ok(ArrayTree(items));
    }

    /** The loop over Object.entries. */
    method WalkObject(g: Graph, ref: Ref, depth: nat, ghost path: seq<Ref>) returns (r: Result<Tree, Code>)
      requires OnTheObject(g, path, ancestors, ref, depth) && g[ref].kind.Plain? && nodes <= MAX_NODES
      modifies this
      ensures ancestors == old(ancestors)
      ensures r.Ok? <==> ItemsFit(g, ref, |g[ref].items|, depth) && old(nodes) + SizeTo(g, ref, |g[ref].items|, depth) <= MAX_NODES
      ensures r.Ok? ==> nodes == old(nodes) + SizeTo(g, ref, |g[ref].items|, depth)
                        && r.value == ObjectTree(FieldsTo(g, ref, |g[ref].items|, depth))
      ensures r.Err? ==> ItemsFaulty(g, ref, depth, ancestors, r.error)
                         || (r.error == LimitExceeded && old(nodes) + SizeTo(g, ref, |g[ref].items|, depth) > MAX_NODES)
      decreases MAX_DEPTH + 1 - depth, 0
    {
      var normalized: seq<Field> := [];
      for i := 0 to |g[ref].items|
        invariant ancestors == old(ancestors)
        invariant ItemsFit(g, ref, i, depth)
        invariant nodes == old(nodes) + SizeTo(g, ref, i, depth) <= MAX_NODES
        invariant normalized == FieldsTo(g, ref, i, depth)
      {
        var key := g[ref].keys[i];
        if !ValidKey(key) {
          assert !ItemFits(g, ref, i, depth) && ItemFaulty(g, ref, i, depth, ancestors, InvalidInput);
          return Err(InvalidInput);
        }
        var item := NormalizeJsonValue(g, g[ref].items[i], depth + 1, path);
        SizesGrow(g, ref, i + 1, |g[ref].items|, depth);
        assert ItemFits(g, ref, i, depth) <==> Fits(g, g[ref].items[i], depth + 1);
        if item.Err? {
          assert Faulty(g, g[ref].items[i], depth + 1, ancestors, item.error) ==> ItemFaulty(g, ref, i, depth, ancestors, item.error);
          return Err(item.error);
        }
        normalized := Assign(normalized, Trim(key), item.value);
      }
      r := Ok(ObjectTree(normalized));
    }
  }

  /** On the way to an object's items, the object itself the last ancestor. */
  ghost predicate OnTheObject(g: Graph, path: seq<Ref>, ancestors: set<Ref>, ref: Ref, depth: nat) {
    && Closed(g) && ref in g && depth <= MAX_DEPTH && |path| == depth + 1 && Chain(g, path)
    && path[depth] == ref && (forall r :: r in ancestors <==> r in path)
  }

  ghost predicate ItemsFit(g: Graph, r: Ref, n: nat, depth: nat)
    requires Closed(g) && r in g && n <= |g[r].items| && depth <= MAX_DEPTH
  {
    forall i :: 0 <= i < n ==> ItemFits(g, r, i, depth)
  }

  /** One call on a whole payload: an error names a fault the payload has, or its size. */
  method NormalizePayload(g: Graph, root: Value) returns (r: Result<Tree, Code>)
    requires Closed(g) && Known(g, root)
    ensures r.Ok? <==> Fits(g, root, 0) && Size(g, root, 0) <= MAX_NODES
    ensures r.Ok? ==> r.value == Built(g, root, 0)
    ensures r.Err? ==> Faulty(g, root, 0, {}, r.error) || (r.error == LimitExceeded && Size(g, root, 0) > MAX_NODES)
  {
    var walk := new Walk();
    r := walk.NormalizeJsonValue(g, root, 0, []);
  }

  ghost predicate HasFault(g: Graph, v: Value, depth: nat, ancestors: set<Ref>)
    requires Closed(g) && Known(g, v) && depth <= MAX_DEPTH + 1
  {
    exists code :: Faulty(g, v, depth, ancestors, code)
  }

  /** A value has a fault exactly when it does not fit, wherever on the way down it is met. */
  lemma {:induction false} FaultyIffItDoesNotFit(g: Graph, v: Value, depth: nat, path: seq<Ref>, ancestors: set<Ref>)
    requires OnTheWay(g, path, ancestors, v, depth)
    ensures HasFault(g, v, depth, ancestors) <==> !Fits(g, v, depth)
    decreases MAX_DEPTH + 1 - depth
  {
    if depth > MAX_DEPTH {
      assert Faulty(g, v, depth, ancestors, LimitExceeded);
    } else if v.NotFinite? || v.Unsupported? {
      assert Faulty(g, v, depth, ancestors, NonJson);
    } else if v.Object? {
      if v.r in ancestors {
        RevisitNeverFits(g, path, v.r, depth);
        assert Faulty(g, v, depth, ancestors, NonJson);
      } else if g[v.r].kind.Exotic? {
        assert Faulty(g, v, depth, ancestors, NonJson);
      } else {
        var after := ancestors + {v.r};
        ItemsFaultyIffTheyDoNotFit(g, v.r, depth, path + [v.r], after);
        assert Fits(g, v, depth) <==> ItemsFit(g, v.r, |g[v.r].items|, depth);
        if HasFault(g, v, depth, ancestors) {
          var code :| Faulty(g, v, depth, ancestors, code);
          assert ItemsFaulty(g, v.r, depth, after, code);
        } else if code :| ItemsFaulty(g, v.r, depth, after, code) {
          assert Faulty(g, v, depth, ancestors, code);
        }
      }
    }
  }

  lemma {:induction false} ItemsFaultyIffTheyDoNotFit(g: Graph, r: Ref, depth: nat, path: seq<Ref>, ancestors: set<Ref>)
    requires OnTheObject(g, path, ancestors, r, depth)
    ensures (exists code :: ItemsFaulty(g, r, depth, ancestors, code)) <==> !ItemsFit(g, r, |g[r].items|, depth)
    decreases MAX_DEPTH + 1 - depth, 0
  {
    forall i | 0 <= i < |g[r].items|
      ensures HasFault(g, g[r].items[i], depth + 1, ancestors) <==> !Fits(g, g[r].items[i], depth + 1)
    {
      FaultyIffItDoesNotFit(g, g[r].items[i], depth + 1, path, ancestors);
    }
    if code :| ItemsFaulty(g, r, depth, ancestors, code) {
      assert ItemsFaulty(g, r, depth, ancestors, code);
      var i: nat :| i < |g[r].items| && ItemFaulty(g, r, i, depth, ancestors, code);
      var key := g[r].kind.Plain? && !ValidKey(g[r].keys[i]);
      assert key || Faulty(g, g[r].items[i], depth + 1, ancestors, code);
      assert key || HasFault(g, g[r].items[i], depth + 1, ancestors);
      assert !ItemFits(g, r, i, depth);
    }
    if i: nat :| i < |g[r].items| && !ItemFits(g, r, i, depth) {
      if g[r].kind.Plain? && !ValidKey(g[r].keys[i]) {
        assert ItemFaulty(g, r, i, depth, ancestors, InvalidInput) && ItemsFaulty(g, r, depth, ancestors, InvalidInput);
      } else {
        assert HasFault(g, g[r].items[i], depth + 1, ancestors);
        var code :| Faulty(g, g[r].items[i], depth + 1, ancestors, code);
        assert ItemFaulty(g, r, i, depth, ancestors, code) && ItemsFaulty(g, r, depth, ancestors, code);
      }
    }
  }

  // ---------------------------------------------------------------- the result against the plain unfolding

  /** The unfolding with trimmed keys, every entry kept. */
  ghost function Unfolding(g: Graph, v: Value, depth: nat): Tree
    requires Closed(g) && Known(g, v) && depth <= MAX_DEPTH + 1 && Fits(g, v, depth)
    decreases MAX_DEPTH + 1 - depth, 1, 0
  {
    match v
    case Leaf(p) => LeafTree(p)
    case Object(r) =>
      if g[r].kind.Array? then ArrayTree(UnfoldedTo(g, r, |g[r].items|, depth))
      else ObjectTree(EntriesTo(g, r, |g[r].items|, depth))
  }

  ghost function UnfoldedTo(g: Graph, r: Ref, n: nat, depth: nat): (s: seq<Tree>)
    requires Closed(g) && r in g && n <= |g[r].items| && depth <= MAX_DEPTH && ItemsFit(g, r, n, depth)
    ensures |s| == n
    decreases MAX_DEPTH + 1 - depth, 0, n
  {
    if n == 0 then []
    else
      assert ItemFits(g, r, n - 1, depth);
      UnfoldedTo(g, r, n - 1, depth) + [Unfolding(g, g[r].items[n - 1], depth + 1)]
  }

  ghost function EntriesTo(g: Graph, r: Ref, n: nat, depth: nat): (s: seq<Field>)
    requires Closed(g) && r in g && g[r].kind.Plain? && n <= |g[r].items| && depth <= MAX_DEPTH && ItemsFit(g, r, n, depth)
    ensures |s| == n
    decreases MAX_DEPTH + 1 - depth, 0, n
  {
    if n == 0 then []
    else
      assert ItemFits(g, r, n - 1, depth);
      EntriesTo(g, r, n - 1, depth) + [Field(Trim(g[r].keys[n - 1]), Unfolding(g, g[r].items[n - 1], depth + 1))]
  }

  /** Among the first n keys no two are alike and none is `__proto__`. */
  ghost predicate Stay(keys: seq<string>, n: nat)
    requires n <= |keys|
  {
    (forall i :: 0 <= i < n ==> keys[i] != PROTO) && (forall i, j :: 0 <= i < j < n ==> keys[i] != keys[j])
  }

  function TrimmedKeys(keys: seq<string>): seq<string> {
    seq(|keys|, i requires 0 <= i < |keys| => Trim(keys[i]))
  }

  ghost predicate KeysStay(g: Graph, r: Ref)
    requires r in g
  {
    Stay(TrimmedKeys(g[r].keys), |g[r].keys|)
  }

  /** In every object of the unfolding, trimming merges no keys and none becomes `__proto__`. */
  ghost predicate EveryKeyStays(g: Graph, v: Value, depth: nat)
    requires Closed(g) && Known(g, v) && depth <= MAX_DEPTH + 1 && Fits(g, v, depth)
    decreases MAX_DEPTH + 1 - depth
  {
    v.Object? ==>
      && (g[v.r].kind.Plain? ==> KeysStay(g, v.r))
      && forall i :: 0 <= i < |g[v.r].items| ==> ItemFits(g, v.r, i, depth) && EveryKeyStays(g, g[v.r].items[i], depth + 1)
  }

  lemma AssignFresh(fields: seq<Field>, key: string, value: Tree)
    ensures |Assign(fields, key, value)| <= |fields| + 1
    ensures |Assign(fields, key, value)| == |fields| + 1
            <==> key != PROTO && forall i :: 0 <= i < |fields| ==> fields[i].key != key
    ensures |Assign(fields, key, value)| == |fields| + 1 ==> Assign(fields, key, value) == fields + [Field(key, value)]
  {
  }

  function Assigned(keys: seq<string>, values: seq<Tree>, n: nat): seq<Field>
    requires n <= |keys| && n <= |values|
  {
    if n == 0 then [] else Assign(Assigned(keys, values, n - 1), keys[n - 1], values[n - 1])
  }

  /** An entry is kept for every key exactly when the keys stay. */
  lemma {:induction false} AssignedShape(keys: seq<string>, values: seq<Tree>, n: nat)
    requires n <= |keys| && n <= |values|
    ensures |Assigned(keys, values, n)| <= n
    ensures |Assigned(keys, values, n)| == n <==> Stay(keys, n)
    ensures Stay(keys, n) ==> forall i :: 0 <= i < n ==> Assigned(keys, values, n)[i] == Field(keys[i], values[i])
  {
    if n > 0 {
      AssignedShape(keys, values, n - 1);
      AssignFresh(Assigned(keys, values, n - 1), keys[n - 1], values[n - 1]);
    }
  }

  lemma {:induction false} FieldsAreAssigned(g: Graph, r: Ref, n: nat, depth: nat, keys: seq<string>, values: seq<Tree>)
    requires Closed(g) && r in g && g[r].kind.Plain? && n <= |g[r].items| && depth <= MAX_DEPTH && ItemsFit(g, r, |g[r].items|, depth)
    requires keys == TrimmedKeys(g[r].keys) && values == ItemsTo(g, r, |g[r].items|, depth) && |values| == |g[r].items|
    ensures FieldsTo(g, r, n, depth) == Assigned(keys, values, n)
  {
    if n > 0 {
      FieldsAreAssigned(g, r, n - 1, depth, keys, values);
      ItemsShape(g, r, |g[r].items|, depth, n - 1);
    }
  }

  lemma {:induction false} EntriesShape(g: Graph, r: Ref, n: nat, depth: nat, i: nat)
    requires Closed(g) && r in g && g[r].kind.Plain? && i < n <= |g[r].items| && depth <= MAX_DEPTH && ItemsFit(g, r, n, depth)
    ensures ItemFits(g, r, i, depth)
    ensures EntriesTo(g, r, n, depth)[i] == Field(Trim(g[r].keys[i]), Unfolding(g, g[r].items[i], depth + 1))
  {
    if i < n - 1 { EntriesShape(g, r, n - 1, depth, i); }
  }

  lemma {:induction false} ItemsShape(g: Graph, r: Ref, n: nat, depth: nat, i: nat)
    requires Closed(g) && r in g && i < n <= |g[r].items| && depth <= MAX_DEPTH && ItemsFit(g, r, n, depth)
    ensures ItemFits(g, r, i, depth) && |ItemsTo(g, r, n, depth)| == n
    ensures ItemsTo(g, r, n, depth)[i] == Built(g, g[r].items[i], depth + 1)
    ensures UnfoldedTo(g, r, n, depth)[i] == Unfolding(g, g[r].items[i], depth + 1)
  {
    assert ItemFits(g, r, n - 1, depth);
    if n > 1 { ItemsShape(g, r, n - 1, depth, if i < n - 1 then i else 0); }
  }

  /**
   * The result is the unfolding with trimmed keys exactly when no object of the unfolding has two
   * keys that trim alike, or one that trims to `__proto__`: those entries are overwritten or lost.
   */
  lemma {:induction false} BuiltIsUnfoldingIffKeysStay(g: Graph, v: Value, depth: nat)
    requires Closed(g) && Known(g, v) && depth <= MAX_DEPTH + 1 && Fits(g, v, depth)
    ensures Built(g, v, depth) == Unfolding(g, v, depth) <==> EveryKeyStays(g, v, depth)
    decreases MAX_DEPTH + 1 - depth
  {
    if v.Object? {
      var n := |g[v.r].items|;
      forall i | 0 <= i < n
        ensures ItemFits(g, v.r, i, depth)
        ensures Built(g, g[v.r].items[i], depth + 1) == Unfolding(g, g[v.r].items[i], depth + 1)
                <==> EveryKeyStays(g, g[v.r].items[i], depth + 1)
      {
        assert ItemFits(g, v.r, i, depth);
        BuiltIsUnfoldingIffKeysStay(g, g[v.r].items[i], depth + 1);
      }
      if g[v.r].kind.Array? { SameItems(g, v.r, depth); } else { SameFields(g, v.r, depth); }
    }
  }

  lemma SameItems(g: Graph, r: Ref, depth: nat)
    requires Closed(g) && r in g && depth <= MAX_DEPTH && ItemsFit(g, r, |g[r].items|, depth)
    ensures ItemsTo(g, r, |g[r].items|, depth) == UnfoldedTo(g, r, |g[r].items|, depth)
            <==> forall i :: 0 <= i < |g[r].items| ==>
                   ItemFits(g, r, i, depth) && Built(g, g[r].items[i], depth + 1) == Unfolding(g, g[r].items[i], depth + 1)
  {
    forall i | 0 <= i < |g[r].items|
      ensures ItemFits(g, r, i, depth) && |ItemsTo(g, r, |g[r].items|, depth)| == |g[r].items|
      ensures ItemsTo(g, r, |g[r].items|, depth)[i] == Built(g, g[r].items[i], depth + 1)
      ensures UnfoldedTo(g, r, |g[r].items|, depth)[i] == Unfolding(g, g[r].items[i], depth + 1)
    {
      ItemsShape(g, r, |g[r].items|, depth, i);
    }
  }

  lemma SameFields(g: Graph, r: Ref, depth: nat)
    requires Closed(g) && r in g && g[r].kind.Plain? && depth <= MAX_DEPTH && ItemsFit(g, r, |g[r].items|, depth)
    ensures FieldsTo(g, r, |g[r].items|, depth) == EntriesTo(g, r, |g[r].items|, depth)
            <==> KeysStay(g, r)
                 && forall i :: 0 <= i < |g[r].items| ==>
                      ItemFits(g, r, i, depth) && Built(g, g[r].items[i], depth + 1) == Unfolding(g, g[r].items[i], depth + 1)
  {
    var n, keys := |g[r].items|, TrimmedKeys(g[r].keys);
    var values, unfolded := ItemsTo(g, r, n, depth), UnfoldedTo(g, r, n, depth);
    if n > 0 { ItemsShape(g, r, n, depth, 0); }
    FieldsAreAssigned(g, r, n, depth, keys, values);
    AssignedShape(keys, values, n);
    EntriesPair(g, r, depth);
    SameItems(g, r, depth);
    SameAsEntries(Assigned(keys, values, n), EntriesTo(g, r, n, depth), keys, values, unfolded);
  }

  lemma EntriesPair(g: Graph, r: Ref, depth: nat)
    requires Closed(g) && r in g && g[r].kind.Plain? && depth <= MAX_DEPTH && ItemsFit(g, r, |g[r].items|, depth)
    ensures var n := |g[r].items|;
            forall i :: 0 <= i < n ==>
              EntriesTo(g, r, n, depth)[i] == Field(TrimmedKeys(g[r].keys)[i], UnfoldedTo(g, r, n, depth)[i])
  {
    var n := |g[r].items|;
    forall i | 0 <= i < n
      ensures EntriesTo(g, r, n, depth)[i] == Field(TrimmedKeys(g[r].keys)[i], UnfoldedTo(g, r, n, depth)[i])
    {
      EntriesShape(g, r, n, depth, i);
      ItemsShape(g, r, n, depth, i);
    }
  }

  lemma SameAsEntries(fields: seq<Field>, entries: seq<Field>, keys: seq<string>, values: seq<Tree>, unfolded: seq<Tree>)
    requires |keys| == |values| == |unfolded| == |entries|
    requires forall i :: 0 <= i < |keys| ==> entries[i] == Field(keys[i], unfolded[i])
    requires |fields| == |keys| <==> Stay(keys, |keys|)
    requires Stay(keys, |keys|) ==> forall i :: 0 <= i < |keys| ==> fields[i] == Field(keys[i], values[i])
    ensures fields == entries <==> Stay(keys, |keys|) && values == unfolded
  {
    if fields == entries {
      forall i | 0 <= i < |keys| ensures values[i] == unfolded[i] {
        assert fields[i] == Field(keys[i], values[i]) && entries[i] == Field(keys[i], unfolded[i]);
      }
    }
  }

  // ---------------------------------------------------------------- cycles and sharing

  /** A payload that contains a cycle, at whatever distance from its root, is refused. */
  lemma CyclicPayloadsAreRefused(g: Graph, path: seq<Ref>, loop: nat)
    requires Closed(g) && Chain(g, path) && loop < |path| && Child(g, path[|path| - 1], Object(path[loop]))
    ensures !Fits(g, Object(path[0]), 0)
  {
    if Fits(g, Object(path[0]), 0) {
      ChainFits(g, path, loop, 0);
      RevisitNeverFits(g, path, path[loop], loop);
    }
  }

  /** How many ways lead from a value down to an object, counting the value itself. */
  function Ways(g: Graph, v: Value, r: Ref, depth: nat): nat
    requires Closed(g) && Known(g, v) && depth <= MAX_DEPTH + 1
    decreases MAX_DEPTH + 1 - depth, 1, 0
  {
    if v == Object(r) then 1
    else if depth <= MAX_DEPTH && v.Object? then WaysTo(g, v.r, |g[v.r].items|, r, depth) else 0
  }

  function WaysTo(g: Graph, p: Ref, n: nat, r: Ref, depth: nat): nat
    requires Closed(g) && p in g && n <= |g[p].items| && depth <= MAX_DEPTH
    decreases MAX_DEPTH + 1 - depth, 0, n
  {
    if n == 0 then 0 else WaysTo(g, p, n - 1, r, depth) + Ways(g, g[p].items[n - 1], r, depth + 1)
  }

  /** The size of the unfolding with every occurrence of the object cut out. */
  function SizeBeside(g: Graph, v: Value, r: Ref, depth: nat): nat
    requires Closed(g) && Known(g, v) && depth <= MAX_DEPTH + 1
    decreases MAX_DEPTH + 1 - depth, 1, 0
  {
    if v == Object(r) then 0
    else if depth <= MAX_DEPTH && v.Object? then 1 + SizeBesideTo(g, v.r, |g[v.r].items|, r, depth) else 1
  }

  function SizeBesideTo(g: Graph, p: Ref, n: nat, r: Ref, depth: nat): nat
    requires Closed(g) && p in g && n <= |g[p].items| && depth <= MAX_DEPTH
    decreases MAX_DEPTH + 1 - depth, 0, n
  {
    if n == 0 then 0 else SizeBesideTo(g, p, n - 1, r, depth) + SizeBeside(g, g[p].items[n - 1], r, depth + 1)
  }

  /** What fits has one size, at whatever depth it is met. */
  lemma {:induction false} SizeIgnoresDepth(g: Graph, v: Value, d: nat, e: nat)
    requires Closed(g) && Known(g, v) && d <= MAX_DEPTH && e <= MAX_DEPTH && Fits(g, v, d) && Fits(g, v, e)
    ensures Size(g, v, d) == Size(g, v, e)
    decreases MAX_DEPTH + 1 - d, 1, 0
  {
    if v.Object? { SizeToIgnoresDepth(g, v.r, |g[v.r].items|, d, e); }
  }

  lemma {:induction false} SizeToIgnoresDepth(g: Graph, r: Ref, n: nat, d: nat, e: nat)
    requires Closed(g) && r in g && n <= |g[r].items| && d <= MAX_DEPTH && e <= MAX_DEPTH
    requires Fits(g, Object(r), d) && Fits(g, Object(r), e)
    ensures SizeTo(g, r, n, d) == SizeTo(g, r, n, e)
    decreases MAX_DEPTH + 1 - d, 0, n
  {
    if n > 0 {
      SizeToIgnoresDepth(g, r, n - 1, d, e);
      assert ItemFits(g, r, n - 1, d) && ItemFits(g, r, n - 1, e);
      SizeIgnoresDepth(g, g[r].items[n - 1], d + 1, e + 1);
    }
  }

  /** Sharing is no obstacle: an object counts with its whole size once for every way to it. */
  lemma {:induction false} SharedObjectsAreRepeated(g: Graph, v: Value, r: Ref, depth: nat, at: nat)
    requires Closed(g) && Known(g, v) && depth <= MAX_DEPTH && Fits(g, v, depth)
    requires r in g && at <= MAX_DEPTH && Fits(g, Object(r), at)
    ensures Size(g, v, depth) == SizeBeside(g, v, r, depth) + Ways(g, v, r, depth) * Size(g, Object(r), at)
    decreases MAX_DEPTH + 1 - depth, 1, 0
  {
    if v == Object(r) {
      SizeIgnoresDepth(g, v, depth, at);
    } else if v.Object? {
      SharedItemsAreRepeated(g, v.r, |g[v.r].items|, r, depth, at);
    }
  }

  lemma {:induction false} SharedItemsAreRepeated(g: Graph, p: Ref, n: nat, r: Ref, depth: nat, at: nat)
    requires Closed(g) && p in g && n <= |g[p].items| && depth <= MAX_DEPTH && Fits(g, Object(p), depth)
    requires r in g && at <= MAX_DEPTH && Fits(g, Object(r), at)
    ensures SizeTo(g, p, n, depth) == SizeBesideTo(g, p, n, r, depth) + WaysTo(g, p, n, r, depth) * Size(g, Object(r), at)
    decreases MAX_DEPTH + 1 - depth, 0, n
  {
    if n > 0 {
      SharedItemsAreRepeated(g, p, n - 1, r, depth, at);
      assert ItemFits(g, p, n - 1, depth);
      SharedObjectsAreRepeated(g, g[p].items[n - 1], r, depth + 1, at);
      Distributes(WaysTo(g, p, n - 1, r, depth), Ways(g, g[p].items[n - 1], r, depth + 1), Size(g, Object(r), at));
    }
  }

  lemma Distributes(a: nat, b: nat, c: nat)
    ensures (a + b) * c == a * c + b * c
  {
  }

  /** The way of item numbers leads from one value to another. */
  predicate LeadsTo(g: Graph, v: Value, way: seq<nat>, w: Value)
    decreases |way|
  {
    if way == [] then v == w
    else v.Object? && v.r in g && way[0] < |g[v.r].items| && LeadsTo(g, g[v.r].items[way[0]], way[1..], w)
  }

  function SubtreeAt(t: Tree, way: seq<nat>): Option<Tree>
    decreases |way|
  {
    if way == [] then Some(t)
    else match t
      case LeafTree(_) => None
      case ArrayTree(items) => if way[0] < |items| then SubtreeAt(items[way[0]], way[1..]) else None
      case ObjectTree(fields) => if way[0] < |fields| then SubtreeAt(fields[way[0]].value, way[1..]) else None
  }

  lemma {:induction false} UnfoldingIgnoresDepth(g: Graph, v: Value, d: nat, e: nat)
    requires Closed(g) && Known(g, v) && d <= MAX_DEPTH && e <= MAX_DEPTH && Fits(g, v, d) && Fits(g, v, e)
    ensures Unfolding(g, v, d) == Unfolding(g, v, e)
    decreases MAX_DEPTH + 1 - d
  {
    if v.Object? {
      var n := |g[v.r].items|;
      forall i | 0 <= i < n
        ensures UnfoldedTo(g, v.r, n, d)[i] == UnfoldedTo(g, v.r, n, e)[i]
        ensures g[v.r].kind.Plain? ==> EntriesTo(g, v.r, n, d)[i] == EntriesTo(g, v.r, n, e)[i]
      {
        ItemUnfolds(g, v.r, d, i);
        ItemUnfolds(g, v.r, e, i);
        UnfoldingIgnoresDepth(g, g[v.r].items[i], d + 1, e + 1);
      }
    }
  }

  lemma ItemUnfolds(g: Graph, r: Ref, depth: nat, i: nat)
    requires Closed(g) && r in g && depth <= MAX_DEPTH && Fits(g, Object(r), depth) && i < |g[r].items|
    ensures Fits(g, g[r].items[i], depth + 1) && ItemsFit(g, r, |g[r].items|, depth)
    ensures UnfoldedTo(g, r, |g[r].items|, depth)[i] == Unfolding(g, g[r].items[i], depth + 1)
    ensures g[r].kind.Plain? ==>
              EntriesTo(g, r, |g[r].items|, depth)[i] == Field(Trim(g[r].keys[i]), Unfolding(g, g[r].items[i], depth + 1))
  {
    assert ItemFits(g, r, i, depth);
    ItemsShape(g, r, |g[r].items|, depth, i);
    if g[r].kind.Plain? { EntriesShape(g, r, |g[r].items|, depth, i); }
  }

  /** And its whole tree stands at the end of every way to it. */
  lemma {:induction false} EveryWayEndsOnItsTree(g: Graph, v: Value, way: seq<nat>, w: Value, depth: nat, at: nat)
    requires Closed(g) && Known(g, v) && depth <= MAX_DEPTH && Fits(g, v, depth) && LeadsTo(g, v, way, w)
    requires Known(g, w) && at <= MAX_DEPTH && Fits(g, w, at)
    ensures SubtreeAt(Unfolding(g, v, depth), way) == Some(Unfolding(g, w, at))
    decreases |way|
  {
    if way == [] {
      UnfoldingIgnoresDepth(g, v, depth, at);
    } else {
      ItemUnfolds(g, v.r, depth, way[0]);
      EveryWayEndsOnItsTree(g, g[v.r].items[way[0]], way[1..], w, depth + 1, at);
    }
  }

  // ---------------------------------------------------------------- entries that are lost

  /** A key that trims to `__proto__` is valid, and its entry is gone. */
  lemma ProtoEntryIsLost(leaf: Primitive)
    ensures var g: Graph := map[0 := Node(Plain, ["__proto__ "], [Leaf(leaf)])];
            && Closed(g) && Fits(g, Object(0), 0)
            && Built(g, Object(0), 0) == ObjectTree([])
            && Unfolding(g, Object(0), 0) == ObjectTree([Field(PROTO, LeafTree(leaf))])
  {
    var g: Graph := map[0 := Node(Plain, ["__proto__ "], [Leaf(leaf)])];
    var key := "__proto__ ";
    assert DropSpace(key, 0, 10) == DropSpace(key, 0, 9) == 9 && key[..9] == PROTO;
    assert Fits(g, Leaf(leaf), 1);
    assert ItemFits(g, 0, 0, 0);
    assert FieldsTo(g, 0, 0, 0) == [];
  }

  /** Of two keys that trim alike the later entry is left, in the earlier one's place. */
  lemma EarlierEntryIsLost(first: Primitive, second: Primitive)
    ensures var g := TwinKeys(first, second);
            && Closed(g) && Fits(g, Object(0), 0)
            && Built(g, Object(0), 0) == ObjectTree([Field("a", LeafTree(second))])
            && Unfolding(g, Object(0), 0) == ObjectTree([Field("a", LeafTree(first)), Field("a", LeafTree(second))])
  {
    TwinKeysFit(first, second);
    var g := TwinKeys(first, second);
    assert FieldsTo(g, 0, 1, 0) == [Field("a", LeafTree(first))];
    assert EntriesTo(g, 0, 1, 0) == [Field("a", LeafTree(first))];
  }

  function TwinKeys(first: Primitive, second: Primitive): Graph {
    map[0 := Node(Plain, ["a", " a"], [Leaf(first), Leaf(second)])]
  }

  lemma TwinKeysFit(first: Primitive, second: Primitive)
    ensures var g := TwinKeys(first, second);
            && Closed(g) && Fits(g, Object(0), 0) && ItemFits(g, 0, 0, 0) && ItemFits(g, 0, 1, 0)
            && Trim("a") == "a" && Trim(" a") == "a"
            && Fits(g, Leaf(first), 1) && Fits(g, Leaf(second), 1)
  {
    var g := TwinKeys(first, second);
    assert Trim("a") == "a" && Trim(" a") == "a";
    assert Fits(g, Leaf(first), 1) && Fits(g, Leaf(second), 1);
    assert ItemFits(g, 0, 0, 0) && ItemFits(g, 0, 1, 0);
  }

  // ---------------------------------------------------------------- keys, limits and errors on their values

  /** The control characters are those below the space and DEL, without tab, line feed and carriage return. */
  lemma ControlCharacters(c: char)
    ensures Control(c) <==> (c < ' ' || c as int == 0x7F) && c != '\t' && c != '\n' && c != '\r'
  {
  }

  lemma ValidKeys(key: string)
    ensures ValidKey(key) <==> 1 <= |Trim(key)| < 257 && forall c :: c in Trim(key) ==> !Control(c)
  {
  }

  /** A list of n numbers is accepted up to n = 9,999: the list itself is the first value counted. */
  lemma {:induction false} FlatListSize(g: Graph, r: Ref, p: Primitive, n: nat)
    requires Closed(g) && r in g && n <= |g[r].items| && forall i :: 0 <= i < |g[r].items| ==> g[r].items[i] == Leaf(p)
    ensures SizeTo(g, r, n, 0) == n
  {
    if n > 0 { FlatListSize(g, r, p, n - 1); }
  }

  lemma FlatListFits(g: Graph, r: Ref, p: Primitive)
    requires Closed(g) && r in g && g[r].kind == Array && forall i :: 0 <= i < |g[r].items| ==> g[r].items[i] == Leaf(p)
    ensures Fits(g, Object(r), 0) && (Size(g, Object(r), 0) <= MAX_NODES <==> |g[r].items| < 10000)
  {
    FlatListSize(g, r, p, |g[r].items|);
    forall i | 0 <= i < |g[r].items| ensures ItemFits(g, r, i, 0) { assert Fits(g, Leaf(p), 1); }
  }

  /** Lists nested in each other, the innermost empty. */
  ghost predicate Nested(g: Graph, depth: nat) {
    && (forall k :: 0 <= k < depth ==> k in g && g[k] == Node(Array, [], [Object(k + 1)]))
    && depth in g && g[depth] == Node(Array, [], [])
  }

  /** Twenty lists inside the outermost one are accepted, twenty-one are not. */
  lemma NestingFits(g: Graph, depth: nat)
    requires Closed(g) && Nested(g, depth)
    ensures Fits(g, Object(0), 0) <==> depth <= 20
  {
    NestedFits(g, depth, 0);
  }

  lemma {:induction false} NestedFits(g: Graph, depth: nat, k: nat)
    requires Closed(g) && Nested(g, depth) && k <= depth && k <= 21
    ensures Fits(g, Object(k), k) <==> depth <= 20
    decreases 21 - k
  {
    if k < depth && k <= 20 {
      NestedFits(g, depth, k + 1);
      assert ItemFits(g, k, 0, k) <==> Fits(g, Object(k + 1), k + 1);
    }
  }
}
