/**
 * Canonical serialization over a graph of objects that may share or contain one another:
 * the `seen` set, the errors and the cycle check (canonical.ts).
 */
module CanonicalGraph {
  import opened Wrappers
  import opened Sequences
  import opened CanonicalText
  import opened CanonicalJson

  /** The identity of an object or array. */
  type Ref = nat

  datatype Value =
    | UndefinedVal
    | NullVal
    | BoolVal(b: bool)
    | NumVal(n: SafeInt)
    | NonFiniteVal
    | BigIntVal
    | StrVal(s: Text)
    | RefVal(ref: Ref)

  datatype Property = Property(key: Text, value: Value)

  datatype Node = ArrayNode(items: seq<Value>) | ObjectNode(properties: seq<Property>)

  type Heap = map<Ref, Node>

  datatype Error = Cyclic | NonFinite | BigInt

  function PropertyKeys(properties: seq<Property>): (keys: seq<Text>)
    ensures |keys| == |properties| && forall i :: 0 <= i < |properties| ==> keys[i] == properties[i].key
  {
    seq(|properties|, i requires 0 <= i < |properties| => properties[i].key)
  }

  /** Own property keys are distinct and every reference points to an object. */
  ghost predicate ValidHeap(heap: Heap) {
    forall r :: r in heap ==> ValidNode(heap, heap[r])
  }

  ghost predicate ValidNode(heap: Heap, node: Node) {
    match node
    case ArrayNode(items) => forall i :: 0 <= i < |items| ==> ValidValue(heap, items[i])
    case ObjectNode(properties) =>
      && Distinct(PropertyKeys(properties))
      && forall i :: 0 <= i < |properties| ==> ValidValue(heap, properties[i].value)
  }

  ghost predicate ValidValue(heap: Heap, v: Value) {
    v.RefVal? ==> v.ref in heap
  }

  predicate Owns(properties: seq<Property>, key: Text) {
    exists i :: 0 <= i < |properties| && properties[i].key == key
  }

  function Read(properties: seq<Property>, key: Text): (v: Value)
    requires Owns(properties, key)
    ensures exists i :: 0 <= i < |properties| && properties[i] == Property(key, v)
  {
    var last := |properties| - 1;
    if properties[last].key == key then
      assert properties[last] == Property(key, properties[last].value);
      properties[last].value
    else
      assert Owns(properties[..last], key) by {
        var i :| 0 <= i < |properties| && properties[i].key == key;
        assert properties[..last][i].key == key;
      }
      Read(properties[..last], key)
  }

  lemma ReadUnique(properties: seq<Property>, i: nat)
    requires i < |properties| && Distinct(PropertyKeys(properties))
    ensures Owns(properties, properties[i].key) && Read(properties, properties[i].key) == properties[i].value
  {
    assert Owns(properties, properties[i].key);
    var v := Read(properties, properties[i].key);
    var j :| 0 <= j < |properties| && properties[j] == Property(properties[i].key, v);
    var keys := PropertyKeys(properties);
    assert keys[i] == keys[j];
    assert i == j;
  }

  // --- what `serialize` computes ---

  /** `serialize(v)` when the objects in `seen` are being serialized further up. */
  function Serial(heap: Heap, seen: set<Ref>, v: Value): Result<Option<Text>, Error>
    requires ValidHeap(heap) && ValidValue(heap, v)
    decreases heap.Keys - seen, 0
  {
    match v
    case UndefinedVal => Ok(None)
    case NullVal => Ok(Some(NULL_TEXT))
    case BoolVal(b) => Ok(Some(if b then TRUE_TEXT else FALSE_TEXT))
    case NumVal(n) => Ok(Some(PrintInt(n)))
    case NonFiniteVal => Err(NonFinite)
    case BigIntVal => Err(BigInt)
    case StrVal(s) => Ok(Some(Quote(s)))
    case RefVal(r) =>
      if r in seen then Err(Cyclic)
      else
        assert ValidNode(heap, heap[r]);
        match heap[r]
        case ArrayNode(items) =>
          var parts := SerialItems(heap, seen + {r}, items);
          if parts.Err? then Err(parts.error) else Ok(Some(Bracket(parts.value)))
        case ObjectNode(properties) =>
          var parts := SerialProperties(heap, seen + {r}, properties, SortKeys(PropertyKeys(properties)));
          if parts.Err? then Err(parts.error) else Ok(Some(Brace(parts.value)))
  }

  function SerialItems(heap: Heap, seen: set<Ref>, items: seq<Value>): Result<seq<Text>, Error>
    requires ValidHeap(heap) && forall i :: 0 <= i < |items| ==> ValidValue(heap, items[i])
    decreases heap.Keys - seen, 1, |items|
  {
    if items == [] then Ok([])
    else
      var first := Serial(heap, seen, items[0]);
      if first.Err? then Err(first.error)
      else Prepend([OrNull(first.value)], SerialItems(heap, seen, items[1..]))
  }

  function SerialProperties(heap: Heap, seen: set<Ref>, properties: seq<Property>, keys: seq<Text>): Result<seq<Text>, Error>
    requires ValidHeap(heap) && forall i :: 0 <= i < |properties| ==> ValidValue(heap, properties[i].value)
    decreases heap.Keys - seen, 1, |keys|
  {
    if keys == [] then Ok([])
    else if !Owns(properties, keys[0]) then SerialProperties(heap, seen, properties, keys[1..])
    else
      var first := Serial(heap, seen, Read(properties, keys[0]));
      if first.Err? then Err(first.error)
      else
        Prepend(if first.value.Some? then [Entry(keys[0], first.value.value)] else [],
                SerialProperties(heap, seen, properties, keys[1..]))
  }

  function Prepend(parts: seq<Text>, rest: Result<seq<Text>, Error>): Result<seq<Text>, Error> {
    if rest.Err? then rest else Ok(parts + rest.value)
  }

  lemma PrependTwice(a: seq<Text>, b: seq<Text>, rest: Result<seq<Text>, Error>)
    ensures Prepend(a, Prepend(b, rest)) == Prepend(a + b, rest)
    ensures Prepend([], rest) == rest
  {
    if rest.Ok? {
      assert a + (b + rest.value) == (a + b) + rest.value;
      assert [] + rest.value == rest.value;
    }
  }

  // --- the serializer itself ---

  class Serializer {
    const heap: Heap
    var seen: set<Ref>

    constructor (heap: Heap)
      ensures this.heap == heap && seen == {}
    {
      this.heap := heap;
      this.seen := {};
    }

    /** Whether it succeeds or throws, the set of objects in progress is restored. */
    method Serialize(v: Value) returns (r: Result<Option<Text>, Error>)
      requires ValidHeap(heap) && ValidValue(heap, v)
      modifies this
      ensures r == Serial(heap, old(seen), v)
      ensures seen == old(seen)
      decreases heap.Keys - seen, 0
    {
      match v
      case UndefinedVal => return Ok(None);
      case NullVal => return Ok(Some(NULL_TEXT));
      case BoolVal(b) => return Ok(Some(if b then TRUE_TEXT else FALSE_TEXT));
      case NumVal(n) => return Ok(Some(PrintInt(n)));
      case NonFiniteVal => return Err(NonFinite);
      case BigIntVal => return Err(BigInt);
      case StrVal(s) => return Ok(Some(Quote(s)));
      case RefVal(ref) =>
        if ref in seen {
          return Err(Cyclic);
        }
        ghost var above := seen;
        seen := seen + {ref};
        assert ValidNode(heap, heap[ref]);
        match heap[ref] {
          case ArrayNode(items) =>
            var parts := SerializeItems(items);
            r := if parts.Err? then Err(parts.error) else Ok(Some(Bracket(parts.value)));
          case ObjectNode(properties) =>
            var parts := SerializeProperties(properties);
            r := if parts.Err? then Err(parts.error) else Ok(Some(Brace(parts.value)));
        }
        seen := seen - {ref};
        assert seen == above;
    }

    method SerializeItems(items: seq<Value>) returns (r: Result<seq<Text>, Error>)
      requires ValidHeap(heap) && forall i :: 0 <= i < |items| ==> ValidValue(heap, items[i])
      modifies this
      ensures r == SerialItems(heap, old(seen), items)
      ensures seen == old(seen)
      decreases heap.Keys - seen, 1
    {
      var serializedElements: seq<Text> := [];
      assert items[0..] == items;
      PrependTwice([], [], SerialItems(heap, seen, items));
      for i := 0 to |items|
        invariant seen == old(seen)
        invariant SerialItems(heap, seen, items) == Prepend(serializedElements, SerialItems(heap, seen, items[i..]))
      {
        assert items[i..][1..] == items[i + 1..];
        var item := Serialize(items[i]);
        if item.Err? {
          return Err(item.error);
        }
        PrependTwice(serializedElements, [OrNull(item.value)], SerialItems(heap, seen, items[i + 1..]));
        serializedElements := serializedElements + [OrNull(item.value)];
      }
      assert serializedElements + [] == serializedElements;
      return Ok(serializedElements);
    }

    method SerializeProperties(properties: seq<Property>) returns (r: Result<seq<Text>, Error>)
      requires ValidHeap(heap) && forall i :: 0 <= i < |properties| ==> ValidValue(heap, properties[i].value)
      modifies this
      ensures r == SerialProperties(heap, old(seen), properties, SortKeys(PropertyKeys(properties)))
      ensures seen == old(seen)
      decreases heap.Keys - seen, 1
    {
      var keys := SortKeys(PropertyKeys(properties));
      var entries: seq<Text> := [];
      assert keys[0..] == keys;
      PrependTwice([], [], SerialProperties(heap, seen, properties, keys));
      for i := 0 to |keys|
        invariant seen == old(seen)
        invariant SerialProperties(heap, seen, properties, keys) == Prepend(entries, SerialProperties(heap, seen, properties, keys[i..]))
      {
        assert keys[i..][1..] == keys[i + 1..];
        if Owns(properties, keys[i]) {
          var printed := Serialize(Read(properties, keys[i]));
          if printed.Err? {
            return Err(printed.error);
          }
          ghost var entry := if printed.value.Some? then [Entry(keys[i], printed.value.value)] else [];
          PrependTwice(entries, entry, SerialProperties(heap, seen, properties, keys[i + 1..]));
          if printed.value.Some? {
            entries := entries + [Entry(keys[i], printed.value.value)];
          }
        }
      }
      assert entries + [] == entries;
      return Ok(entries);
    }
  }

  /** `canonicalJsonStringify`: a fresh `seen` set, and the word "undefined" for no text. */
  method CanonicalJsonStringify(heap: Heap, v: Value) returns (r: Result<Text, Error>)
    requires ValidHeap(heap) && ValidValue(heap, v)
    ensures r == Stringify(heap, v)
  {
    var serializer := new Serializer(heap);
    var printed := serializer.Serialize(v);
    if printed.Err? {
      return Err(printed.error);
    }
    return Ok(if printed.value.Some? then printed.value.value else UNDEFINED_TEXT);
  }

  function Stringify(heap: Heap, v: Value): Result<Text, Error>
    requires ValidHeap(heap) && ValidValue(heap, v)
  {
    var printed := Serial(heap, {}, v);
    if printed.Err? then Err(printed.error)
    else Ok(if printed.value.Some? then printed.value.value else UNDEFINED_TEXT)
  }
}

/** When serialization fails, and what its text says when it does not. */
module CanonicalGraphFacts {
  import opened Wrappers
  import opened Sequences
  import opened CanonicalText
  import opened CanonicalJson
  import opened CanonicalUnique
  import opened CanonicalGraph

  ghost predicate Holds(node: Node, v: Value) {
    match node
    case ArrayNode(items) => v in items
    case ObjectNode(properties) => exists i :: 0 <= i < |properties| && properties[i].value == v
  }

  /** A walk along references. */
  ghost predicate Walk(heap: Heap, p: seq<Ref>) {
    && p != []
    && (forall i :: 0 <= i < |p| ==> p[i] in heap)
    && (forall i :: 0 <= i < |p| - 1 ==> Holds(heap[p[i]], RefVal(p[i + 1])))
  }

  function Last(p: seq<Ref>): Ref
    requires p != []
  {
    p[|p| - 1]
  }

  /** A walk from `v` that comes back to an object it went through. */
  ghost predicate CycleReachable(heap: Heap, v: Value) {
    v.RefVal? && exists p :: Walk(heap, p) && p[0] == v.ref && Last(p) in p[..|p| - 1]
  }

  predicate Unprintable(v: Value) {
    v == NonFiniteVal || v == BigIntVal
  }

  ghost predicate UnprintableReachable(heap: Heap, v: Value) {
    Unprintable(v) || (v.RefVal? && exists p :: WalkToUnprintable(heap, p) && p[0] == v.ref)
  }

  ghost predicate WalkToUnprintable(heap: Heap, p: seq<Ref>) {
    Walk(heap, p) && (Holds(heap[Last(p)], NonFiniteVal) || Holds(heap[Last(p)], BigIntVal))
  }

  // --- a failure anywhere below fails the whole ---

  lemma {:induction false} ItemFails(heap: Heap, seen: set<Ref>, items: seq<Value>, v: Value)
    requires ValidHeap(heap) && forall i :: 0 <= i < |items| ==> ValidValue(heap, items[i])
    requires v in items && Serial(heap, seen, v).Err?
    ensures SerialItems(heap, seen, items).Err?
  {
    if items[0] != v {
      ItemFails(heap, seen, items[1..], v);
    }
  }

  lemma {:induction false} PropertyFails(heap: Heap, seen: set<Ref>, properties: seq<Property>, keys: seq<Text>, key: Text)
    requires ValidHeap(heap) && forall i :: 0 <= i < |properties| ==> ValidValue(heap, properties[i].value)
    requires key in keys && Owns(properties, key) && Serial(heap, seen, Read(properties, key)).Err?
    ensures SerialProperties(heap, seen, properties, keys).Err?
  {
    if keys[0] != key {
      PropertyFails(heap, seen, properties, keys[1..], key);
    }
  }

  lemma ChildFails(heap: Heap, seen: set<Ref>, r: Ref, child: Value)
    requires ValidHeap(heap) && r in heap && Holds(heap[r], child) && ValidValue(heap, child)
    requires Serial(heap, seen + {r}, child).Err?
    ensures Serial(heap, seen, RefVal(r)).Err?
  {
    if r !in seen {
      assert ValidNode(heap, heap[r]);
      match heap[r]
      case ArrayNode(items) => ItemFails(heap, seen + {r}, items, child);
      case ObjectNode(properties) =>
        var i :| 0 <= i < |properties| && properties[i].value == child;
        PropertyAtFails(heap, seen + {r}, properties, i);
    }
  }

  lemma PropertyAtFails(heap: Heap, seen: set<Ref>, properties: seq<Property>, i: nat)
    requires ValidHeap(heap) && ValidNode(heap, ObjectNode(properties))
    requires i < |properties| && Serial(heap, seen, properties[i].value).Err?
    ensures SerialProperties(heap, seen, properties, SortKeys(PropertyKeys(properties))).Err?
  {
    ReadUnique(properties, i);
    SortKeysIncreasing(PropertyKeys(properties));
    assert PropertyKeys(properties)[i] == properties[i].key;
    PropertyFails(heap, seen, properties, SortKeys(PropertyKeys(properties)), properties[i].key);
  }

  lemma {:induction false} CycleFails(heap: Heap, seen: set<Ref>, p: seq<Ref>)
    requires ValidHeap(heap) && Walk(heap, p)
    requires Last(p) in seen || Last(p) in p[..|p| - 1]
    ensures Serial(heap, seen, RefVal(p[0])).Err?
    decreases |p|
  {
    if p[0] !in seen {
      var q := p[1..];
      assert Last(q) == Last(p);
      assert Last(q) in seen + {p[0]} || Last(q) in q[..|q| - 1] by {
        if Last(p) in p[..|p| - 1] {
          var i :| 0 <= i < |p| - 1 && p[i] == Last(p);
          if i > 0 { assert q[..|q| - 1][i - 1] == p[i]; }
        }
      }
      CycleFails(heap, seen + {p[0]}, q);
      ChildFails(heap, seen, p[0], RefVal(p[1]));
    }
  }

  lemma {:induction false} UnprintableFails(heap: Heap, seen: set<Ref>, p: seq<Ref>)
    requires ValidHeap(heap) && WalkToUnprintable(heap, p)
    ensures Serial(heap, seen, RefVal(p[0])).Err?
    decreases |p|
  {
    if |p| == 1 {
      if Holds(heap[p[0]], NonFiniteVal) {
        ChildFails(heap, seen, p[0], NonFiniteVal);
      } else {
        ChildFails(heap, seen, p[0], BigIntVal);
      }
    } else {
      assert Last(p[1..]) == Last(p);
      UnprintableFails(heap, seen + {p[0]}, p[1..]);
      ChildFails(heap, seen, p[0], RefVal(p[1]));
    }
  }

  // --- and every failure has its reason ---

  /** Where a failure came from: back into `seen`, round a cycle, or to an unprintable value. */
  ghost predicate Explains(heap: Heap, seen: set<Ref>, v: Value, e: Error) {
    match e
    case Cyclic =>
      v.RefVal? && exists p :: Walk(heap, p) && p[0] == v.ref && (Last(p) in seen || Last(p) in p[..|p| - 1])
    case _ => UnprintableReachable(heap, v)
  }

  lemma {:induction false} FailingItem(heap: Heap, seen: set<Ref>, items: seq<Value>) returns (v: Value)
    requires ValidHeap(heap) && forall i :: 0 <= i < |items| ==> ValidValue(heap, items[i])
    requires SerialItems(heap, seen, items).Err?
    ensures v in items && ValidValue(heap, v) && Serial(heap, seen, v) == Err(SerialItems(heap, seen, items).error)
    decreases |items|
  {
    if Serial(heap, seen, items[0]).Err? {
      v := items[0];
    } else {
      v := FailingItem(heap, seen, items[1..]);
    }
  }

  lemma {:induction false} FailingProperty(heap: Heap, seen: set<Ref>, properties: seq<Property>, keys: seq<Text>) returns (v: Value)
    requires ValidHeap(heap) && forall i :: 0 <= i < |properties| ==> ValidValue(heap, properties[i].value)
    requires SerialProperties(heap, seen, properties, keys).Err?
    ensures exists i :: 0 <= i < |properties| && properties[i].value == v
    ensures ValidValue(heap, v) && Serial(heap, seen, v) == Err(SerialProperties(heap, seen, properties, keys).error)
    decreases |keys|
  {
    if Owns(properties, keys[0]) && Serial(heap, seen, Read(properties, keys[0])).Err? {
      v := Read(properties, keys[0]);
    } else {
      v := FailingProperty(heap, seen, properties, keys[1..]);
    }
  }

  lemma {:induction false} FailureExplained(heap: Heap, seen: set<Ref>, v: Value)
    requires ValidHeap(heap) && ValidValue(heap, v)
    requires Serial(heap, seen, v).Err?
    ensures Explains(heap, seen, v, Serial(heap, seen, v).error)
    decreases heap.Keys - seen
  {
    if v.RefVal? {
      var r, e := v.ref, Serial(heap, seen, v).error;
      assert Walk(heap, [r]) && Last([r]) == r;
      if r !in seen {
        assert ValidNode(heap, heap[r]);
        var child: Value;
        match heap[r] {
          case ArrayNode(items) => child := FailingItem(heap, seen + {r}, items);
          case ObjectNode(properties) =>
            child := FailingProperty(heap, seen + {r}, properties, SortKeys(PropertyKeys(properties)));
        }
        assert Holds(heap[r], child);
        FailureExplained(heap, seen + {r}, child);
        ExplainParent(heap, seen, r, child, e);
      }
    }
  }

  lemma ExplainParent(heap: Heap, seen: set<Ref>, r: Ref, child: Value, e: Error)
    requires r in heap && Holds(heap[r], child) && Explains(heap, seen + {r}, child, e)
    ensures Explains(heap, seen, RefVal(r), e)
  {
    match e
    case Cyclic =>
      var q :| Walk(heap, q) && q[0] == child.ref && (Last(q) in seen + {r} || Last(q) in q[..|q| - 1]);
      var p := [r] + q;
      assert Walk(heap, p) by { assert forall i :: 0 < i < |p| ==> p[i] == q[i - 1]; }
      assert Last(p) == Last(q);
      assert Last(p) in seen || Last(p) in p[..|p| - 1] by {
        if Last(q) in q[..|q| - 1] {
          var i :| 0 <= i < |q| - 1 && q[i] == Last(q);
          assert p[..|p| - 1][i + 1] == q[i];
        } else if Last(q) == r {
          assert p[..|p| - 1][0] == r;
        }
      }
    case _ =>
      if Unprintable(child) {
        assert WalkToUnprintable(heap, [r]) && [r][0] == r;
      } else {
        var q :| WalkToUnprintable(heap, q) && q[0] == child.ref;
        var p := [r] + q;
        assert Walk(heap, p) by { assert forall i :: 0 < i < |p| ==> p[i] == q[i - 1]; }
        assert Last(p) == Last(q);
        assert WalkToUnprintable(heap, p) && p[0] == r;
      }
  }

  /** Serialization fails exactly when a cycle or an unprintable value is reachable. */
  lemma FailsIff(heap: Heap, v: Value)
    requires ValidHeap(heap) && ValidValue(heap, v)
    ensures Stringify(heap, v).Err? <==> CycleReachable(heap, v) || UnprintableReachable(heap, v)
    ensures Stringify(heap, v) == Err(Cyclic) ==> CycleReachable(heap, v)
    ensures Stringify(heap, v).Err? && Stringify(heap, v).error != Cyclic ==> UnprintableReachable(heap, v)
  {
    if CycleReachable(heap, v) {
      var p :| Walk(heap, p) && p[0] == v.ref && Last(p) in p[..|p| - 1];
      CycleFails(heap, {}, p);
    }
    if UnprintableReachable(heap, v) && !Unprintable(v) {
      var p :| WalkToUnprintable(heap, p) && p[0] == v.ref;
      UnprintableFails(heap, {}, p);
    }
    if Serial(heap, {}, v).Err? {
      FailureExplained(heap, {}, v);
    }
  }

  // --- the finite value that a root stands for ---

  /** The graph below `v`, unfolded into the tree `t`. */
  ghost predicate Unfolds(heap: Heap, v: Value, t: Tree)
    decreases t
  {
    match v
    case UndefinedVal => t == Undefined
    case NullVal => t == Null
    case BoolVal(b) => t == Bool(b)
    case NumVal(n) => t == Num(n)
    case NonFiniteVal => false
    case BigIntVal => false
    case StrVal(s) => t == Str(s)
    case RefVal(r) =>
      r in heap &&
      match heap[r]
      case ArrayNode(items) =>
        t.Arr? && |t.items| == |items| && forall i :: 0 <= i < |items| ==> Unfolds(heap, items[i], t.items[i])
      case ObjectNode(properties) =>
        t.Obj? && |t.members| == |properties| &&
        forall i :: 0 <= i < |properties| ==>
          t.members[i].key == properties[i].key && Unfolds(heap, properties[i].value, t.members[i].value)
  }

  lemma {:induction false} UnfoldingUnique(heap: Heap, v: Value, t: Tree, u: Tree)
    requires Unfolds(heap, v, t) && Unfolds(heap, v, u)
    ensures t == u
    decreases t
  {
    if v.RefVal? {
      match heap[v.ref]
      case ArrayNode(items) =>
        forall i | 0 <= i < |items| ensures t.items[i] == u.items[i] {
          UnfoldingUnique(heap, items[i], t.items[i], u.items[i]);
        }
        assert t.items == u.items;
      case ObjectNode(properties) =>
        forall i | 0 <= i < |properties| ensures t.members[i] == u.members[i] {
          UnfoldingUnique(heap, properties[i].value, t.members[i].value, u.members[i].value);
        }
        assert t.members == u.members;
    }
  }

  lemma {:induction false} UnfoldingWellFormed(heap: Heap, v: Value, t: Tree)
    requires ValidHeap(heap) && Unfolds(heap, v, t)
    ensures WellFormed(t)
    decreases t
  {
    if v.RefVal? {
      assert ValidNode(heap, heap[v.ref]);
      match heap[v.ref]
      case ArrayNode(items) =>
        forall i | 0 <= i < |items| ensures WellFormed(t.items[i]) {
          UnfoldingWellFormed(heap, items[i], t.items[i]);
        }
      case ObjectNode(properties) =>
        assert KeysOf(t.members) == PropertyKeys(properties);
        forall i | 0 <= i < |properties| ensures WellFormed(t.members[i].value) {
          UnfoldingWellFormed(heap, properties[i].value, t.members[i].value);
        }
    }
  }

  /** A successful serialization is the printed unfolding. */
  lemma {:induction false} SuccessUnfolds(heap: Heap, seen: set<Ref>, v: Value) returns (t: Tree)
    requires ValidHeap(heap) && ValidValue(heap, v)
    requires Serial(heap, seen, v).Ok?
    ensures Unfolds(heap, v, t) && Serial(heap, seen, v) == Ok(Print(t))
    decreases heap.Keys - seen, 0
  {
    match v
    case UndefinedVal => t := Undefined;
    case NullVal => t := Null;
    case BoolVal(b) => t := Bool(b);
    case NumVal(n) => t := Num(n);
    case StrVal(s) => t := Str(s);
    case RefVal(r) =>
      assert ValidNode(heap, heap[r]);
      match heap[r] {
        case ArrayNode(items) =>
          var trees := ItemsUnfold(heap, seen + {r}, items);
          t := Arr(trees);
        case ObjectNode(properties) =>
          var keys := SortKeys(PropertyKeys(properties));
          SortKeysIncreasing(PropertyKeys(properties));
          var members := PropertiesUnfold(heap, seen + {r}, properties);
          assert KeysOf(members) == PropertyKeys(properties);
          PrintedProperties(heap, seen + {r}, properties, members, keys);
          t := Obj(members);
      }
  }

  lemma {:induction false} ItemsUnfold(heap: Heap, seen: set<Ref>, items: seq<Value>) returns (trees: seq<Tree>)
    requires ValidHeap(heap) && forall i :: 0 <= i < |items| ==> ValidValue(heap, items[i])
    requires SerialItems(heap, seen, items).Ok?
    ensures |trees| == |items| && forall i :: 0 <= i < |items| ==> Unfolds(heap, items[i], trees[i])
    ensures SerialItems(heap, seen, items) == Ok(PrintItems(trees))
    decreases heap.Keys - seen, 1, |items|
  {
    if items == [] {
      trees := [];
    } else {
      var first := SuccessUnfolds(heap, seen, items[0]);
      var rest := ItemsUnfold(heap, seen, items[1..]);
      trees := [first] + rest;
      assert trees[1..] == rest;
    }
  }

  lemma {:induction false} PropertySucceeds(heap: Heap, seen: set<Ref>, properties: seq<Property>, i: nat)
    requires ValidHeap(heap) && forall i :: 0 <= i < |properties| ==> ValidValue(heap, properties[i].value)
    requires Distinct(PropertyKeys(properties)) && i < |properties|
    requires SerialProperties(heap, seen, properties, SortKeys(PropertyKeys(properties))).Ok?
    ensures Serial(heap, seen, properties[i].value).Ok?
  {
    SortKeysIncreasing(PropertyKeys(properties));
    assert PropertyKeys(properties)[i] == properties[i].key;
    ReadUnique(properties, i);
    if Serial(heap, seen, properties[i].value).Err? {
      PropertyFails(heap, seen, properties, SortKeys(PropertyKeys(properties)), properties[i].key);
    }
  }

  lemma {:induction false} PropertiesUnfold(heap: Heap, seen: set<Ref>, properties: seq<Property>) returns (members: seq<Member>)
    requires ValidHeap(heap) && forall i :: 0 <= i < |properties| ==> ValidValue(heap, properties[i].value)
    requires Distinct(PropertyKeys(properties))
    requires SerialProperties(heap, seen, properties, SortKeys(PropertyKeys(properties))).Ok?
    ensures |members| == |properties|
    ensures forall i :: 0 <= i < |properties| ==>
              && members[i].key == properties[i].key
              && Unfolds(heap, properties[i].value, members[i].value)
              && Serial(heap, seen, properties[i].value) == Ok(Print(members[i].value))
    decreases heap.Keys - seen, 1
  {
    members := [];
    for n := 0 to |properties|
      invariant |members| == n
      invariant forall i :: 0 <= i < n ==>
                  && members[i].key == properties[i].key
                  && Unfolds(heap, properties[i].value, members[i].value)
                  && Serial(heap, seen, properties[i].value) == Ok(Print(members[i].value))
    {
      PropertySucceeds(heap, seen, properties, n);
      var t := SuccessUnfolds(heap, seen, properties[n].value);
      members := members + [Member(properties[n].key, t)];
    }
  }

  lemma {:induction false} PrintedProperties(heap: Heap, seen: set<Ref>, properties: seq<Property>, members: seq<Member>, keys: seq<Text>)
    requires ValidHeap(heap) && forall i :: 0 <= i < |properties| ==> ValidValue(heap, properties[i].value)
    requires Distinct(PropertyKeys(properties)) && |members| == |properties|
    requires forall i :: 0 <= i < |properties| ==>
               members[i].key == properties[i].key && Serial(heap, seen, properties[i].value) == Ok(Print(members[i].value))
    ensures SerialProperties(heap, seen, properties, keys) == Ok(PrintMembers(members, keys))
    decreases |keys|
  {
    if keys != [] {
      PrintedProperties(heap, seen, properties, members, keys[1..]);
      assert KeysOf(members) == PropertyKeys(properties);
      if Owns(properties, keys[0]) {
        var i :| 0 <= i < |properties| && properties[i].key == keys[0];
        ReadUnique(properties, i);
        assert members[i].key == keys[0];
        FindUnique(members, i);
      } else {
        forall i | 0 <= i < |members| ensures members[i].key != keys[0] {
          assert properties[i].key != keys[0];
        }
      }
    }
  }

  /** The text of a root is the canonical text of its one unfolding. */
  lemma StringifyIsCanonical(heap: Heap, v: Value) returns (t: Tree)
    requires ValidHeap(heap) && ValidValue(heap, v) && Stringify(heap, v).Ok?
    ensures Unfolds(heap, v, t) && WellFormed(t) && Stringify(heap, v) == Ok(Canonical(t))
  {
    t := SuccessUnfolds(heap, {}, v);
    UnfoldingWellFormed(heap, v, t);
  }

  /** Two roots, in any two heaps, print the same text exactly when their unfoldings have one normal form. */
  lemma StringifyUnambiguous(heap: Heap, v: Value, t: Tree, heap': Heap, v': Value, t': Tree)
    requires ValidHeap(heap) && ValidValue(heap, v) && Stringify(heap, v).Ok? && Unfolds(heap, v, t)
    requires ValidHeap(heap') && ValidValue(heap', v') && Stringify(heap', v').Ok? && Unfolds(heap', v', t')
    ensures Stringify(heap, v) == Stringify(heap', v') <==> Norm(t) == Norm(t')
  {
    var u := StringifyIsCanonical(heap, v);
    var u' := StringifyIsCanonical(heap', v');
    UnfoldingUnique(heap, v, t, u);
    UnfoldingUnique(heap', v', t', u');
    CanonicalIffSameNorm(t, t');
  }
}
