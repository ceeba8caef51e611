/** Which error stops a canonical print: the fault met first in print order. */
module CanonicalFaults {
  import opened Wrappers
  import opened Sequences
  import opened CanonicalText
  import opened CanonicalJson
  import opened CanonicalGraph
  import opened CanonicalGraphFacts

  // --- places in a graph ---

  /** The values of the given keys, in the order of the keys. */
  function ReadAll(properties: seq<Property>, keys: seq<Text>): seq<Value> {
    if keys == [] then []
    else (if Owns(properties, keys[0]) then [Read(properties, keys[0])] else []) + ReadAll(properties, keys[1..])
  }

  /** What an object or array holds, in print order. */
  function Children(node: Node): seq<Value> {
    match node
    case ArrayNode(items) => items
    case ObjectNode(properties) => ReadAll(properties, SortKeys(PropertyKeys(properties)))
  }

  /**
   * What is wrong at the place a route leads to: each number picks a child, and `above` are the
   * objects gone through on the way.
   */
  function FaultAt(heap: Heap, above: set<Ref>, v: Value, route: seq<nat>): Option<Error>
    decreases |route|
  {
    if route == [] then
      match v
      case NonFiniteVal => Some(NonFinite)
      case BigIntVal => Some(BigInt)
      case RefVal(r) => if r in above then Some(Cyclic) else None
      case _ => None
    else if v.RefVal? && v.ref in heap && route[0] < |Children(heap[v.ref])| then
      FaultAt(heap, above + {v.ref}, Children(heap[v.ref])[route[0]], route[1..])
    else None
  }

  /** Print order: an object before what it holds, and its children in turn. */
  predicate MetBefore(a: seq<nat>, b: seq<nat>) {
    if b == [] then false
    else if a == [] then true
    else a[0] < b[0] || (a[0] == b[0] && MetBefore(a[1..], b[1..]))
  }

  ghost predicate FirstFault(heap: Heap, above: set<Ref>, v: Value, route: seq<nat>, e: Error) {
    && FaultAt(heap, above, v, route) == Some(e)
    && forall other :: FaultAt(heap, above, v, other).Some? && other != route ==> MetBefore(route, other)
  }

  ghost predicate Faultless(heap: Heap, above: set<Ref>, v: Value) {
    forall route :: FaultAt(heap, above, v, route).None?
  }

  // --- the loops stop at the first child that fails ---

  ghost predicate ValidAll(heap: Heap, vs: seq<Value>) {
    forall i :: 0 <= i < |vs| ==> ValidValue(heap, vs[i])
  }

  ghost predicate FailsFirst(heap: Heap, above: set<Ref>, vs: seq<Value>, i: nat, e: Error)
    requires ValidHeap(heap) && ValidAll(heap, vs)
  {
    && i < |vs| && Serial(heap, above, vs[i]) == Err(e)
    && forall j :: 0 <= j < i ==> Serial(heap, above, vs[j]).Ok?
  }

  ghost predicate AllPrint(heap: Heap, above: set<Ref>, vs: seq<Value>)
    requires ValidHeap(heap) && ValidAll(heap, vs)
  {
    forall i :: 0 <= i < |vs| ==> Serial(heap, above, vs[i]).Ok?
  }

  /** The child that ends a loop with this error, or none if it goes through. */
  ghost predicate LoopEnds(heap: Heap, above: set<Ref>, vs: seq<Value>, r: Result<seq<Text>, Error>)
    requires ValidHeap(heap) && ValidAll(heap, vs)
  {
    if r.Ok? then AllPrint(heap, above, vs) else exists i: nat :: FailsFirst(heap, above, vs, i, r.error)
  }

  lemma LoopStep(heap: Heap, above: set<Ref>, first: Value, rest: seq<Value>, r: Result<seq<Text>, Error>)
    requires ValidHeap(heap) && ValidAll(heap, [first] + rest) && ValidAll(heap, rest)
    requires ValidValue(heap, first) && Serial(heap, above, first).Ok? && LoopEnds(heap, above, rest, r)
    ensures LoopEnds(heap, above, [first] + rest, r)
  {
    var vs := [first] + rest;
    match r
    case Ok(_) =>
      assert forall i :: 0 < i < |vs| ==> vs[i] == rest[i - 1];
    case Err(e) =>
      var i: nat :| FailsFirst(heap, above, rest, i, e);
      forall j | 0 <= j < i + 1 ensures Serial(heap, above, vs[j]).Ok? {
        if j > 0 { assert vs[j] == rest[j - 1]; }
      }
      assert FailsFirst(heap, above, vs, i + 1, e);
  }

  lemma LoopStops(heap: Heap, above: set<Ref>, first: Value, rest: seq<Value>, e: Error)
    requires ValidHeap(heap) && ValidAll(heap, [first] + rest) && ValidValue(heap, first) && Serial(heap, above, first) == Err(e)
    ensures LoopEnds(heap, above, [first] + rest, Err(e))
  {
    assert FailsFirst(heap, above, [first] + rest, 0, e);
  }

  lemma {:induction false} ItemsEnd(heap: Heap, above: set<Ref>, items: seq<Value>)
    requires ValidHeap(heap) && ValidAll(heap, items)
    ensures LoopEnds(heap, above, items, SerialItems(heap, above, items))
    decreases |items|
  {
    if items != [] {
      var first, rest := items[0], items[1..];
      assert items == [first] + rest;
      if Serial(heap, above, first).Err? {
        LoopStops(heap, above, first, rest, Serial(heap, above, first).error);
      } else {
        ItemsEnd(heap, above, rest);
        SameEnd(heap, above, rest, SerialItems(heap, above, rest), SerialItems(heap, above, items));
        LoopStep(heap, above, first, rest, SerialItems(heap, above, items));
      }
    }
  }

  /** How a loop ends says only whether it fails and with what. */
  lemma SameEnd(heap: Heap, above: set<Ref>, vs: seq<Value>, r: Result<seq<Text>, Error>, r': Result<seq<Text>, Error>)
    requires ValidHeap(heap) && ValidAll(heap, vs) && LoopEnds(heap, above, vs, r)
    requires r.Ok? == r'.Ok? && (r.Err? ==> r == r')
    ensures LoopEnds(heap, above, vs, r')
  {
  }

  lemma {:induction false} ReadAllValid(heap: Heap, properties: seq<Property>, keys: seq<Text>)
    requires forall i :: 0 <= i < |properties| ==> ValidValue(heap, properties[i].value)
    ensures ValidAll(heap, ReadAll(properties, keys))
  {
    if keys != [] { ReadAllValid(heap, properties, keys[1..]); }
  }

  lemma {:induction false} PropertiesEnd(heap: Heap, above: set<Ref>, properties: seq<Property>, keys: seq<Text>)
    requires ValidHeap(heap) && forall i :: 0 <= i < |properties| ==> ValidValue(heap, properties[i].value)
    ensures ValidAll(heap, ReadAll(properties, keys))
    ensures LoopEnds(heap, above, ReadAll(properties, keys), SerialProperties(heap, above, properties, keys))
    decreases |keys|
  {
    ReadAllValid(heap, properties, keys);
    if keys != [] {
      var rest := ReadAll(properties, keys[1..]);
      var last, whole := SerialProperties(heap, above, properties, keys[1..]), SerialProperties(heap, above, properties, keys);
      PropertiesEnd(heap, above, properties, keys[1..]);
      if !Owns(properties, keys[0]) {
        assert ReadAll(properties, keys) == rest;
      } else {
        var first := Read(properties, keys[0]);
        assert ReadAll(properties, keys) == [first] + rest;
        if Serial(heap, above, first).Err? {
          LoopStops(heap, above, first, rest, Serial(heap, above, first).error);
        } else {
          SameEnd(heap, above, rest, last, whole);
          LoopStep(heap, above, first, rest, whole);
        }
      }
    }
  }

  /** An object prints when its children do, and fails as the first of them that fails. */
  lemma ChildrenDecide(heap: Heap, above: set<Ref>, r: Ref)
    requires ValidHeap(heap) && r in heap && r !in above
    ensures ValidAll(heap, Children(heap[r]))
    ensures var printed := Serial(heap, above, RefVal(r));
            if printed.Ok? then AllPrint(heap, above + {r}, Children(heap[r]))
            else exists i: nat :: FailsFirst(heap, above + {r}, Children(heap[r]), i, printed.error)
  {
    assert ValidNode(heap, heap[r]);
    match heap[r]
    case ArrayNode(items) => ItemsEnd(heap, above + {r}, items);
    case ObjectNode(properties) => PropertiesEnd(heap, above + {r}, properties, SortKeys(PropertyKeys(properties)));
  }

  // --- the first fault ---

  lemma {:induction false} MetOnce(a: seq<nat>, b: seq<nat>)
    ensures !(MetBefore(a, b) && MetBefore(b, a)) && !MetBefore(a, a)
  {
    if a != [] && b != [] { MetOnce(a[1..], b[1..]); }
    if a != [] { MetOnce(a[1..], a[1..]); }
  }

  /** Printing goes through where nothing is wrong, and otherwise fails with the fault met first. */
  lemma {:induction false} SerialFindsFirst(heap: Heap, above: set<Ref>, v: Value)
    requires ValidHeap(heap) && ValidValue(heap, v)
    ensures var printed := Serial(heap, above, v);
            if printed.Ok? then Faultless(heap, above, v)
            else exists route :: FirstFault(heap, above, v, route, printed.error)
    decreases heap.Keys - above
  {
    if v.RefVal? && v.ref !in above {
      var r := v.ref;
      var vs := Children(heap[r]);
      ChildrenDecide(heap, above, r);
      match Serial(heap, above, v) {
        case Ok(_) =>
          forall i | 0 <= i < |vs| ensures Faultless(heap, above + {r}, vs[i]) {
            SerialFindsFirst(heap, above + {r}, vs[i]);
          }
          NoneBelow(heap, above, r);
        case Err(e) =>
          var i: nat :| FailsFirst(heap, above + {r}, vs, i, e);
          forall j | 0 <= j < i ensures Faultless(heap, above + {r}, vs[j]) {
            SerialFindsFirst(heap, above + {r}, vs[j]);
          }
          SerialFindsFirst(heap, above + {r}, vs[i]);
          var route :| FirstFault(heap, above + {r}, vs[i], route, e);
          FirstBelow(heap, above, r, i, route, e);
      }
    } else {
      AtOnce(heap, above, v);
    }
  }

  lemma NoneBelow(heap: Heap, above: set<Ref>, r: Ref)
    requires r in heap && r !in above
    requires forall i :: 0 <= i < |Children(heap[r])| ==> Faultless(heap, above + {r}, Children(heap[r])[i])
    ensures Faultless(heap, above, RefVal(r))
  {
    forall route ensures FaultAt(heap, above, RefVal(r), route).None? {
      if route != [] && route[0] < |Children(heap[r])| {
        assert Faultless(heap, above + {r}, Children(heap[r])[route[0]]);
      }
    }
  }

  lemma FirstBelow(heap: Heap, above: set<Ref>, r: Ref, i: nat, route: seq<nat>, e: Error)
    requires r in heap && r !in above && i < |Children(heap[r])|
    requires forall j :: 0 <= j < i ==> Faultless(heap, above + {r}, Children(heap[r])[j])
    requires FirstFault(heap, above + {r}, Children(heap[r])[i], route, e)
    ensures FirstFault(heap, above, RefVal(r), [i] + route, e)
  {
    var whole := [i] + route;
    assert whole[1..] == route;
    forall other | FaultAt(heap, above, RefVal(r), other).Some? && other != whole ensures MetBefore(whole, other) {
      FaultBelow(heap, above, r, other);
      FirstAmong(heap, above + {r}, Children(heap[r]), i, route, e, other[0], other[1..]);
    }
  }

  lemma FaultBelow(heap: Heap, above: set<Ref>, r: Ref, route: seq<nat>)
    requires r in heap && r !in above && FaultAt(heap, above, RefVal(r), route).Some?
    ensures route != [] && route == [route[0]] + route[1..] && route[0] < |Children(heap[r])|
    ensures FaultAt(heap, above + {r}, Children(heap[r])[route[0]], route[1..]).Some?
  {
  }

  lemma FirstAmong(heap: Heap, above: set<Ref>, vs: seq<Value>, i: nat, route: seq<nat>, e: Error, j: nat, rest: seq<nat>)
    requires i < |vs| && j < |vs| && FaultAt(heap, above, vs[j], rest).Some? && [j] + rest != [i] + route
    requires forall k :: 0 <= k < i ==> Faultless(heap, above, vs[k])
    requires FirstFault(heap, above, vs[i], route, e)
    ensures MetBefore([i] + route, [j] + rest)
  {
    MetBelow(i, route, j, rest);
  }

  lemma MetBelow(i: nat, a: seq<nat>, j: nat, b: seq<nat>)
    ensures MetBefore([i] + a, [j] + b) <==> i < j || (i == j && MetBefore(a, b))
  {
    assert ([i] + a)[1..] == a && ([j] + b)[1..] == b;
  }

  /** A value that is no object, or an object being printed already. */
  lemma AtOnce(heap: Heap, above: set<Ref>, v: Value)
    requires ValidHeap(heap) && ValidValue(heap, v) && (v.RefVal? ==> v.ref in above)
    ensures var printed := Serial(heap, above, v);
            if printed.Ok? then Faultless(heap, above, v) else FirstFault(heap, above, v, [], printed.error)
  {
  }

  /** An error is raised if and only if it is the first of all faults in print order, shared or nested however they are. */
  lemma FirstFaultWins(heap: Heap, v: Value, e: Error)
    requires ValidHeap(heap) && ValidValue(heap, v)
    ensures Stringify(heap, v) == Err(e) <==> exists route :: FirstFault(heap, {}, v, route, e)
  {
    SerialFindsFirst(heap, {}, v);
    if route :| FirstFault(heap, {}, v, route, e) {
      if Serial(heap, {}, v).Err? {
        var other :| FirstFault(heap, {}, v, other, Serial(heap, {}, v).error);
        MetOnce(route, other);
      }
    }
  }

  // --- faults and what can be reached ---

  lemma {:induction false} FaultExplained(heap: Heap, above: set<Ref>, v: Value, route: seq<nat>)
    requires ValidHeap(heap) && ValidValue(heap, v) && FaultAt(heap, above, v, route).Some?
    ensures Explains(heap, above, v, FaultAt(heap, above, v, route).value)
    decreases |route|
  {
    if route == [] {
      if v.RefVal? {
        assert Walk(heap, [v.ref]) && Last([v.ref]) == v.ref;
      }
    } else {
      var r, child := v.ref, Children(heap[v.ref])[route[0]];
      ChildHeld(heap, r, route[0]);
      FaultExplained(heap, above + {r}, child, route[1..]);
      ExplainParent(heap, above, r, child, FaultAt(heap, above, v, route).value);
    }
  }

  lemma {:induction false} ReadAllHeld(properties: seq<Property>, keys: seq<Text>, i: nat)
    requires i < |ReadAll(properties, keys)|
    ensures exists j :: 0 <= j < |properties| && properties[j].value == ReadAll(properties, keys)[i]
  {
    if !Owns(properties, keys[0]) {
      ReadAllHeld(properties, keys[1..], i);
    } else if i > 0 {
      ReadAllHeld(properties, keys[1..], i - 1);
    }
  }

  lemma ChildHeld(heap: Heap, r: Ref, i: nat)
    requires ValidHeap(heap) && r in heap && i < |Children(heap[r])|
    ensures Holds(heap[r], Children(heap[r])[i]) && ValidValue(heap, Children(heap[r])[i])
  {
    assert ValidNode(heap, heap[r]);
    if heap[r].ObjectNode? {
      ReadAllHeld(heap[r].properties, SortKeys(PropertyKeys(heap[r].properties)), i);
    }
  }

  lemma {:induction false} ReadAllHas(properties: seq<Property>, keys: seq<Text>, key: Text)
    requires key in keys && Owns(properties, key)
    ensures Read(properties, key) in ReadAll(properties, keys)
  {
    if keys[0] != key {
      ReadAllHas(properties, keys[1..], key);
    }
  }

  lemma ChildPlace(heap: Heap, r: Ref, child: Value) returns (i: nat)
    requires ValidHeap(heap) && r in heap && Holds(heap[r], child)
    ensures i < |Children(heap[r])| && Children(heap[r])[i] == child
  {
    assert ValidNode(heap, heap[r]);
    if heap[r].ObjectNode? {
      var properties := heap[r].properties;
      var j :| 0 <= j < |properties| && properties[j].value == child;
      ReadUnique(properties, j);
      SortKeysIncreasing(PropertyKeys(properties));
      assert PropertyKeys(properties)[j] == properties[j].key;
      ReadAllHas(properties, SortKeys(PropertyKeys(properties)), properties[j].key);
    }
    assert child in Children(heap[r]);
    i :| 0 <= i < |Children(heap[r])| && Children(heap[r])[i] == child;
  }

  lemma {:induction false} CycleFault(heap: Heap, above: set<Ref>, p: seq<Ref>) returns (route: seq<nat>)
    requires ValidHeap(heap) && Walk(heap, p)
    requires Last(p) in above || Last(p) in p[..|p| - 1]
    ensures FaultAt(heap, above, RefVal(p[0]), route) == Some(Cyclic)
    decreases |p|
  {
    if p[0] in above {
      route := [];
    } else {
      var q := p[1..];
      TailRepeats(p, above);
      route := CycleFault(heap, above + {p[0]}, q);
      var i := ChildPlace(heap, p[0], RefVal(p[1]));
      assert ([i] + route)[1..] == route;
      route := [i] + route;
    }
  }

  lemma TailRepeats(p: seq<Ref>, above: set<Ref>)
    requires p != [] && p[0] !in above && (Last(p) in above || Last(p) in p[..|p| - 1])
    ensures |p| > 1 && Last(p[1..]) == Last(p)
    ensures Last(p) in above + {p[0]} || Last(p) in p[1..][..|p| - 2]
  {
    if Last(p) !in above {
      var i :| 0 <= i < |p| - 1 && p[i] == Last(p);
      if i > 0 { assert p[1..][..|p| - 2][i - 1] == p[i]; }
    }
  }

  lemma {:induction false} UnprintableFault(heap: Heap, above: set<Ref>, p: seq<Ref>) returns (route: seq<nat>)
    requires ValidHeap(heap) && WalkToUnprintable(heap, p)
    ensures var fault := FaultAt(heap, above, RefVal(p[0]), route); fault == Some(NonFinite) || fault == Some(BigInt)
    decreases |p|
  {
    var child := if |p| > 1 then RefVal(p[1]) else if Holds(heap[p[0]], NonFiniteVal) then NonFiniteVal else BigIntVal;
    if |p| > 1 {
      assert Last(p[1..]) == Last(p);
      route := UnprintableFault(heap, above + {p[0]}, p[1..]);
    } else {
      route := [];
    }
    var i := ChildPlace(heap, p[0], child);
    assert ([i] + route)[1..] == route;
    route := [i] + route;
  }

  predicate OtherFault(heap: Heap, v: Value, route: seq<nat>) {
    FaultAt(heap, {}, v, route) == Some(NonFinite) || FaultAt(heap, {}, v, route) == Some(BigInt)
  }

  /** A cyclic fault lies somewhere exactly when a cycle can be reached, any other exactly when an unprintable value can. */
  lemma FaultsReached(heap: Heap, v: Value)
    requires ValidHeap(heap) && ValidValue(heap, v)
    ensures (exists route :: FaultAt(heap, {}, v, route) == Some(Cyclic)) <==> CycleReachable(heap, v)
    ensures (exists route :: OtherFault(heap, v, route)) <==> UnprintableReachable(heap, v)
  {
    forall route | FaultAt(heap, {}, v, route).Some? ensures Explains(heap, {}, v, FaultAt(heap, {}, v, route).value) {
      FaultExplained(heap, {}, v, route);
    }
    if CycleReachable(heap, v) {
      var p :| Walk(heap, p) && p[0] == v.ref && Last(p) in p[..|p| - 1];
      var route := CycleFault(heap, {}, p);
    }
    if Unprintable(v) {
      assert OtherFault(heap, v, []);
    } else if UnprintableReachable(heap, v) {
      var p :| WalkToUnprintable(heap, p) && p[0] == v.ref;
      var route := UnprintableFault(heap, {}, p);
      assert OtherFault(heap, v, route);
    }
  }

  /** The cyclic error is raised if and only if a place that closes a cycle comes first; among printable values, exactly on a cycle. */
  lemma CyclicErrorIff(heap: Heap, v: Value)
    requires ValidHeap(heap) && ValidValue(heap, v)
    ensures Stringify(heap, v) == Err(Cyclic) <==> exists route :: FirstFault(heap, {}, v, route, Cyclic)
    ensures !UnprintableReachable(heap, v) ==> (Stringify(heap, v) == Err(Cyclic) <==> CycleReachable(heap, v))
  {
    FirstFaultWins(heap, v, Cyclic);
    FailsIff(heap, v);
  }

  /** An array that holds itself and a NaN: the order of the two decides the error. */
  lemma FirstFaultExample()
    ensures Stringify(map[0 := ArrayNode([RefVal(0), NonFiniteVal])], RefVal(0)) == Err(Cyclic)
    ensures Stringify(map[0 := ArrayNode([NonFiniteVal, RefVal(0)])], RefVal(0)) == Err(NonFinite)
  {
    var first, second := [RefVal(0), NonFiniteVal], [NonFiniteVal, RefVal(0)];
    assert SerialItems(map[0 := ArrayNode(first)], {0}, first) == Err(Cyclic);
    assert SerialItems(map[0 := ArrayNode(second)], {0}, second) == Err(NonFinite);
    assert {} + {0} == {0};
  }
}
