/**
 * Topological startup order of daemon modules (lifecycle.ts).
 */
module StartupOrder {
  import opened Wrappers
  import opened Sequences

  datatype Module = Module(id: string, dependencies: seq<string>, critical: bool)

  datatype OrderError =
    | DuplicateModule(id: string)
    | MissingDependency(id: string, dependency: string)
    | CyclicDependency(remaining: seq<string>)

  // --- what an order is ---

  ghost predicate DistinctIds(modules: seq<Module>) {
    forall i, j :: 0 <= i < j < |modules| ==> modules[i].id != modules[j].id
  }

  predicate Registered(modules: seq<Module>, id: string) {
    exists i :: 0 <= i < |modules| && modules[i].id == id
  }

  ghost predicate NoneMissing(modules: seq<Module>) {
    forall i, j :: 0 <= i < |modules| && 0 <= j < |modules[i].dependencies| ==> Registered(modules, modules[i].dependencies[j])
  }

  ghost predicate DependsOn(modules: seq<Module>, a: string, b: string) {
    exists i :: 0 <= i < |modules| && modules[i].id == a && b in modules[i].dependencies
  }

  /** A walk along dependencies that returns to its start, through the given ids only. */
  ghost predicate CycleWalk(modules: seq<Module>, within: set<string>, p: seq<string>) {
    && |p| >= 2 && p[0] == p[|p| - 1]
    && (forall i :: 0 <= i < |p| ==> p[i] in within)
    && (forall i :: 0 <= i < |p| - 1 ==> DependsOn(modules, p[i], p[i + 1]))
  }

  function IdSet(modules: seq<Module>): (ids: set<string>)
    ensures forall id :: id in ids <==> Registered(modules, id)
  {
    set i | 0 <= i < |modules| :: modules[i].id
  }

  ghost predicate CycleAmong(modules: seq<Module>, ids: set<string>) {
    exists p :: CycleWalk(modules, ids, p)
  }

  ghost predicate Cyclic(modules: seq<Module>) {
    CycleAmong(modules, IdSet(modules))
  }

  /** Every module exactly once, and each after everything it depends on. */
  ghost predicate TopologicalOrder(modules: seq<Module>, order: seq<string>) {
    && |order| == |modules|
    && Distinct(order)
    && (forall i :: 0 <= i < |order| ==> Registered(modules, order[i]))
    && (forall i :: 0 <= i < |modules| ==> modules[i].id in order)
    && DependenciesFirst(modules, order)
  }

  ghost predicate DependenciesFirst(modules: seq<Module>, order: seq<string>) {
    forall i, b :: 0 <= i < |order| && DependsOn(modules, order[i], b) ==> b in order[..i]
  }

  // --- cycles and orders exclude one another ---

  lemma {:induction false} CycleDescends(modules: seq<Module>, order: seq<string>, p: seq<string>, k: nat, n: nat, m: nat)
    requires DependenciesFirst(modules, order) && Distinct(order)
    requires 0 < k < |p| && forall i :: 0 <= i < |p| - 1 ==> DependsOn(modules, p[i], p[i + 1])
    requires n < |order| && order[n] == p[0]
    requires m < |order| && order[m] == p[k]
    ensures m < n
    decreases k
  {
    assert DependsOn(modules, p[k - 1], p[k]);
    if k == 1 {
      assert order[m] in order[..n];
    } else {
      var l := PositionBefore(modules, order, p, k - 1, n);
      CycleDescends(modules, order, p, k - 1, n, l);
      assert order[m] in order[..l];
    }
  }

  lemma {:induction false} PositionBefore(modules: seq<Module>, order: seq<string>, p: seq<string>, k: nat, n: nat) returns (l: nat)
    requires DependenciesFirst(modules, order)
    requires 0 < k < |p| && forall i :: 0 <= i < |p| - 1 ==> DependsOn(modules, p[i], p[i + 1])
    requires n < |order| && order[n] == p[0]
    ensures l < |order| && order[l] == p[k]
    decreases k
  {
    assert DependsOn(modules, p[k - 1], p[k]);
    var before := n;
    if k > 1 {
      before := PositionBefore(modules, order, p, k - 1, n);
    }
    assert p[k] in order[..before];
    l :| 0 <= l < before && order[l] == p[k];
  }

  /** A graph with a topological order has no cycle. */
  lemma OrderExcludesCycle(modules: seq<Module>, order: seq<string>)
    requires TopologicalOrder(modules, order)
    ensures !Cyclic(modules)
  {
    if Cyclic(modules) {
      var p :| CycleWalk(modules, IdSet(modules), p);
      assert Registered(modules, p[0]);
      var i :| 0 <= i < |modules| && modules[i].id == p[0];
      var n :| 0 <= n < |order| && order[n] == p[0];
      CycleDescends(modules, order, p, |p| - 1, n, n);
    }
  }

  ghost predicate DependsWithin(modules: seq<Module>, ids: set<string>, a: string) {
    exists b :: b in ids && DependsOn(modules, a, b)
  }

  ghost predicate AllStuck(modules: seq<Module>, ids: set<string>) {
    forall a {:trigger DependsWithin(modules, ids, a)} :: a in ids ==> DependsWithin(modules, ids, a)
  }

  lemma {:induction false} ExtendWalk(modules: seq<Module>, ids: set<string>, walk: seq<string>)
    requires walk != [] && Distinct(walk) && (forall i :: 0 <= i < |walk| ==> walk[i] in ids)
    requires forall i :: 0 <= i < |walk| - 1 ==> DependsOn(modules, walk[i], walk[i + 1])
    requires AllStuck(modules, ids)
    ensures CycleAmong(modules, ids)
    decreases |ids| - |walk|
  {
    var last := walk[|walk| - 1];
    assert DependsWithin(modules, ids, last);
    var next :| next in ids && DependsOn(modules, last, next);
    DistinctFits(walk, ids);
    if next in walk {
      var i :| 0 <= i < |walk| && walk[i] == next;
      var p := walk[i..] + [next];
      assert forall k :: 0 <= k < |p| - 1 ==> p[k] == walk[i + k];
      assert CycleWalk(modules, ids, p);
    } else {
      DistinctFits(walk + [next], ids);
      ExtendWalk(modules, ids, walk + [next]);
    }
  }

  lemma {:induction false} DistinctFits(s: seq<string>, ids: set<string>)
    requires Distinct(s) && forall i :: 0 <= i < |s| ==> s[i] in ids
    ensures |s| <= |ids|
  {
    if s != [] {
      var last := s[|s| - 1];
      var front := s[..|s| - 1];
      forall i | 0 <= i < |front| ensures front[i] in ids - {last} {
        assert front[i] == s[i] && s[i] != last;
      }
      DistinctFits(front, ids - {last});
    }
  }

  /** If every one of some modules depends on another of them, they contain a cycle. */
  lemma StuckModulesCycle(modules: seq<Module>, ids: set<string>)
    requires ids != {}
    requires AllStuck(modules, ids)
    ensures CycleAmong(modules, ids)
  {
    var a :| a in ids;
    ExtendWalk(modules, ids, [a]);
  }

  // --- counting ---

  /** Occurrences of `x` in `s`. */
  function Occurrences(s: seq<string>, x: string): nat {
    if s == [] then 0 else (if s[0] == x then 1 else 0) + Occurrences(s[1..], x)
  }

  /** How many of the dependencies, counted with repetition, are not done yet. */
  function Unmet(dependencies: seq<string>, done: set<string>): nat {
    if dependencies == [] then 0
    else (if dependencies[0] in done then 0 else 1) + Unmet(dependencies[1..], done)
  }

  lemma {:induction false} UnmetAfter(dependencies: seq<string>, done: set<string>, x: string)
    requires x !in done
    ensures Unmet(dependencies, done) == Unmet(dependencies, done + {x}) + Occurrences(dependencies, x)
  {
    if dependencies != [] {
      UnmetAfter(dependencies[1..], done, x);
    }
  }

  lemma {:induction false} UnmetZero(dependencies: seq<string>, done: set<string>)
    ensures Unmet(dependencies, done) == 0 <==> forall d :: d in dependencies ==> d in done
  {
    if dependencies != [] {
      UnmetZero(dependencies[1..], done);
      assert forall d :: d in dependencies <==> d == dependencies[0] || d in dependencies[1..];
    }
  }

  lemma {:induction false} UnmetNone(dependencies: seq<string>)
    ensures Unmet(dependencies, {}) == |dependencies|
  {
    if dependencies != [] {
      UnmetNone(dependencies[1..]);
    }
  }

  lemma {:induction false} OccurrencesConcat(s: seq<string>, t: seq<string>, x: string)
    ensures Occurrences(s + t, x) == Occurrences(s, x) + Occurrences(t, x)
  {
    if s == [] {
      assert s + t == t;
    } else {
      assert (s + t)[1..] == s[1..] + t;
      OccurrencesConcat(s[1..], t, x);
    }
  }

  lemma {:induction false} OccurrencesPositive(s: seq<string>, x: string)
    ensures Occurrences(s, x) > 0 <==> x in s
  {
    if s != [] {
      OccurrencesPositive(s[1..], x);
    }
  }

  /** The `dependentsMap` entry of `id` after the given modules: who waits for it, once per mention. */
  function Dependents(modules: seq<Module>, id: string): seq<string> {
    if modules == [] then []
    else
      var last := modules[|modules| - 1];
      Dependents(modules[..|modules| - 1], id) + Mentions(last.id, last.dependencies, id)
  }

  /** `dependent`, once for every mention of `id` in the list. */
  function Mentions(dependent: string, dependencies: seq<string>, id: string): seq<string> {
    if dependencies == [] then []
    else
      var last := dependencies[|dependencies| - 1];
      Mentions(dependent, dependencies[..|dependencies| - 1], id) + if last == id then [dependent] else []
  }

  lemma {:induction false} MentionsCount(dependent: string, dependencies: seq<string>, id: string, x: string)
    ensures Occurrences(Mentions(dependent, dependencies, id), x) == if x == dependent then Occurrences(dependencies, id) else 0
  {
    if dependencies != [] {
      var n := |dependencies| - 1;
      MentionsCount(dependent, dependencies[..n], id, x);
      OccurrencesConcat(Mentions(dependent, dependencies[..n], id), if dependencies[n] == id then [dependent] else [], x);
      OccurrencesConcat(dependencies[..n], [dependencies[n]], id);
      assert dependencies[..n] + [dependencies[n]] == dependencies;
    }
  }

  lemma {:induction false} DependentsCount(modules: seq<Module>, id: string, k: nat)
    requires DistinctIds(modules) && k < |modules|
    ensures Occurrences(Dependents(modules, id), modules[k].id) == Occurrences(modules[k].dependencies, id)
  {
    var n := |modules| - 1;
    var x := modules[k].id;
    OccurrencesConcat(Dependents(modules[..n], id), Mentions(modules[n].id, modules[n].dependencies, id), x);
    MentionsCount(modules[n].id, modules[n].dependencies, id, x);
    if k < n {
      DependentsCount(modules[..n], id, k);
    } else {
      DependentsOthers(modules[..n], id, x);
    }
  }

  lemma {:induction false} DependentsOthers(modules: seq<Module>, id: string, x: string)
    requires !Registered(modules, x)
    ensures Occurrences(Dependents(modules, id), x) == 0
  {
    if modules != [] {
      var n := |modules| - 1;
      forall i | 0 <= i < n ensures modules[..n][i].id != x {
        assert modules[i].id != x;
      }
      DependentsOthers(modules[..n], id, x);
      OccurrencesConcat(Dependents(modules[..n], id), Mentions(modules[n].id, modules[n].dependencies, id), x);
      MentionsCount(modules[n].id, modules[n].dependencies, id, x);
      assert modules[n].id != x;
    }
  }

  lemma {:induction false} DependentsRegistered(modules: seq<Module>, id: string, x: string)
    requires x in Dependents(modules, id)
    ensures Registered(modules, x)
  {
    if !Registered(modules, x) {
      DependentsOthers(modules, id, x);
      OccurrencesPositive(Dependents(modules, id), x);
    }
  }

  lemma DependentsStep(modules: seq<Module>, i: nat, id: string)
    requires i < |modules|
    ensures Dependents(modules[..i + 1], id) == Dependents(modules[..i], id) + Mentions(modules[i].id, modules[i].dependencies, id)
  {
    assert modules[..i + 1][..i] == modules[..i];
  }

  lemma DependentsAllRegistered(modules: seq<Module>, id: string)
    ensures forall x :: x in Dependents(modules, id) ==> Registered(modules, x)
  {
    forall x | x in Dependents(modules, id) ensures Registered(modules, x) {
      DependentsRegistered(modules, id, x);
    }
  }

  // --- first in, first out ---

  /** Where a module stands in the registration. */
  function PlaceOf(modules: seq<Module>, id: string): (i: nat)
    requires Registered(modules, id)
    ensures i < |modules| && modules[i].id == id
  {
    var last := |modules| - 1;
    if modules[last].id == id then last
    else
      assert Registered(modules[..last], id) by {
        var k :| 0 <= k < |modules| && modules[k].id == id;
        assert modules[..last][k].id == id;
      }
      PlaceOf(modules[..last], id)
  }

  function DependenciesOf(modules: seq<Module>, id: string): seq<string>
    requires Registered(modules, id)
  {
    modules[PlaceOf(modules, id)].dependencies
  }

  predicate AllIn(dependencies: seq<string>, order: seq<string>) {
    forall d :: d in dependencies ==> d in order
  }

  /** How much of an order a module waits for: the length of the shortest front that holds its dependencies. */
  function WaitsFor(dependencies: seq<string>, order: seq<string>): (n: nat)
    ensures n <= |order|
  {
    if order == [] then 0
    else if AllIn(dependencies, order[..|order| - 1]) then WaitsFor(dependencies, order[..|order| - 1])
    else |order|
  }

  /** `a` is freed before `b`: by an earlier module, or by the same one and registered earlier. */
  predicate FreedBefore(modules: seq<Module>, order: seq<string>, a: string, b: string)
    requires Registered(modules, a) && Registered(modules, b)
  {
    var n, m := WaitsFor(DependenciesOf(modules, a), order), WaitsFor(DependenciesOf(modules, b), order);
    n < m || (n == m && PlaceOf(modules, a) < PlaceOf(modules, b))
  }

  /** Modules stand in the order in which they were freed. */
  ghost predicate InFreedOrder(modules: seq<Module>, order: seq<string>, ids: seq<string>) {
    && (forall i :: 0 <= i < |ids| ==> Registered(modules, ids[i]))
    && (forall i, j :: 0 <= i < j < |ids| ==> FreedBefore(modules, order, ids[i], ids[j]))
  }

  lemma PlaceUnique(modules: seq<Module>, i: nat)
    requires DistinctIds(modules) && i < |modules|
    ensures Registered(modules, modules[i].id) && PlaceOf(modules, modules[i].id) == i
  {
    assert Registered(modules, modules[i].id);
    var k := PlaceOf(modules, modules[i].id);
    assert k == i;
  }

  lemma WaitStays(dependencies: seq<string>, order: seq<string>, x: string)
    ensures WaitsFor(dependencies, order + [x]) == if AllIn(dependencies, order) then WaitsFor(dependencies, order) else |order| + 1
  {
    assert (order + [x])[..|order|] == order;
  }

  /** What is freed already keeps its place when the order grows. */
  lemma FreedStays(modules: seq<Module>, order: seq<string>, x: string, ids: seq<string>)
    requires InFreedOrder(modules, order, ids)
    requires forall i :: 0 <= i < |ids| ==> AllIn(DependenciesOf(modules, ids[i]), order)
    ensures InFreedOrder(modules, order + [x], ids)
    ensures forall i :: 0 <= i < |ids| ==> WaitsFor(DependenciesOf(modules, ids[i]), order + [x]) <= |order|
  {
    forall i | 0 <= i < |ids|
      ensures WaitsFor(DependenciesOf(modules, ids[i]), order + [x]) == WaitsFor(DependenciesOf(modules, ids[i]), order)
    {
      WaitStays(DependenciesOf(modules, ids[i]), order, x);
    }
  }

  /** There is one such order. */
  lemma {:induction false} FreedOrderUnique(modules: seq<Module>, a: seq<string>, b: seq<string>, n: nat)
    requires TopologicalOrder(modules, a) && TopologicalOrder(modules, b) && DistinctIds(modules)
    requires InFreedOrder(modules, a, a) && InFreedOrder(modules, b, b) && n <= |a|
    ensures |a| == |b| && a[..n] == b[..n]
    decreases n
  {
    if n > 0 {
      var k := n - 1;
      FreedOrderUnique(modules, a, b, k);
      NeverPart(modules, a, b, k);
      OneLonger(a, k);
      OneLonger(b, k);
    }
  }

  lemma OneLonger(s: seq<string>, k: nat)
    requires k < |s|
    ensures s[..k + 1] == s[..k] + [s[k]]
  {
  }

  lemma NeverPart(modules: seq<Module>, a: seq<string>, b: seq<string>, k: nat)
    requires TopologicalOrder(modules, a) && TopologicalOrder(modules, b) && DistinctIds(modules)
    requires InFreedOrder(modules, a, a) && InFreedOrder(modules, b, b) && k < |a| == |b| && a[..k] == b[..k]
    ensures a[k] == b[k]
  {
    if a[k] != b[k] {
      SameWait(modules, a, b, k, a[k]);
      SameWait(modules, b, a, k, b[k]);
      var i := FoundLater(modules, a, b, k);
      var j := FoundLater(modules, b, a, k);
      assert false;
    }
  }

  /** Two orders that agree up to k free the k-th module of the first alike. */
  lemma SameWait(modules: seq<Module>, a: seq<string>, b: seq<string>, k: nat, id: string)
    requires TopologicalOrder(modules, a) && TopologicalOrder(modules, b) && DistinctIds(modules)
    requires k < |a| == |b| && a[..k] == b[..k] && id == a[k]
    ensures Registered(modules, id) && WaitsFor(DependenciesOf(modules, id), a) == WaitsFor(DependenciesOf(modules, id), b)
  {
    var deps := DependenciesOf(modules, id);
    forall d | d in deps ensures d in a[..k] {
      assert DependsOn(modules, a[k], d);
    }
    WaitPrefix(deps, a, k);
    WaitPrefix(deps, b, k);
  }

  lemma {:induction false} WaitPrefix(dependencies: seq<string>, order: seq<string>, k: nat)
    requires k <= |order| && AllIn(dependencies, order[..k])
    ensures WaitsFor(dependencies, order) == WaitsFor(dependencies, order[..k])
    decreases |order|
  {
    if k < |order| {
      var n := |order| - 1;
      assert order[..n][..k] == order[..k];
      assert forall d :: d in order[..k] ==> d in order[..n];
      WaitPrefix(dependencies, order[..n], k);
    } else {
      assert order[..k] == order;
    }
  }

  /** What stands at k in b stands behind k in a, where the two part. */
  lemma FoundLater(modules: seq<Module>, a: seq<string>, b: seq<string>, k: nat) returns (i: nat)
    requires TopologicalOrder(modules, a) && TopologicalOrder(modules, b)
    requires k < |a| == |b| && a[..k] == b[..k] && a[k] != b[k]
    ensures k < i < |a| && a[i] == b[k]
  {
    assert Registered(modules, b[k]);
    var m :| 0 <= m < |modules| && modules[m].id == b[k];
    assert modules[m].id in a;
    forall x | 0 <= x < k ensures a[x] != b[k] {
      assert a[x] == a[..k][x] && b[x] == b[..k][x];
    }
    i :| 0 <= i < |a| && a[i] == b[k];
  }

  // --- the dependents of a module, in registration order ---

  lemma {:induction false} MentionsAre(dependent: string, dependencies: seq<string>, id: string)
    ensures forall x :: x in Mentions(dependent, dependencies, id) ==> x == dependent && id in dependencies
  {
    if dependencies != [] {
      MentionsAre(dependent, dependencies[..|dependencies| - 1], id);
    }
  }

  /** Each dependent names the module, and they are listed as they are registered. */
  lemma {:induction false} DependentsSorted(modules: seq<Module>, id: string, n: nat)
    requires DistinctIds(modules) && n <= |modules|
    ensures var list := Dependents(modules[..n], id);
            && (forall i :: 0 <= i < |list| ==> Registered(modules, list[i]) && PlaceOf(modules, list[i]) < n && id in DependenciesOf(modules, list[i]))
            && (forall i, j :: 0 <= i < j < |list| ==> PlaceOf(modules, list[i]) <= PlaceOf(modules, list[j]))
    decreases n
  {
    if n > 0 {
      var m := modules[n - 1];
      DependentsSorted(modules, id, n - 1);
      DependentsStep(modules, n - 1, id);
      PlaceUnique(modules, n - 1);
      MentionsAre(m.id, m.dependencies, id);
      var front, more := Dependents(modules[..n - 1], id), Mentions(m.id, m.dependencies, id);
      forall i | 0 <= i < |front + more|
        ensures (front + more)[i] == if i < |front| then front[i] else m.id
      {
        if i >= |front| { assert more[i - |front|] in more; }
      }
      assert more != [] ==> more[0] in more;
    }
  }

  /** What a start and a shutdown order need; the last clause is owed to the queue loop. */
  ghost predicate Orderable(modules: seq<Module>) {
    DistinctIds(modules) && NoneMissing(modules) && !Cyclic(modules) && !Registered(modules, "")
  }

  /** The i-th module is the first whose id an earlier one carries. */
  ghost predicate RepeatedAt(modules: seq<Module>, i: nat, id: string) {
    i < |modules| && modules[i].id == id && Registered(modules[..i], id) && DistinctIds(modules[..i])
  }

  /** The j-th dependency of the i-th module is the first that is not registered. */
  ghost predicate MissingAt(modules: seq<Module>, i: nat, j: nat, id: string, dep: string) {
    && i < |modules| && modules[i].id == id
    && j < |modules[i].dependencies| && modules[i].dependencies[j] == dep && !Registered(modules, dep)
    && (forall k, l :: 0 <= k < i && 0 <= l < |modules[k].dependencies| ==> Registered(modules, modules[k].dependencies[l]))
    && (forall l :: 0 <= l < j ==> Registered(modules, modules[i].dependencies[l]))
  }

  /** What an error says about the modules; without an empty id, a cyclic error names all that a cycle keeps from starting. */
  ghost predicate Explained(modules: seq<Module>, error: OrderError) {
    match error
    case DuplicateModule(id) => exists i :: RepeatedAt(modules, i, id)
    case MissingDependency(id, dep) => DistinctIds(modules) && exists i, j :: MissingAt(modules, i, j, id, dep)
    case CyclicDependency(remaining) =>
      && DistinctIds(modules) && NoneMissing(modules) && AsRegistered(modules, remaining)
      && (!Registered(modules, "") ==> CycleAmong(modules, Done(remaining)) && AllThatStick(modules, Done(remaining)))
  }

  ghost predicate AsRegistered(modules: seq<Module>, ids: seq<string>) {
    && (forall i :: 0 <= i < |ids| ==> Registered(modules, ids[i]))
    && (forall i, j :: 0 <= i < j < |ids| ==> PlaceOf(modules, ids[i]) < PlaceOf(modules, ids[j]))
  }

  /** The largest set of modules that all wait for one another: those on a cycle, and those that need one on a cycle. */
  ghost predicate AllThatStick(modules: seq<Module>, ids: set<string>) {
    && ids <= IdSet(modules) && AllStuck(modules, ids)
    && forall s :: s <= IdSet(modules) && AllStuck(modules, s) ==> s <= ids
  }

  // --- the algorithm ---

  /** The checks that come before sorting. */
  method CheckModules(modules: seq<Module>) returns (r: Result<(), OrderError>)
    ensures r.Ok? <==> DistinctIds(modules) && NoneMissing(modules)
    ensures r.Err? ==> !r.error.CyclicDependency? && Explained(modules, r.error)
  {
    var moduleMap: map<string, Module> := map[];
    for i := 0 to |modules|
      invariant forall id :: id in moduleMap <==> Registered(modules[..i], id)
      invariant DistinctIds(modules[..i])
    {
      assert forall k :: 0 <= k < i ==> modules[..i][k] == modules[k];
      if modules[i].id in moduleMap {
        assert Registered(modules[..i], modules[i].id);
        assert RepeatedAt(modules, i, modules[i].id);
        return Err(DuplicateModule(modules[i].id));
      }
      assert modules[..i + 1] == modules[..i] + [modules[i]];
      assert forall id :: Registered(modules[..i + 1], id) <==> Registered(modules[..i], id) || id == modules[i].id by {
        RegisteredAppend(modules[..i], modules[i]);
      }
      moduleMap := moduleMap[modules[i].id := modules[i]];
    }
    assert modules[..|modules|] == modules;
    for i := 0 to |modules|
      invariant forall k, j :: 0 <= k < i && 0 <= j < |modules[k].dependencies| ==> Registered(modules, modules[k].dependencies[j])
    {
      for j := 0 to |modules[i].dependencies|
        invariant forall l :: 0 <= l < j ==> Registered(modules, modules[i].dependencies[l])
      {
        if modules[i].dependencies[j] !in moduleMap {
          assert MissingAt(modules, i, j, modules[i].id, modules[i].dependencies[j]);
          return Err(MissingDependency(modules[i].id, modules[i].dependencies[j]));
        }
      }
    }
    return Ok(());
  }

  lemma RegisteredAppend(modules: seq<Module>, m: Module)
    ensures forall id :: Registered(modules + [m], id) <==> Registered(modules, id) || id == m.id
  {
    forall id ensures Registered(modules + [m], id) <==> Registered(modules, id) || id == m.id {
      if Registered(modules, id) {
        var i :| 0 <= i < |modules| && modules[i].id == id;
        assert (modules + [m])[i].id == id;
      }
      if id == m.id {
        assert (modules + [m])[|modules|].id == id;
      }
    }
  }

  /** Appends `m` to the list of each of its dependencies, once per mention. */
  method AddDependents(m: Module, dependents: map<string, seq<string>>) returns (r: map<string, seq<string>>)
    requires forall j :: 0 <= j < |m.dependencies| ==> m.dependencies[j] in dependents
    ensures r.Keys == dependents.Keys
    ensures forall id :: id in dependents ==> r[id] == dependents[id] + Mentions(m.id, m.dependencies, id)
  {
    r := dependents;
    for j := 0 to |m.dependencies|
      invariant r.Keys == dependents.Keys
      invariant forall id :: id in dependents ==> r[id] == dependents[id] + Mentions(m.id, m.dependencies[..j], id)
    {
      assert m.dependencies[..j + 1][..j] == m.dependencies[..j];
      var dep := m.dependencies[j];
      r := r[dep := r[dep] + [m.id]];
    }
    assert m.dependencies[..|m.dependencies|] == m.dependencies;
  }

  method EmptyGraph(modules: seq<Module>) returns (inDegree: map<string, int>, dependents: map<string, seq<string>>)
    ensures inDegree.Keys == dependents.Keys == IdSet(modules)
    ensures forall id :: id in dependents ==> dependents[id] == []
  {
    inDegree, dependents := map[], map[];
    for i := 0 to |modules|
      invariant inDegree.Keys == dependents.Keys == IdSet(modules[..i])
      invariant forall id :: id in dependents ==> dependents[id] == []
    {
      assert modules[..i + 1] == modules[..i] + [modules[i]];
      RegisteredAppend(modules[..i], modules[i]);
      inDegree := inDegree[modules[i].id := 0];
      dependents := dependents[modules[i].id := []];
    }
    assert modules[..|modules|] == modules;
  }

  ghost predicate GraphOf(modules: seq<Module>, n: nat, inDegree: map<string, int>, dependents: map<string, seq<string>>)
    requires n <= |modules|
  {
    && inDegree.Keys == dependents.Keys == IdSet(modules)
    && (forall k :: 0 <= k < n ==> modules[k].id in inDegree && inDegree[modules[k].id] == |modules[k].dependencies|)
    && (forall id :: id in dependents ==> dependents[id] == Dependents(modules[..n], id))
  }

  lemma GraphStep(modules: seq<Module>, i: nat, inDegree: map<string, int>, dependents: map<string, seq<string>>, next: map<string, seq<string>>)
    requires DistinctIds(modules) && i < |modules| && GraphOf(modules, i, inDegree, dependents)
    requires next.Keys == dependents.Keys
    requires forall id :: id in dependents ==> next[id] == dependents[id] + Mentions(modules[i].id, modules[i].dependencies, id)
    ensures GraphOf(modules, i + 1, inDegree[modules[i].id := |modules[i].dependencies|], next)
  {
    assert Registered(modules, modules[i].id);
    forall id | id in next ensures next[id] == Dependents(modules[..i + 1], id) {
      DependentsStep(modules, i, id);
    }
  }

  /** Initial in-degrees and the adjacency lists from dependency to dependents. */
  method BuildGraph(modules: seq<Module>) returns (inDegree: map<string, int>, dependents: map<string, seq<string>>)
    requires DistinctIds(modules) && NoneMissing(modules)
    ensures GraphOf(modules, |modules|, inDegree, dependents)
  {
    inDegree, dependents := EmptyGraph(modules);
    for i := 0 to |modules|
      invariant GraphOf(modules, i, inDegree, dependents)
    {
      ghost var before, degrees := dependents, inDegree;
      forall j | 0 <= j < |modules[i].dependencies| ensures modules[i].dependencies[j] in dependents {
        assert Registered(modules, modules[i].dependencies[j]);
      }
      inDegree := inDegree[modules[i].id := |modules[i].dependencies|];
      dependents := AddDependents(modules[i], dependents);
      GraphStep(modules, i, degrees, before, dependents);
    }
  }

  ghost function Done(order: seq<string>): set<string> {
    set i | 0 <= i < |order| :: order[i]
  }

  /** Counts and queue agree with the modules already ordered, up to `pending` decrements. */
  ghost predicate Consistent(modules: seq<Module>, inDegree: map<string, int>, order: seq<string>, queue: seq<string>, pending: seq<string>) {
    && inDegree.Keys == IdSet(modules)
    && Distinct(order + queue)
    && (forall id :: id in order + queue ==> Registered(modules, id))
    && DependenciesFirst(modules, order)
    && (forall i :: 0 <= i < |modules| ==>
          inDegree[modules[i].id] == Unmet(modules[i].dependencies, Done(order)) + Occurrences(pending, modules[i].id))
    && (forall i :: 0 <= i < |modules| ==> (modules[i].id in order + queue <==> inDegree[modules[i].id] == 0))
  }

  lemma ConsistentStart(modules: seq<Module>, inDegree: map<string, int>, queue: seq<string>)
    requires DistinctIds(modules) && inDegree.Keys == IdSet(modules)
    requires forall i :: 0 <= i < |modules| ==> inDegree[modules[i].id] == |modules[i].dependencies|
    requires Distinct(queue) && forall id :: id in queue <==> id in inDegree && inDegree[id] == 0
    ensures Consistent(modules, inDegree, [], queue, [])
  {
    forall i | 0 <= i < |modules|
      ensures inDegree[modules[i].id] == Unmet(modules[i].dependencies, Done([])) + Occurrences([], modules[i].id)
      ensures modules[i].id in [] + queue <==> inDegree[modules[i].id] == 0
    {
      UnmetNone(modules[i].dependencies);
      assert Done([]) == {};
      assert Registered(modules, modules[i].id);
    }
    assert [] + queue == queue;
  }

  /** Moving the head of the queue to the order leaves its dependents to be decremented. */
  lemma ConsistentPop(modules: seq<Module>, inDegree: map<string, int>, order: seq<string>, queue: seq<string>)
    requires DistinctIds(modules) && queue != [] && Consistent(modules, inDegree, order, queue, [])
    ensures Consistent(modules, inDegree, order + [queue[0]], queue[1..], Dependents(modules, queue[0]))
  {
    var current := queue[0];
    var order' := order + [current];
    assert order' + queue[1..] == order + queue;
    assert Done(order') == Done(order) + {current} by { DoneAppend(order, current); }
    assert forall i :: 0 <= i < |order| ==> (order + queue)[i] == order[i];
    assert (order + queue)[|order|] == current;
    assert current !in Done(order);
    forall i | 0 <= i < |modules|
      ensures inDegree[modules[i].id] == Unmet(modules[i].dependencies, Done(order')) + Occurrences(Dependents(modules, current), modules[i].id)
    {
      UnmetAfter(modules[i].dependencies, Done(order), current);
      DependentsCount(modules, current, i);
    }
    DependenciesFirstAppend(modules, inDegree, order, queue);
  }

  lemma DoneAppend(order: seq<string>, x: string)
    ensures Done(order + [x]) == Done(order) + {x}
  {
    forall y ensures y in Done(order + [x]) <==> y in Done(order) + {x} {
      if y in Done(order) {
        var i :| 0 <= i < |order| && order[i] == y;
        assert (order + [x])[i] == y;
      }
      assert (order + [x])[|order|] == x;
    }
  }

  lemma DependenciesFirstAppend(modules: seq<Module>, inDegree: map<string, int>, order: seq<string>, queue: seq<string>)
    requires DistinctIds(modules) && queue != [] && Consistent(modules, inDegree, order, queue, [])
    ensures DependenciesFirst(modules, order + [queue[0]])
  {
    var order' := order + [queue[0]];
    forall i, b | 0 <= i < |order'| && DependsOn(modules, order'[i], b) ensures b in order'[..i] {
      assert order'[..i] == order[..i];
      if i == |order| {
        var k :| 0 <= k < |modules| && modules[k].id == queue[0] && b in modules[k].dependencies;
        assert modules[k].id in order + queue;
        assert inDegree[modules[k].id] == 0;
        UnmetZero(modules[k].dependencies, Done(order));
        assert b in Done(order);
        assert order'[..i] == order;
      }
    }
  }

  /** One decrement, and the push when a count reaches zero. */
  lemma ConsistentDecrement(modules: seq<Module>, inDegree: map<string, int>, order: seq<string>, queue: seq<string>, pending: seq<string>)
    requires DistinctIds(modules) && pending != [] && Registered(modules, pending[0])
    requires Consistent(modules, inDegree, order, queue, pending)
    ensures pending[0] in inDegree
    ensures var degree := inDegree[pending[0]] - 1;
            Consistent(modules, inDegree[pending[0] := degree], order, if degree == 0 then queue + [pending[0]] else queue, pending[1..])
  {
    var dep := pending[0];
    var degree := inDegree[dep] - 1;
    var queue' := if degree == 0 then queue + [dep] else queue;
    var k :| 0 <= k < |modules| && modules[k].id == dep;
    assert inDegree[modules[k].id] > 0;
    assert dep !in order + queue;
    QueueGrows(modules, order, queue, dep);
    forall i | 0 <= i < |modules| ensures (modules[i].id == dep) <==> i == k {
      assert i != k ==> modules[i].id != modules[k].id;
    }
  }

  lemma QueueGrows(modules: seq<Module>, order: seq<string>, queue: seq<string>, x: string)
    requires Distinct(order + queue) && x !in order + queue
    ensures Distinct(order + (queue + [x]))
    ensures forall id :: id in order + (queue + [x]) <==> id in order + queue || id == x
  {
    assert order + (queue + [x]) == (order + queue) + [x];
  }

  /** Kahn's algorithm: repeatedly order a module that waits for nothing. */
  method SortModules(modules: seq<Module>) returns (order: seq<string>)
    requires DistinctIds(modules) && NoneMissing(modules)
    ensures Distinct(order) && (forall id :: id in order ==> Registered(modules, id)) && DependenciesFirst(modules, order)
    ensures InFreedOrder(modules, order, order)
    ensures "" !in order
    ensures !Registered(modules, "") ==> AllStuck(modules, IdSet(modules) - Done(order))
  {
    var inDegree, dependents := BuildGraph(modules);
    assert modules[..|modules|] == modules;
    var queue := InitialQueue(modules, inDegree);
    ConsistentStart(modules, inDegree, queue);
    order := [];
    assert [] + queue == queue;
    while queue != []
      invariant Consistent(modules, inDegree, order, queue, [])
      invariant InFreedOrder(modules, order, order + queue)
      invariant "" !in order
      decreases |modules| - |order|
    {
      OrderFits(modules, order, queue);
      if queue[0] == "" {
        assert (order + queue)[|order|] == "";
        ConsistentMembers(modules, inDegree, order, queue);
        FrontFreed(modules, order, queue);
        return;
      }
      order, inDegree, queue := OrderNext(modules, order, inDegree, queue, dependents);
    }
    Emptied(modules, inDegree, order, queue);
    forall a | a in IdSet(modules) - Done(order) ensures DependsWithin(modules, IdSet(modules) - Done(order), a) {
      StillWaiting(modules, inDegree, order, a);
    }
  }

  lemma Emptied(modules: seq<Module>, inDegree: map<string, int>, order: seq<string>, queue: seq<string>)
    requires Consistent(modules, inDegree, order, queue, []) && InFreedOrder(modules, order, order + queue) && queue == []
    ensures Distinct(order) && (forall id :: id in order ==> Registered(modules, id)) && DependenciesFirst(modules, order)
    ensures InFreedOrder(modules, order, order)
  {
    ConsistentMembers(modules, inDegree, order, queue);
    assert order + queue == order;
  }

  /** The head of the queue goes to the order, and what waited only for it to the end of the queue. */
  method OrderNext(modules: seq<Module>, order0: seq<string>, inDegree0: map<string, int>, queue0: seq<string>, dependents: map<string, seq<string>>)
    returns (order: seq<string>, inDegree: map<string, int>, queue: seq<string>)
    requires DistinctIds(modules) && queue0 != [] && Consistent(modules, inDegree0, order0, queue0, [])
    requires InFreedOrder(modules, order0, order0 + queue0)
    requires dependents.Keys == IdSet(modules) && forall id :: id in dependents ==> dependents[id] == Dependents(modules, id)
    ensures order == order0 + [queue0[0]]
    ensures Consistent(modules, inDegree, order, queue, []) && InFreedOrder(modules, order, order + queue)
  {
    ReadyToDecrement(modules, inDegree0, order0, queue0);
    order := order0 + [queue0[0]];
    inDegree, queue := DecrementAll(modules, inDegree0, order, queue0[1..], dependents[queue0[0]]);
  }

  lemma ReadyToDecrement(modules: seq<Module>, inDegree: map<string, int>, order: seq<string>, queue: seq<string>)
    requires DistinctIds(modules) && queue != [] && Consistent(modules, inDegree, order, queue, [])
    requires InFreedOrder(modules, order, order + queue)
    ensures Registered(modules, queue[0])
    ensures var order', list := order + [queue[0]], Dependents(modules, queue[0]);
            && Consistent(modules, inDegree, order', queue[1..], list)
            && (forall id :: id in list ==> Registered(modules, id))
            && InFreedOrder(modules, order', order' + queue[1..]) && WaitingForLast(modules, order', list)
            && forall id :: id in order' + queue[1..] ==> Registered(modules, id) && WaitsFor(DependenciesOf(modules, id), order') < |order'|
  {
    assert queue[0] in order + queue;
    ConsistentPop(modules, inDegree, order, queue);
    FreedPop(modules, inDegree, order, queue);
    DependentsAllRegistered(modules, queue[0]);
    DependentsSorted(modules, queue[0], |modules|);
    assert modules[..|modules|] == modules;
  }

  lemma FrontFreed(modules: seq<Module>, order: seq<string>, queue: seq<string>)
    requires InFreedOrder(modules, order, order + queue)
    ensures InFreedOrder(modules, order, order)
  {
    assert forall i :: 0 <= i < |order| ==> order[i] == (order + queue)[i];
  }

  /** What is ordered or queued waits for nothing that is not ordered. */
  lemma FreedHere(modules: seq<Module>, inDegree: map<string, int>, order: seq<string>, queue: seq<string>, pending: seq<string>, id: string)
    requires DistinctIds(modules) && Consistent(modules, inDegree, order, queue, pending) && id in order + queue
    ensures Registered(modules, id) && AllIn(DependenciesOf(modules, id), order)
  {
    var k := PlaceOf(modules, id);
    assert inDegree[modules[k].id] == 0;
    UnmetZero(modules[k].dependencies, Done(order));
  }

  lemma FreedPop(modules: seq<Module>, inDegree: map<string, int>, order: seq<string>, queue: seq<string>)
    requires DistinctIds(modules) && queue != [] && Consistent(modules, inDegree, order, queue, [])
    requires InFreedOrder(modules, order, order + queue)
    ensures var order' := order + [queue[0]];
            && InFreedOrder(modules, order', order' + queue[1..])
            && forall id :: id in order' + queue[1..] ==>
                 Registered(modules, id) && WaitsFor(DependenciesOf(modules, id), order') < |order'|
  {
    var all := order + queue;
    assert all == (order + [queue[0]]) + queue[1..];
    forall i | 0 <= i < |all| ensures AllIn(DependenciesOf(modules, all[i]), order) {
      assert all[i] in order + queue;
      FreedHere(modules, inDegree, order, queue, [], all[i]);
    }
    FreedStays(modules, order, queue[0], all);
  }

  /** When the queue is empty, a module that is not ordered waits for another such module. */
  lemma StillWaiting(modules: seq<Module>, inDegree: map<string, int>, order: seq<string>, a: string)
    requires NoneMissing(modules) && Consistent(modules, inDegree, order, [], [])
    requires a in IdSet(modules) - Done(order)
    ensures DependsWithin(modules, IdSet(modules) - Done(order), a)
  {
    assert order + [] == order;
    assert Registered(modules, a);
    var i :| 0 <= i < |modules| && modules[i].id == a;
    UnmetZero(modules[i].dependencies, Done(order));
    var b :| b in modules[i].dependencies && b !in Done(order);
    assert Registered(modules, b);
    assert DependsOn(modules, a, b);
  }

  lemma ConsistentMembers(modules: seq<Module>, inDegree: map<string, int>, order: seq<string>, queue: seq<string>)
    requires Consistent(modules, inDegree, order, queue, [])
    ensures Distinct(order) && forall id :: id in order + queue ==> Registered(modules, id)
    ensures forall id :: id in order ==> Registered(modules, id)
  {
    assert forall i :: 0 <= i < |order| ==> order[i] == (order + queue)[i];
  }

  lemma OrderFits(modules: seq<Module>, order: seq<string>, queue: seq<string>)
    requires Distinct(order + queue) && forall id :: id in order + queue ==> Registered(modules, id)
    ensures |order| + |queue| <= |modules|
  {
    forall i | 0 <= i < |order + queue| ensures (order + queue)[i] in IdSet(modules) {
      assert (order + queue)[i] in order + queue;
    }
    DistinctFits(order + queue, IdSet(modules));
    IdCount(modules);
  }

  lemma {:induction false} IdCount(modules: seq<Module>)
    ensures |IdSet(modules)| <= |modules|
    ensures DistinctIds(modules) ==> |IdSet(modules)| == |modules|
  {
    if modules != [] {
      var n := |modules| - 1;
      IdCount(modules[..n]);
      RegisteredAppend(modules[..n], modules[n]);
      assert modules[..n] + [modules[n]] == modules;
      assert IdSet(modules) == IdSet(modules[..n]) + {modules[n].id};
    }
  }

  method InitialQueue(modules: seq<Module>, inDegree: map<string, int>) returns (queue: seq<string>)
    requires DistinctIds(modules) && inDegree.Keys == IdSet(modules)
    ensures Distinct(queue) && forall id :: id in queue <==> id in inDegree && inDegree[id] == 0
    ensures InFreedOrder(modules, [], queue)
  {
    queue := [];
    for i := 0 to |modules|
      invariant Distinct(queue)
      invariant FreeFront(modules, queue, i)
      invariant forall id :: id in queue <==> Registered(modules[..i], id) && id in inDegree && inDegree[id] == 0
    {
      assert modules[..i + 1] == modules[..i] + [modules[i]];
      RegisteredAppend(modules[..i], modules[i]);
      assert Registered(modules, modules[i].id);
      assert !Registered(modules[..i], modules[i].id) by {
        assert forall k :: 0 <= k < i ==> modules[..i][k] == modules[k];
      }
      if inDegree[modules[i].id] == 0 {
        FirstInLine(modules, queue, i);
        queue := queue + [modules[i].id];
      }
    }
    assert modules[..|modules|] == modules;
  }

  /** Modules registered in front of the i-th, none of which waits for anything. */
  ghost predicate FreeFront(modules: seq<Module>, queue: seq<string>, i: nat) {
    && InFreedOrder(modules, [], queue)
    && forall k :: 0 <= k < |queue| ==> Registered(modules, queue[k]) && PlaceOf(modules, queue[k]) < i
  }

  lemma FirstInLine(modules: seq<Module>, queue: seq<string>, i: nat)
    requires DistinctIds(modules) && i < |modules| && FreeFront(modules, queue, i)
    ensures FreeFront(modules, queue + [modules[i].id], i + 1)
  {
    PlaceUnique(modules, i);
  }

  /** The dependents of the module that was ordered last, in registration order. */
  ghost predicate WaitingForLast(modules: seq<Module>, order: seq<string>, dependents: seq<string>) {
    && order != []
    && (forall i :: 0 <= i < |dependents| ==>
          Registered(modules, dependents[i]) && order[|order| - 1] in DependenciesOf(modules, dependents[i]))
    && (forall i, j :: 0 <= i < j < |dependents| ==> PlaceOf(modules, dependents[i]) <= PlaceOf(modules, dependents[j]))
  }

  /** What stands in line was freed earlier, or just now by a module registered no later than `dep`. */
  ghost predicate LineBefore(modules: seq<Module>, order: seq<string>, all: seq<string>, dep: string)
    requires Registered(modules, dep)
  {
    forall i :: 0 <= i < |all| ==>
      && Registered(modules, all[i])
      && (WaitsFor(DependenciesOf(modules, all[i]), order) < |order| || PlaceOf(modules, all[i]) <= PlaceOf(modules, dep))
  }

  /** A module whose last count is gone was freed by the module ordered last, and joins the line at its end. */
  lemma FreedPush(modules: seq<Module>, inDegree: map<string, int>, order: seq<string>, queue: seq<string>, pending: seq<string>, dep: string)
    requires DistinctIds(modules) && Consistent(modules, inDegree, order, queue + [dep], pending)
    requires InFreedOrder(modules, order, order + queue) && order != []
    requires Registered(modules, dep) && order[|order| - 1] in DependenciesOf(modules, dep) && LineBefore(modules, order, order + queue, dep)
    ensures InFreedOrder(modules, order, order + (queue + [dep]))
    ensures WaitsFor(DependenciesOf(modules, dep), order) == |order|
  {
    NotInLine(order, queue, dep);
    assert dep in order + (queue + [dep]) by { assert (queue + [dep])[|queue|] == dep; }
    FreedHere(modules, inDegree, order, queue + [dep], pending, dep);
    JoinsLine(modules, order, order + queue, dep);
    assert order + (queue + [dep]) == (order + queue) + [dep];
  }

  lemma NotInLine(order: seq<string>, queue: seq<string>, dep: string)
    requires Distinct(order + (queue + [dep])) && order != []
    ensures dep !in order + queue && order[|order| - 1] !in order[..|order| - 1]
  {
    var all := order + (queue + [dep]);
    assert all == (order + queue) + [dep];
    assert all[|all| - 1] == dep && forall i :: 0 <= i < |order + queue| ==> all[i] == (order + queue)[i];
    assert forall i :: 0 <= i < |order| ==> all[i] == order[i];
  }

  lemma JoinsLine(modules: seq<Module>, order: seq<string>, all: seq<string>, dep: string)
    requires InFreedOrder(modules, order, all) && dep !in all && Registered(modules, dep)
    requires order != [] && order[|order| - 1] !in order[..|order| - 1]
    requires AllIn(DependenciesOf(modules, dep), order) && order[|order| - 1] in DependenciesOf(modules, dep)
    requires LineBefore(modules, order, all, dep)
    ensures InFreedOrder(modules, order, all + [dep]) && WaitsFor(DependenciesOf(modules, dep), order) == |order|
  {
    WaitsForAll(DependenciesOf(modules, dep), order);
    forall i | 0 <= i < |all| ensures FreedBefore(modules, order, all[i], dep) {
      assert all[i] != dep;
      OtherPlace(modules, all[i], dep);
    }
    LastFreed(modules, order, all, dep);
  }

  lemma LastFreed(modules: seq<Module>, order: seq<string>, all: seq<string>, dep: string)
    requires InFreedOrder(modules, order, all) && Registered(modules, dep)
    requires forall i :: 0 <= i < |all| ==> FreedBefore(modules, order, all[i], dep)
    ensures InFreedOrder(modules, order, all + [dep])
  {
  }

  lemma WaitsForAll(dependencies: seq<string>, order: seq<string>)
    requires order != [] && order[|order| - 1] !in order[..|order| - 1] && order[|order| - 1] in dependencies
    ensures WaitsFor(dependencies, order) == |order|
  {
  }

  lemma OtherPlace(modules: seq<Module>, a: string, b: string)
    requires Registered(modules, a) && Registered(modules, b) && a != b
    ensures PlaceOf(modules, a) != PlaceOf(modules, b)
  {
    assert modules[PlaceOf(modules, a)].id != modules[PlaceOf(modules, b)].id;
  }

  method DecrementAll(modules: seq<Module>, inDegree0: map<string, int>, ghost order: seq<string>, queue0: seq<string>, dependents: seq<string>)
    returns (inDegree: map<string, int>, queue: seq<string>)
    requires DistinctIds(modules) && Consistent(modules, inDegree0, order, queue0, dependents)
    requires forall id :: id in dependents ==> Registered(modules, id)
    requires InFreedOrder(modules, order, order + queue0) && WaitingForLast(modules, order, dependents)
    requires forall id :: id in order + queue0 ==> Registered(modules, id) && WaitsFor(DependenciesOf(modules, id), order) < |order|
    ensures Consistent(modules, inDegree, order, queue, [])
    ensures InFreedOrder(modules, order, order + queue)
  {
    inDegree, queue := inDegree0, queue0;
    LineAtFirst(modules, order, queue, dependents);
    for i := 0 to |dependents|
      invariant Consistent(modules, inDegree, order, queue, dependents[i..])
      invariant InLine(modules, order, queue, dependents, i)
    {
      OneDecrement(modules, inDegree, order, queue, dependents, i);
      var newDegree := inDegree[dependents[i]] - 1;
      inDegree := inDegree[dependents[i] := newDegree];
      if newDegree == 0 {
        queue := queue + [dependents[i]];
      }
    }
  }

  lemma OneDecrement(modules: seq<Module>, inDegree: map<string, int>, order: seq<string>, queue: seq<string>, dependents: seq<string>, i: nat)
    requires DistinctIds(modules) && i < |dependents| && (forall id :: id in dependents ==> Registered(modules, id))
    requires Consistent(modules, inDegree, order, queue, dependents[i..])
    requires WaitingForLast(modules, order, dependents) && InLine(modules, order, queue, dependents, i)
    ensures dependents[i] in inDegree
    ensures var degree := inDegree[dependents[i]] - 1;
            var queue' := if degree == 0 then queue + [dependents[i]] else queue;
            && Consistent(modules, inDegree[dependents[i] := degree], order, queue', dependents[i + 1..])
            && InLine(modules, order, queue', dependents, i + 1)
  {
    assert dependents[i..][1..] == dependents[i + 1..] && dependents[i..][0] == dependents[i];
    ConsistentDecrement(modules, inDegree, order, queue, dependents[i..]);
    var degree := inDegree[dependents[i]] - 1;
    if degree == 0 {
      LineMoves(modules, inDegree[dependents[i] := degree], order, queue, dependents, i);
    }
  }

  /** The line is in the order of freeing, and no dependent still to be counted down is due earlier. */
  ghost predicate InLine(modules: seq<Module>, order: seq<string>, queue: seq<string>, dependents: seq<string>, i: nat)
    requires forall id :: id in dependents ==> Registered(modules, id)
  {
    && InFreedOrder(modules, order, order + queue)
    && forall j :: i <= j < |dependents| ==> LineBefore(modules, order, order + queue, dependents[j])
  }

  lemma LineMoves(modules: seq<Module>, inDegree: map<string, int>, order: seq<string>, queue: seq<string>, dependents: seq<string>, i: nat)
    requires DistinctIds(modules) && i < |dependents| && (forall id :: id in dependents ==> Registered(modules, id))
    requires Consistent(modules, inDegree, order, queue + [dependents[i]], dependents[i + 1..])
    requires WaitingForLast(modules, order, dependents) && InLine(modules, order, queue, dependents, i)
    ensures InLine(modules, order, queue + [dependents[i]], dependents, i + 1)
  {
    assert LineBefore(modules, order, order + queue, dependents[i]);
    FreedPush(modules, inDegree, order, queue, dependents[i + 1..], dependents[i]);
    LineGrows(modules, order, queue, dependents, i);
  }

  lemma LineAtFirst(modules: seq<Module>, order: seq<string>, queue: seq<string>, dependents: seq<string>)
    requires WaitingForLast(modules, order, dependents)
    requires forall id :: id in order + queue ==> Registered(modules, id) && WaitsFor(DependenciesOf(modules, id), order) < |order|
    ensures forall j :: 0 <= j < |dependents| ==> LineBefore(modules, order, order + queue, dependents[j])
  {
    assert forall i :: 0 <= i < |order + queue| ==> (order + queue)[i] in order + queue;
  }

  lemma LineGrows(modules: seq<Module>, order: seq<string>, queue: seq<string>, dependents: seq<string>, i: nat)
    requires WaitingForLast(modules, order, dependents) && i < |dependents|
    requires forall j :: i <= j < |dependents| ==> LineBefore(modules, order, order + queue, dependents[j])
    ensures forall j :: i < j < |dependents| ==> LineBefore(modules, order, order + (queue + [dependents[i]]), dependents[j])
  {
    assert order + (queue + [dependents[i]]) == (order + queue) + [dependents[i]];
    forall j | i < j < |dependents| ensures LineBefore(modules, order, (order + queue) + [dependents[i]], dependents[j]) {
      assert LineBefore(modules, order, order + queue, dependents[j]);
    }
  }

  /**
   * `computeStartupOrder`. It succeeds exactly on acyclic graphs with distinct ids, no
   * missing dependency and no module whose id is the empty string.
   */
  method ComputeStartupOrder(modules: seq<Module>) returns (r: Result<seq<string>, OrderError>)
    ensures r.Ok? <==> Orderable(modules)
    ensures r.Ok? ==> TopologicalOrder(modules, r.value) && InFreedOrder(modules, r.value, r.value)
    ensures r.Err? ==> Explained(modules, r.error)
  {
    var checked := CheckModules(modules);
    if checked.Err? {
      return Err(checked.error);
    }
    var order := SortModules(modules);
    if |order| != |modules| {
      var remaining := Remaining(modules, order);
      if !Registered(modules, "") {
        RemainingCycle(modules, order, remaining);
        RestSticks(modules, order, remaining);
      }
      return Err(CyclicDependency(remaining));
    }
    CompleteOrder(modules, order);
    OrderExcludesCycle(modules, order);
    return Ok(order);
  }

  /** One module without dependencies, its id the empty string: reported as a cycle, though there is none. */
  method OrderEmptyId() returns (r: Result<seq<string>, OrderError>)
    ensures var modules := [Module("", [], true)];
            DistinctIds(modules) && NoneMissing(modules) && !Cyclic(modules) && r.Err? && r.error.CyclicDependency?
  {
    ghost var modules := [Module("", [], true)];
    assert modules[0].id == "";
    assert !Cyclic(modules) by {
      assert forall a, b :: !DependsOn(modules, a, b);
      assert forall p :: !CycleWalk(modules, IdSet(modules), p) by {
        assert forall p: seq<string> :: |p| >= 2 ==> !DependsOn(modules, p[0], p[1]);
      }
    }
    r := ComputeStartupOrder([Module("", [], true)]);
  }

  /** Nothing that an order holds can be part of a set that is stuck. */
  lemma {:induction false} OrderedNotStuck(modules: seq<Module>, order: seq<string>, s: set<string>, n: nat)
    requires DependenciesFirst(modules, order) && AllStuck(modules, s) && n < |order|
    ensures order[n] !in s
    decreases n
  {
    if order[n] in s {
      assert DependsWithin(modules, s, order[n]);
      var b :| b in s && DependsOn(modules, order[n], b);
      assert b in order[..n];
      var m :| 0 <= m < n && order[m] == b;
      OrderedNotStuck(modules, order, s, m);
    }
  }

  lemma RestSticks(modules: seq<Module>, order: seq<string>, remaining: seq<string>)
    requires DependenciesFirst(modules, order) && AllStuck(modules, IdSet(modules) - Done(order))
    requires Done(remaining) == IdSet(modules) - Done(order)
    ensures AllThatStick(modules, Done(remaining))
  {
    forall s | s <= IdSet(modules) && AllStuck(modules, s) ensures s <= Done(remaining) {
      forall id | id in s ensures id in Done(remaining) {
        if id in Done(order) {
          var n :| 0 <= n < |order| && order[n] == id;
          OrderedNotStuck(modules, order, s, n);
        }
      }
    }
  }

  ghost predicate AsRegisteredTo(modules: seq<Module>, ids: seq<string>, n: nat) {
    AsRegistered(modules, ids) && forall k :: 0 <= k < |ids| ==> PlaceOf(modules, ids[k]) < n
  }

  lemma RegisteredNext(modules: seq<Module>, ids: seq<string>, i: nat)
    requires DistinctIds(modules) && i < |modules| && AsRegisteredTo(modules, ids, i)
    ensures AsRegisteredTo(modules, ids, i + 1) && AsRegisteredTo(modules, ids + [modules[i].id], i + 1)
  {
    PlaceUnique(modules, i);
  }

  method Remaining(modules: seq<Module>, order: seq<string>) returns (remaining: seq<string>)
    requires DistinctIds(modules)
    ensures Done(remaining) == IdSet(modules) - Done(order) && AsRegistered(modules, remaining)
  {
    remaining := [];
    for i := 0 to |modules|
      invariant AsRegisteredTo(modules, remaining, i)
      invariant Done(remaining) == IdSet(modules[..i]) - Done(order)
    {
      assert modules[..i + 1] == modules[..i] + [modules[i]];
      RegisteredAppend(modules[..i], modules[i]);
      DoneAppend(remaining, modules[i].id);
      RegisteredNext(modules, remaining, i);
      if modules[i].id !in order {
        remaining := remaining + [modules[i].id];
      }
    }
    assert modules[..|modules|] == modules;
  }

  lemma {:induction false} DoneCount(order: seq<string>)
    requires Distinct(order)
    ensures |Done(order)| == |order|
  {
    if order != [] {
      var n := |order| - 1;
      DoneCount(order[..n]);
      DoneAppend(order[..n], order[n]);
      assert order[..n] + [order[n]] == order;
      assert order[n] !in Done(order[..n]);
    }
  }

  lemma SubsetOfEqualSize<T>(a: set<T>, b: set<T>)
    requires a <= b && |a| == |b|
    ensures a == b
  {
    assert |b - a| == 0;
  }

  lemma CompleteOrder(modules: seq<Module>, order: seq<string>)
    requires DistinctIds(modules) && Distinct(order) && |order| == |modules|
    requires (forall id :: id in order ==> Registered(modules, id)) && DependenciesFirst(modules, order) && "" !in order
    ensures TopologicalOrder(modules, order) && !Registered(modules, "")
  {
    DoneCount(order);
    IdCount(modules);
    SubsetOfEqualSize(Done(order), IdSet(modules));
    forall i | 0 <= i < |modules| ensures modules[i].id in order {
      assert Registered(modules, modules[i].id);
      assert modules[i].id in Done(order);
    }
    forall i | 0 <= i < |order| ensures Registered(modules, order[i]) {
      assert order[i] in order;
    }
  }

  lemma RemainingCycle(modules: seq<Module>, order: seq<string>, remaining: seq<string>)
    requires DistinctIds(modules) && Distinct(order) && |order| != |modules|
    requires forall id :: id in order ==> Registered(modules, id)
    requires Done(remaining) == IdSet(modules) - Done(order)
    requires AllStuck(modules, IdSet(modules) - Done(order))
    ensures CycleAmong(modules, Done(remaining)) && Cyclic(modules)
  {
    DoneCount(order);
    IdCount(modules);
    var rest := Done(remaining);
    assert Done(order) <= IdSet(modules);
    DistinctFits(order, IdSet(modules));
    assert |rest| == |IdSet(modules)| - |Done(order)|;
    assert rest != {};
    StuckModulesCycle(modules, rest);
    var p :| CycleWalk(modules, rest, p);
    assert CycleWalk(modules, IdSet(modules), p);
  }

  // --- shutdown ---

  function Reversed(s: seq<string>): (r: seq<string>)
    ensures |r| == |s| && forall i :: 0 <= i < |s| ==> r[i] == s[|s| - 1 - i]
  {
    if s == [] then [] else Reversed(s[1..]) + [s[0]]
  }

  /** Every module exactly once, and each before everything it depends on. */
  ghost predicate ShutdownOrder(modules: seq<Module>, order: seq<string>) {
    && |order| == |modules|
    && Distinct(order)
    && (forall i :: 0 <= i < |modules| ==> modules[i].id in order)
    && (forall i, b :: 0 <= i < |order| && DependsOn(modules, order[i], b) ==> b in order[i + 1..])
  }

  lemma ReverseStops(modules: seq<Module>, order: seq<string>)
    requires TopologicalOrder(modules, order)
    ensures ShutdownOrder(modules, Reversed(order))
  {
    var r := Reversed(order);
    var n := |order|;
    forall i | 0 <= i < |modules| ensures modules[i].id in r {
      assert modules[i].id in order;
      var k :| 0 <= k < n && order[k] == modules[i].id;
      assert r[n - 1 - k] == order[k];
    }
    forall i, b | 0 <= i < n && DependsOn(modules, r[i], b) ensures b in r[i + 1..] {
      assert b in order[..n - 1 - i];
      var k :| 0 <= k < n - 1 - i && order[k] == b;
      assert r[n - 1 - k] == b;
      assert r[i + 1..][n - 1 - k - (i + 1)] == b;
    }
  }

  /** The one start order, from its end. */
  ghost predicate StartReversed(modules: seq<Module>, order: seq<string>) {
    var start := Reversed(order);
    TopologicalOrder(modules, start) && InFreedOrder(modules, start, start)
  }

  lemma ReversedTwice(order: seq<string>)
    ensures Reversed(Reversed(order)) == order
  {
  }

  /** `computeShutdownOrder`: dependents stop before what they depend on. */
  method ComputeShutdownOrder(modules: seq<Module>) returns (r: Result<seq<string>, OrderError>)
    ensures r.Ok? <==> Orderable(modules)
    ensures r.Ok? ==> ShutdownOrder(modules, r.value) && StartReversed(modules, r.value)
    ensures r.Err? ==> Explained(modules, r.error)
  {
    var startup := ComputeStartupOrder(modules);
    if startup.Err? {
      return startup;
    }
    ReverseStops(modules, startup.value);
    ReversedTwice(startup.value);
    return Ok(Reversed(startup.value));
  }
}
