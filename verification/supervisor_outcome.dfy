/** What a start and a shutdown leave behind, told by the modules and the failures alone. */
module SupervisorOutcome {
  import opened Wrappers
  import opened Sequences
  import opened StartupOrder
  import opened Supervisor
  import opened SupervisorFacts

  /** The start call of the i-th module in order fails, and that module is critical. */
  ghost predicate CriticalAt(modules: seq<Module>, order: seq<string>, fails: Failures, base: nat, i: nat) {
    i < |order| && base + i in fails && exists m :: m in modules && m.id == order[i] && m.critical
  }

  ghost predicate NoneCritical(modules: seq<Module>, order: seq<string>, fails: Failures, base: nat, n: nat) {
    forall i :: 0 <= i < n ==> !CriticalAt(modules, order, fails, base, i)
  }

  lemma FatalIff(modules: seq<Module>, order: seq<string>, fails: Failures, base: nat, starts: seq<Call>, i: nat)
    requires StartRun(modules, order, fails, base, starts) && i < |starts|
    ensures Fatal(modules, starts[i]) <==> CriticalAt(modules, order, fails, base, i)
  {
    if Critical(modules, order[i]) {
      var k :| 0 <= k < |modules| && modules[k].id == order[i] && modules[k].critical;
      assert modules[k] in modules;
    }
  }

  /** A start goes through all the modules, or up to the first critical one that fails. */
  lemma HowFar(modules: seq<Module>, order: seq<string>, fails: Failures, base: nat, starts: seq<Call>)
    requires StartRun(modules, order, fails, base, starts)
    ensures Aborted(modules, starts) <==> !NoneCritical(modules, order, fails, base, |order|)
    ensures !Aborted(modules, starts) ==> |starts| == |order|
    ensures Aborted(modules, starts) ==>
              CriticalAt(modules, order, fails, base, |starts| - 1) && NoneCritical(modules, order, fails, base, |starts| - 1)
  {
    forall i | 0 <= i < |starts| ensures Fatal(modules, starts[i]) <==> CriticalAt(modules, order, fails, base, i) {
      FatalIff(modules, order, fails, base, starts, i);
    }
  }

  lemma {:induction false} StartLeavesOthers(modules: seq<Module>, reports: Reports, states: States, starts: seq<Call>, id: string)
    requires forall i :: 0 <= i < |starts| ==> starts[i].id != id
    ensures id in AfterStart(modules, reports, states, starts) <==> id in states
    ensures id in states ==> AfterStart(modules, reports, states, starts)[id] == states[id]
  {
    if starts != [] {
      StartLeavesOthers(modules, reports, states, starts[..|starts| - 1], id);
    }
  }

  /** The state of a module whose start was called: its own report, or a failure that is tolerated or not. */
  lemma StartLeaves(modules: seq<Module>, order: seq<string>, fails: Failures, base: nat, reports: Reports, states: States, starts: seq<Call>, i: nat)
    requires Distinct(order) && StartRun(modules, order, fails, base, starts) && i < |starts|
    ensures order[i] in AfterStart(modules, reports, states, starts)
    ensures AfterStart(modules, reports, states, starts)[order[i]] ==
            if base + i !in fails then Reported(reports, order[i])
            else if CriticalAt(modules, order, fails, base, i) then Failed else Degraded
  {
    AfterStartAt(modules, reports, states, starts, i);
    FatalIff(modules, order, fails, base, starts, i);
  }

  ghost predicate StoppedIn(stops: seq<Call>, id: string) {
    exists k :: 0 <= k < |stops| && stops[k].id == id && stops[k].ok
  }

  /** A rollback marks as stopped what stopped, and nothing else. */
  lemma {:induction false} RollbackLeaves(states: States, stops: seq<Call>, id: string)
    ensures id in AfterRollback(states, stops) <==> id in states || StoppedIn(stops, id)
    ensures id in AfterRollback(states, stops) ==>
              AfterRollback(states, stops)[id] == if StoppedIn(stops, id) then Stopped else states[id]
  {
    if stops != [] {
      var n := |stops| - 1;
      RollbackLeaves(states, stops[..n], id);
      assert forall k :: 0 <= k < n ==> stops[..n][k] == stops[k];
    }
  }

  /** A shutdown marks each module it stops, and nothing else. */
  lemma {:induction false} ShutdownLeaves(states: States, stops: seq<Call>, id: string)
    requires forall j, k :: 0 <= j < k < |stops| ==> stops[j].id != stops[k].id
    ensures (forall k :: 0 <= k < |stops| ==> stops[k].id != id) ==>
              (id in AfterStop(states, stops) <==> id in states) && (id in states ==> AfterStop(states, stops)[id] == states[id])
    ensures forall k :: 0 <= k < |stops| && stops[k].id == id ==>
              id in AfterStop(states, stops) && AfterStop(states, stops)[id] == if stops[k].ok then Stopped else Failed
  {
    if stops != [] {
      var n := |stops| - 1;
      assert forall k :: 0 <= k < n ==> stops[..n][k] == stops[k];
      ShutdownLeaves(states, stops[..n], id);
    }
  }

  ghost predicate Unwell(state: LifecycleState) {
    state == Degraded || state == Failed
  }

  /** The i-th start failed, or its module came up reporting that it is not well. */
  ghost predicate CameUpUnwell(order: seq<string>, fails: Failures, base: nat, reports: Reports, i: nat) {
    i < |order| && (base + i in fails || Unwell(Reported(reports, order[i])))
  }

  /** A state the supervisor keeps for something that is not started. */
  ghost predicate UnwellBeside(order: seq<string>, states: States, id: string) {
    id in states && id !in order && Unwell(states[id])
  }

  /**
   * A start without a critical failure: every module is called, tolerated failures leave
   * their modules degraded, and the supervisor ends degraded exactly when a start failed, a
   * module reported so, or a state it keeps beside the modules says so.
   */
  lemma StartOutcome(modules: seq<Module>, order: seq<string>, fails: Failures, before: seq<Call>, reports: Reports, states: States,
                     starts: seq<Call>, r: Result<(), StartError>, state: LifecycleState)
    requires Distinct(order) && StartRun(modules, order, fails, |before|, starts) && NoneCritical(modules, order, fails, |before|, |order|)
    requires Concluded(modules, starts, StatesAfter(modules, fails, reports, |before|, states, starts), r, state)
    ensures |starts| == |order| && r == Ok(()) && CallsAfter(modules, fails, before, starts) == before + starts
    ensures var after := StatesAfter(modules, fails, reports, |before|, states, starts);
            forall i :: 0 <= i < |order| ==>
              order[i] in after && after[order[i]] == if |before| + i in fails then Degraded else Reported(reports, order[i])
    ensures state == if (exists i :: CameUpUnwell(order, fails, |before|, reports, i)) || (exists id :: UnwellBeside(order, states, id))
                     then Degraded else Ready
  {
    NoRollback(modules, fails, before, starts);
    HowFar(modules, order, fails, |before|, starts);
    var after := AfterStart(modules, reports, states, starts);
    assert StatesAfter(modules, fails, reports, |before|, states, starts) == after;
    forall i | 0 <= i < |order|
      ensures order[i] in after && after[order[i]] == if |before| + i in fails then Degraded else Reported(reports, order[i])
    {
      StartLeaves(modules, order, fails, |before|, reports, states, starts, i);
    }
    forall id | id !in order ensures (id in after <==> id in states) && (id in states ==> after[id] == states[id]) {
      StartLeavesOthers(modules, reports, states, starts, id);
    }
    WorstState(order, fails, |before|, reports, states, after);
  }

  lemma WorstState(order: seq<string>, fails: Failures, base: nat, reports: Reports, states: States, after: States)
    requires forall i :: 0 <= i < |order| ==>
               order[i] in after && after[order[i]] == if base + i in fails then Degraded else Reported(reports, order[i])
    requires forall id :: id !in order ==> (id in after <==> id in states) && (id in states ==> after[id] == states[id])
    ensures Summary(after) ==
            if (exists i :: CameUpUnwell(order, fails, base, reports, i)) || (exists id :: UnwellBeside(order, states, id))
            then Degraded else Ready
  {
    if i: nat :| CameUpUnwell(order, fails, base, reports, i) {
      assert Unwell(after[order[i]]);
    } else if id :| UnwellBeside(order, states, id) {
      assert Unwell(after[id]);
    } else {
      forall id | id in after ensures !Unwell(after[id]) {
        if id in order {
          var i :| 0 <= i < |order| && order[i] == id;
          assert !CameUpUnwell(order, fails, base, reports, i);
        } else {
          assert !UnwellBeside(order, states, id);
        }
      }
    }
  }

  /**
   * A start with a critical failure: it ends there, the modules that had started are stopped,
   * and the one that failed, and only the supervisor and it, are failed.
   */
  lemma AbortOutcome(modules: seq<Module>, order: seq<string>, fails: Failures, before: seq<Call>, reports: Reports, states: States,
                     starts: seq<Call>, r: Result<(), StartError>, state: LifecycleState, k: nat)
    requires Distinct(order) && StartRun(modules, order, fails, |before|, starts)
    requires CriticalAt(modules, order, fails, |before|, k) && NoneCritical(modules, order, fails, |before|, k)
    requires Concluded(modules, starts, StatesAfter(modules, fails, reports, |before|, states, starts), r, state)
    ensures |starts| == k + 1 && r == Err(CriticalFailure(order[k])) && state == Failed
    ensures var stops := RollbackCalls(modules, starts, fails, |before|);
            var after := StatesAfter(modules, fails, reports, |before|, states, starts);
            && CallsAfter(modules, fails, before, starts) == before + starts + stops
            && order[k] in after && after[order[k]] == Failed
            && forall i :: 0 <= i < k ==>
                 order[i] in after && after[order[i]] ==
                   if |before| + i in fails then Degraded
                   else if StoppedIn(stops, order[i]) then Stopped else Reported(reports, order[i])
  {
    HowFar(modules, order, fails, |before|, starts);
    var stops := RollbackCalls(modules, starts, fails, |before|);
    var after := StatesAfter(modules, fails, reports, |before|, states, starts);
    forall i | 0 <= i < |starts|
      ensures order[i] in after && after[order[i]] ==
                if i == k then Failed
                else if |before| + i in fails then Degraded
                else if StoppedIn(stops, order[i]) then Stopped else Reported(reports, order[i])
    {
      StartLeaves(modules, order, fails, |before|, reports, states, starts, i);
      RollbackLeaves(AfterStart(modules, reports, states, starts), stops, order[i]);
      if |before| + i in fails {
        NeverStopped(modules, order, fails, |before|, starts, i);
      }
    }
  }

  /** What failed to start is not stopped in the rollback. */
  lemma NeverStopped(modules: seq<Module>, order: seq<string>, fails: Failures, base: nat, starts: seq<Call>, i: nat)
    requires Distinct(order) && StartRun(modules, order, fails, base, starts) && Aborted(modules, starts)
    requires i < |starts| && base + i in fails
    ensures !StoppedIn(RollbackCalls(modules, starts, fails, base), order[i])
  {
    forall k | 0 <= k < |RollbackCalls(modules, starts, fails, base)|
      ensures RollbackCalls(modules, starts, fails, base)[k].id != order[i]
    {
      RollbackStopsOnlyStarted(modules, fails, base, starts, k);
      FailedNotStarted(order, fails, base, modules, starts, i);
    }
  }

  lemma FailedNotStarted(order: seq<string>, fails: Failures, base: nat, modules: seq<Module>, starts: seq<Call>, i: nat)
    requires Distinct(order) && StartRun(modules, order, fails, base, starts) && i < |starts| && base + i in fails
    ensures StartCall(order[i], true) !in starts
  {
    forall j | 0 <= j < |starts| ensures starts[j] != StartCall(order[i], true) {
      assert starts[j].id == order[j];
    }
  }

  lemma OneStarts(modules: seq<Module>, fails: Failures, starts: seq<Call>, r: Result<(), StartError>, state: LifecycleState)
    requires |modules| == 1 && modules[0].id == "a" && (0 in fails ==> !modules[0].critical)
    requires StartRun(modules, ["a"], fails, 0, starts)
    requires Concluded(modules, starts, StatesAfter(modules, fails, map["a" := Ready], 0, map["a" := Uninitialized], starts), r, state)
    ensures starts == [StartCall("a", 0 !in fails)] && CallsAfter(modules, fails, [], starts) == starts
    ensures r == Ok(()) && state == if 0 in fails then Degraded else Ready
  {
    var reports, states := map["a" := Ready], map["a" := Uninitialized];
    StartOutcome(modules, ["a"], fails, [], reports, states, starts, r, state);
    assert CameUpUnwell(["a"], fails, 0, reports, 0) <==> 0 in fails;
    assert [] + starts == starts;
  }

  /** One module that starts and reports ready: the supervisor is ready, and a second start does nothing. */
  method CleanStart() returns (r: Result<(), StartError>, state: LifecycleState, calls: seq<Call>, again: Result<(), StartError>, later: seq<Call>)
    ensures r == Ok(()) && state == Ready && calls == [StartCall("a", true)]
    ensures again == Ok(()) && later == calls
  {
    var modules := [Module("a", [], true)];
    OneModule(modules, "a", true);
    var supervisor := new DaemonSupervisor(modules, map["a" := Uninitialized], iset{}, map["a" := Ready]);
    var order;
    ghost var starts;
    r, order, starts := supervisor.Start();
    OnlyOrder(modules, order, "a", true);
    OneStarts(modules, iset{}, starts, r, supervisor.state);
    state, calls := supervisor.state, supervisor.calls;
    again, order, starts := supervisor.Start();
    later := supervisor.calls;
  }

  /** The same module, not critical and failing to start: the supervisor is degraded. */
  method ToleratedStart() returns (r: Result<(), StartError>, state: LifecycleState, calls: seq<Call>)
    ensures r == Ok(()) && state == Degraded && calls == [StartCall("a", false)]
  {
    var modules := [Module("a", [], false)];
    OneModule(modules, "a", false);
    var supervisor := new DaemonSupervisor(modules, map["a" := Uninitialized], iset{0}, map["a" := Ready]);
    var order;
    ghost var starts;
    r, order, starts := supervisor.Start();
    OnlyOrder(modules, order, "a", false);
    OneStarts(modules, iset{0}, starts, r, supervisor.state);
    state, calls := supervisor.state, supervisor.calls;
  }

  lemma OneModule(modules: seq<Module>, id: string, critical: bool)
    requires modules == [Module(id, [], critical)] && id != ""
    ensures Orderable(modules)
  {
    assert forall a, b :: !DependsOn(modules, a, b);
    assert !Cyclic(modules) by {
      assert forall p: seq<string> :: |p| >= 2 ==> !DependsOn(modules, p[0], p[1]);
    }
  }

  lemma OnlyOrder(modules: seq<Module>, order: seq<string>, id: string, critical: bool)
    requires modules == [Module(id, [], critical)] && TopologicalOrder(modules, order)
    ensures order == [id]
  {
    assert Registered(modules, order[0]);
  }
}
