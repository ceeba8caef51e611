/**
 * The daemon supervisor: ordered start with rollback, ordered stop (supervisor.ts).
 */
module Supervisor {
  import opened Wrappers
  import opened Sequences
  import opened StartupOrder

  datatype LifecycleState = Uninitialized | Starting | Ready | Degraded | Stopping | Stopped | Failed

  /** One awaited call into a module and how it settled; a timeout counts as a failure. */
  datatype Call = StartCall(id: string, ok: bool) | StopCall(id: string, ok: bool)

  datatype StartError = AlreadyStarting | BadOrder(error: OrderError) | CriticalFailure(id: string)

  /** Which calls of a run fail, by number. */
  type Failures = iset<nat>

  /** The states that modules report about themselves once their start has succeeded; a module left out reports ready. */
  type Reports = map<string, LifecycleState>

  function Reported(reports: Reports, id: string): LifecycleState {
    if id in reports then reports[id] else Ready
  }

  type States = map<string, LifecycleState>

  predicate Critical(modules: seq<Module>, id: string) {
    exists i :: 0 <= i < |modules| && modules[i].id == id && modules[i].critical
  }

  // --- the calls of a start ---

  predicate Fatal(modules: seq<Module>, call: Call) {
    !call.ok && Critical(modules, call.id)
  }

  predicate Aborted(modules: seq<Module>, starts: seq<Call>) {
    starts != [] && Fatal(modules, starts[|starts| - 1])
  }

  /** Starts in order, numbered from `base`, up to and including the first critical failure. */
  ghost predicate StartRun(modules: seq<Module>, order: seq<string>, fails: Failures, base: nat, starts: seq<Call>) {
    && |starts| <= |order|
    && (forall i :: 0 <= i < |starts| ==> starts[i] == StartCall(order[i], base + i !in fails))
    && (forall i :: 0 <= i < |starts| - 1 ==> !Fatal(modules, starts[i]))
    && (|starts| == |order| || Aborted(modules, starts))
  }

  /** Stops of the given modules in turn, numbered from `base`. */
  function StopCalls(ids: seq<string>, fails: Failures, base: nat): (calls: seq<Call>) {
    seq(|ids|, i requires 0 <= i < |ids| => StopCall(ids[i], base + i !in fails))
  }

  lemma StopCallsStep(ids: seq<string>, id: string, fails: Failures, base: nat)
    ensures StopCalls(ids + [id], fails, base) == StopCalls(ids, fails, base) + [StopCall(id, base + |ids| !in fails)]
  {
  }

  /** The modules whose start succeeded, in start order. */
  function Succeeded(calls: seq<Call>): seq<string> {
    if calls == [] then []
    else
      var last := calls[|calls| - 1];
      Succeeded(calls[..|calls| - 1]) + if last.StartCall? && last.ok then [last.id] else []
  }

  function RollbackCalls(modules: seq<Module>, starts: seq<Call>, fails: Failures, base: nat): seq<Call> {
    if Aborted(modules, starts) then StopCalls(Reversed(Succeeded(starts)), fails, base + |starts|) else []
  }

  /** The state recorded for a module when its start settles. */
  function Settled(modules: seq<Module>, reports: Reports, call: Call): LifecycleState {
    if call.ok then Reported(reports, call.id) else if Critical(modules, call.id) then Failed else Degraded
  }

  function AfterStart(modules: seq<Module>, reports: Reports, states: States, calls: seq<Call>): States {
    if calls == [] then states
    else
      var last := calls[|calls| - 1];
      AfterStart(modules, reports, states, calls[..|calls| - 1])[last.id := Settled(modules, reports, last)]
  }

  /** A rollback stop that throws leaves the module's state alone. */
  function AfterRollback(states: States, calls: seq<Call>): States {
    if calls == [] then states
    else
      var last := calls[|calls| - 1];
      var before := AfterRollback(states, calls[..|calls| - 1]);
      if last.ok then before[last.id := Stopped] else before
  }

  function AfterStop(states: States, calls: seq<Call>): States {
    if calls == [] then states
    else
      var last := calls[|calls| - 1];
      AfterStop(states, calls[..|calls| - 1])[last.id := if last.ok then Stopped else Failed]
  }

  lemma AfterStopStep(states: States, calls: seq<Call>, call: Call)
    ensures AfterRollback(states, calls + [call]) ==
            if call.ok then AfterRollback(states, calls)[call.id := Stopped] else AfterRollback(states, calls)
    ensures AfterStop(states, calls + [call]) == AfterStop(states, calls)[call.id := if call.ok then Stopped else Failed]
  {
    assert (calls + [call])[..|calls|] == calls;
  }

  /** The modules that a shutdown bothers to stop. */
  predicate Active(states: States, id: string) {
    id in states && (states[id] == Ready || states[id] == Degraded || states[id] == Starting)
  }

  function ActiveIn(states: States, order: seq<string>): (ids: seq<string>)
    ensures forall id :: id in ids <==> id in order && Active(states, id)
  {
    if order == [] then []
    else
      var last := order[|order| - 1];
      ActiveIn(states, order[..|order| - 1]) + if Active(states, last) then [last] else []
  }

  lemma SucceededStep(starts: seq<Call>, call: Call)
    ensures Succeeded(starts + [call]) == Succeeded(starts) + if call.StartCall? && call.ok then [call.id] else []
  {
    assert (starts + [call])[..|starts|] == starts;
  }

  lemma AfterStartStep(modules: seq<Module>, reports: Reports, states: States, starts: seq<Call>, call: Call)
    ensures AfterStart(modules, reports, states, starts + [call]) ==
            AfterStart(modules, reports, states, starts)[call.id := Settled(modules, reports, call)]
  {
    assert (starts + [call])[..|starts|] == starts;
  }

  function CallsAfter(modules: seq<Module>, fails: Failures, before: seq<Call>, starts: seq<Call>): seq<Call> {
    (before + starts) + RollbackCalls(modules, starts, fails, |before|)
  }

  function StatesAfter(modules: seq<Module>, fails: Failures, reports: Reports, base: nat, states: States, starts: seq<Call>): States {
    AfterRollback(AfterStart(modules, reports, states, starts), RollbackCalls(modules, starts, fails, base))
  }

  lemma NoRollback(modules: seq<Module>, fails: Failures, before: seq<Call>, starts: seq<Call>)
    ensures !Aborted(modules, starts) ==> CallsAfter(modules, fails, before, starts) == before + starts
  {
  }

  /** How a start that got past the ordering ends. */
  ghost predicate Concluded(modules: seq<Module>, starts: seq<Call>, states: States, r: Result<(), StartError>, state: LifecycleState) {
    if Aborted(modules, starts) then r == Err(CriticalFailure(starts[|starts| - 1].id)) && state == Failed
    else r == Ok(()) && state == Summary(states)
  }

  /** The supervisor's own state after a start that was not abandoned. */
  function Summary(states: States): LifecycleState {
    if exists id :: id in states && (states[id] == Degraded || states[id] == Failed) then Degraded else Ready
  }

  class DaemonSupervisor {
    const modules: seq<Module>
    const fails: Failures
    const reports: Reports
    var state: LifecycleState
    var moduleStates: States
    /** How the only shutdown ended, kept to answer every later request. */
    var stopPromise: Option<Result<seq<string>, OrderError>>
    /** Every call made into a module so far. */
    var calls: seq<Call>

    constructor (modules: seq<Module>, initial: States, fails: Failures, reports: Reports)
      ensures this.modules == modules && this.fails == fails && this.reports == reports
      ensures state == Uninitialized && moduleStates == initial && stopPromise == None && calls == []
    {
      this.modules, this.fails, this.reports := modules, fails, reports;
      state, moduleStates, stopPromise, calls := Uninitialized, initial, None, [];
    }

    /** `start`: every module in topological order, undone if a critical module fails. */
    method Start() returns (r: Result<(), StartError>, order: seq<string>, ghost starts: seq<Call>)
      modifies this
      ensures stopPromise == old(stopPromise)
      ensures old(state) == Ready ==> r == Ok(()) && calls == old(calls) && moduleStates == old(moduleStates) && state == Ready
      ensures old(state) == Starting ==> r == Err(AlreadyStarting) && calls == old(calls) && moduleStates == old(moduleStates) && state == Starting
      ensures old(state) != Ready && old(state) != Starting ==>
                && (Orderable(modules) <==> !(r.Err? && r.error.BadOrder?))
                && if r.Err? && r.error.BadOrder? then
                  Explained(modules, r.error.error) && state == Starting && calls == old(calls) && moduleStates == old(moduleStates)
                else
                  && TopologicalOrder(modules, order)
                  && StartRun(modules, order, fails, |old(calls)|, starts)
                  && calls == CallsAfter(modules, fails, old(calls), starts)
                  && moduleStates == StatesAfter(modules, fails, reports, |old(calls)|, old(moduleStates), starts)
                  && Concluded(modules, starts, moduleStates, r, state)
    {
      if state == Ready {
        return Ok(()), [], [];
      }
      if state == Starting {
        return Err(AlreadyStarting), [], [];
      }
      state := Starting;
      var startupOrder := ComputeStartupOrder(modules);
      if startupOrder.Err? {
        return Err(BadOrder(startupOrder.error)), [], [];
      }
      order := startupOrder.value;
      r, starts := StartInOrder(order);
    }

    method StartInOrder(order: seq<string>) returns (r: Result<(), StartError>, ghost starts: seq<Call>)
      modifies this`state, this`calls, this`moduleStates
      ensures StartRun(modules, order, fails, |old(calls)|, starts)
      ensures calls == CallsAfter(modules, fails, old(calls), starts)
      ensures moduleStates == StatesAfter(modules, fails, reports, |old(calls)|, old(moduleStates), starts)
      ensures Concluded(modules, starts, moduleStates, r, state) && !(r.Err? && r.error.BadOrder?)
    {
      var failed, startedModuleIds;
      failed, startedModuleIds, starts := StartModules(order);
      NoRollback(modules, fails, old(calls), starts);
      if failed.Some? {
        state := Failed;
        assert |calls| == |old(calls)| + |starts|;
        assert StopCalls(Reversed(startedModuleIds), fails, |calls|) == RollbackCalls(modules, starts, fails, |old(calls)|);
        Rollback(Reversed(startedModuleIds));
        return Err(CriticalFailure(failed.value)), starts;
      }
      state := Summary(moduleStates);
      return Ok(()), starts;
    }

    /** The start loop: stops short at the first critical failure. */
    method StartModules(order: seq<string>) returns (failed: Option<string>, startedModuleIds: seq<string>, ghost starts: seq<Call>)
      modifies this`calls, this`moduleStates
      ensures StartRun(modules, order, fails, |old(calls)|, starts)
      ensures calls == old(calls) + starts
      ensures moduleStates == AfterStart(modules, reports, old(moduleStates), starts)
      ensures startedModuleIds == Succeeded(starts)
      ensures failed.Some? <==> Aborted(modules, starts)
      ensures failed.Some? ==> failed.value == starts[|starts| - 1].id
    {
      startedModuleIds, starts := [], [];
      for i := 0 to |order|
        invariant |starts| == i && calls == old(calls) + starts
        invariant forall k :: 0 <= k < i ==> starts[k] == StartCall(order[k], |old(calls)| + k !in fails) && !Fatal(modules, starts[k])
        invariant startedModuleIds == Succeeded(starts)
        invariant moduleStates == AfterStart(modules, reports, old(moduleStates), starts)
      {
        var call := StartOne(order[i]);
        SucceededStep(starts, call);
        AfterStartStep(modules, reports, old(moduleStates), starts, call);
        starts := starts + [call];
        if call.ok {
          startedModuleIds := startedModuleIds + [order[i]];
        } else if Critical(modules, order[i]) {
          return Some(order[i]), startedModuleIds, starts;
        }
      }
      return None, startedModuleIds, starts;
    }

    /** One start, and the state it leaves behind. */
    method StartOne(moduleId: string) returns (call: Call)
      modifies this`calls, this`moduleStates
      ensures call == StartCall(moduleId, |old(calls)| !in fails) && calls == old(calls) + [call]
      ensures moduleStates == old(moduleStates)[moduleId := Settled(modules, reports, call)]
    {
      var ok := |calls| !in fails;
      call := StartCall(moduleId, ok);
      moduleStates := moduleStates[moduleId := Starting];
      calls := calls + [call];
      if ok {
        moduleStates := moduleStates[moduleId := Reported(reports, moduleId)];
      } else {
        moduleStates := moduleStates[moduleId := Failed];
        if !Critical(modules, moduleId) {
          moduleStates := moduleStates[moduleId := Degraded];
        }
      }
    }

    /** Stops what had been started; a stop that throws does not end the rollback. */
    method Rollback(ids: seq<string>)
      modifies this`calls, this`moduleStates
      ensures calls == old(calls) + StopCalls(ids, fails, |old(calls)|)
      ensures moduleStates == AfterRollback(old(moduleStates), StopCalls(ids, fails, |old(calls)|))
    {
      for i := 0 to |ids|
        invariant calls == old(calls) + StopCalls(ids[..i], fails, |old(calls)|)
        invariant moduleStates == AfterRollback(old(moduleStates), StopCalls(ids[..i], fails, |old(calls)|))
      {
        var call := StopCall(ids[i], |calls| !in fails);
        assert ids[..i + 1] == ids[..i] + [ids[i]];
        StopCallsStep(ids[..i], ids[i], fails, |old(calls)|);
        AfterStopStep(old(moduleStates), StopCalls(ids[..i], fails, |old(calls)|), call);
        calls := calls + [call];
        if call.ok {
          moduleStates := moduleStates[ids[i] := Stopped];
        }
      }
      assert ids[..|ids|] == ids;
    }

    /** `stop`: at most one shutdown is ever executed, and a failed one fails every later request. */
    method Stop() returns (r: Result<seq<string>, OrderError>)
      modifies this
      ensures old(state) == Stopped || old(stopPromise).Some? ==>
                && r == (if old(state) == Stopped then Ok([]) else old(stopPromise).value)
                && calls == old(calls) && moduleStates == old(moduleStates) && state == old(state) && stopPromise == old(stopPromise)
      ensures old(state) != Stopped && old(stopPromise).None? ==>
                && stopPromise == Some(r)
                && (r.Ok? <==> Orderable(modules))
                && (r.Err? ==> Explained(modules, r.error) && state == Stopping && calls == old(calls) && moduleStates == old(moduleStates))
                && (r.Ok? ==>
                      var stops := StopCalls(ActiveIn(old(moduleStates), r.value), fails, |old(calls)|);
                      && ShutdownOrder(modules, r.value)
                      && state == Stopped
                      && calls == old(calls) + stops
                      && moduleStates == AfterStop(old(moduleStates), stops))
    {
      if state == Stopped {
        return Ok([]);
      }
      if stopPromise.Some? {
        return stopPromise.value;
      }
      state := Stopping;
      r := ComputeShutdownOrder(modules);
      stopPromise := Some(r);
      if r.Err? {
        return;
      }
      ExecuteStop(r.value);
      state := Stopped;
    }

    method ExecuteStop(order: seq<string>)
      requires Distinct(order)
      modifies this`calls, this`moduleStates
      ensures var stops := StopCalls(ActiveIn(old(moduleStates), order), fails, |old(calls)|);
              calls == old(calls) + stops && moduleStates == AfterStop(old(moduleStates), stops)
    {
      ghost var ids: seq<string> := [];
      for i := 0 to |order|
        invariant ids == ActiveIn(old(moduleStates), order[..i])
        invariant forall k :: i <= k < |order| ==> Active(moduleStates, order[k]) == Active(old(moduleStates), order[k])
        invariant calls == old(calls) + StopCalls(ids, fails, |old(calls)|)
        invariant moduleStates == AfterStop(old(moduleStates), StopCalls(ids, fails, |old(calls)|))
      {
        assert order[..i + 1][..i] == order[..i];
        assert forall k :: i < k < |order| ==> order[k] != order[i];
        if Active(moduleStates, order[i]) {
          ghost var stops, call := StopCalls(ids, fails, |old(calls)|), StopCall(order[i], |calls| !in fails);
          assert |calls| == |old(calls)| + |ids|;
          StopCallsStep(ids, order[i], fails, |old(calls)|);
          AfterStopStep(old(moduleStates), stops, call);
          StopOne(order[i]);
          ids := ids + [order[i]];
          assert StopCalls(ids, fails, |old(calls)|) == stops + [call];
          assert moduleStates == AfterStop(old(moduleStates), stops + [call]);
          assert calls == old(calls) + (stops + [call]);
        }
      }
      assert order[..|order|] == order;
    }

    /** One stop during shutdown, and the state it leaves behind. */
    method StopOne(moduleId: string)
      modifies this`calls, this`moduleStates
      ensures var call := StopCall(moduleId, |old(calls)| !in fails);
              calls == old(calls) + [call] && moduleStates == old(moduleStates)[moduleId := if call.ok then Stopped else Failed]
    {
      var ok := |calls| !in fails;
      moduleStates := moduleStates[moduleId := Stopping];
      calls := calls + [StopCall(moduleId, ok)];
      moduleStates := moduleStates[moduleId := if ok then Stopped else Failed];
    }
  }
}

/** What any start/stop cycle guarantees, whatever fails. */
module SupervisorFacts {
  import opened Wrappers
  import opened Sequences
  import opened StartupOrder
  import opened Supervisor

  /** A module's start is called only after the start of everything it depends on has settled. */
  lemma DependenciesSettleFirst(modules: seq<Module>, order: seq<string>, fails: Failures, base: nat, starts: seq<Call>, i: nat, b: string)
    requires TopologicalOrder(modules, order) && StartRun(modules, order, fails, base, starts)
    requires i < |starts| && DependsOn(modules, starts[i].id, b)
    ensures exists j :: 0 <= j < i && starts[j].StartCall? && starts[j].id == b
  {
    assert DependsOn(modules, order[i], b);
    assert b in order[..i];
    var j :| 0 <= j < i && order[j] == b;
    assert starts[j].id == b;
  }

  lemma {:induction false} SucceededAt(starts: seq<Call>, i: nat) returns (k: nat)
    requires i < |starts| && starts[i].StartCall? && starts[i].ok
    ensures k < |Succeeded(starts)| && Succeeded(starts)[k] == starts[i].id
  {
    var n := |starts| - 1;
    if i < n {
      k := SucceededAt(starts[..n], i);
    } else {
      k := |Succeeded(starts[..n])|;
    }
  }

  /** Where the k-th successful start stands among all the starts. */
  lemma {:induction false} SucceededPosition(starts: seq<Call>, k: nat) returns (i: nat)
    requires k < |Succeeded(starts)|
    ensures i < |starts| && starts[i] == StartCall(Succeeded(starts)[k], true)
  {
    var n := |starts| - 1;
    if k < |Succeeded(starts[..n])| {
      i := SucceededPosition(starts[..n], k);
    } else {
      i := n;
    }
  }

  /** The successful starts are listed in the order they happened. */
  lemma {:induction false} SucceededInOrder(starts: seq<Call>, j: nat, k: nat)
    requires j < k < |Succeeded(starts)|
    ensures StartedLater(starts, Succeeded(starts)[k], Succeeded(starts)[j])
  {
    var n := |starts| - 1;
    var front := starts[..n];
    if k < |Succeeded(front)| {
      SucceededInOrder(front, j, k);
      var x, y :| 0 <= y < x < n && front[x] == StartCall(Succeeded(front)[k], true) && front[y] == StartCall(Succeeded(front)[j], true);
      assert starts[x] == front[x] && starts[y] == front[y];
    } else {
      var y := SucceededPosition(front, j);
      assert starts[n] == StartCall(Succeeded(starts)[k], true) && starts[y] == StartCall(Succeeded(starts)[j], true);
    }
  }

  /** `a` started after `b`, both successfully. */
  ghost predicate StartedLater(starts: seq<Call>, a: string, b: string) {
    exists i, j :: 0 <= j < i < |starts| && starts[i] == StartCall(a, true) && starts[j] == StartCall(b, true)
  }

  lemma StopReversedAt(ids: seq<string>, fails: Failures, base: nat, k: nat)
    requires k < |ids|
    ensures |StopCalls(Reversed(ids), fails, base)| == |ids|
    ensures StopCalls(Reversed(ids), fails, base)[k] == StopCall(ids[|ids| - 1 - k], base + k !in fails)
  {
    assert Reversed(ids)[k] == ids[|ids| - 1 - k];
  }

  /** The k-th stop of a rollback is for the k-th last module that had started. */
  lemma RollbackAt(modules: seq<Module>, fails: Failures, base: nat, starts: seq<Call>, succeeded: seq<string>, k: nat)
    requires Aborted(modules, starts) && succeeded == Succeeded(starts) && k < |succeeded|
    ensures |RollbackCalls(modules, starts, fails, base)| == |succeeded|
    ensures RollbackCalls(modules, starts, fails, base)[k] ==
            StopCall(succeeded[|succeeded| - 1 - k], base + |starts| + k !in fails)
  {
    assert RollbackCalls(modules, starts, fails, base) == StopCalls(Reversed(succeeded), fails, base + |starts|);
    StopReversedAt(succeeded, fails, base + |starts|, k);
  }

  lemma RollbackCount(modules: seq<Module>, fails: Failures, base: nat, starts: seq<Call>)
    requires Aborted(modules, starts)
    ensures |RollbackCalls(modules, starts, fails, base)| == |Succeeded(starts)|
  {
    assert RollbackCalls(modules, starts, fails, base) == StopCalls(Reversed(Succeeded(starts)), fails, base + |starts|);
  }

  /** After a critical failure, what the rollback stops had started. */
  lemma RollbackStopsOnlyStarted(modules: seq<Module>, fails: Failures, base: nat, starts: seq<Call>, k: nat)
    requires Aborted(modules, starts) && k < |RollbackCalls(modules, starts, fails, base)|
    ensures var call := RollbackCalls(modules, starts, fails, base)[k];
            call.StopCall? && StartCall(call.id, true) in starts
  {
    var succeeded := Succeeded(starts);
    RollbackCount(modules, fails, base, starts);
    RollbackAt(modules, fails, base, starts, succeeded, k);
    var i := SucceededPosition(starts, |succeeded| - 1 - k);
  }

  /** Everything that had started is stopped, even when other stops throw. */
  lemma RollbackStopsAllStarted(modules: seq<Module>, fails: Failures, base: nat, starts: seq<Call>, i: nat)
    requires Aborted(modules, starts) && i < |starts| && starts[i].StartCall? && starts[i].ok
    ensures exists k :: 0 <= k < |RollbackCalls(modules, starts, fails, base)| && RollbackCalls(modules, starts, fails, base)[k].id == starts[i].id
  {
    var succeeded := Succeeded(starts);
    var k := SucceededAt(starts, i);
    RollbackAt(modules, fails, base, starts, succeeded, |succeeded| - 1 - k);
  }

  /** The rollback runs in the reverse of start order. */
  lemma RollbackReversesStarts(modules: seq<Module>, fails: Failures, base: nat, starts: seq<Call>, j: nat, k: nat)
    requires Aborted(modules, starts) && j < k < |RollbackCalls(modules, starts, fails, base)|
    ensures var stops := RollbackCalls(modules, starts, fails, base);
            StartedLater(starts, stops[j].id, stops[k].id)
  {
    var stops := RollbackCalls(modules, starts, fails, base);
    forall i | 0 <= i < |stops| ensures |stops| == |Succeeded(starts)| && stops[i].id == Succeeded(starts)[|stops| - 1 - i] {
      RollbackCount(modules, fails, base, starts);
      RollbackAt(modules, fails, base, starts, Succeeded(starts), i);
    }
    ReversedLater(starts, stops, j, k);
  }

  lemma ReversedLater(starts: seq<Call>, stops: seq<Call>, j: nat, k: nat)
    requires j < k < |stops| == |Succeeded(starts)|
    requires forall i :: 0 <= i < |stops| ==> stops[i].id == Succeeded(starts)[|stops| - 1 - i]
    ensures StartedLater(starts, stops[j].id, stops[k].id)
  {
    SucceededInOrder(starts, |stops| - 1 - k, |stops| - 1 - j);
  }

  /** The stops come in shutdown order. */
  ghost predicate Precedes(order: seq<string>, a: string, b: string) {
    exists x, y :: 0 <= x < y < |order| && order[x] == a && order[y] == b
  }

  lemma PrecedesOneWay(order: seq<string>, a: string, b: string)
    requires Distinct(order) && Precedes(order, a, b)
    ensures a != b && !Precedes(order, b, a)
  {
  }

  lemma {:induction false} ActiveInOrder(states: States, order: seq<string>, j: nat, k: nat)
    requires j < k < |ActiveIn(states, order)|
    ensures Precedes(order, ActiveIn(states, order)[j], ActiveIn(states, order)[k])
  {
    var n := |order| - 1;
    var front := order[..n];
    if k < |ActiveIn(states, front)| {
      ActiveInOrder(states, front, j, k);
      var x, y :| 0 <= x < y < n && front[x] == ActiveIn(states, front)[j] && front[y] == ActiveIn(states, front)[k];
      assert order[x] == front[x] && order[y] == front[y];
    } else {
      assert ActiveIn(states, front)[j] in front;
      var x :| 0 <= x < n && front[x] == ActiveIn(states, front)[j];
      assert order[x] == front[x] && order[n] == ActiveIn(states, order)[k];
    }
  }

  /** A shutdown stops each active module once, dependents before what they depend on. */
  lemma DependentsStopFirst(modules: seq<Module>, order: seq<string>, states: States, j: nat, k: nat)
    requires ShutdownOrder(modules, order) && j < |ActiveIn(states, order)| && k < |ActiveIn(states, order)|
    requires DependsOn(modules, ActiveIn(states, order)[j], ActiveIn(states, order)[k])
    ensures j < k
  {
    var active := ActiveIn(states, order);
    assert active[j] in order;
    assert active[j] != active[k] && !Precedes(order, active[k], active[j]) by {
      DependencyBehind(modules, order, active[j], active[k]);
      PrecedesOneWay(order, active[j], active[k]);
    }
    if k < j {
      ActiveInOrder(states, order, k, j);
    }
  }

  lemma DependencyBehind(modules: seq<Module>, order: seq<string>, a: string, b: string)
    requires ShutdownOrder(modules, order) && a in order && DependsOn(modules, a, b)
    ensures Precedes(order, a, b)
  {
    var y :| 0 <= y < |order| && order[y] == a;
    assert b in order[y + 1..];
    var z :| y < z < |order| && order[z] == b;
  }

  lemma ShutdownReachesActive(modules: seq<Module>, order: seq<string>, states: States, i: nat)
    requires ShutdownOrder(modules, order) && i < |modules| && Active(states, modules[i].id)
    ensures modules[i].id in ActiveIn(states, order) && Distinct(ActiveIn(states, order))
  {
    assert modules[i].id in order;
    var active := ActiveIn(states, order);
    forall j, k | 0 <= j < k < |active| ensures active[j] != active[k] {
      ActiveInOrder(states, order, j, k);
      PrecedesOneWay(order, active[j], active[k]);
    }
  }

  lemma {:induction false} AfterStartAt(modules: seq<Module>, reports: Reports, states: States, starts: seq<Call>, i: nat)
    requires i < |starts| && forall j, k :: 0 <= j < k < |starts| ==> starts[j].id != starts[k].id
    ensures starts[i].id in AfterStart(modules, reports, states, starts)
    ensures AfterStart(modules, reports, states, starts)[starts[i].id] == Settled(modules, reports, starts[i])
  {
    var n := |starts| - 1;
    if i < n {
      AfterStartAt(modules, reports, states, starts[..n], i);
      assert starts[i].id != starts[n].id;
    }
  }

  /**
   * After a start that was not abandoned, the next shutdown stops exactly the modules that
   * came up in an active state and those whose failure was tolerated.
   */
  lemma StopCoversStart(modules: seq<Module>, order: seq<string>, fails: Failures, base: nat, reports: Reports, states: States, starts: seq<Call>, i: nat)
    requires TopologicalOrder(modules, order) && StartRun(modules, order, fails, base, starts) && !Aborted(modules, starts)
    requires i < |order|
    ensures |starts| == |order|
    ensures Active(AfterStart(modules, reports, states, starts), order[i]) <==>
            !starts[i].ok || Reported(reports, order[i]) == Ready || Reported(reports, order[i]) == Degraded || Reported(reports, order[i]) == Starting
  {
    forall j, k | 0 <= j < k < |starts| ensures starts[j].id != starts[k].id {
      assert order[j] != order[k];
    }
    AfterStartAt(modules, reports, states, starts, i);
    assert !Fatal(modules, starts[i]);
  }

  /** A module that tolerates its own failure to start: its stop is called all the same. */
  lemma StopsWhatNeverStarted(reports: Reports)
    ensures var modules, fails, starts := [Module("a", [], false)], iset{0}, [StartCall("a", false)];
            var states := AfterStart(modules, reports, map[], starts);
            && TopologicalOrder(modules, ["a"]) && StartRun(modules, ["a"], fails, 0, starts) && !Aborted(modules, starts)
            && ShutdownOrder(modules, ["a"]) && ActiveIn(states, ["a"]) == ["a"]
  {
    var modules, starts := [Module("a", [], false)], [StartCall("a", false)];
    var states := AfterStart(modules, reports, map[], starts);
    assert modules[0].id == "a" && ["a"][0] == "a";
    StopCoversStart(modules, ["a"], iset{0}, 0, reports, map[], starts, 0);
    assert ["a"][..0] == [];
    assert ActiveIn(states, []) == [];
  }

  // --- modules that cannot be ordered ---

  lemma TwoInACycle(modules: seq<Module>)
    requires modules == [Module("a", ["b"], true), Module("b", ["a"], true)]
    ensures Cyclic(modules)
  {
    assert modules[0].id == "a" && modules[1].id == "b";
    assert DependsOn(modules, "a", "b") && DependsOn(modules, "b", "a");
    assert CycleWalk(modules, IdSet(modules), ["a", "b", "a"]);
  }

  /** Two modules that depend on each other: the first start gets stuck, the next is refused, and no stop ever succeeds. */
  method OrderingFails() returns (started: Result<(), StartError>, stuck: LifecycleState, again: Result<(), StartError>,
                                  stopped: Result<seq<string>, OrderError>, stoppedAgain: Result<seq<string>, OrderError>, calls: seq<Call>)
    ensures started.Err? && started.error.BadOrder? && stuck == Starting
    ensures again == Err(AlreadyStarting)
    ensures stopped.Err? && stoppedAgain == stopped
    ensures calls == []
  {
    var modules := [Module("a", ["b"], true), Module("b", ["a"], true)];
    TwoInACycle(modules);
    var supervisor := new DaemonSupervisor(modules, map[], iset{}, map[]);
    var order;
    ghost var starts;
    started, order, starts := supervisor.Start();
    stuck := supervisor.state;
    again, order, starts := supervisor.Start();
    stopped := supervisor.Stop();
    stoppedAgain := supervisor.Stop();
    calls := supervisor.calls;
  }
}
