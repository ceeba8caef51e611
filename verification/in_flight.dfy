/** The in-flight request table of one MCP connection. */
module InFlight {
  /** A JSON-RPC id. */
  datatype Id = Null | Num(n: int) | Str(text: string)

  /**
   * What a connection holds: the signal of each tracked request, the signals whose timeout
   * timer is running, how often each signal was aborted, and whether it is closed.
   */
  datatype Table = Table(inFlight: map<Id, nat>, armed: set<nat>, aborts: multiset<nat>, closed: bool)

  const EMPTY := Table(map[], {}, multiset{}, false)

  function Dropped(t: Table, id: Id): Table
    requires id in t.inFlight
  {
    t.(inFlight := t.inFlight - {id}, armed := t.armed - {t.inFlight[id]})
  }

  function Cancelled(t: Table, id: Id): Table {
    if id == Null || id !in t.inFlight then t
    else Dropped(t, id).(aborts := t.aborts + multiset{t.inFlight[id]})
  }

  function Registered(t: Table, id: Id, signal: nat, timed: bool): Table {
    if id == Null then t
    else
      var u := Cancelled(t, id);
      u.(inFlight := u.inFlight[id := signal], armed := if timed then u.armed + {signal} else u.armed)
  }

  function Completed(t: Table, id: Id): Table {
    if id == Null || id !in t.inFlight then t else Dropped(t, id)
  }

  function TimedOut(t: Table, id: Id, signal: nat): Table {
    Table(t.inFlight - {id}, t.armed - {signal}, t.aborts + multiset{signal}, t.closed)
  }

  function Closed(t: Table): Table {
    if t.closed then t else Table(map[], t.armed - t.inFlight.Values, t.aborts + multiset(t.inFlight.Values), true)
  }

  /** Every tracked request has a signal of its own. */
  ghost predicate Injective(m: map<Id, nat>) {
    forall a, b :: a in m && b in m && a != b ==> m[a] != m[b]
  }

  function SignalsOf(m: map<Id, nat>, ids: set<Id>): set<nat> {
    set id | id in ids && id in m :: m[id]
  }

  lemma OneMoreSignal(m: map<Id, nat>, ids: set<Id>, id: Id)
    requires Injective(m) && id in m && id !in ids
    ensures SignalsOf(m, ids + {id}) == SignalsOf(m, ids) + {m[id]}
    ensures multiset(SignalsOf(m, ids + {id})) == multiset(SignalsOf(m, ids)) + multiset{m[id]}
  {
    assert m[id] !in SignalsOf(m, ids);
    assert SignalsOf(m, ids + {id}) == SignalsOf(m, ids) + {m[id]};
  }

  /** Part-way through closing: the requests in `rest` are still to be aborted. */
  ghost predicate Closing(t: Table, rest: set<Id>, armed: set<nat>, aborts: multiset<nat>) {
    && Injective(t.inFlight) && rest <= t.inFlight.Keys
    && armed == t.armed - SignalsOf(t.inFlight, t.inFlight.Keys - rest)
    && aborts == t.aborts + multiset(SignalsOf(t.inFlight, t.inFlight.Keys - rest))
  }

  lemma ClosingStart(t: Table)
    requires Injective(t.inFlight)
    ensures Closing(t, t.inFlight.Keys, t.armed, t.aborts)
  {
    assert SignalsOf(t.inFlight, t.inFlight.Keys - t.inFlight.Keys) == {};
  }

  lemma ClosingStep(t: Table, rest: set<Id>, armed: set<nat>, aborts: multiset<nat>, id: Id)
    requires Closing(t, rest, armed, aborts) && id in rest
    ensures Closing(t, rest - {id}, armed - {t.inFlight[id]}, aborts + multiset{t.inFlight[id]})
  {
    var done := t.inFlight.Keys - rest;
    OneMoreSignal(t.inFlight, done, id);
    assert t.inFlight.Keys - (rest - {id}) == done + {id};
  }

  lemma ClosingEnd(t: Table, armed: set<nat>, aborts: multiset<nat>)
    requires Closing(t, {}, armed, aborts)
    ensures armed == t.armed - t.inFlight.Values && aborts == t.aborts + multiset(t.inFlight.Values)
  {
    assert SignalsOf(t.inFlight, t.inFlight.Keys - {}) == t.inFlight.Values;
  }

  class McpConnection {
    var inFlightRequests: map<Id, nat>
    var armed: set<nat>
    var aborts: multiset<nat>
    var isClosed: bool

    ghost function View(): Table
      reads this
    {
      Table(inFlightRequests, armed, aborts, isClosed)
    }

    constructor ()
      ensures View() == EMPTY
    {
      inFlightRequests, armed, aborts, isClosed := map[], {}, multiset{}, false;
    }

    method RegisterInFlightRequest(id: Id, signal: nat, timeoutMs: int)
      modifies this
      ensures View() == Registered(old(View()), id, signal, timeoutMs > 0)
    {
      if id == Null {
        return;
      }
      var replaced := CancelRequest(id);
      if timeoutMs > 0 {
        armed := armed + {signal};
      }
      inFlightRequests := inFlightRequests[id := signal];
    }

    method CompleteInFlightRequest(id: Id)
      modifies this
      ensures View() == Completed(old(View()), id)
    {
      if id == Null {
        return;
      }
      if id in inFlightRequests {
        armed := armed - {inFlightRequests[id]};
        inFlightRequests := inFlightRequests - {id};
      }
    }

    method CancelRequest(id: Id) returns (cancelled: bool)
      modifies this
      ensures View() == Cancelled(old(View()), id)
      ensures cancelled == (id != Null && id in old(inFlightRequests))
    {
      if id == Null {
        return false;
      }
      if id in inFlightRequests {
        armed := armed - {inFlightRequests[id]};
        aborts := aborts + multiset{inFlightRequests[id]};
        inFlightRequests := inFlightRequests - {id};
        return true;
      }
      return false;
    }

    /** The timer's callback. */
    method TimeOut(id: Id, signal: nat)
      modifies this
      ensures View() == TimedOut(old(View()), id, signal)
    {
      armed := armed - {signal};
      aborts := aborts + multiset{signal};
      inFlightRequests := inFlightRequests - {id};
    }

    method GetActiveRequestCount() returns (count: nat)
      ensures count == |inFlightRequests|
    {
      count := |inFlightRequests|;
    }

    method Close()
      requires Injective(inFlightRequests)
      modifies this
      ensures View() == Closed(old(View()))
    {
      if isClosed {
        return;
      }
      isClosed := true;
      ghost var before := old(View());
      var rest := inFlightRequests.Keys;
      ClosingStart(before);
      while rest != {}
        invariant isClosed && inFlightRequests == before.inFlight
        invariant Closing(before, rest, armed, aborts)
        decreases |rest|
      {
        var id :| id in rest;
        ClosingStep(before, rest, armed, aborts, id);
        armed := armed - {inFlightRequests[id]};
        aborts := aborts + multiset{inFlightRequests[id]};
        rest := rest - {id};
      }
      ClosingEnd(before, armed, aborts);
      inFlightRequests := map[];
    }
  }
}
