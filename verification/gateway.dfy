/** The gateway's own admission check, on connection objects. */
module McpGateways {
  import opened InFlight
  import opened Admission

  /** Requests in flight on these connections. */
  function ActiveIn(connections: seq<McpConnection>): nat
    reads connections
  {
    if connections == [] then 0
    else ActiveIn(connections[..|connections| - 1]) + |connections[|connections| - 1].inFlightRequests|
  }

  datatype Answer = ConcurrencyLimitExceeded | RateLimited | Registered

  class McpGateway {
    const limits: Limits
    /** The connection map, in insertion order. */
    var connections: seq<McpConnection>

    constructor (limits: Limits)
      ensures this.limits == limits && connections == []
    {
      this.limits, this.connections := limits, [];
    }

    method GetTotalActiveRequests() returns (total: nat)
      ensures total == ActiveIn(connections)
    {
      total := 0;
      var i := 0;
      while i < |connections|
        invariant i <= |connections|
        invariant total == ActiveIn(connections[..i])
      {
        assert connections[..i + 1][..i] == connections[..i];
        var count := connections[i].GetActiveRequestCount();
        total := total + count;
        i := i + 1;
      }
      assert connections[..i] == connections;
    }

    /** Up to the registration; `rateAllowed` is what the connection's token bucket would answer. */
    method HandleRequest(connection: McpConnection, id: Id, signal: nat, timeoutMs: int, rateAllowed: bool) returns (answer: Answer)
      requires connection in connections
      modifies connection
      ensures answer.Registered? <==>
                Admitted(limits, |old(connection.inFlightRequests)|, old(ActiveIn(connections)), rateAllowed)
      ensures answer.ConcurrencyLimitExceeded? <==>
                |old(connection.inFlightRequests)| >= limits.perConnection || old(ActiveIn(connections)) >= limits.total
      ensures connection.View() ==
              if answer.Registered? then InFlight.Registered(old(connection.View()), id, signal, timeoutMs > 0) else old(connection.View())
    {
      var active := connection.GetActiveRequestCount();
      if active >= limits.perConnection {
        return ConcurrencyLimitExceeded;
      }
      var total := GetTotalActiveRequests();
      if total >= limits.total {
        return ConcurrencyLimitExceeded;
      }
      if !rateAllowed {
        return RateLimited;
      }
      connection.RegisterInFlightRequest(id, signal, timeoutMs);
      return Registered;
    }
  }

  /** The loop over connection objects is the total of their tables. */
  lemma {:induction false} ActiveIsTotal(connections: seq<McpConnection>, tables: seq<Table>, open: seq<nat>)
    requires |open| == |connections| && Indices(tables, open)
    requires forall i :: 0 <= i < |open| ==> tables[open[i]].inFlight == connections[i].inFlightRequests
    ensures ActiveIn(connections) == Total(tables, open)
    decreases |open|
  {
    if open != [] {
      ActiveIsTotal(connections[..|open| - 1], tables, open[..|open| - 1]);
    }
  }
}
