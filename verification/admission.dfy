/** Gateway admission: concurrency caps over every interleaving of requests, completions, cancellations, timeouts and closes. */
module Admission {
  import opened Sequences
  import opened InFlight

  /** `timed` says whether requests get a timeout timer. */
  datatype Limits = Limits(perConnection: nat, total: nat, timed: bool)

  /** Which request a signal was made for. */
  datatype Ticket = Ticket(conn: nat, id: Id)

  /**
   * `tables` holds every connection ever made and `open` those in the connection map, in
   * insertion order; signal n belongs to `tickets[n]`; `running` are the handlers not yet finished.
   */
  datatype Gateway = Gateway(tables: seq<Table>, open: seq<nat>, tickets: seq<Ticket>, running: set<nat>)

  datatype Event =
    | Connect
    | Start(conn: nat, id: Id, allowed: bool)
    | Finish(signal: nat)
    | Cancel(conn: nat, id: Id)
    | TimeOut(signal: nat)
    | Close(conn: nat)

  const INITIAL := Gateway([], [], [], {})

  predicate Indices(tables: seq<Table>, open: seq<nat>) {
    forall i :: 0 <= i < |open| ==> open[i] < |tables|
  }

  /** The summing loop, over the first connections. */
  function Total(tables: seq<Table>, open: seq<nat>): nat
    requires Indices(tables, open)
  {
    if open == [] then 0 else Total(tables, open[..|open| - 1]) + |tables[open[|open| - 1]].inFlight|
  }

  function Without(open: seq<nat>, c: nat): seq<nat> {
    if open == [] then [] else (if open[0] == c then [] else [open[0]]) + Without(open[1..], c)
  }

  predicate Admitted(l: Limits, active: nat, total: nat, allowed: bool) {
    active < l.perConnection && total < l.total && allowed
  }

  /** Nothing about tickets and handlers is out of range. */
  predicate TicketsOk(tickets: seq<Ticket>, running: set<nat>, connections: nat) {
    && (forall s :: 0 <= s < |tickets| ==> tickets[s].conn < connections)
    && (forall s :: s in running ==> s < |tickets|)
  }

  predicate InRange(g: Gateway) {
    && Indices(g.tables, g.open)
    && TicketsOk(g.tickets, g.running, |g.tables|)
  }

  predicate Enabled(g: Gateway, e: Event)
    requires InRange(g)
  {
    match e
    case Connect => true
    case Start(c, _, _) => c in g.open
    case Finish(s) => s in g.running
    case Cancel(c, _) => c in g.open
    case TimeOut(s) => s < |g.tickets| && s in g.tables[g.tickets[s].conn].armed
    case Close(c) => c < |g.tables|
  }

  function Next(l: Limits, g: Gateway, e: Event): Gateway
    requires InRange(g) && Enabled(g, e)
  {
    match e
    case Connect => g.(tables := g.tables + [EMPTY], open := g.open + [|g.tables|])
    case Start(c, id, allowed) =>
      if !Admitted(l, |g.tables[c].inFlight|, Total(g.tables, g.open), allowed) then g
      else
        var s := |g.tickets|;
        Gateway(g.tables[c := Registered(g.tables[c], id, s, l.timed)], g.open, g.tickets + [Ticket(c, id)], g.running + {s})
    case Finish(s) =>
      var Ticket(c, id) := g.tickets[s];
      g.(tables := g.tables[c := Completed(g.tables[c], id)], running := g.running - {s})
    case Cancel(c, id) => g.(tables := g.tables[c := Cancelled(g.tables[c], id)])
    case TimeOut(s) =>
      var Ticket(c, id) := g.tickets[s];
      g.(tables := g.tables[c := TimedOut(g.tables[c], id, s)])
    case Close(c) =>
      if g.tables[c].closed then g
      else g.(tables := g.tables[c := Closed(g.tables[c])], open := Without(g.open, c))
  }

  // --- what every reachable state keeps ---

  ghost predicate TableOk(tickets: seq<Ticket>, running: set<nat>, c: nat, t: Table, timed: bool) {
    && (forall id :: id in t.inFlight ==>
          var s := t.inFlight[id];
          && id != Null && s < |tickets| && tickets[s] == Ticket(c, id) && s in running && t.aborts[s] == 0
          && (timed ==> s in t.armed))
    && (forall s :: s in t.armed ==>
          s < |tickets| && tickets[s].conn == c && tickets[s].id in t.inFlight && t.inFlight[tickets[s].id] == s)
    && (forall s :: s in t.aborts ==> t.aborts[s] == 1 && s < |tickets| && tickets[s].conn == c)
    && (t.closed ==> t.inFlight == map[])
  }

  ghost predicate TablesOk(tickets: seq<Ticket>, running: set<nat>, tables: seq<Table>, timed: bool) {
    forall c :: 0 <= c < |tables| ==> TableOk(tickets, running, c, tables[c], timed)
  }

  /** The connection map holds exactly the connections not closed. */
  ghost predicate OpenOk(tables: seq<Table>, open: seq<nat>) {
    Distinct(open) && forall c {:trigger c in open} :: 0 <= c < |tables| ==> (c in open <==> !tables[c].closed)
  }

  ghost predicate SizesOk(l: Limits, tables: seq<Table>) {
    forall c :: 0 <= c < |tables| ==> |tables[c].inFlight| <= l.perConnection
  }

  ghost predicate Inv(l: Limits, g: Gateway) {
    && InRange(g) && OpenOk(g.tables, g.open) && TablesOk(g.tickets, g.running, g.tables, l.timed)
    && SizesOk(l, g.tables) && Total(g.tables, g.open) <= l.total
  }

  // --- tables: one step each ---

  lemma CancelledOk(tickets: seq<Ticket>, running: set<nat>, c: nat, t: Table, timed: bool, id: Id)
    requires TableOk(tickets, running, c, t, timed)
    ensures TableOk(tickets, running, c, Cancelled(t, id), timed)
    ensures |Cancelled(t, id).inFlight| <= |t.inFlight|
  {
    if id != Null && id in t.inFlight {
      Fewer(t.inFlight, id);
    }
  }

  lemma CompletedOk(tickets: seq<Ticket>, running: set<nat>, c: nat, t: Table, timed: bool, s: nat)
    requires TableOk(tickets, running, c, t, timed) && s < |tickets| && tickets[s].conn == c
    ensures TableOk(tickets, running - {s}, c, Completed(t, tickets[s].id), timed)
    ensures |Completed(t, tickets[s].id).inFlight| <= |t.inFlight|
  {
    if tickets[s].id in t.inFlight {
      Fewer(t.inFlight, tickets[s].id);
    }
  }

  lemma TimedOutOk(tickets: seq<Ticket>, running: set<nat>, c: nat, t: Table, timed: bool, s: nat)
    requires TableOk(tickets, running, c, t, timed) && s in t.armed
    ensures TableOk(tickets, running, c, TimedOut(t, tickets[s].id, s), timed)
    ensures |TimedOut(t, tickets[s].id, s).inFlight| <= |t.inFlight|
  {
    Fewer(t.inFlight, tickets[s].id);
  }

  lemma ClosedOk(tickets: seq<Ticket>, running: set<nat>, c: nat, t: Table, timed: bool)
    requires TableOk(tickets, running, c, t, timed)
    ensures TableOk(tickets, running, c, Closed(t), timed)
    ensures |Closed(t).inFlight| <= |t.inFlight|
  {
    var u := Closed(t);
    forall s | s in u.aborts ensures u.aborts[s] == 1 && s < |tickets| && tickets[s].conn == c {
      if s in t.inFlight.Values {
        var id :| id in t.inFlight && t.inFlight[id] == s;
      }
    }
  }

  lemma RegisteredOk(tickets: seq<Ticket>, running: set<nat>, c: nat, t: Table, timed: bool, id: Id)
    requires TableOk(tickets, running, c, t, timed) && !t.closed
    ensures TableOk(tickets + [Ticket(c, id)], running + {|tickets|}, c, Registered(t, id, |tickets|, timed), timed)
  {
    var u := Cancelled(t, id);
    CancelledOk(tickets, running, c, t, timed, id);
    IssuedOk(tickets, running, c, u, timed, Ticket(c, id));
    if id != Null {
      AddedOk(tickets + [Ticket(c, id)], running + {|tickets|}, c, u, timed, id, |tickets|);
    }
  }

  lemma AddedOk(tickets: seq<Ticket>, running: set<nat>, c: nat, u: Table, timed: bool, id: Id, s: nat)
    requires TableOk(tickets, running, c, u, timed) && !u.closed && id != Null && id !in u.inFlight
    requires s < |tickets| && tickets[s] == Ticket(c, id) && s in running && u.aborts[s] == 0
    ensures TableOk(tickets, running, c, u.(inFlight := u.inFlight[id := s], armed := if timed then u.armed + {s} else u.armed), timed)
  {
  }

  lemma IssuedOk(tickets: seq<Ticket>, running: set<nat>, c: nat, t: Table, timed: bool, ticket: Ticket)
    requires TableOk(tickets, running, c, t, timed)
    ensures TableOk(tickets + [ticket], running + {|tickets|}, c, t, timed)
  {
  }

  lemma Fewer(m: map<Id, nat>, id: Id)
    requires id in m
    ensures |m - {id}| == |m| - 1
  {
    assert (m - {id}).Keys == m.Keys - {id};
  }

  lemma OneMore(m: map<Id, nat>, id: Id, s: nat)
    ensures |m[id := s]| <= |m| + 1
  {
    assert m[id := s].Keys == m.Keys + {id};
  }

  // --- totals ---

  lemma {:induction false} TotalElsewhere(tables: seq<Table>, open: seq<nat>, c: nat, t: Table)
    requires Indices(tables, open) && c < |tables| && c !in open
    ensures Total(tables[c := t], open) == Total(tables, open)
  {
    if open != [] {
      TotalElsewhere(tables, open[..|open| - 1], c, t);
    }
  }

  lemma {:induction false} TotalUpdate(tables: seq<Table>, open: seq<nat>, c: nat, t: Table)
    requires Indices(tables, open) && Distinct(open) && c in open
    ensures Total(tables[c := t], open) + |tables[c].inFlight| == Total(tables, open) + |t.inFlight|
  {
    var front, last := open[..|open| - 1], open[|open| - 1];
    if last == c {
      TotalElsewhere(tables, front, c, t);
    } else {
      TotalUpdate(tables, front, c, t);
    }
  }

  lemma {:induction false} TotalAppend(tables: seq<Table>, open: seq<nat>, t: Table)
    requires Indices(tables, open)
    ensures Total(tables + [t], open) == Total(tables, open)
  {
    if open != [] {
      TotalAppend(tables, open[..|open| - 1], t);
    }
  }

  lemma {:induction false} WithoutIs(open: seq<nat>, c: nat)
    ensures forall d :: d in Without(open, c) <==> d in open && d != c
    ensures Distinct(open) ==> Distinct(Without(open, c))
  {
    if open != [] {
      var rest := open[1..];
      WithoutIs(rest, c);
      if Distinct(open) {
        assert Distinct(rest);
        assert open[0] !in rest;
        assert open[0] !in Without(rest, c);
      }
    }
  }

  lemma {:induction false} TotalConcat(tables: seq<Table>, a: seq<nat>, b: seq<nat>)
    requires Indices(tables, a) && Indices(tables, b)
    ensures Total(tables, a + b) == Total(tables, a) + Total(tables, b)
  {
    if b == [] {
      assert a + b == a;
    } else {
      TotalConcat(tables, a, b[..|b| - 1]);
      assert (a + b)[..|a + b| - 1] == a + b[..|b| - 1];
    }
  }

  lemma {:induction false} TotalWithout(tables: seq<Table>, open: seq<nat>, c: nat)
    requires Indices(tables, open)
    ensures Indices(tables, Without(open, c)) && Total(tables, Without(open, c)) <= Total(tables, open)
  {
    if open != [] {
      var first, rest := open[0], open[1..];
      assert open == [first] + rest;
      TotalWithout(tables, rest, c);
      TotalConcat(tables, [first], rest);
      if first == c {
        assert Without(open, c) == Without(rest, c);
      } else {
        TotalConcat(tables, [first], Without(rest, c));
      }
    }
  }

  // --- the invariant ---

  lemma InvConnect(l: Limits, g: Gateway)
    requires Inv(l, g)
    ensures Inv(l, Next(l, g, Connect))
  {
    assert Total(g.tables + [EMPTY], g.open + [|g.tables|]) == Total(g.tables, g.open) by {
      TotalConnect(g.tables, g.open);
    }
    TablesAppend(g.tickets, g.running, g.tables, l.timed);
    OpenAppend(g.tables, g.open);
    SizesAppend(l, g.tables);
  }

  lemma TotalConnect(tables: seq<Table>, open: seq<nat>)
    requires Indices(tables, open)
    ensures Indices(tables + [EMPTY], open + [|tables|])
    ensures Total(tables + [EMPTY], open + [|tables|]) == Total(tables, open)
  {
    TotalAppend(tables, open, EMPTY);
    assert (open + [|tables|])[..|open|] == open;
  }

  lemma SizesAppend(l: Limits, tables: seq<Table>)
    requires SizesOk(l, tables)
    ensures SizesOk(l, tables + [EMPTY])
  {
  }

  lemma OpenAppend(tables: seq<Table>, open: seq<nat>)
    requires Indices(tables, open) && OpenOk(tables, open)
    ensures Indices(tables + [EMPTY], open + [|tables|]) && OpenOk(tables + [EMPTY], open + [|tables|])
  {
  }

  lemma OpenUpdate(tables: seq<Table>, open: seq<nat>, c: nat, t: Table)
    requires Indices(tables, open) && OpenOk(tables, open) && c < |tables| && t.closed == tables[c].closed
    ensures Indices(tables[c := t], open) && OpenOk(tables[c := t], open)
  {
  }

  lemma OpenClose(tables: seq<Table>, open: seq<nat>, c: nat, t: Table)
    requires Indices(tables, open) && OpenOk(tables, open) && c < |tables| && t.closed
    ensures Indices(tables[c := t], Without(open, c)) && OpenOk(tables[c := t], Without(open, c))
  {
    WithoutIs(open, c);
    forall i | 0 <= i < |Without(open, c)| ensures Without(open, c)[i] < |tables| {
      assert Without(open, c)[i] in open;
    }
  }

  lemma SizesUpdate(l: Limits, tables: seq<Table>, c: nat, t: Table)
    requires SizesOk(l, tables) && c < |tables| && |t.inFlight| <= l.perConnection
    ensures SizesOk(l, tables[c := t])
  {
  }

  lemma TablesAppend(tickets: seq<Ticket>, running: set<nat>, tables: seq<Table>, timed: bool)
    requires TablesOk(tickets, running, tables, timed)
    ensures TablesOk(tickets, running, tables + [EMPTY], timed)
  {
    forall c | 0 <= c < |tables| + 1 ensures TableOk(tickets, running, c, (tables + [EMPTY])[c], timed) {
      assert c < |tables| ==> TableOk(tickets, running, c, tables[c], timed);
    }
  }

  lemma TablesUpdate(tickets: seq<Ticket>, running: set<nat>, tables: seq<Table>, timed: bool, c: nat, t: Table)
    requires c < |tables| && TableOk(tickets, running, c, t, timed)
    requires forall d :: 0 <= d < |tables| && d != c ==> TableOk(tickets, running, d, tables[d], timed)
    ensures TablesOk(tickets, running, tables[c := t], timed)
  {
  }

  /** A step on one table that does not make it larger. */
  lemma InvShrink(l: Limits, g: Gateway, c: nat, t: Table, running: set<nat>)
    requires Inv(l, g) && c < |g.tables| && t.closed == g.tables[c].closed && |t.inFlight| <= |g.tables[c].inFlight|
    requires TableOk(g.tickets, running, c, t, l.timed)
    requires running <= g.running && forall s :: s in g.running && s !in running ==> g.tickets[s].conn == c
    ensures Inv(l, g.(tables := g.tables[c := t], running := running))
  {
    if c in g.open {
      TotalUpdate(g.tables, g.open, c, t);
    } else {
      TotalElsewhere(g.tables, g.open, c, t);
    }
    forall d | 0 <= d < |g.tables| && d != c ensures TableOk(g.tickets, running, d, g.tables[d], l.timed) {
      StaysOk(g.tickets, g.running, running, d, g.tables[d], l.timed);
    }
    TablesUpdate(g.tickets, running, g.tables, l.timed, c, t);
    OpenUpdate(g.tables, g.open, c, t);
    SizesUpdate(l, g.tables, c, t);
  }

  /** Handlers of other connections may finish. */
  lemma StaysOk(tickets: seq<Ticket>, running: set<nat>, fewer: set<nat>, d: nat, t: Table, timed: bool)
    requires TableOk(tickets, running, d, t, timed)
    requires forall s :: s in running && s !in fewer ==> s < |tickets| && tickets[s].conn != d
    ensures TableOk(tickets, fewer, d, t, timed)
  {
  }

  lemma StartTables(g: Gateway, timed: bool, c: nat, id: Id)
    requires TablesOk(g.tickets, g.running, g.tables, timed) && c < |g.tables| && !g.tables[c].closed
    ensures var s, t := |g.tickets|, Registered(g.tables[c], id, |g.tickets|, timed);
            TablesOk(g.tickets + [Ticket(c, id)], g.running + {s}, g.tables[c := t], timed)
  {
    var tickets, running := g.tickets + [Ticket(c, id)], g.running + {|g.tickets|};
    RegisteredOk(g.tickets, g.running, c, g.tables[c], timed, id);
    forall d | 0 <= d < |g.tables| && d != c ensures TableOk(tickets, running, d, g.tables[d], timed) {
      IssuedOk(g.tickets, g.running, d, g.tables[d], timed, Ticket(c, id));
    }
    TablesUpdate(tickets, running, g.tables, timed, c, Registered(g.tables[c], id, |g.tickets|, timed));
  }

  lemma StartTotal(l: Limits, tables: seq<Table>, open: seq<nat>, c: nat, t: Table)
    requires Indices(tables, open) && Distinct(open) && c in open && Total(tables, open) < l.total
    requires |t.inFlight| <= |tables[c].inFlight| + 1
    ensures Indices(tables[c := t], open) && Total(tables[c := t], open) <= l.total
  {
    TotalUpdate(tables, open, c, t);
  }

  lemma InvStart(l: Limits, g: Gateway, c: nat, id: Id)
    requires Inv(l, g) && c in g.open && Admitted(l, |g.tables[c].inFlight|, Total(g.tables, g.open), true)
    ensures Inv(l, Next(l, g, Start(c, id, true)))
  {
    var t := Registered(g.tables[c], id, |g.tickets|, l.timed);
    StartTables(g, l.timed, c, id);
    RegisteredSize(g.tables[c], id, |g.tickets|, l.timed);
    StartTotal(l, g.tables, g.open, c, t);
    OpenUpdate(g.tables, g.open, c, t);
    SizesUpdate(l, g.tables, c, t);
    IssueInRange(g.tickets, g.running, |g.tables|, Ticket(c, id));
  }

  lemma IssueInRange(tickets: seq<Ticket>, running: set<nat>, connections: nat, ticket: Ticket)
    requires TicketsOk(tickets, running, connections) && ticket.conn < connections
    ensures TicketsOk(tickets + [ticket], running + {|tickets|}, connections)
  {
  }

  lemma RegisteredSize(t: Table, id: Id, signal: nat, timed: bool)
    ensures var u := Registered(t, id, signal, timed);
            u.closed == t.closed && |u.inFlight| <= |t.inFlight| + 1
  {
    var u := Cancelled(t, id);
    if id != Null && id in t.inFlight {
      Fewer(t.inFlight, id);
    }
    OneMore(u.inFlight, id, signal);
  }

  lemma CloseTables(g: Gateway, timed: bool, c: nat)
    requires TablesOk(g.tickets, g.running, g.tables, timed) && c < |g.tables|
    ensures TablesOk(g.tickets, g.running, g.tables[c := Closed(g.tables[c])], timed)
  {
    ClosedOk(g.tickets, g.running, c, g.tables[c], timed);
    TablesUpdate(g.tickets, g.running, g.tables, timed, c, Closed(g.tables[c]));
  }

  lemma CloseTotal(l: Limits, tables: seq<Table>, open: seq<nat>, c: nat)
    requires Indices(tables, open) && OpenOk(tables, open) && c < |tables| && c in open && Total(tables, open) <= l.total
    ensures Indices(tables[c := Closed(tables[c])], Without(open, c))
    ensures Total(tables[c := Closed(tables[c])], Without(open, c)) <= l.total
  {
    var t := Closed(tables[c]);
    TotalUpdate(tables, open, c, t);
    TotalWithout(tables[c := t], open, c);
    ClosedSize(tables[c]);
  }

  lemma ClosedSize(t: Table)
    ensures |Closed(t).inFlight| <= |t.inFlight|
  {
  }

  lemma CloseSizes(l: Limits, tables: seq<Table>, c: nat)
    requires SizesOk(l, tables) && c < |tables|
    ensures SizesOk(l, tables[c := Closed(tables[c])])
  {
    ClosedSize(tables[c]);
    SizesUpdate(l, tables, c, Closed(tables[c]));
  }

  lemma InvClose(l: Limits, g: Gateway, c: nat)
    requires Inv(l, g) && c < |g.tables| && !g.tables[c].closed
    ensures Inv(l, Next(l, g, Close(c)))
  {
    var tables, open := g.tables[c := Closed(g.tables[c])], Without(g.open, c);
    assert Indices(tables, open) && Total(tables, open) <= l.total by {
      CloseTotal(l, g.tables, g.open, c);
    }
    assert OpenOk(tables, open) by {
      OpenClose(g.tables, g.open, c, Closed(g.tables[c]));
    }
    CloseTables(g, l.timed, c);
    CloseSizes(l, g.tables, c);
    assert Next(l, g, Close(c)) == Gateway(tables, open, g.tickets, g.running);
  }

  lemma InvFinish(l: Limits, g: Gateway, s: nat)
    requires Inv(l, g) && Enabled(g, Finish(s))
    ensures Inv(l, Next(l, g, Finish(s)))
  {
    var Ticket(c, id) := g.tickets[s];
    CompletedOk(g.tickets, g.running, c, g.tables[c], l.timed, s);
    InvShrink(l, g, c, Completed(g.tables[c], id), g.running - {s});
  }

  lemma InvCancel(l: Limits, g: Gateway, c: nat, id: Id)
    requires Inv(l, g) && Enabled(g, Cancel(c, id))
    ensures Inv(l, Next(l, g, Cancel(c, id)))
  {
    CancelledOk(g.tickets, g.running, c, g.tables[c], l.timed, id);
    InvShrink(l, g, c, Cancelled(g.tables[c], id), g.running);
  }

  lemma InvTimeOut(l: Limits, g: Gateway, s: nat)
    requires Inv(l, g) && Enabled(g, TimeOut(s))
    ensures Inv(l, Next(l, g, TimeOut(s)))
  {
    var Ticket(c, id) := g.tickets[s];
    TimedOutOk(g.tickets, g.running, c, g.tables[c], l.timed, s);
    InvShrink(l, g, c, TimedOut(g.tables[c], id, s), g.running);
  }

  lemma InvStep(l: Limits, g: Gateway, e: Event)
    requires Inv(l, g) && Enabled(g, e)
    ensures Inv(l, Next(l, g, e))
  {
    match e
    case Connect => InvConnect(l, g);
    case Start(c, id, allowed) =>
      if Admitted(l, |g.tables[c].inFlight|, Total(g.tables, g.open), allowed) {
        InvStart(l, g, c, id);
      }
    case Finish(s) =>
      InvFinish(l, g, s);
    case Cancel(c, id) =>
      InvCancel(l, g, c, id);
    case TimeOut(s) =>
      InvTimeOut(l, g, s);
    case Close(c) =>
      if !g.tables[c].closed {
        InvClose(l, g, c);
      }
  }

  // --- runs ---

  /** g is reachable by these events. */
  ghost predicate Reaches(l: Limits, events: seq<Event>, g: Gateway)
    decreases |events|
  {
    if events == [] then g == INITIAL
    else
      var n := |events| - 1;
      exists before :: Reaches(l, events[..n], before) && StepsTo(l, before, events[n], g)
  }

  ghost predicate StepsTo(l: Limits, g: Gateway, e: Event, g': Gateway) {
    InRange(g) && Enabled(g, e) && g' == Next(l, g, e)
  }

  lemma {:induction false} AlwaysInv(l: Limits, events: seq<Event>, g: Gateway)
    requires Reaches(l, events, g)
    ensures Inv(l, g)
    decreases |events|
  {
    if events != [] {
      var n := |events| - 1;
      var before :| Reaches(l, events[..n], before) && StepsTo(l, before, events[n], g);
      AlwaysInv(l, events[..n], before);
      InvStep(l, before, events[n]);
    }
  }

  /** The caps hold in every reachable state, whatever ids the clients choose. */
  lemma CapsHold(l: Limits, events: seq<Event>, g: Gateway)
    requires Reaches(l, events, g)
    ensures InRange(g)
    ensures forall c :: 0 <= c < |g.tables| ==> |g.tables[c].inFlight| <= l.perConnection
    ensures Total(g.tables, g.open) <= l.total
    ensures forall c :: 0 <= c < |g.tables| && c !in g.open ==> g.tables[c].inFlight == map[]
  {
    AlwaysInv(l, events, g);
    forall c | 0 <= c < |g.tables| && c !in g.open ensures g.tables[c].inFlight == map[] {
      assert TableOk(g.tickets, g.running, c, g.tables[c], l.timed);
    }
  }

  /** How often a signal was aborted. */
  function Aborts(g: Gateway, s: nat): nat
    requires InRange(g) && s < |g.tickets|
  {
    g.tables[g.tickets[s].conn].aborts[s]
  }

  /** A signal in the table. */
  predicate Tracks(t: Table, s: nat) {
    exists id :: id in t.inFlight && t.inFlight[id] == s
  }

  /** From t to u only tracked signals were aborted, each once. */
  ghost predicate AbortsTracked(t: Table, u: Table) {
    forall s :: u.aborts[s] == t.aborts[s] || (u.aborts[s] == t.aborts[s] + 1 && Tracks(t, s))
  }

  lemma CancelledAborts(t: Table, id: Id)
    ensures AbortsTracked(t, Cancelled(t, id))
  {
  }

  lemma RegisteredAborts(t: Table, id: Id, signal: nat, timed: bool)
    ensures AbortsTracked(t, Registered(t, id, signal, timed))
  {
    CancelledAborts(t, id);
  }

  lemma TimedOutAborts(t: Table, id: Id, s: nat)
    requires id in t.inFlight && t.inFlight[id] == s
    ensures AbortsTracked(t, TimedOut(t, id, s))
  {
  }

  lemma ClosedAborts(t: Table)
    ensures AbortsTracked(t, Closed(t))
  {
    forall s | s in t.inFlight.Values ensures Tracks(t, s) {}
  }

  /** What one step may do to the aborts of a signal. */
  ghost predicate AbortsFairly(g: Gateway, g': Gateway, s: nat) {
    && InRange(g) && InRange(g') && s < |g.tickets| && s < |g'.tickets|
    && (Aborts(g', s) == Aborts(g, s) || (s in g.running && Aborts(g, s) == 0 && Aborts(g', s) == 1))
    && (s !in g.running ==> s !in g'.running)
  }

  lemma AbortsInTable(l: Limits, g: Gateway, g': Gateway, c: nat, u: Table, s: nat)
    requires Inv(l, g) && InRange(g') && s < |g.tickets| && c < |g.tables|
    requires g'.tables == g.tables[c := u] && AbortsTracked(g.tables[c], u)
    requires s < |g'.tickets| && g'.tickets[s] == g.tickets[s]
    requires s !in g.running ==> s !in g'.running
    ensures AbortsFairly(g, g', s)
  {
    var d := g.tickets[s].conn;
    assert TableOk(g.tickets, g.running, d, g.tables[d], l.timed);
  }

  /** A step aborts a signal only while its handler runs, and only if it was not aborted before. */
  lemma AbortStep(l: Limits, g: Gateway, e: Event, s: nat)
    requires Inv(l, g) && Enabled(g, e) && s < |g.tickets|
    ensures AbortsFairly(g, Next(l, g, e), s)
  {
    var g' := Next(l, g, e);
    assert InRange(g') by { InvStep(l, g, e); }
    TicketsGrow(l, g, e, s);
    if e.Connect? || g'.tables == g.tables {
      AbortsSame(g, g', s);
    } else {
      var c := TableTouched(g, e);
      TouchedAborts(l, g, e, c);
      AbortsInTable(l, g, g', c, g'.tables[c], s);
    }
  }

  lemma TicketsGrow(l: Limits, g: Gateway, e: Event, s: nat)
    requires InRange(g) && Enabled(g, e) && s < |g.tickets|
    ensures var g' := Next(l, g, e);
            && |g.tickets| <= |g'.tickets| && g'.tickets[s] == g.tickets[s]
            && (s !in g.running ==> s !in g'.running)
            && (e.Connect? || g'.tables == g.tables ==> |g'.tables| >= |g.tables| && g'.tables[..|g.tables|] == g.tables)
  {
  }

  lemma AbortsSame(g: Gateway, g': Gateway, s: nat)
    requires InRange(g) && InRange(g') && s < |g.tickets| && s < |g'.tickets| && g'.tickets[s] == g.tickets[s]
    requires |g'.tables| >= |g.tables| && g'.tables[..|g.tables|] == g.tables
    requires s !in g.running ==> s !in g'.running
    ensures AbortsFairly(g, g', s)
  {
    var c := g.tickets[s].conn;
    assert g'.tables[c] == g'.tables[..|g.tables|][c];
  }

  /** The connection whose table a step changes. */
  function TableTouched(g: Gateway, e: Event): nat
    requires InRange(g) && Enabled(g, e) && !e.Connect?
  {
    if e.Finish? || e.TimeOut? then g.tickets[e.signal].conn else e.conn
  }

  lemma TouchedAborts(l: Limits, g: Gateway, e: Event, c: nat)
    requires Inv(l, g) && Enabled(g, e) && !e.Connect? && c == TableTouched(g, e) && Next(l, g, e).tables != g.tables
    ensures Next(l, g, e).tables == g.tables[c := Next(l, g, e).tables[c]]
    ensures AbortsTracked(g.tables[c], Next(l, g, e).tables[c])
  {
    var t := g.tables[c];
    match e
    case Start(_, id, _) => RegisteredAborts(t, id, |g.tickets|, l.timed);
    case Finish(_) =>
    case Cancel(_, id) => CancelledAborts(t, id);
    case TimeOut(s) =>
      assert TableOk(g.tickets, g.running, c, t, l.timed);
      TimedOutAborts(t, g.tickets[s].id, s);
    case Close(_) => ClosedAborts(t);
  }

  ghost predicate Continues(l: Limits, g: Gateway, events: seq<Event>, g': Gateway)
    decreases |events|
  {
    if events == [] then g' == g
    else
      var n := |events| - 1;
      exists before :: Continues(l, g, events[..n], before) && StepsTo(l, before, events[n], g')
  }

  lemma AbortedAtMostOnce(l: Limits, g: Gateway, s: nat)
    requires Inv(l, g) && s < |g.tickets|
    ensures Aborts(g, s) <= 1
  {
    var c := g.tickets[s].conn;
    assert TableOk(g.tickets, g.running, c, g.tables[c], l.timed);
  }

  /** s was aborted at most once, and not since g if its request had completed by then. */
  ghost predicate AbortedOnce(g: Gateway, g': Gateway, s: nat) {
    && InRange(g) && InRange(g') && s < |g.tickets| && s < |g'.tickets|
    && Aborts(g, s) <= Aborts(g', s) <= 1
    && (s !in g.running ==> s !in g'.running && Aborts(g', s) == Aborts(g, s))
  }

  /** Each signal is aborted at most once, and never after its request completed. */
  lemma {:induction false} AbortsOnce(l: Limits, past: seq<Event>, g: Gateway, later: seq<Event>, g': Gateway, s: nat)
    requires Reaches(l, past, g) && Continues(l, g, later, g') && s < |g.tickets|
    ensures Inv(l, g') && AbortedOnce(g, g', s)
    decreases |later|
  {
    if later == [] {
      AlwaysInv(l, past, g);
      AbortedAtMostOnce(l, g, s);
    } else {
      var n := |later| - 1;
      var before :| Continues(l, g, later[..n], before) && StepsTo(l, before, later[n], g');
      AbortsOnce(l, past, g, later[..n], before, s);
      InvStep(l, before, later[n]);
      AbortStep(l, before, later[n], s);
    }
  }
}
