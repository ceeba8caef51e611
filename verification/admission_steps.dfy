/** What each event does to each request, told without the tables: what ends it, and what aborts its signal. */
module AdmissionSteps {
  import opened Sequences
  import opened InFlight
  import opened Admission
  import opened AdmissionReference

  /** A request goes through: neither count has reached its cap, and the rate limiter agrees. */
  predicate GoesThrough(l: Limits, g: Gateway, e: Event)
    requires InRange(g)
  {
    e.Start? && e.conn < |g.tables| && |g.tables[e.conn].inFlight| < l.perConnection && Total(g.tables, g.open) < l.total && e.allowed
  }

  /** The event takes the request's place, cancels it, times it out or closes its connection. */
  predicate CutsOff(l: Limits, g: Gateway, e: Event, s: nat)
    requires InRange(g) && s < |g.tickets|
  {
    match e
    case Connect => false
    case Start(c, id, _) => GoesThrough(l, g, e) && g.tickets[s] == Ticket(c, id)
    case Finish(_) => false
    case Cancel(c, id) => g.tickets[s] == Ticket(c, id)
    case TimeOut(x) => x == s
    case Close(c) => g.tickets[s].conn == c
  }

  /** Or its handler, or another one under the same id, finishes. */
  predicate Ends(l: Limits, g: Gateway, e: Event, s: nat)
    requires InRange(g) && s < |g.tickets|
  {
    CutsOff(l, g, e, s) || (e.Finish? && e.signal < |g.tickets| && g.tickets[e.signal] == g.tickets[s])
  }

  /** The timer of a tracked request runs, if there are timers. */
  predicate Armed(g: Gateway, s: nat)
    requires InRange(g) && s < |g.tickets|
  {
    s in g.tables[g.tickets[s].conn].armed
  }

  lemma TicketsAfter(l: Limits, g: Gateway, e: Event)
    requires InRange(g) && Enabled(g, e)
    ensures Next(l, g, e).tickets == g.tickets + if GoesThrough(l, g, e) then [Ticket(e.conn, e.id)] else []
  {
    if !GoesThrough(l, g, e) { assert g.tickets + [] == g.tickets; }
  }

  // --- one table ---

  lemma CancelledExact(t: Table, id: Id, own: Id, s: nat)
    ensures Holds(Cancelled(t, id), own, s) <==> Holds(t, own, s) && !(id != Null && own == id)
    ensures Cancelled(t, id).aborts[s] == t.aborts[s] + if id != Null && Holds(t, id, s) then 1 else 0
    ensures s in Cancelled(t, id).armed <==> s in t.armed && !(id != Null && Holds(t, id, s))
  {
  }

  lemma RegisteredExact(t: Table, id: Id, signal: nat, timed: bool, own: Id, s: nat)
    ensures var u := Registered(t, id, signal, timed);
            && (s != signal ==>
                  && (Holds(u, own, s) <==> Holds(t, own, s) && !(id != Null && own == id))
                  && u.aborts[s] == t.aborts[s] + (if id != Null && Holds(t, id, s) then 1 else 0)
                  && (s in u.armed <==> s in t.armed && !(id != Null && Holds(t, id, s))))
            && (id != Null ==> Holds(u, id, signal) && (timed ==> signal in u.armed))
            && (id == Null ==> u == t)
  {
    CancelledExact(t, id, own, s);
  }

  lemma CompletedExact(t: Table, id: Id, own: Id, s: nat)
    ensures Holds(Completed(t, id), own, s) <==> Holds(t, own, s) && !(id != Null && own == id)
    ensures Completed(t, id).aborts[s] == t.aborts[s]
    ensures s in Completed(t, id).armed <==> s in t.armed && !(id != Null && Holds(t, id, s))
  {
  }

  lemma TimedOutExact(t: Table, id: Id, x: nat, own: Id, s: nat)
    ensures Holds(TimedOut(t, id, x), own, s) <==> Holds(t, own, s) && own != id
    ensures TimedOut(t, id, x).aborts[s] == t.aborts[s] + if s == x then 1 else 0
    ensures s in TimedOut(t, id, x).armed <==> s in t.armed && s != x
  {
  }

  lemma ClosedExact(t: Table, own: Id, s: nat)
    requires t.closed ==> t.inFlight == map[]
    ensures Closed(t).closed && !Holds(Closed(t), own, s)
    ensures Closed(t).aborts[s] == t.aborts[s] + if s in t.inFlight.Values then 1 else 0
    ensures s in Closed(t).armed <==> s in t.armed && s !in t.inFlight.Values
  {
  }

  // --- one event ---

  /** What an event makes of the request's entry, its aborts and its timer. */
  ghost predicate Becomes(t: Table, u: Table, own: Id, s: nat, ends: bool, cutsOff: bool) {
    && (Holds(u, own, s) <==> Holds(t, own, s) && !ends)
    && u.aborts[s] == t.aborts[s] + (if Holds(t, own, s) && cutsOff then 1 else 0)
    && (s in u.armed <==> s in t.armed && !(Holds(t, own, s) && ends))
  }

  /** Facts about the table of a request's connection. */
  lemma OwnTable(l: Limits, g: Gateway, s: nat)
    requires Inv(l, g) && s < |g.tickets|
    ensures var Ticket(c, own) := g.tickets[s];
            var t := g.tables[c];
            && (forall id :: Holds(t, id, s) ==> id == own && own != Null)
            && (s in t.armed ==> Holds(t, own, s)) && (l.timed && Holds(t, own, s) ==> s in t.armed)
            && (s in t.inFlight.Values <==> Holds(t, own, s))
            && (t.closed ==> t.inFlight == map[])
            && (forall x :: x in t.armed ==> x < |g.tickets| && g.tickets[x].conn == c && Holds(t, g.tickets[x].id, x))
  {
    var Ticket(c, own) := g.tickets[s];
    assert TableOk(g.tickets, g.running, c, g.tables[c], l.timed);
    if Holds(g.tables[c], own, s) { assert g.tables[c].inFlight[own] == s; }
  }

  lemma ByCancel(l: Limits, g: Gateway, e: Event, s: nat)
    requires Inv(l, g) && Enabled(g, e) && e.Cancel? && s < |g.tickets|
    ensures var c := g.tickets[s].conn;
            Becomes(g.tables[c], Next(l, g, e).tables[c], g.tickets[s].id, s, Ends(l, g, e, s), CutsOff(l, g, e, s))
  {
    OwnTable(l, g, s);
    CancelledExact(g.tables[g.tickets[s].conn], e.id, g.tickets[s].id, s);
  }

  lemma ByStart(l: Limits, g: Gateway, e: Event, s: nat)
    requires Inv(l, g) && Enabled(g, e) && e.Start? && s < |g.tickets|
    ensures var c := g.tickets[s].conn;
            Becomes(g.tables[c], Next(l, g, e).tables[c], g.tickets[s].id, s, Ends(l, g, e, s), CutsOff(l, g, e, s))
  {
    OwnTable(l, g, s);
    RegisteredExact(g.tables[g.tickets[s].conn], e.id, |g.tickets|, l.timed, g.tickets[s].id, s);
  }

  lemma ByFinish(l: Limits, g: Gateway, e: Event, s: nat)
    requires Inv(l, g) && Enabled(g, e) && e.Finish? && s < |g.tickets|
    ensures var c := g.tickets[s].conn;
            Becomes(g.tables[c], Next(l, g, e).tables[c], g.tickets[s].id, s, Ends(l, g, e, s), CutsOff(l, g, e, s))
  {
    OwnTable(l, g, s);
    CompletedExact(g.tables[g.tickets[s].conn], g.tickets[e.signal].id, g.tickets[s].id, s);
  }

  lemma ByTimeOut(l: Limits, g: Gateway, e: Event, s: nat)
    requires Inv(l, g) && Enabled(g, e) && e.TimeOut? && s < |g.tickets|
    ensures var c := g.tickets[s].conn;
            Becomes(g.tables[c], Next(l, g, e).tables[c], g.tickets[s].id, s, Ends(l, g, e, s), CutsOff(l, g, e, s))
  {
    OwnTable(l, g, s);
    OwnTable(l, g, e.signal);
    TimedOutExact(g.tables[g.tickets[s].conn], g.tickets[e.signal].id, e.signal, g.tickets[s].id, s);
  }

  lemma ByClose(l: Limits, g: Gateway, e: Event, s: nat)
    requires Inv(l, g) && Enabled(g, e) && e.Close? && s < |g.tickets|
    ensures var c := g.tickets[s].conn;
            Becomes(g.tables[c], Next(l, g, e).tables[c], g.tickets[s].id, s, Ends(l, g, e, s), CutsOff(l, g, e, s))
  {
    OwnTable(l, g, s);
    ClosedExact(g.tables[g.tickets[s].conn], g.tickets[s].id, s);
  }

  /**
   * Each request, at each event: it stays tracked unless something ends it, its signal is
   * aborted exactly when something cuts it off while it is tracked, and its timer stops with it.
   */
  lemma EventExact(l: Limits, g: Gateway, e: Event, s: nat)
    requires Inv(l, g) && Enabled(g, e) && s < |g.tickets|
    ensures InRange(Next(l, g, e)) && s < |Next(l, g, e).tickets|
    ensures Tracked(Next(l, g, e), s) <==> Tracked(g, s) && !Ends(l, g, e, s)
    ensures Aborts(Next(l, g, e), s) == Aborts(g, s) + if Tracked(g, s) && CutsOff(l, g, e, s) then 1 else 0
    ensures Armed(Next(l, g, e), s) <==> Armed(g, s) && Tracked(Next(l, g, e), s)
  {
    assert InRange(Next(l, g, e)) by { InvStep(l, g, e); }
    TicketsAfter(l, g, e);
    OwnTable(l, g, s);
    match e
    case Connect =>
    case Start(_, _, _) => ByStart(l, g, e, s);
    case Finish(_) => ByFinish(l, g, e, s);
    case Cancel(_, _) => ByCancel(l, g, e, s);
    case TimeOut(_) => ByTimeOut(l, g, e, s);
    case Close(_) => ByClose(l, g, e, s);
  }

  /** A request that goes through is tracked, unless its id is null, its signal not aborted and its timer running. */
  lemma NewRequest(l: Limits, g: Gateway, e: Event)
    requires Inv(l, g) && Enabled(g, e) && GoesThrough(l, g, e)
    ensures var g', s := Next(l, g, e), |g.tickets|;
            && InRange(g') && g'.tickets == g.tickets + [Ticket(e.conn, e.id)] && s in g'.running
            && (Tracked(g', s) <==> e.id != Null) && Aborts(g', s) == 0
            && (Armed(g', s) <==> l.timed && e.id != Null)
  {
    assert Inv(l, Next(l, g, e)) by { InvStep(l, g, e); }
    TicketsAfter(l, g, e);
    RegisteredExact(g.tables[e.conn], e.id, |g.tickets|, l.timed, e.id, |g.tickets|);
    FreshSignal(l, g, e);
  }

  lemma FreshSignal(l: Limits, g: Gateway, e: Event)
    requires Inv(l, g) && Enabled(g, e) && GoesThrough(l, g, e)
    ensures var t, u := g.tables[e.conn], Next(l, g, e).tables[e.conn];
            && u.aborts[|g.tickets|] == 0 && !Holds(t, e.id, |g.tickets|)
            && (|g.tickets| in u.armed <==> l.timed && e.id != Null)
  {
    assert TableOk(g.tickets, g.running, e.conn, g.tables[e.conn], l.timed);
    CancelledExact(g.tables[e.conn], e.id, e.id, |g.tickets|);
  }
}
