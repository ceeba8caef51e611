/** The request table against a reference that simply remembers which requests are live. */
module AdmissionReference {
  import opened Sequences
  import opened InFlight
  import opened Admission

  /** `live`: the signals of tracked requests not completed, cancelled, replaced, timed out or closed. */
  datatype Reference = Reference(tickets: seq<Ticket>, live: set<nat>)

  function OnConnection(r: Reference, c: nat): set<nat> {
    set s | s in r.live && s < |r.tickets| && r.tickets[s].conn == c
  }

  function OfRequest(r: Reference, c: nat, id: Id): set<nat> {
    set s | s in r.live && s < |r.tickets| && r.tickets[s] == Ticket(c, id)
  }

  function RefNext(l: Limits, r: Reference, e: Event): Reference {
    match e
    case Connect => r
    case Start(c, id, allowed) =>
      if !Admitted(l, |OnConnection(r, c)|, |r.live|, allowed) then r
      else
        Reference(r.tickets + [Ticket(c, id)],
                  if id == Null then r.live else r.live - OfRequest(r, c, id) + {|r.tickets|})
    case Finish(s) => r.(live := r.live - {s})
    case Cancel(c, id) => r.(live := r.live - OfRequest(r, c, id))
    case TimeOut(s) => r.(live := r.live - {s})
    case Close(c) => r.(live := r.live - OnConnection(r, c))
  }

  predicate Tracked(g: Gateway, s: nat)
    requires InRange(g)
  {
    s < |g.tickets| && Holds(g.tables[g.tickets[s].conn], g.tickets[s].id, s)
  }

  predicate Holds(t: Table, id: Id, s: nat) {
    id in t.inFlight && t.inFlight[id] == s
  }

  /** The table holds exactly the live requests. */
  ghost predicate Agree(g: Gateway, r: Reference)
    requires InRange(g)
  {
    r.tickets == g.tickets && forall s: nat {:trigger s in r.live} :: s in r.live <==> Tracked(g, s)
  }

  /** A handler finishes although a later request with the same id is live. */
  ghost predicate LateFinish(r: Reference, e: Event) {
    e.Finish? && e.signal < |r.tickets| &&
    exists t :: t in r.live && t < |r.tickets| && t != e.signal && r.tickets[t] == r.tickets[e.signal]
  }

  // --- counting ---

  lemma {:induction false} ValuesCount(m: map<Id, nat>)
    requires Injective(m)
    ensures |m.Values| == |m|
    decreases |m|
  {
    if m == map[] {
      assert m.Values == {};
    } else {
      var id :| id in m;
      var rest := m - {id};
      Fewer(m, id);
      ValuesCount(rest);
      assert m.Values == rest.Values + {m[id]} by {
        forall v | v in m.Values ensures v in rest.Values + {m[id]} {
          var k :| k in m && m[k] == v;
          if k != id { assert k in rest && rest[k] == v; }
        }
      }
      assert m[id] !in rest.Values;
    }
  }

  /** The table of a connection counts its live requests. */
  lemma CountOn(l: Limits, g: Gateway, r: Reference, c: nat)
    requires Inv(l, g) && Agree(g, r) && c < |g.tables|
    ensures |g.tables[c].inFlight| == |OnConnection(r, c)|
  {
    var t := g.tables[c];
    assert TableOk(g.tickets, g.running, c, t, l.timed);
    ValuesCount(t.inFlight);
    forall s: nat ensures s in t.inFlight.Values <==> s in OnConnection(r, c) {
      if s in t.inFlight.Values {
        var id :| id in t.inFlight && t.inFlight[id] == s;
        assert Tracked(g, s);
      }
    }
    assert t.inFlight.Values == OnConnection(r, c);
  }

  function OnAny(r: Reference, open: seq<nat>): set<nat> {
    set s | s in r.live && s < |r.tickets| && r.tickets[s].conn in open
  }

  ghost predicate CountsMatch(tables: seq<Table>, r: Reference) {
    forall c: nat :: c < |tables| ==> |tables[c].inFlight| == |OnConnection(r, c)|
  }

  lemma {:induction false} CountOpen(tables: seq<Table>, r: Reference, open: seq<nat>)
    requires CountsMatch(tables, r) && Indices(tables, open) && Distinct(open)
    ensures Total(tables, open) == |OnAny(r, open)|
  {
    if open != [] {
      var front, last := open[..|open| - 1], open[|open| - 1];
      CountOpen(tables, r, front);
      assert open == front + [last];
      OneMoreOpen(r, front, last);
    } else {
      assert OnAny(r, open) == {};
    }
  }

  lemma OneMoreOpen(r: Reference, front: seq<nat>, last: nat)
    requires last !in front
    ensures |OnAny(r, front + [last])| == |OnAny(r, front)| + |OnConnection(r, last)|
  {
    assert OnAny(r, front + [last]) == OnAny(r, front) + OnConnection(r, last);
    assert OnAny(r, front) !! OnConnection(r, last);
  }

  /** The summing loop counts all live requests. */
  lemma CountAll(l: Limits, g: Gateway, r: Reference)
    requires Inv(l, g) && Agree(g, r)
    ensures Total(g.tables, g.open) == |r.live|
  {
    assert CountsMatch(g.tables, r) by {
      forall c: nat | c < |g.tables| ensures |g.tables[c].inFlight| == |OnConnection(r, c)| {
        CountOn(l, g, r, c);
      }
    }
    CountOpen(g.tables, r, g.open);
    assert OnAny(r, g.open) == r.live by {
      forall s | s in r.live ensures s in OnAny(r, g.open) {
        LiveIsOpen(l, g, r, s);
      }
    }
  }

  lemma LiveIsOpen(l: Limits, g: Gateway, r: Reference, s: nat)
    requires Inv(l, g) && Agree(g, r) && s in r.live
    ensures s < |g.tickets| && g.tickets[s].conn in g.open
  {
    assert Tracked(g, s);
    var c := g.tickets[s].conn;
    assert TableOk(g.tickets, g.running, c, g.tables[c], l.timed);
    assert c in g.open <==> !g.tables[c].closed;
  }

  /** A request is admitted exactly when fewer live requests than the caps allow, and the rate limiter agrees. */
  lemma SameVerdict(l: Limits, g: Gateway, r: Reference, c: nat, allowed: bool)
    requires Inv(l, g) && Agree(g, r) && c < |g.tables|
    ensures Admitted(l, |g.tables[c].inFlight|, Total(g.tables, g.open), allowed) <==>
            |OnConnection(r, c)| < l.perConnection && |r.live| < l.total && allowed
  {
    CountOn(l, g, r, c);
    CountAll(l, g, r);
  }

  // --- one step ---

  lemma TrackedLive(l: Limits, g: Gateway, s: nat)
    requires Inv(l, g) && s < |g.tickets| && g.tickets[s].id in g.tables[g.tickets[s].conn].inFlight
    ensures g.tickets[s].id != Null
  {
    assert TableOk(g.tickets, g.running, g.tickets[s].conn, g.tables[g.tickets[s].conn], l.timed);
  }

  /** The reference after a step that changes the table of connection c to t. */
  lemma AgreeUpdate(g: Gateway, g': Gateway, c: nat, t: Table, r: Reference)
    requires InRange(g) && InRange(g') && c < |g.tables| && g'.tables == g.tables[c := t]
    requires r.tickets == g.tickets == g'.tickets
    requires forall s: nat {:trigger s in r.live} :: s in r.live <==>
               s < |g.tickets| && (if g.tickets[s].conn == c then Holds(t, g.tickets[s].id, s) else Tracked(g, s))
    ensures Agree(g', r)
  {
  }

  lemma AgreeTicket(l: Limits, g: Gateway, r: Reference, s: nat)
    requires Inv(l, g) && Agree(g, r) && s in r.live
    ensures Tracked(g, s) && g.tickets[s].id != Null
  {
    assert s in r.live <==> Tracked(g, s);
    TrackedLive(l, g, s);
  }

  /** What a table holds once a request is registered in it. */
  lemma HoldsRegistered(t: Table, id: Id, signal: nat, timed: bool, id': Id, s: nat)
    ensures Holds(Registered(t, id, signal, timed), id', s) <==>
            if id != Null && id' == id then s == signal else Holds(t, id', s)
  {
  }

  lemma AgreeStart(l: Limits, g: Gateway, r: Reference, c: nat, id: Id, allowed: bool)
    requires Inv(l, g) && Agree(g, r) && c in g.open
    ensures InRange(Next(l, g, Start(c, id, allowed)))
    ensures Agree(Next(l, g, Start(c, id, allowed)), RefNext(l, r, Start(c, id, allowed)))
  {
    var e := Start(c, id, allowed);
    assert InRange(Next(l, g, e)) by { InvStep(l, g, e); }
    SameVerdict(l, g, r, c, allowed);
    if RefNext(l, r, e) != r {
      forall s: nat ensures s in RefNext(l, r, e).live <==> Tracked(Next(l, g, e), s) {
        StartOne(l, g, r, c, id, s);
      }
    }
  }

  lemma StartOne(l: Limits, g: Gateway, r: Reference, c: nat, id: Id, s: nat)
    requires Inv(l, g) && Agree(g, r) && c in g.open
    ensures var n := |g.tickets|;
            var tickets := g.tickets + [Ticket(c, id)];
            var t := Registered(g.tables[c], id, n, l.timed);
            (s in (if id == Null then r.live else r.live - OfRequest(r, c, id) + {n})) <==>
            (s < n + 1 && Holds(g.tables[c := t][tickets[s].conn], tickets[s].id, s))
  {
    var n := |g.tickets|;
    HoldsRegistered(g.tables[c], id, n, l.timed, if s < n then g.tickets[s].id else id, s);
    assert s in r.live <==> Tracked(g, s);
    if s == n {
      NotYetHeld(l, g, c, id);
    } else if s < n {
      StartOther(l, g, r, c, id, s);
    }
  }

  /** A request that was there before stays held unless the new one takes its place. */
  lemma StartOther(l: Limits, g: Gateway, r: Reference, c: nat, id: Id, s: nat)
    requires Inv(l, g) && Agree(g, r) && c in g.open && s < |g.tickets|
    ensures var t := Registered(g.tables[c], id, |g.tickets|, l.timed);
            (s in (if id == Null then r.live else r.live - OfRequest(r, c, id))) <==>
            Holds(g.tables[c := t][g.tickets[s].conn], g.tickets[s].id, s)
  {
    var ticket := g.tickets[s];
    HoldsRegistered(g.tables[c], id, |g.tickets|, l.timed, ticket.id, s);
    assert s in r.live <==> Holds(g.tables[ticket.conn], ticket.id, s) by {
      assert s in r.live <==> Tracked(g, s);
    }
    assert s in r.live ==> ticket.id != Null by {
      if s in r.live { AgreeTicket(l, g, r, s); }
    }
    assert s in OfRequest(r, c, id) <==> s in r.live && ticket == Ticket(c, id);
  }

  lemma NotYetHeld(l: Limits, g: Gateway, c: nat, id: Id)
    requires Inv(l, g) && c < |g.tables|
    ensures !Holds(g.tables[c], id, |g.tickets|)
  {
    assert TableOk(g.tickets, g.running, c, g.tables[c], l.timed);
  }

  lemma AgreeFinish(l: Limits, g: Gateway, r: Reference, f: nat)
    requires Inv(l, g) && Agree(g, r) && f in g.running
    ensures InRange(Next(l, g, Finish(f)))
    ensures Agree(Next(l, g, Finish(f)), RefNext(l, r, Finish(f))) <==> !LateFinish(r, Finish(f))
  {
    var e := Finish(f);
    assert InRange(Next(l, g, e)) by { InvStep(l, g, e); }
    forall s: nat ensures (s in RefNext(l, r, e).live <==> Tracked(Next(l, g, e), s)) <==>
                          !(s in r.live && s != f && r.tickets[s] == r.tickets[f]) {
      FinishOne(l, g, r, f, s);
    }
  }

  lemma FinishOne(l: Limits, g: Gateway, r: Reference, f: nat, s: nat)
    requires Inv(l, g) && Agree(g, r) && f in g.running
    ensures var Ticket(c, id) := g.tickets[f];
            ((s in r.live - {f}) <==>
             (s < |g.tickets| && Holds(g.tables[c := Completed(g.tables[c], id)][g.tickets[s].conn], g.tickets[s].id, s)))
            <==> !(s in r.live && s != f && r.tickets[s] == r.tickets[f])
  {
    assert s in r.live <==> Tracked(g, s);
    if s in r.live {
      AgreeTicket(l, g, r, s);
    }
  }

  lemma HoldsCancelled(t: Table, id: Id, id': Id, s: nat)
    requires Null !in t.inFlight
    ensures Holds(Cancelled(t, id), id', s) <==> id' != id && Holds(t, id', s)
  {
  }

  lemma NullUntracked(l: Limits, g: Gateway, c: nat)
    requires Inv(l, g) && c < |g.tables|
    ensures Null !in g.tables[c].inFlight
  {
    assert TableOk(g.tickets, g.running, c, g.tables[c], l.timed);
  }

  lemma AgreeCancel(l: Limits, g: Gateway, r: Reference, c: nat, id: Id)
    requires Inv(l, g) && Agree(g, r) && c in g.open
    ensures InRange(Next(l, g, Cancel(c, id)))
    ensures Agree(Next(l, g, Cancel(c, id)), RefNext(l, r, Cancel(c, id)))
  {
    var e := Cancel(c, id);
    assert InRange(Next(l, g, e)) by { InvStep(l, g, e); }
    NullUntracked(l, g, c);
    forall s: nat ensures s in RefNext(l, r, e).live <==>
                          s < |g.tickets| && (if g.tickets[s].conn == c then Holds(Cancelled(g.tables[c], id), g.tickets[s].id, s) else Tracked(g, s)) {
      assert s in r.live <==> Tracked(g, s);
      if s < |g.tickets| {
        HoldsCancelled(g.tables[c], id, g.tickets[s].id, s);
      }
    }
    AgreeUpdate(g, Next(l, g, e), c, Cancelled(g.tables[c], id), RefNext(l, r, e));
  }

  lemma AgreeTimeOut(l: Limits, g: Gateway, r: Reference, f: nat)
    requires Inv(l, g) && Agree(g, r) && Enabled(g, TimeOut(f))
    ensures InRange(Next(l, g, TimeOut(f)))
    ensures Agree(Next(l, g, TimeOut(f)), RefNext(l, r, TimeOut(f)))
  {
    var e := TimeOut(f);
    assert InRange(Next(l, g, e)) by { InvStep(l, g, e); }
    var Ticket(c, id) := g.tickets[f];
    var t := TimedOut(g.tables[c], id, f);
    ArmedHeld(l, g, f);
    forall s: nat ensures s in RefNext(l, r, e).live <==>
                          s < |g.tickets| && (if g.tickets[s].conn == c then Holds(t, g.tickets[s].id, s) else Tracked(g, s)) {
      assert s in r.live <==> Tracked(g, s);
    }
    AgreeUpdate(g, Next(l, g, e), c, t, RefNext(l, r, e));
  }

  lemma ArmedHeld(l: Limits, g: Gateway, f: nat)
    requires Inv(l, g) && Enabled(g, TimeOut(f))
    ensures Holds(g.tables[g.tickets[f].conn], g.tickets[f].id, f)
  {
    var c := g.tickets[f].conn;
    assert TableOk(g.tickets, g.running, c, g.tables[c], l.timed);
  }

  lemma AgreeClose(l: Limits, g: Gateway, r: Reference, c: nat)
    requires Inv(l, g) && Agree(g, r) && c < |g.tables|
    ensures InRange(Next(l, g, Close(c)))
    ensures Agree(Next(l, g, Close(c)), RefNext(l, r, Close(c)))
  {
    var e := Close(c);
    assert InRange(Next(l, g, e)) by { InvStep(l, g, e); }
    ClosedHolds(l, g, c);
    forall s: nat ensures s in RefNext(l, r, e).live <==>
                          s < |g.tickets| && (if g.tickets[s].conn == c then Holds(Closed(g.tables[c]), g.tickets[s].id, s) else Tracked(g, s)) {
      assert s in r.live <==> Tracked(g, s);
    }
    AgreeUpdate(g, Next(l, g, e), c, Closed(g.tables[c]), RefNext(l, r, e));
  }

  lemma ClosedHolds(l: Limits, g: Gateway, c: nat)
    requires Inv(l, g) && c < |g.tables|
    ensures Closed(g.tables[c]).inFlight == map[]
    ensures g.tables[c].closed ==> g.tables[c := Closed(g.tables[c])] == g.tables
  {
    assert TableOk(g.tickets, g.running, c, g.tables[c], l.timed);
  }

  lemma AgreeConnect(l: Limits, g: Gateway, r: Reference)
    requires Inv(l, g) && Agree(g, r)
    ensures InRange(Next(l, g, Connect)) && Agree(Next(l, g, Connect), RefNext(l, r, Connect))
  {
    assert InRange(Next(l, g, Connect)) by { InvStep(l, g, Connect); }
    forall s: nat ensures s in r.live <==> Tracked(Next(l, g, Connect), s) {
      assert s in r.live <==> Tracked(g, s);
    }
  }

  lemma AgreeStep(l: Limits, g: Gateway, r: Reference, e: Event)
    requires Inv(l, g) && Agree(g, r) && Enabled(g, e)
    ensures InRange(Next(l, g, e))
    ensures Agree(Next(l, g, e), RefNext(l, r, e)) <==> !LateFinish(r, e)
  {
    match e
    case Connect => AgreeConnect(l, g, r);
    case Start(c, id, allowed) => AgreeStart(l, g, r, c, id, allowed);
    case Finish(f) => AgreeFinish(l, g, r, f);
    case Cancel(c, id) => AgreeCancel(l, g, r, c, id);
    case TimeOut(f) => AgreeTimeOut(l, g, r, f);
    case Close(c) => AgreeClose(l, g, r, c);
  }

  // --- runs ---

  ghost predicate Runs(l: Limits, g: Gateway, events: seq<Event>)
    decreases |events|
  {
    events == [] || (InRange(g) && Enabled(g, events[0]) && Runs(l, Next(l, g, events[0]), events[1..]))
  }

  /** The table holds exactly the live requests in every state of the run. */
  ghost predicate AlwaysAgree(l: Limits, g: Gateway, r: Reference, events: seq<Event>)
    requires Runs(l, g, events)
    decreases |events|
  {
    && InRange(g) && Agree(g, r)
    && (events == [] || AlwaysAgree(l, Next(l, g, events[0]), RefNext(l, r, events[0]), events[1..]))
  }

  ghost predicate NeverLate(l: Limits, r: Reference, events: seq<Event>)
    decreases |events|
  {
    events == [] || (!LateFinish(r, events[0]) && NeverLate(l, RefNext(l, r, events[0]), events[1..]))
  }

  const NOTHING := Reference([], {})

  /**
   * The table is the started requests not yet completed, cancelled, timed out or closed, in
   * every state of a run, if and only if no handler finishes under an id already given to a later live request.
   */
  lemma TableIff(l: Limits, events: seq<Event>)
    requires Runs(l, INITIAL, events)
    ensures AlwaysAgree(l, INITIAL, NOTHING, events) <==> NeverLate(l, NOTHING, events)
  {
    TableFrom(l, INITIAL, NOTHING, events);
  }

  lemma {:induction false} TableFrom(l: Limits, g: Gateway, r: Reference, events: seq<Event>)
    requires Inv(l, g) && Agree(g, r) && Runs(l, g, events)
    ensures AlwaysAgree(l, g, r, events) <==> NeverLate(l, r, events)
    decreases |events|
  {
    if events != [] {
      AgreeStep(l, g, r, events[0]);
      InvStep(l, g, events[0]);
      if !LateFinish(r, events[0]) {
        TableFrom(l, Next(l, g, events[0]), RefNext(l, r, events[0]), events[1..]);
      }
    }
  }

  /** No two requests of a connection had the same id, null aside. */
  ghost predicate NeverReused(tickets: seq<Ticket>) {
    forall s, t :: 0 <= s < t < |tickets| && tickets[t].id != Null ==> tickets[s] != tickets[t]
  }

  ghost predicate FreshIds(l: Limits, g: Gateway, events: seq<Event>)
    requires Runs(l, g, events)
    decreases |events|
  {
    events == [] || (NeverReused(Next(l, g, events[0]).tickets) && FreshIds(l, Next(l, g, events[0]), events[1..]))
  }

  /** Clients that never reuse an id always find the table exact. */
  lemma FreshIdsAgree(l: Limits, events: seq<Event>)
    requires Runs(l, INITIAL, events) && FreshIds(l, INITIAL, events)
    ensures AlwaysAgree(l, INITIAL, NOTHING, events)
  {
    FreshFrom(l, INITIAL, NOTHING, events);
  }

  lemma {:induction false} FreshFrom(l: Limits, g: Gateway, r: Reference, events: seq<Event>)
    requires Inv(l, g) && Agree(g, r) && NeverReused(g.tickets) && Runs(l, g, events) && FreshIds(l, g, events)
    ensures AlwaysAgree(l, g, r, events)
    decreases |events|
  {
    if events != [] {
      NotLate(l, g, r, events[0]);
      AgreeStep(l, g, r, events[0]);
      InvStep(l, g, events[0]);
      FreshFrom(l, Next(l, g, events[0]), RefNext(l, r, events[0]), events[1..]);
    }
  }

  lemma NotLate(l: Limits, g: Gateway, r: Reference, e: Event)
    requires Inv(l, g) && Agree(g, r) && NeverReused(g.tickets) && Enabled(g, e)
    ensures !LateFinish(r, e)
  {
    if e.Finish? {
      forall t | t in r.live && t < |r.tickets| && t != e.signal ensures r.tickets[t] != r.tickets[e.signal] {
        assert Tracked(g, t);
        TrackedLive(l, g, t);
      }
    }
  }
}
