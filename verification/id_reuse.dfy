/** What goes wrong when a request id is used again before its first handler has finished. */
module IdReuse {
  import opened InFlight
  import opened Admission
  import opened AdmissionReference

  const FIRST := Start(0, Num(1), true)
  const CANCEL := Cancel(0, Num(1))

  /** A request is cancelled, its id used again at once, and then the cancelled handler finishes. */
  const REUSE: seq<Event> := [Connect] + ([FIRST] + ([CANCEL] + ([FIRST] + [Finish(0)])))

  lemma RunsCons(l: Limits, g: Gateway, e: Event, rest: seq<Event>)
    requires InRange(g) && Enabled(g, e) && Runs(l, Next(l, g, e), rest)
    ensures Runs(l, g, [e] + rest)
  {
    assert ([e] + rest)[1..] == rest;
  }

  lemma LateCons(l: Limits, r: Reference, e: Event, rest: seq<Event>)
    requires LateFinish(r, e) || !NeverLate(l, RefNext(l, r, e), rest)
    ensures !NeverLate(l, r, [e] + rest)
  {
    assert ([e] + rest)[1..] == rest;
  }

  /** One open connection. */
  predicate Alone(g: Gateway, inFlight: map<Id, nat>) {
    InRange(g) && g.open == [0] && |g.tables| == 1 && g.tables[0].inFlight == inFlight
  }

  lemma StartsAlone(l: Limits, g: Gateway, id: Id) returns (g': Gateway)
    requires l.perConnection >= 1 && l.total >= 1 && Alone(g, map[]) && id != Null
    ensures Enabled(g, Start(0, id, true)) && g' == Next(l, g, Start(0, id, true))
    ensures Alone(g', map[id := |g.tickets|]) && g'.running == g.running + {|g.tickets|}
  {
    assert g.open[..0] == [];
    assert Total(g.tables, g.open) == Total(g.tables, []) + 0;
    g' := Next(l, g, Start(0, id, true));
    assert g'.tables[0] == Registered(g.tables[0], id, |g.tickets|, l.timed);
  }

  lemma CancelsAlone(l: Limits, g: Gateway, id: Id, s: nat) returns (g': Gateway)
    requires Alone(g, map[id := s]) && id != Null
    ensures Enabled(g, Cancel(0, id)) && g' == Next(l, g, Cancel(0, id))
    ensures Alone(g', map[]) && g'.running == g.running
  {
    g' := Next(l, g, Cancel(0, id));
  }

  lemma ReuseRuns(l: Limits)
    requires l.perConnection >= 1 && l.total >= 1
    ensures Runs(l, INITIAL, REUSE)
  {
    var g1 := Next(l, INITIAL, Connect);
    assert g1.open == [0] && g1.tables == [EMPTY];
    var g2 := StartsAlone(l, g1, Num(1));
    var g3 := CancelsAlone(l, g2, Num(1), |g1.tickets|);
    var g4 := StartsAlone(l, g3, Num(1));
    assert 0 in g4.running;
    FinishRuns(l, g4);
    RunsCons(l, g3, FIRST, [Finish(0)]);
    RunsCons(l, g2, CANCEL, [FIRST] + [Finish(0)]);
    RunsCons(l, g1, FIRST, [CANCEL] + ([FIRST] + [Finish(0)]));
    RunsCons(l, INITIAL, Connect, [FIRST] + ([CANCEL] + ([FIRST] + [Finish(0)])));
  }

  lemma FinishRuns(l: Limits, g: Gateway)
    requires InRange(g) && 0 in g.running
    ensures Runs(l, g, [Finish(0)])
  {
    RunsCons(l, g, Finish(0), []);
    assert [Finish(0)] + [] == [Finish(0)];
  }

  lemma ReuseLate(l: Limits)
    requires l.perConnection >= 1 && l.total >= 1
    ensures !NeverLate(l, NOTHING, REUSE)
  {
    var ticket := Ticket(0, Num(1));
    assert OnConnection(NOTHING, 0) == {} && OfRequest(NOTHING, 0, Num(1)) == {};
    var r2 := Reference([ticket], {0});
    assert RefNext(l, NOTHING, FIRST) == r2;
    var r3 := Reference([ticket], {});
    assert OfRequest(r2, 0, Num(1)) == {0};
    assert RefNext(l, r2, CANCEL) == r3;
    var r4 := Reference([ticket, ticket], {1});
    assert OnConnection(r3, 0) == {} && OfRequest(r3, 0, Num(1)) == {};
    assert RefNext(l, r3, FIRST) == r4;
    assert 1 in r4.live && r4.tickets[1] == r4.tickets[0];
    LateCons(l, r4, Finish(0), []);
    assert [Finish(0)] + [] == [Finish(0)];
    LateCons(l, r3, FIRST, [Finish(0)]);
    LateCons(l, r2, CANCEL, [FIRST] + [Finish(0)]);
    LateCons(l, NOTHING, FIRST, [CANCEL] + ([FIRST] + [Finish(0)]));
    LateCons(l, NOTHING, Connect, [FIRST] + ([CANCEL] + ([FIRST] + [Finish(0)])));
  }

  /** The table then no longer holds the live request. */
  lemma ReuseLosesRequest(l: Limits)
    requires l.perConnection >= 1 && l.total >= 1
    ensures Runs(l, INITIAL, REUSE) && !AlwaysAgree(l, INITIAL, NOTHING, REUSE)
  {
    ReuseRuns(l);
    ReuseLate(l);
    TableIff(l, REUSE);
  }
}
