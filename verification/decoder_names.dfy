/** The tool names of results: which earlier call gives a result its name. */
module DecoderNames {
  import opened Wrappers
  import opened Sequences
  import opened Decoder
  import opened DecoderChain

  // --- the call table follows the emitted calls ---

  /** The name in the latest emitted call with this id. */
  function LatestCall(events: seq<Event>, callId: string): Option<string> {
    if events == [] then None
    else
      var last := events[|events| - 1];
      if last.body.ToolCall? && last.body.callId == callId then Some(last.body.toolName)
      else LatestCall(events[..|events| - 1], callId)
  }

  function Lookup(s: State, callId: string): Option<string> {
    if callId in s.callMap then Some(s.callMap[callId]) else None
  }

  function OrElse(name: Option<string>, other: Option<string>): Option<string> {
    if name.Some? then name else other
  }

  /** From s to s' the call table took up exactly the calls among these events. */
  ghost predicate Remembers(s: State, events: seq<Event>, s': State) {
    forall id {:trigger Lookup(s', id)} :: Lookup(s', id) == OrElse(LatestCall(events, id), Lookup(s, id))
  }

  lemma {:induction false} LatestConcat(a: seq<Event>, b: seq<Event>, id: string)
    ensures LatestCall(a + b, id) == OrElse(LatestCall(b, id), LatestCall(a, id))
    decreases |b|
  {
    if b == [] {
      assert a + b == a;
    } else {
      assert (a + b)[..|a + b| - 1] == a + b[..|b| - 1];
      LatestConcat(a, b[..|b| - 1], id);
    }
  }

  lemma RemembersConcat(s: State, a: seq<Event>, t: State, b: seq<Event>, u: State)
    requires Remembers(s, a, t) && Remembers(t, b, u)
    ensures Remembers(s, a + b, u)
  {
    forall id ensures Lookup(u, id) == OrElse(LatestCall(a + b, id), Lookup(s, id)) {
      LatestConcat(a, b, id);
      assert Lookup(t, id) == OrElse(LatestCall(a, id), Lookup(s, id));
    }
  }

  lemma RemembersCall(r: Randoms, s: State, own: Option<string>, ids: seq<string>, names: seq<string>)
    ensures var (s', event) := EmitCall(r, s, own, ids, names); Remembers(s, [event], s')
  {
    var (s', event) := EmitCall(r, s, own, ids, names);
    forall id ensures Lookup(s', id) == OrElse(LatestCall([event], id), Lookup(s, id)) {
      assert [event][..0] == [];
    }
  }

  /** An event that is no call leaves the table alone. */
  lemma RemembersOther(s: State, events: seq<Event>, s': State)
    requires s'.callMap == s.callMap && (events == [] || (|events| == 1 && !events[0].body.ToolCall?))
    ensures Remembers(s, events, s')
  {
    forall id ensures Lookup(s', id) == OrElse(LatestCall(events, id), Lookup(s, id)) {
      if events != [] { assert events[..0] == []; }
    }
  }

  lemma {:induction false} CallsRemember(r: Randoms, s: State, calls: seq<ToolEntry>)
    requires EmitCalls(r, s, calls).1.Returned?
    ensures Remembers(s, EmitCalls(r, s, calls).1.events, EmitCalls(r, s, calls).0)
    decreases |calls|
  {
    if calls == [] {
      RemembersOther(s, [], s);
    } else {
      var front, last := EmitCalls(r, s, calls[..|calls| - 1]), calls[|calls| - 1];
      var (s', event) := EmitCall(r, front.0, None, last.ids, last.names);
      CallsRemember(r, s, calls[..|calls| - 1]);
      RemembersCall(r, front.0, None, last.ids, last.names);
      RemembersConcat(s, front.1.events, front.0, [event], s');
    }
  }

  lemma AssistantRemembers(r: Randoms, s: State, record: Record)
    requires record.AssistantMessage? && DecodeAssistant(r, s, record).1.Returned?
    ensures Remembers(s, DecodeAssistant(r, s, record).1.events, DecodeAssistant(r, s, record).0)
  {
    var (s1, thoughts) := AttachedReasoning(r, s, record.reasoning);
    var (s2, message) := OwnMessage(r, s1, record);
    var (s3, calls) := EmitCalls(r, s2, EntriesOf(record));
    RemembersOther(s, thoughts, s1);
    RemembersOther(s1, message, s2);
    CallsRemember(r, s2, EntriesOf(record));
    RemembersConcat(s, thoughts, s1, message, s2);
    RemembersConcat(s, thoughts + message, s2, calls.events, s3);
  }

  lemma DecodeRemembers(r: Randoms, s: State, record: Record)
    requires Decode(r, s, record).1.Returned?
    ensures Remembers(s, Decode(r, s, record).1.events, Decode(r, s, record).0)
  {
    var (s', outcome) := Decode(r, s, record);
    match record
    case AssistantMessage(_, session, _, _, _) =>
      AssistantRemembers(r, InSession(s, session), record);
      SameTable(s, InSession(s, session), outcome.events, s');
    case ToolCallRecord(own, session, ids, names) =>
      RemembersCall(r, InSession(s, session), own, ids, names);
      SameTable(s, InSession(s, session), outcome.events, s');
    case UnreadableRecord(_) =>
    case _ => RemembersOther(s, outcome.events, s');
  }

  lemma SameTable(s: State, t: State, events: seq<Event>, u: State)
    requires s.callMap == t.callMap && Remembers(t, events, u)
    ensures Remembers(s, events, u)
  {
    forall id ensures Lookup(u, id) == OrElse(LatestCall(events, id), Lookup(s, id)) {
      assert Lookup(s, id) == Lookup(t, id);
    }
  }

  lemma {:induction false} TranscriptRemembers(r: Randoms, s: State, records: seq<Record>)
    requires DecodeAll(r, s, records).1.Returned?
    ensures Remembers(s, DecodeAll(r, s, records).1.events, DecodeAll(r, s, records).0)
  {
    if records == [] {
      RemembersOther(s, [], s);
    } else {
      var front, last := DecodeAll(r, s, records[..|records| - 1]), records[|records| - 1];
      var decoded := Decode(r, front.0, last);
      TranscriptRemembers(r, s, records[..|records| - 1]);
      DecodeRemembers(r, front.0, last);
      RemembersConcat(s, front.1.events, front.0, decoded.1.events, decoded.0);
    }
  }

  // --- no call is ever remembered without a name ---

  lemma {:induction false} NeverNameless(fields: seq<string>, fallback: string)
    requires fallback != ""
    ensures FirstOf(fields, fallback) != ""
  {
    if fields != [] { NeverNameless(fields[1..], fallback); }
  }

  lemma {:induction false} Nameless(fields: seq<string>, fallback: string)
    requires forall i :: 0 <= i < |fields| ==> fields[i] == ""
    ensures FirstOf(fields, fallback) == fallback
  {
    if fields != [] { Nameless(fields[1..], fallback); }
  }

  ghost predicate Named(s: State) {
    forall id :: id in s.callMap ==> s.callMap[id] != ""
  }

  lemma {:induction false} CallsNamed(r: Randoms, s: State, calls: seq<ToolEntry>)
    requires Named(s)
    ensures Named(EmitCalls(r, s, calls).0)
  {
    if calls != [] {
      var last := calls[|calls| - 1];
      CallsNamed(r, s, calls[..|calls| - 1]);
      if last.ToolEntry? { NeverNameless(last.names, UNKNOWN_TOOL); }
    }
  }

  lemma DecodeNamed(r: Randoms, s: State, record: Record)
    requires Named(s)
    ensures Named(Decode(r, s, record).0)
  {
    match record
    case AssistantMessage(_, session, _, _, _) =>
      if record.content.Text? {
        var t := InSession(s, session);
        var (s1, thoughts) := AttachedReasoning(r, t, record.reasoning);
        var (s2, message) := OwnMessage(r, s1, record);
        CallsNamed(r, s2, EntriesOf(record));
      }
    case ToolCallRecord(_, _, _, names) => NeverNameless(names, UNKNOWN_TOOL);
    case _ =>
  }

  lemma {:induction false} TranscriptNamed(r: Randoms, s: State, records: seq<Record>)
    requires Named(s)
    ensures Named(DecodeAll(r, s, records).0)
  {
    if records != [] {
      TranscriptNamed(r, s, records[..|records| - 1]);
      DecodeNamed(r, DecodeAll(r, s, records[..|records| - 1]).0, records[|records| - 1]);
    }
  }

  // --- the names results get ---

  /** A result that gives no name of its own. */
  ghost predicate NamelessResult(result: Record) {
    result.ToolResultRecord? && forall i :: 0 <= i < |result.names| ==> result.names[i] == ""
  }

  function NameOr(name: Option<string>): string {
    if name.Some? then name.value else UNKNOWN_TOOL
  }

  function ResultId(r: Randoms, s: State, result: Record): string
    requires result.ToolResultRecord?
  {
    CallIdOf(r, InSession(s, result.session), result.ids)
  }

  /** The table gives a nameless result its name. */
  lemma NameFromTable(r: Randoms, s: State, result: Record)
    requires Named(s) && NamelessResult(result)
    ensures var outcome := Decode(r, s, result).1;
            && outcome.Returned? && |outcome.events| == 1
            && outcome.events[0].body == ToolResult(ResultId(r, s, result), NameOr(Lookup(s, ResultId(r, s, result))))
  {
    var t := InSession(s, result.session);
    var id := ResultId(r, s, result);
    Nameless(result.names, if id in t.callMap && t.callMap[id] != "" then t.callMap[id] else UNKNOWN_TOOL);
  }

  /** After any transcript, a result without a name of its own takes the name of the latest earlier call with its id. */
  lemma ResultTakesLatestName(r: Randoms, s: State, records: seq<Record>, result: Record)
    requires s.callMap == map[] && DecodeAll(r, s, records).1.Returned? && NamelessResult(result)
    ensures var earlier := DecodeAll(r, s, records).1.events;
            var outcome := DecodeAll(r, s, records + [result]).1;
            && outcome.Returned? && |outcome.events| == |earlier| + 1 && outcome.events[..|earlier|] == earlier
            && var body := outcome.events[|earlier|].body;
               body.ToolResult? && body.toolName == NameOr(LatestCall(earlier, body.callId))
  {
    var before := DecodeAll(r, s, records);
    assert (records + [result])[..|records|] == records;
    TranscriptRemembers(r, s, records);
    TranscriptNamed(r, s, records);
    NameFromTable(r, before.0, result);
    var id := ResultId(r, before.0, result);
    assert Lookup(before.0, id) == OrElse(LatestCall(before.1.events, id), Lookup(s, id));
  }

  // --- names when the caller goes on after an exception ---

  /** Whether the next result, should it be this one, gets the name of the latest call that was emitted. */
  ghost predicate TakesLatestName(r: Randoms, s: State, records: seq<Record>, result: Record)
    requires NamelessResult(result)
  {
    var (t, events) := Feed(r, s, records);
    var outcome := Decode(r, t, result).1;
    && outcome.Returned? && |outcome.events| == 1 && outcome.events[0].body.ToolResult?
    && var body := outcome.events[0].body;
       body.toolName == NameOr(LatestCall(events, body.callId))
  }

  /** A record that throws and leaves behind another name for some call, out of an entry in front of the unreadable one. */
  ghost predicate Spoils(r: Randoms, s: State, record: Record) {
    && Decode(r, s, record).1.Thrown?
    && exists id :: id != "" && NameOr(Lookup(Decode(r, s, record).0, id)) != NameOr(Lookup(s, id))
  }

  /** An unreadable inline call behind a readable one. */
  predicate LosesCalls(record: Record) {
    && record.AssistantMessage? && record.content.Text?
    && UnreadableEntry in EntriesOf(record) && EntriesOf(record)[0] != UnreadableEntry
  }

  lemma {:induction false} CallsStop(r: Randoms, s: State, calls: seq<ToolEntry>)
    requires calls != [] && calls[0] == UnreadableEntry
    ensures EmitCalls(r, s, calls) == (s, Thrown)
  {
    if |calls| > 1 {
      CallsStop(r, s, calls[..|calls| - 1]);
    } else {
      assert EmitCalls(r, s, calls[..0]) == (s, Returned([]));
    }
  }

  /** Only a message that loses calls can spoil a name. */
  lemma SpoilsOnlyLosing(r: Randoms, s: State, record: Record)
    requires Spoils(r, s, record)
    ensures LosesCalls(record)
  {
    var id :| id != "" && NameOr(Lookup(Decode(r, s, record).0, id)) != NameOr(Lookup(s, id));
    if record.AssistantMessage? && record.content.Text? {
      var t := InSession(s, record.session);
      var (s1, thoughts) := AttachedReasoning(r, t, record.reasoning);
      var (s2, message) := OwnMessage(r, s1, record);
      CallsThrowIff(r, s2, EntriesOf(record));
      if EntriesOf(record)[0] == UnreadableEntry {
        CallsStop(r, s2, EntriesOf(record));
      }
    }
  }

  ghost predicate NamesRight(s: State, events: seq<Event>) {
    forall id {:trigger Lookup(s, id)} :: id != "" ==> NameOr(Lookup(s, id)) == NameOr(LatestCall(events, id))
  }

  lemma ReturnKeepsNames(r: Randoms, s: State, events: seq<Event>, record: Record)
    requires NamesRight(s, events) && Decode(r, s, record).1.Returned?
    ensures NamesRight(Decode(r, s, record).0, events + Decode(r, s, record).1.events)
  {
    var (s', outcome) := Decode(r, s, record);
    DecodeRemembers(r, s, record);
    forall id | id != "" ensures NameOr(Lookup(s', id)) == NameOr(LatestCall(events + outcome.events, id)) {
      LatestConcat(events, outcome.events, id);
      assert NameOr(Lookup(s, id)) == NameOr(LatestCall(events, id));
      assert Lookup(s', id) == OrElse(LatestCall(outcome.events, id), Lookup(s, id));
    }
  }

  lemma ThrowKeepsNamesIff(r: Randoms, s: State, events: seq<Event>, record: Record)
    requires NamesRight(s, events) && Decode(r, s, record).1.Thrown?
    ensures NamesRight(Decode(r, s, record).0, events) <==> !Spoils(r, s, record)
  {
    var s' := Decode(r, s, record).0;
    assert forall id :: id != "" ==> NameOr(Lookup(s, id)) == NameOr(LatestCall(events, id));
    if NamesRight(s', events) {
      assert forall id :: id != "" ==> NameOr(Lookup(s', id)) == NameOr(LatestCall(events, id));
    }
  }

  lemma {:induction false} FeedNamed(r: Randoms, s: State, records: seq<Record>)
    requires Named(s)
    ensures Named(Feed(r, s, records).0)
  {
    if records != [] {
      FeedNamed(r, s, records[..|records| - 1]);
      DecodeNamed(r, Feed(r, s, records[..|records| - 1]).0, records[|records| - 1]);
    }
  }

  ghost predicate SpoilsAt(r: Randoms, s: State, records: seq<Record>, i: nat)
    requires i < |records|
  {
    Spoils(r, Feed(r, s, records[..i]).0, records[i])
  }

  /** One record more. */
  lemma FeedStep(r: Randoms, s: State, records: seq<Record>, n: nat)
    requires n < |records|
    ensures var (t, events) := Feed(r, s, records[..n]);
            var (u, outcome) := Decode(r, t, records[n]);
            Feed(r, s, records[..n + 1]) == (u, if outcome.Thrown? then events else events + outcome.events)
  {
    assert records[..n + 1][..n] == records[..n];
  }

  ghost predicate RightAt(r: Randoms, s: State, records: seq<Record>, n: nat)
    requires n <= |records|
  {
    NamesRight(Feed(r, s, records[..n]).0, Feed(r, s, records[..n]).1)
  }

  lemma {:induction false} RightUpTo(r: Randoms, s: State, records: seq<Record>, n: nat)
    requires s.callMap == map[] && n <= |records| && forall i :: 0 <= i < n ==> !SpoilsAt(r, s, records, i)
    ensures RightAt(r, s, records, n)
    decreases n
  {
    if n > 0 {
      RightUpTo(r, s, records, n - 1);
      RightStep(r, s, records, n - 1);
    }
  }

  lemma RightStep(r: Randoms, s: State, records: seq<Record>, n: nat)
    requires n < |records| && RightAt(r, s, records, n) && !SpoilsAt(r, s, records, n)
    ensures RightAt(r, s, records, n + 1)
  {
    FeedStep(r, s, records, n);
    RightNext(r, Feed(r, s, records[..n]).0, Feed(r, s, records[..n]).1, records[n]);
  }

  lemma RightNext(r: Randoms, t: State, events: seq<Event>, record: Record)
    requires NamesRight(t, events) && !Spoils(r, t, record)
    ensures var (u, outcome) := Decode(r, t, record);
            NamesRight(u, if outcome.Thrown? then events else events + outcome.events)
  {
    if Decode(r, t, record).1.Returned? {
      ReturnKeepsNames(r, t, events, record);
    } else {
      ThrowKeepsNamesIff(r, t, events, record);
    }
  }

  lemma RightGivesNames(r: Randoms, s: State, records: seq<Record>, result: Record)
    requires Named(s) && NamelessResult(result)
    requires var (t, events) := Feed(r, s, records); NamesRight(t, events)
    ensures TakesLatestName(r, s, records, result)
  {
    var (t, events) := Feed(r, s, records);
    FeedNamed(r, s, records);
    NameFromTable(r, t, result);
    var id := ResultId(r, t, result);
    NeverNameless(result.ids, Drawn(r.calls, t.sequence));
    assert NameOr(Lookup(t, id)) == NameOr(LatestCall(events, id));
  }

  /** Where names are not right, some result gets a wrong one. */
  lemma WrongName(r: Randoms, s: State, records: seq<Record>) returns (result: Record)
    requires Named(s)
    requires var (t, events) := Feed(r, s, records); !NamesRight(t, events)
    ensures NamelessResult(result) && !TakesLatestName(r, s, records, result)
  {
    var (t, events) := Feed(r, s, records);
    var id :| id != "" && NameOr(Lookup(t, id)) != NameOr(LatestCall(events, id));
    result := ToolResultRecord(None, None, [id], []);
    FeedNamed(r, s, records);
    NameFromTable(r, t, result);
    assert ResultId(r, t, result) == id;
  }

  lemma {:induction false} FirstSpoiler(r: Randoms, s: State, records: seq<Record>, n: nat) returns (i: nat)
    requires n <= |records| && exists k :: 0 <= k < n && SpoilsAt(r, s, records, k)
    ensures i < n && SpoilsAt(r, s, records, i) && forall k :: 0 <= k < i ==> !SpoilsAt(r, s, records, k)
  {
    if exists k :: 0 <= k < n - 1 && SpoilsAt(r, s, records, k) {
      i := FirstSpoiler(r, s, records, n - 1);
    } else {
      i := n - 1;
    }
  }

  /** Every result that could come next, after any part of the records, takes the name of the latest emitted call. */
  ghost predicate NamesAlwaysRight(r: Randoms, s: State, records: seq<Record>) {
    forall n: nat, result :: n <= |records| && NamelessResult(result) ==>
      TakesLatestName(r, s, records[..n], result)
  }

  /** Names are always right, exceptions or not, if and only if no throwing record leaves another name behind. */
  lemma NamesRightIff(r: Randoms, s: State, records: seq<Record>)
    requires s.callMap == map[]
    ensures NamesAlwaysRight(r, s, records) <==> forall i :: 0 <= i < |records| ==> !SpoilsAt(r, s, records, i)
  {
    if forall i :: 0 <= i < |records| ==> !SpoilsAt(r, s, records, i) {
      forall n: nat, result | n <= |records| && NamelessResult(result)
        ensures TakesLatestName(r, s, records[..n], result)
      {
        RightUpTo(r, s, records, n);
        RightGivesNames(r, s, records[..n], result);
      }
    } else {
      var i := FirstSpoiler(r, s, records, |records|);
      RightUpTo(r, s, records, i);
      FeedStep(r, s, records, i);
      var (t, events) := Feed(r, s, records[..i]);
      ThrowKeepsNamesIff(r, t, events, records[i]);
      var result := WrongName(r, s, records[..i + 1]);
    }
  }

  /** A message whose first inline call is readable and whose second is not: the result takes the name of a call nobody saw. */
  lemma LostCallExample(r: Randoms, s: State)
    requires s.callMap == map[]
    ensures var lost := AssistantMessage(None, None, "", Text(""), Some([ToolEntry(["1"], ["search"]), UnreadableEntry]));
            var (t, events) := Feed(r, s, [lost]);
            var outcome := Decode(r, t, ToolResultRecord(None, None, ["1"], [])).1;
            && events == [] && outcome.Returned? && |outcome.events| == 1
            && outcome.events[0].body == ToolResult("1", "search")
  {
    var entry := ToolEntry(["1"], ["search"]);
    var entries := [entry, UnreadableEntry];
    var lost := AssistantMessage(None, None, "", Text(""), Some(entries));
    assert entries[..1] == [entry] && [entry][..0] == [] && [lost][..0] == [];
    var (t, event) := EmitCall(r, s, None, ["1"], ["search"]);
    assert FirstOf(["1"], Drawn(r.calls, s.sequence)) == "1" && FirstOf(["search"], UNKNOWN_TOOL) == "search";
    assert EmitCalls(r, s, []) == (s, Returned([]));
    assert EmitCalls(r, s, [entry]) == (t, Returned([] + [event]));
    assert EmitCalls(r, s, entries) == (t, Thrown);
    assert Decode(r, s, lost) == (t, Thrown);
    assert Feed(r, s, []) == (s, []);
    assert Feed(r, s, [lost]) == (t, []);
    assert t.callMap["1"] == "search";
  }
}
