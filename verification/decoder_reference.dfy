/**
 * What a transcript decodes to, told by its records alone: which events each becomes, with
 * which id, session, number, parent and content.
 */
module DecoderReference {
  import opened Wrappers
  import opened Sequences
  import opened Decoder
  import opened DecoderChain
  import opened DecoderNames

  /** An event before it is numbered: the id the record gives it, if any, and what it says. */
  datatype Saying = Saying(own: Option<string>, body: Body)

  // --- which record throws ---

  predicate Throws(record: Record) {
    match record
    case UnreadableRecord(_) => true
    case ReasoningRecord(_, _, content) => content == Unreadable
    case UserMessage(_, _, content) => content == Unreadable
    case AssistantMessage(_, _, _, content, toolCalls) =>
      content == Unreadable || (toolCalls.Some? && UnreadableEntry in toolCalls.value)
    case _ => false
  }

  lemma ThrowsIff(r: Randoms, s: State, record: Record)
    ensures Decode(r, s, record).1.Thrown? <==> Throws(record)
  {
    if record.AssistantMessage? && record.content.Text? {
      var t := InSession(s, record.session);
      var (s1, thoughts) := AttachedReasoning(r, t, record.reasoning);
      var (s2, message) := OwnMessage(r, s1, record);
      CallsThrowIff(r, s2, EntriesOf(record));
    }
  }

  // --- what a record says ---

  /** The first field that is not empty, or the fallback if all are. */
  lemma {:induction false} FirstOfIs(fields: seq<string>, fallback: string)
    ensures (forall k :: 0 <= k < |fields| ==> fields[k] == "") ==> FirstOf(fields, fallback) == fallback
    ensures forall k :: 0 <= k < |fields| && fields[k] != "" && (forall j :: 0 <= j < k ==> fields[j] == "") ==>
              FirstOf(fields, fallback) == fields[k]
  {
    if fields != [] {
      FirstOfIs(fields[1..], fallback);
      forall k | 0 <= k < |fields| && fields[k] != "" && (forall j :: 0 <= j < k ==> fields[j] == "")
        ensures FirstOf(fields, fallback) == fields[k]
      {
        if k > 0 {
          assert fields[0] == "" && fields[1..][k - 1] == fields[k];
        }
      }
    }
  }

  /** The i-th inline call, its event being the one with number n. */
  function CallSaid(r: Randoms, n: int, own: Option<string>, ids: seq<string>, names: seq<string>): Saying {
    Saying(own, ToolCall(FirstOf(ids, Drawn(r.calls, n)), FirstOf(names, "unknown_tool")))
  }

  function EntrySaid(r: Randoms, n: int, entry: ToolEntry): Saying {
    match entry
    case ToolEntry(ids, names) => CallSaid(r, n, None, ids, names)
    case UnreadableEntry => Saying(None, Unparseable(""))
  }

  function EntriesSaid(r: Randoms, n: int, entries: seq<ToolEntry>): (said: seq<Saying>)
    ensures |said| == |entries|
  {
    seq(|entries|, i requires 0 <= i < |entries| => EntrySaid(r, n + i, entries[i]))
  }

  function AssistantSaid(r: Randoms, n: int, own: Option<string>, reasoning: string, text: string, entries: seq<ToolEntry>): seq<Saying> {
    var thought := if reasoning == "" then [] else [Saying(None, Reasoning(reasoning))];
    var message := if text == "" && entries != [] then [] else [Saying(own, Assistant(text))];
    thought + message + EntriesSaid(r, n + |thought| + |message|, entries)
  }

  /** The name a result with this id goes by when it gives none: that of the latest earlier call. */
  function EarlierName(earlier: seq<Event>, id: string): string {
    if LatestCall(earlier, id).Some? then LatestCall(earlier, id).value else "unknown_tool"
  }

  /** What a record says when the events before it are `earlier` and the next number is n. */
  function Said(r: Randoms, n: int, earlier: seq<Event>, record: Record): seq<Saying>
    requires !Throws(record)
  {
    match record
    case BlankLine => []
    case UnparseableLine(line) => [Saying(None, Unparseable(line))]
    case Single(kind, own, _) => [Saying(own, Plain(kind))]
    case ReasoningRecord(own, _, content) => [Saying(own, Reasoning(content.text))]
    case UserMessage(own, _, content) => [Saying(own, User(content.text))]
    case AssistantMessage(own, _, reasoning, content, toolCalls) =>
      AssistantSaid(r, n, own, reasoning, content.text, if toolCalls.Some? then toolCalls.value else [])
    case ToolCallRecord(own, _, ids, names) => [CallSaid(r, n, own, ids, names)]
    case ToolResultRecord(own, _, ids, names) =>
      var id := FirstOf(ids, Drawn(r.calls, n));
      [Saying(own, ToolResult(id, FirstOf(names, EarlierName(earlier, id))))]
  }

  // --- the events of a transcript ---

  function SessionOf(record: Record): Option<string> {
    match record
    case BlankLine => None
    case UnparseableLine(_) => None
    case _ => record.session
  }

  /** The session in effect: the latest one that a record names. */
  function SessionAfter(start: string, records: seq<Record>): string {
    if records == [] then start
    else
      var last := SessionOf(records[|records| - 1]);
      if last.Some? then last.value else SessionAfter(start, records[..|records| - 1])
  }

  function IdOf(r: Randoms, n: int, own: Option<string>): string {
    if own.Some? && |own.value| > 0 then own.value else Drawn(r.events, n)
  }

  function EventAt(r: Randoms, session: string, n: int, parent: Option<string>, said: seq<Saying>, i: nat): Event
    requires i < |said|
  {
    Event(IdOf(r, n + i, said[i].own), session, n + i,
          if i == 0 then parent else Some(IdOf(r, n + i - 1, said[i - 1].own)), said[i].body)
  }

  /** Sayings with their numbers from n on, each the child of the one before it. */
  function Stamped(r: Randoms, session: string, n: int, parent: Option<string>, said: seq<Saying>): (events: seq<Event>)
    ensures |events| == |said| && forall i :: 0 <= i < |said| ==> events[i] == EventAt(r, session, n, parent, said, i)
  {
    seq(|said|, i requires 0 <= i < |said| => EventAt(r, session, n, parent, said, i))
  }

  /** The events of one record behind earlier ones. */
  function Following(r: Randoms, s: State, session: string, earlier: seq<Event>, record: Record): seq<Event>
    requires !Throws(record)
  {
    var n := s.sequence + |earlier|;
    Stamped(r, session, n, ParentAfter(s.lastEventId, earlier), Said(r, n, earlier, record))
  }

  /** The events of the records, from what was there when they began. */
  function Transcribed(r: Randoms, s: State, records: seq<Record>): seq<Event>
    requires NoneThrow(records)
  {
    if records == [] then []
    else
      var front, last := records[..|records| - 1], records[|records| - 1];
      var earlier := Transcribed(r, s, front);
      earlier + Following(r, s, SessionAfter(s.sessionId, records), earlier, last)
  }

  // --- the decoder does exactly that ---

  /** Between two states exactly these sayings were emitted, in the session of the first. */
  ghost predicate Emits(r: Randoms, s: State, said: seq<Saying>, events: seq<Event>, s': State) {
    && events == Stamped(r, s.sessionId, s.sequence, s.lastEventId, said)
    && s'.sessionId == s.sessionId
    && s'.sequence == s.sequence + |said|
    && s'.lastEventId == ParentAfter(s.lastEventId, events)
  }

  lemma EmitsNone(r: Randoms, s: State)
    ensures Emits(r, s, [], [], s)
  {
  }

  lemma EmitsOne(r: Randoms, s: State, own: Option<string>, body: Body)
    ensures var (s', event) := Emit(r, s, own, body); Emits(r, s, [Saying(own, body)], [event], s')
  {
    var (s', event) := Emit(r, s, own, body);
    assert EventAt(r, s.sessionId, s.sequence, s.lastEventId, [Saying(own, body)], 0) == event;
  }

  lemma EventAtConcat(r: Randoms, session: string, n: int, parent: Option<string>, a: seq<Saying>, b: seq<Saying>, i: nat)
    requires i < |a| + |b|
    ensures EventAt(r, session, n, parent, a + b, i) ==
            if i < |a| then EventAt(r, session, n, parent, a, i)
            else EventAt(r, session, n + |a|, if a == [] then parent else Some(IdOf(r, n + |a| - 1, a[|a| - 1].own)), b, i - |a|)
  {
  }

  lemma StampedParent(r: Randoms, session: string, n: int, parent: Option<string>, a: seq<Saying>)
    ensures ParentAfter(parent, Stamped(r, session, n, parent, a)) ==
            if a == [] then parent else Some(IdOf(r, n + |a| - 1, a[|a| - 1].own))
  {
  }

  lemma StampedConcat(r: Randoms, session: string, n: int, parent: Option<string>, a: seq<Saying>, b: seq<Saying>)
    ensures var first := Stamped(r, session, n, parent, a);
            Stamped(r, session, n, parent, a + b) == first + Stamped(r, session, n + |a|, ParentAfter(parent, first), b)
  {
    var first := Stamped(r, session, n, parent, a);
    var second := Stamped(r, session, n + |a|, ParentAfter(parent, first), b);
    StampedParent(r, session, n, parent, a);
    forall i | 0 <= i < |a| + |b| ensures Stamped(r, session, n, parent, a + b)[i] == (first + second)[i] {
      EventAtConcat(r, session, n, parent, a, b, i);
    }
  }

  lemma EmitsConcat(r: Randoms, s: State, a: seq<Saying>, first: seq<Event>, t: State, b: seq<Saying>, second: seq<Event>, u: State)
    requires Emits(r, s, a, first, t) && Emits(r, t, b, second, u)
    ensures Emits(r, s, a + b, first + second, u)
  {
    StampedConcat(r, s.sessionId, s.sequence, s.lastEventId, a, b);
    ParentBehind(s.lastEventId, first, second);
  }

  /** A call, whose entry in the table changes nothing that is stamped. */
  lemma EmitsCall(r: Randoms, s: State, own: Option<string>, ids: seq<string>, names: seq<string>)
    ensures var (s', event) := EmitCall(r, s, own, ids, names);
            Emits(r, s, [CallSaid(r, s.sequence, own, ids, names)], [event], s')
  {
    var id, name := CallIdOf(r, s, ids), FirstOf(names, UNKNOWN_TOOL);
    EmitsOne(r, Remember(s, id, name), own, ToolCall(id, name));
  }

  lemma {:induction false} EmitsCalls(r: Randoms, s: State, entries: seq<ToolEntry>)
    requires UnreadableEntry !in entries
    ensures var (s', outcome) := EmitCalls(r, s, entries);
            outcome.Returned? && Emits(r, s, EntriesSaid(r, s.sequence, entries), outcome.events, s')
    decreases |entries|
  {
    if entries == [] {
      EmitsNone(r, s);
    } else {
      var n := |entries| - 1;
      var front, last := entries[..n], entries[n];
      assert last in entries;
      EmitsCalls(r, s, front);
      var (t, before) := EmitCalls(r, s, front);
      var (u, event) := EmitCall(r, t, None, last.ids, last.names);
      EmitsCall(r, t, None, last.ids, last.names);
      EmitsConcat(r, s, EntriesSaid(r, s.sequence, front), before.events, t, [EntrySaid(r, s.sequence + n, last)], [event], u);
      EntriesLast(r, s.sequence, front, last);
      assert entries == front + [last];
    }
  }

  lemma EntriesLast(r: Randoms, n: int, front: seq<ToolEntry>, last: ToolEntry)
    ensures EntriesSaid(r, n, front + [last]) == EntriesSaid(r, n, front) + [EntrySaid(r, n + |front|, last)]
  {
  }

  lemma EmitsThought(r: Randoms, s: State, text: string)
    ensures var (s', thoughts) := AttachedReasoning(r, s, text);
            Emits(r, s, if text == "" then [] else [Saying(None, Reasoning(text))], thoughts, s')
  {
    EmitsNone(r, s);
    EmitsOne(r, s, None, Reasoning(text));
  }

  lemma EmitsMessage(r: Randoms, s: State, record: Record)
    requires record.AssistantMessage? && record.content.Text?
    ensures var (s', message) := OwnMessage(r, s, record);
            var said := if record.content.text == "" && EntriesOf(record) != [] then [] else [Saying(record.eventId, Assistant(record.content.text))];
            Emits(r, s, said, message, s')
  {
    EmitsNone(r, s);
    EmitsOne(r, s, record.eventId, Assistant(record.content.text));
  }

  lemma EmitsAssistant(r: Randoms, s: State, record: Record) returns (said: seq<Saying>, events: seq<Event>, s': State)
    requires record.AssistantMessage? && !Throws(record)
    ensures said == AssistantSaid(r, s.sequence, record.eventId, record.reasoning, record.content.text, EntriesOf(record))
    ensures DecodeAssistant(r, s, record) == (s', Returned(events))
    ensures Emits(r, s, said, events, s')
  {
    var entries := EntriesOf(record);
    var a := if record.reasoning == "" then [] else [Saying(None, Reasoning(record.reasoning))];
    var b := if record.content.text == "" && entries != [] then [] else [Saying(record.eventId, Assistant(record.content.text))];
    var (s1, thoughts) := AttachedReasoning(r, s, record.reasoning);
    var (s2, message) := OwnMessage(r, s1, record);
    var (s3, calls) := EmitCalls(r, s2, entries);
    EmitsCalls(r, s2, entries);
    said, events, s' := a + b + EntriesSaid(r, s2.sequence, entries), thoughts + message + calls.events, s3;
    assert Emits(r, s, said, events, s') && s2.sequence == s.sequence + |a| + |b| by {
      EmitsThought(r, s, record.reasoning);
      EmitsMessage(r, s1, record);
      EmitsThree(r, s, a, thoughts, s1, b, message, s2, EntriesSaid(r, s2.sequence, entries), calls.events, s3);
    }
    AssistantSaidIs(r, s.sequence, record, a, b, s2.sequence);
  }

  lemma AssistantSaidIs(r: Randoms, n: int, record: Record, a: seq<Saying>, b: seq<Saying>, m: int)
    requires record.AssistantMessage? && record.content.Text? && m == n + |a| + |b|
    requires a == if record.reasoning == "" then [] else [Saying(None, Reasoning(record.reasoning))]
    requires b == if record.content.text == "" && EntriesOf(record) != [] then [] else [Saying(record.eventId, Assistant(record.content.text))]
    ensures AssistantSaid(r, n, record.eventId, record.reasoning, record.content.text, EntriesOf(record)) == a + b + EntriesSaid(r, m, EntriesOf(record))
  {
  }

  lemma EmitsThree(r: Randoms, s: State, a: seq<Saying>, x: seq<Event>, s1: State, b: seq<Saying>, y: seq<Event>, s2: State,
                   c: seq<Saying>, z: seq<Event>, s3: State)
    requires Emits(r, s, a, x, s1) && Emits(r, s1, b, y, s2) && Emits(r, s2, c, z, s3)
    ensures Emits(r, s, a + b + c, x + y + z, s3) && s2.sequence == s.sequence + |a| + |b|
  {
    EmitsConcat(r, s, a, x, s1, b, y, s2);
    EmitsConcat(r, s, a + b, x + y, s2, c, z, s3);
  }

  /** Names for results come from the table, which holds the calls emitted earlier. */
  ghost predicate TableIs(s: State, earlier: seq<Event>) {
    forall id {:trigger Lookup(s, id)} :: Lookup(s, id) == LatestCall(earlier, id)
  }

  lemma ResultSaid(r: Randoms, s: State, earlier: seq<Event>, own: Option<string>, ids: seq<string>, names: seq<string>)
    requires Named(s) && TableIs(s, earlier)
    ensures var id := CallIdOf(r, s, ids);
            ResultName(s, id, names) == FirstOf(names, EarlierName(earlier, id))
  {
    var id := CallIdOf(r, s, ids);
    assert Lookup(s, id) == LatestCall(earlier, id);
  }

  lemma DecodeEmits(r: Randoms, s: State, earlier: seq<Event>, record: Record)
    requires !Throws(record) && Named(s) && TableIs(s, earlier)
    ensures var (s', outcome) := Decode(r, s, record);
            && outcome.Returned?
            && Emits(r, InSession(s, SessionOf(record)), Said(r, s.sequence, earlier, record), outcome.events, s')
  {
    var t := InSession(s, SessionOf(record));
    match record
    case BlankLine => EmitsNone(r, s);
    case UnparseableLine(line) => EmitsOne(r, s, None, Unparseable(line));
    case Single(kind, own, _) => EmitsOne(r, t, own, Plain(kind));
    case ReasoningRecord(own, _, content) => EmitsOne(r, t, own, Reasoning(content.text));
    case UserMessage(own, _, content) => EmitsOne(r, t, own, User(content.text));
    case AssistantMessage(_, _, _, _, _) => var said, events, s' := EmitsAssistant(r, t, record);
    case ToolCallRecord(own, _, ids, names) => EmitsCall(r, t, own, ids, names);
    case ToolResultRecord(own, _, ids, names) =>
      assert TableIs(t, earlier) by {
        forall id ensures Lookup(t, id) == LatestCall(earlier, id) { assert Lookup(s, id) == Lookup(t, id); }
      }
      var id := CallIdOf(r, t, ids);
      ResultSaid(r, t, earlier, own, ids, names);
      EmitsOne(r, t, own, ToolResult(id, ResultName(t, id, names)));
  }

  /** Where the decoder stands after the events of some records. */
  ghost predicate Stands(s: State, records: seq<Record>, events: seq<Event>, s': State) {
    && s'.sessionId == SessionAfter(s.sessionId, records)
    && s'.sequence == s.sequence + |events|
    && s'.lastEventId == ParentAfter(s.lastEventId, events)
  }

  ghost predicate NoneThrow(records: seq<Record>) {
    forall i :: 0 <= i < |records| ==> !Throws(records[i])
  }

  lemma OneMore(r: Randoms, s: State, front: seq<Record>, last: Record, t: State, earlier: seq<Event>) returns (events: seq<Event>, u: State)
    requires NoneThrow(front) && !Throws(last) && Named(t) && TableIs(t, earlier)
    requires earlier == Transcribed(r, s, front) && Stands(s, front, earlier, t)
    ensures Decode(r, t, last) == (u, Returned(events)) && NoneThrow(front + [last])
    ensures earlier + events == Transcribed(r, s, front + [last])
    ensures Stands(s, front + [last], earlier + events, u)
  {
    var said;
    said, events, u := Emitted(r, t, earlier, last);
    LastFollows(r, s, front, last, t, earlier, said);
    ThenStamped(r, s, SessionAfter(s.sessionId, front), SessionOf(last), t, earlier, said, events, u);
  }

  lemma LastFollows(r: Randoms, s: State, front: seq<Record>, last: Record, t: State, earlier: seq<Event>, said: seq<Saying>)
    requires NoneThrow(front) && !Throws(last)
    requires earlier == Transcribed(r, s, front) && Stands(s, front, earlier, t) && said == Said(r, t.sequence, earlier, last)
    ensures NoneThrow(front + [last])
    ensures var session := if SessionOf(last).Some? then SessionOf(last).value else SessionAfter(s.sessionId, front);
            && SessionAfter(s.sessionId, front + [last]) == session
            && Transcribed(r, s, front + [last]) == earlier + Stamped(r, session, t.sequence, t.lastEventId, said)
  {
    LastRecord(r, s, front, last);
    FollowingIs(r, s, SessionAfter(s.sessionId, front + [last]), earlier, last, t, said);
  }

  lemma FollowingIs(r: Randoms, s: State, session: string, earlier: seq<Event>, last: Record, t: State, said: seq<Saying>)
    requires !Throws(last) && said == Said(r, t.sequence, earlier, last)
    requires t.sequence == s.sequence + |earlier| && t.lastEventId == ParentAfter(s.lastEventId, earlier)
    ensures Following(r, s, session, earlier, last) == Stamped(r, session, t.sequence, t.lastEventId, said)
  {
  }

  lemma Emitted(r: Randoms, t: State, earlier: seq<Event>, last: Record) returns (said: seq<Saying>, events: seq<Event>, u: State)
    requires !Throws(last) && Named(t) && TableIs(t, earlier)
    ensures said == Said(r, t.sequence, earlier, last) && Decode(r, t, last) == (u, Returned(events))
    ensures Emits(r, InSession(t, SessionOf(last)), said, events, u)
  {
    DecodeEmits(r, t, earlier, last);
    said := Said(r, t.sequence, earlier, last);
    events, u := Decode(r, t, last).1.events, Decode(r, t, last).0;
  }

  lemma ThenStamped(r: Randoms, s: State, session: string, named: Option<string>, t: State, earlier: seq<Event>,
                    said: seq<Saying>, events: seq<Event>, u: State)
    requires t.sessionId == session
    requires t.sequence == s.sequence + |earlier| && t.lastEventId == ParentAfter(s.lastEventId, earlier)
    requires Emits(r, InSession(t, named), said, events, u)
    ensures var session' := if named.Some? then named.value else session;
            && events == Stamped(r, session', t.sequence, t.lastEventId, said)
            && u.sessionId == session' && u.sequence == s.sequence + |earlier + events|
            && u.lastEventId == ParentAfter(s.lastEventId, earlier + events)
  {
    ParentBehind(s.lastEventId, earlier, events);
  }

  lemma LastRecord(r: Randoms, s: State, front: seq<Record>, last: Record)
    requires NoneThrow(front) && !Throws(last)
    ensures NoneThrow(front + [last])
    ensures SessionAfter(s.sessionId, front + [last]) ==
            if SessionOf(last).Some? then SessionOf(last).value else SessionAfter(s.sessionId, front)
    ensures Transcribed(r, s, front + [last]) ==
            Transcribed(r, s, front) + Following(r, s, SessionAfter(s.sessionId, front + [last]), Transcribed(r, s, front), last)
  {
    var records := front + [last];
    assert records[|records| - 1] == last;
    assert records[..|records| - 1] == front;
  }

  /**
   * A transcript decoded from an empty table: it throws if and only if some record does, and
   * otherwise gives exactly the events its records stand for.
   */
  lemma {:induction false} TranscriptIs(r: Randoms, s: State, records: seq<Record>)
    requires s.callMap == map[]
    ensures DecodeAll(r, s, records).1.Returned? <==> NoneThrow(records)
    ensures NoneThrow(records) ==>
              var (s', outcome) := DecodeAll(r, s, records);
              outcome == Returned(Transcribed(r, s, records)) && Stands(s, records, outcome.events, s')
    decreases |records|
  {
    if records != [] {
      var n := |records| - 1;
      var front, last := records[..n], records[n];
      assert records == front + [last];
      TranscriptIs(r, s, front);
      var before := DecodeAll(r, s, front);
      assert NoneThrow(records) <==> NoneThrow(front) && !Throws(last);
      if before.1.Returned? {
        ThrowsIff(r, before.0, last);
        if !Throws(last) {
          TranscriptNamed(r, s, front);
          TranscriptRemembers(r, s, front);
          FromEmpty(s, before.1.events, before.0);
          var events, u := OneMore(r, s, front, last, before.0, before.1.events);
        }
      }
    }
  }

  lemma FromEmpty(s: State, events: seq<Event>, s': State)
    requires s.callMap == map[] && Remembers(s, events, s')
    ensures TableIs(s', events)
  {
    forall id ensures Lookup(s', id) == LatestCall(events, id) {
      assert Lookup(s, id) == None;
    }
  }

  // --- a turn spelled out ---

  const QUESTION := UserMessage(Some("u1"), Some("s"), Text("go"))
  const CALL := AssistantMessage(None, None, "hm", Text(""), Some([ToolEntry(["c1"], ["", "search"])]))
  const RESULT := ToolResultRecord(Some("t1"), None, ["c1"], [])
  const BEGIN := State("old", 1, None, map[])

  lemma QuestionSpelledOut(r: Randoms)
    ensures Transcribed(r, BEGIN, [QUESTION]) == [Event("u1", "s", 1, None, User("go"))]
    ensures SessionAfter("old", [QUESTION]) == "s"
  {
    assert [QUESTION][..0] == [];
    LastRecord(r, BEGIN, [], QUESTION);
    assert [] + [QUESTION] == [QUESTION];
  }

  lemma CallSaidOut(r: Randoms)
    ensures Said(r, 2, [Event("u1", "s", 1, None, User("go"))], CALL) == [Saying(None, Reasoning("hm")), Saying(None, ToolCall("c1", "search"))]
  {
    assert ["", "search"][1..] == ["search"];
    assert EntriesSaid(r, 3, [ToolEntry(["c1"], ["", "search"])]) == [Saying(None, ToolCall("c1", "search"))];
  }

  lemma CallSpelledOut(r: Randoms)
    ensures SessionAfter("old", [QUESTION, CALL]) == "s"
    ensures var e2, e3 := Drawn(r.events, 2), Drawn(r.events, 3);
            Transcribed(r, BEGIN, [QUESTION, CALL]) ==
            [Event("u1", "s", 1, None, User("go")), Event(e2, "s", 2, Some("u1"), Reasoning("hm")),
             Event(e3, "s", 3, Some(e2), ToolCall("c1", "search"))]
  {
    QuestionSpelledOut(r);
    LastRecord(r, BEGIN, [QUESTION], CALL);
    assert [QUESTION] + [CALL] == [QUESTION, CALL];
    CallSaidOut(r);
  }

  lemma ResultSaidOut(r: Randoms, earlier: seq<Event>)
    requires earlier != [] && earlier[|earlier| - 1].body == ToolCall("c1", "search")
    ensures Said(r, 4, earlier, RESULT) == [Saying(Some("t1"), ToolResult("c1", "search"))]
  {
    assert LatestCall(earlier, "c1") == Some("search");
  }

  /** A question, a thought with a call, and its result without a name. */
  lemma TurnSpelledOut(r: Randoms)
    ensures var e2, e3 := Drawn(r.events, 2), Drawn(r.events, 3);
            DecodeAll(r, BEGIN, [QUESTION, CALL, RESULT]).1 ==
              Returned([Event("u1", "s", 1, None, User("go")), Event(e2, "s", 2, Some("u1"), Reasoning("hm")),
                        Event(e3, "s", 3, Some(e2), ToolCall("c1", "search")),
                        Event("t1", "s", 4, Some(e3), ToolResult("c1", "search"))])
  {
    AllSpelledOut(r);
    TranscriptIs(r, BEGIN, [QUESTION, CALL, RESULT]);
    assert NoneThrow([QUESTION, CALL, RESULT]);
  }

  lemma AllSpelledOut(r: Randoms)
    ensures var e2, e3 := Drawn(r.events, 2), Drawn(r.events, 3);
            Transcribed(r, BEGIN, [QUESTION, CALL, RESULT]) ==
            [Event("u1", "s", 1, None, User("go")), Event(e2, "s", 2, Some("u1"), Reasoning("hm")),
             Event(e3, "s", 3, Some(e2), ToolCall("c1", "search")), Event("t1", "s", 4, Some(e3), ToolResult("c1", "search"))]
  {
    CallSpelledOut(r);
    LastRecord(r, BEGIN, [QUESTION, CALL], RESULT);
    assert [QUESTION, CALL] + [RESULT] == [QUESTION, CALL, RESULT];
    ResultFollows(r, Transcribed(r, BEGIN, [QUESTION, CALL]));
  }

  lemma ResultFollows(r: Randoms, earlier: seq<Event>)
    requires |earlier| == 3 && earlier[2].body == ToolCall("c1", "search")
    ensures Following(r, BEGIN, "s", earlier, RESULT) == [Event("t1", "s", 4, Some(earlier[2].eventId), ToolResult("c1", "search"))]
  {
    ResultSaidOut(r, earlier);
  }
}
