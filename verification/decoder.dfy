/** The Codex transcript decoder: one causal chain of events, and a table of the calls it has seen. */
module Decoder {
  import opened Wrappers
  import opened TranscriptLines

  // --- records and events ---

  /** Kinds of record that become exactly one event, whatever their other fields say. */
  datatype Kind =
    | SessionLifecycle | CommandExec | FileEdit | Compaction
    | BranchFork | SubagentLifecycle | ToolDiscovery | ErrorRecord | UnknownRecord

  /**
   * A message's text. It is unreadable where reading it throws: a content array with a null part
   * or with a text that cannot be turned into a string, or an object that cannot be serialized.
   */
  datatype Content = Text(text: string) | Unreadable

  /**
   * An entry of `tool_calls`; `ids` and `names` are the fields tried in turn, absent ones left out.
   * It is unreadable if it is null or if its id or name cannot be turned into a string.
   */
  datatype ToolEntry = UnreadableEntry | ToolEntry(ids: seq<string>, names: seq<string>)

  /**
   * A line or object as the decoder reads it. `eventId` and `session` are its own event id and
   * session id, if it has them; in `ids` and `names` fields stand in the order they are tried.
   * An unreadable record throws before any header is taken: the JSON text `null`, or a record whose
   * type, or whose id, name, command, path or message in its own kind, cannot be turned into a
   * string; its session id has taken effect unless it is the type.
   */
  datatype Record =
    | BlankLine
    | UnparseableLine(line: string)
    | UnreadableRecord(session: Option<string>)
    | Single(kind: Kind, eventId: Option<string>, session: Option<string>)
    | ReasoningRecord(eventId: Option<string>, session: Option<string>, content: Content)
    | UserMessage(eventId: Option<string>, session: Option<string>, content: Content)
    | AssistantMessage(eventId: Option<string>, session: Option<string>, reasoning: string, content: Content, toolCalls: Option<seq<ToolEntry>>)
    | ToolCallRecord(eventId: Option<string>, session: Option<string>, ids: seq<string>, names: seq<string>)
    | ToolResultRecord(eventId: Option<string>, session: Option<string>, ids: seq<string>, names: seq<string>)

  datatype Body =
    | Plain(kind: Kind)
    | Unparseable(line: string)
    | Reasoning(text: string)
    | User(text: string)
    | Assistant(text: string)
    | ToolCall(callId: string, toolName: string)
    | ToolResult(callId: string, toolName: string)

  datatype Event = Event(eventId: string, sessionId: string, causalSequence: int, parentId: Option<string>, body: Body)

  /** Events returned, or a TypeError thrown. */
  datatype Outcome = Returned(events: seq<Event>) | Thrown

  /** The random ids, by the causal sequence number at which each would be drawn. */
  datatype Randoms = Randoms(events: map<int, RandomId>, calls: map<int, RandomId>)

  /** A generated id carries its prefix, so it is never empty. */
  type RandomId = id: string | id != "" witness "id"

  datatype State = State(sessionId: string, sequence: int, lastEventId: Option<string>, callMap: map<string, string>)

  const UNKNOWN_TOOL := "unknown_tool"

  function Drawn(ids: map<int, RandomId>, n: int): RandomId {
    if n in ids then ids[n] else "id"
  }

  /** The first non-empty of some fields, or the fallback. */
  function FirstOf(fields: seq<string>, fallback: string): string {
    if fields == [] then fallback else if fields[0] != "" then fields[0] else FirstOf(fields[1..], fallback)
  }

  function EventIdOf(r: Randoms, s: State, own: Option<string>): string {
    if own.Some? && own.value != "" then own.value else Drawn(r.events, s.sequence)
  }

  function CallIdOf(r: Randoms, s: State, ids: seq<string>): string {
    FirstOf(ids, Drawn(r.calls, s.sequence))
  }

  /** One event, and the state after its header was taken. */
  function Emit(r: Randoms, s: State, own: Option<string>, body: Body): (State, Event) {
    var id := EventIdOf(r, s, own);
    (s.(sequence := s.sequence + 1, lastEventId := Some(id)), Event(id, s.sessionId, s.sequence, s.lastEventId, body))
  }

  function EmitOne(r: Randoms, s: State, own: Option<string>, body: Body): (State, Outcome) {
    var (s', event) := Emit(r, s, own, body);
    (s', Returned([event]))
  }

  function Remember(s: State, callId: string, toolName: string): State {
    s.(callMap := s.callMap[callId := toolName])
  }

  function EmitCall(r: Randoms, s: State, own: Option<string>, ids: seq<string>, names: seq<string>): (State, Event) {
    var callId, toolName := CallIdOf(r, s, ids), FirstOf(names, UNKNOWN_TOOL);
    Emit(r, Remember(s, callId, toolName), own, ToolCall(callId, toolName))
  }

  /** The loop over `tool_calls`: an unreadable entry throws, with what came before already done. */
  function EmitCalls(r: Randoms, s: State, calls: seq<ToolEntry>): (State, Outcome) {
    if calls == [] then (s, Returned([]))
    else
      var front, last := EmitCalls(r, s, calls[..|calls| - 1]), calls[|calls| - 1];
      if front.1.Thrown? || last.UnreadableEntry? then (front.0, Thrown)
      else
        var (s', event) := EmitCall(r, front.0, None, last.ids, last.names);
        (s', Returned(front.1.events + [event]))
  }

  function ResultName(s: State, callId: string, names: seq<string>): string {
    FirstOf(names, if callId in s.callMap && s.callMap[callId] != "" then s.callMap[callId] else UNKNOWN_TOOL)
  }

  function InSession(s: State, session: Option<string>): State {
    if session.Some? then s.(sessionId := session.value) else s
  }

  function EntriesOf(record: Record): seq<ToolEntry>
    requires record.AssistantMessage?
  {
    if record.toolCalls.Some? then record.toolCalls.value else []
  }

  /** Reasoning attached to an assistant message comes first, under an id of its own. */
  function AttachedReasoning(r: Randoms, s: State, text: string): (State, seq<Event>) {
    if text == "" then (s, [])
    else
      var (s', event) := Emit(r, s, None, Reasoning(text));
      (s', [event])
  }

  /** The message itself is left out when it has no text but calls tools. */
  function OwnMessage(r: Randoms, s: State, record: Record): (State, seq<Event>)
    requires record.AssistantMessage? && record.content.Text?
  {
    if record.content.text == "" && EntriesOf(record) != [] then (s, [])
    else
      var (s', event) := Emit(r, s, record.eventId, Assistant(record.content.text));
      (s', [event])
  }

  function DecodeAssistant(r: Randoms, s: State, record: Record): (State, Outcome)
    requires record.AssistantMessage?
  {
    var (s1, thoughts) := AttachedReasoning(r, s, record.reasoning);
    if record.content.Unreadable? then (s1, Thrown)
    else
      var (s2, message) := OwnMessage(r, s1, record);
      var (s3, calls) := EmitCalls(r, s2, EntriesOf(record));
      (s3, if calls.Thrown? then Thrown else Returned(thoughts + message + calls.events))
  }

  /** The header of a user message or of a reasoning record is taken before its text is read. */
  function DecodeContent(r: Randoms, s: State, own: Option<string>, content: Content, user: bool): (State, Outcome) {
    match content
    case Text(text) => EmitOne(r, s, own, Spoken(text, user))
    case Unreadable => (EmitOne(r, s, own, Spoken("", user)).0, Thrown)
  }

  function Spoken(text: string, user: bool): Body {
    if user then User(text) else Reasoning(text)
  }

  function Decode(r: Randoms, s: State, record: Record): (State, Outcome) {
    match record
    case BlankLine => (s, Returned([]))
    case UnparseableLine(line) => EmitOne(r, s, None, Unparseable(line))
    case UnreadableRecord(session) => (InSession(s, session), Thrown)
    case Single(kind, own, session) => EmitOne(r, InSession(s, session), own, Plain(kind))
    case ReasoningRecord(own, session, content) => DecodeContent(r, InSession(s, session), own, content, false)
    case UserMessage(own, session, content) => DecodeContent(r, InSession(s, session), own, content, true)
    case AssistantMessage(_, session, _, _, _) => DecodeAssistant(r, InSession(s, session), record)
    case ToolCallRecord(own, session, ids, names) =>
      var (s', event) := EmitCall(r, InSession(s, session), own, ids, names);
      (s', Returned([event]))
    case ToolResultRecord(own, session, ids, names) =>
      var t := InSession(s, session);
      var callId := CallIdOf(r, t, ids);
      EmitOne(r, t, own, ToolResult(callId, ResultName(t, callId, names)))
  }

  /** A transcript: the first record that throws ends it, and the events before are lost with it. */
  function DecodeAll(r: Randoms, s: State, records: seq<Record>): (State, Outcome) {
    if records == [] then (s, Returned([]))
    else
      var front := DecodeAll(r, s, records[..|records| - 1]);
      if front.1.Thrown? then front
      else
        var last := Decode(r, front.0, records[|records| - 1]);
        (last.0, if last.1.Thrown? then Thrown else Returned(front.1.events + last.1.events))
  }

  // --- a transcript given as one text ---

  /** A carriage return at the end of a line belongs to its line break. */
  function DropReturn(line: string): string {
    if line != "" && line[|line| - 1] == '\r' then line[..|line| - 1] else line
  }

  /** The text split at its line breaks. */
  function TextLines(text: string): seq<string> {
    var i := NewlineIndex(text);
    if i == |text| then [text] else [DropReturn(text[..i])] + TextLines(text[i + 1..])
  }

  /** What each line of a text is read as. */
  function Parsed(parse: string -> Record, lines: seq<string>): seq<Record> {
    seq(|lines|, i requires 0 <= i < |lines| => parse(lines[i]))
  }

  function DecodeText(r: Randoms, s: State, parse: string -> Record, text: string): (State, Outcome) {
    DecodeAll(r, s, Parsed(parse, TextLines(text)))
  }

  lemma {:induction false} ThrownCallsStay(r: Randoms, s: State, calls: seq<ToolEntry>, i: nat)
    requires i <= |calls| && EmitCalls(r, s, calls[..i]).1.Thrown?
    ensures EmitCalls(r, s, calls) == EmitCalls(r, s, calls[..i])
    decreases |calls|
  {
    if i < |calls| {
      assert calls[..|calls| - 1][..i] == calls[..i];
      ThrownCallsStay(r, s, calls[..|calls| - 1], i);
    } else {
      assert calls[..i] == calls;
    }
  }

  lemma {:induction false} ThrownStays(r: Randoms, s: State, records: seq<Record>, i: nat)
    requires i <= |records| && DecodeAll(r, s, records[..i]).1.Thrown?
    ensures DecodeAll(r, s, records) == DecodeAll(r, s, records[..i])
    decreases |records|
  {
    if i < |records| {
      assert records[..|records| - 1][..i] == records[..i];
      ThrownStays(r, s, records[..|records| - 1], i);
    } else {
      assert records[..i] == records;
    }
  }

  // --- the decoder ---

  class CodexSessionDecoder {
    const randoms: Randoms
    var sessionId: string
    var sequence: int
    var lastEventId: Option<string>
    var callMap: map<string, string>

    ghost function View(): State
      reads this
    {
      State(sessionId, sequence, lastEventId, callMap)
    }

    constructor (sessionId: string, initialSequence: Option<int>, randoms: Randoms)
      ensures this.randoms == randoms
      ensures View() == State(sessionId, if initialSequence.Some? then initialSequence.value else 1, None, map[])
    {
      this.randoms := randoms;
      this.sessionId := sessionId;
      this.sequence := if initialSequence.Some? then initialSequence.value else 1;
      this.lastEventId := None;
      this.callMap := map[];
    }

    /** `newSession` is empty when none is given. */
    method Reset(newSession: string, initialSequence: Option<int>)
      modifies this
      ensures View() == State(if newSession != "" then newSession else old(sessionId),
                              if initialSequence.Some? then initialSequence.value else 1, None, map[])
    {
      if newSession != "" {
        sessionId := newSession;
      }
      sequence := if initialSequence.Some? then initialSequence.value else 1;
      lastEventId := None;
      callMap := map[];
    }

    method NextEvent(own: Option<string>, body: Body) returns (event: Event)
      modifies this`sequence, this`lastEventId
      ensures (View(), event) == Emit(randoms, old(View()), own, body)
    {
      var causalSequence := sequence;
      var eventId := if own.Some? && own.value != "" then own.value else Drawn(randoms.events, sequence);
      sequence := sequence + 1;
      var parentId := lastEventId;
      lastEventId := Some(eventId);
      event := Event(eventId, sessionId, causalSequence, parentId, body);
    }

    method NextCall(own: Option<string>, ids: seq<string>, names: seq<string>) returns (event: Event)
      modifies this
      ensures (View(), event) == EmitCall(randoms, old(View()), own, ids, names)
    {
      var callId := FirstOf(ids, Drawn(randoms.calls, sequence));
      var toolName := FirstOf(names, UNKNOWN_TOOL);
      callMap := callMap[callId := toolName];
      event := NextEvent(own, ToolCall(callId, toolName));
    }

    method DecodeCalls(calls: seq<ToolEntry>) returns (outcome: Outcome)
      modifies this
      ensures (View(), outcome) == EmitCalls(randoms, old(View()), calls)
    {
      var events: seq<Event> := [];
      var i := 0;
      while i < |calls|
        invariant i <= |calls|
        invariant (View(), Returned(events)) == EmitCalls(randoms, old(View()), calls[..i])
      {
        assert calls[..i + 1][..i] == calls[..i];
        if calls[i].UnreadableEntry? {
          ThrownCallsStay(randoms, old(View()), calls, i + 1);
          return Thrown;
        }
        var event := NextCall(None, calls[i].ids, calls[i].names);
        events := events + [event];
        i := i + 1;
      }
      assert calls[..i] == calls;
      return Returned(events);
    }

    method DecodeAssistantMessage(record: Record) returns (outcome: Outcome)
      requires record.AssistantMessage?
      modifies this
      ensures (View(), outcome) == DecodeAssistant(randoms, old(View()), record)
    {
      var thoughts: seq<Event> := [];
      if record.reasoning != "" {
        var thought := NextEvent(None, Reasoning(record.reasoning));
        thoughts := [thought];
      }
      if record.content.Unreadable? {
        return Thrown;
      }
      var message: seq<Event> := [];
      if record.content.text != "" || record.toolCalls.None? || |record.toolCalls.value| == 0 {
        var own := NextEvent(record.eventId, Assistant(record.content.text));
        message := [own];
      }
      var calls := DecodeCalls(EntriesOf(record));
      if calls.Thrown? {
        return Thrown;
      }
      return Returned(thoughts + message + calls.events);
    }

    method DecodeRecord(record: Record) returns (outcome: Outcome)
      modifies this
      ensures (View(), outcome) == Decode(randoms, old(View()), record)
    {
      if record.BlankLine? {
        return Returned([]);
      }
      if record.UnparseableLine? {
        var event := NextEvent(None, Unparseable(record.line));
        return Returned([event]);
      }
      if record.session.Some? {
        sessionId := record.session.value;
      }
      match record {
        case UnreadableRecord(_) =>
          outcome := Thrown;
        case Single(kind, own, _) =>
          var event := NextEvent(own, Plain(kind));
          outcome := Returned([event]);
        case ReasoningRecord(own, _, content) =>
          outcome := DecodeSpoken(own, content, false);
        case UserMessage(own, _, content) =>
          outcome := DecodeSpoken(own, content, true);
        case AssistantMessage(_, _, _, _, _) =>
          outcome := DecodeAssistantMessage(record);
        case ToolCallRecord(own, _, ids, names) =>
          var event := NextCall(own, ids, names);
          outcome := Returned([event]);
        case ToolResultRecord(own, _, ids, names) =>
          outcome := DecodeResult(own, ids, names);
      }
    }

    method DecodeSpoken(own: Option<string>, content: Content, user: bool) returns (outcome: Outcome)
      modifies this`sequence, this`lastEventId
      ensures (View(), outcome) == DecodeContent(randoms, old(View()), own, content, user)
    {
      var event := NextEvent(own, Spoken(if content.Text? then content.text else "", user));
      outcome := if content.Unreadable? then Thrown else Returned([event]);
    }

    method DecodeResult(own: Option<string>, ids: seq<string>, names: seq<string>) returns (outcome: Outcome)
      modifies this`sequence, this`lastEventId
      ensures var s := old(View());
              var callId := CallIdOf(randoms, s, ids);
              (View(), outcome) == EmitOne(randoms, s, own, ToolResult(callId, ResultName(s, callId, names)))
    {
      var callId := FirstOf(ids, Drawn(randoms.calls, sequence));
      var cached := if callId in callMap then callMap[callId] else "";
      var toolName := FirstOf(names, if cached != "" then cached else UNKNOWN_TOOL);
      var event := NextEvent(own, ToolResult(callId, toolName));
      return Returned([event]);
    }

    method DecodeTranscript(records: seq<Record>) returns (outcome: Outcome)
      modifies this
      ensures (View(), outcome) == DecodeAll(randoms, old(View()), records)
    {
      var events: seq<Event> := [];
      var i := 0;
      while i < |records|
        invariant i <= |records|
        invariant (View(), Returned(events)) == DecodeAll(randoms, old(View()), records[..i])
      {
        assert records[..i + 1][..i] == records[..i];
        var decoded := DecodeRecord(records[i]);
        if decoded.Thrown? {
          ThrownStays(randoms, old(View()), records, i + 1);
          return Thrown;
        }
        events := events + decoded.events;
        i := i + 1;
      }
      assert records[..i] == records;
      return Returned(events);
    }

    method DecodeTranscriptText(text: string, parse: string -> Record) returns (outcome: Outcome)
      modifies this
      ensures (View(), outcome) == DecodeText(randoms, old(View()), parse, text)
    {
      outcome := DecodeTranscript(Parsed(parse, TextLines(text)));
    }
  }
}
