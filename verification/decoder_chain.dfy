/** The causal chain the decoder emits, and the names its results get. */
module DecoderChain {
  import opened Wrappers
  import opened Sequences
  import opened TranscriptLines
  import opened Decoder

  function ParentAfter(parent: Option<string>, events: seq<Event>): Option<string> {
    if events == [] then parent else Some(events[|events| - 1].eventId)
  }

  /** Consecutive numbers from n on; each event's parent is the one just before it. */
  ghost predicate Chained(n: int, parent: Option<string>, events: seq<Event>) {
    forall i :: 0 <= i < |events| ==>
      events[i].causalSequence == n + i && events[i].parentId == ParentAfter(parent, events[..i])
  }

  /** From s to s' exactly these events were emitted, as one chain. */
  ghost predicate Links(s: State, events: seq<Event>, s': State) {
    && Chained(s.sequence, s.lastEventId, events)
    && s'.sequence == s.sequence + |events|
    && s'.lastEventId == ParentAfter(s.lastEventId, events)
  }

  lemma LinksConcat(s: State, a: seq<Event>, t: State, b: seq<Event>, u: State)
    requires Links(s, a, t) && Links(t, b, u)
    ensures Links(s, a + b, u)
  {
    forall i | 0 <= i < |a + b|
      ensures (a + b)[i].causalSequence == s.sequence + i
      ensures (a + b)[i].parentId == ParentAfter(s.lastEventId, (a + b)[..i])
    {
      if i < |a| {
        assert (a + b)[..i] == a[..i];
      } else {
        var k := i - |a|;
        assert (a + b)[i] == b[k];
        assert (a + b)[..i] == a + b[..k];
        ParentBehind(s.lastEventId, a, b[..k]);
      }
    }
    ParentBehind(s.lastEventId, a, b);
  }

  lemma ParentBehind(last: Option<string>, a: seq<Event>, b: seq<Event>)
    ensures ParentAfter(last, a + b) == ParentAfter(ParentAfter(last, a), b)
  {
    if b == [] {
      assert a + b == a;
    }
  }

  lemma EmitLinks(r: Randoms, s: State, own: Option<string>, body: Body)
    ensures var (s', event) := Emit(r, s, own, body); Links(s, [event], s')
  {
    var (s', event) := Emit(r, s, own, body);
    assert [event][..0] == [];
  }

  lemma {:induction false} CallsLink(r: Randoms, s: State, calls: seq<ToolEntry>)
    requires EmitCalls(r, s, calls).1.Returned?
    ensures Links(s, EmitCalls(r, s, calls).1.events, EmitCalls(r, s, calls).0)
  {
    if calls != [] {
      var front, last := EmitCalls(r, s, calls[..|calls| - 1]), calls[|calls| - 1];
      CallsLink(r, s, calls[..|calls| - 1]);
      var t := Remember(front.0, CallIdOf(r, front.0, last.ids), FirstOf(last.names, UNKNOWN_TOOL));
      var (s', event) := EmitCall(r, front.0, None, last.ids, last.names);
      EmitLinks(r, t, None, event.body);
      LinksConcat(s, front.1.events, front.0, [event], s');
    }
  }

  lemma AssistantLinks(r: Randoms, s: State, record: Record)
    requires record.AssistantMessage? && DecodeAssistant(r, s, record).1.Returned?
    ensures Links(s, DecodeAssistant(r, s, record).1.events, DecodeAssistant(r, s, record).0)
  {
    var (s1, thoughts) := AttachedReasoning(r, s, record.reasoning);
    var (s2, message) := OwnMessage(r, s1, record);
    var (s3, calls) := EmitCalls(r, s2, EntriesOf(record));
    EmitLinks(r, s, None, Reasoning(record.reasoning));
    EmitLinks(r, s1, record.eventId, Assistant(record.content.text));
    CallsLink(r, s2, EntriesOf(record));
    LinksConcat(s, thoughts, s1, message, s2);
    LinksConcat(s, thoughts + message, s2, calls.events, s3);
  }

  /** What one record returns is linked to what came before. */
  lemma DecodeLinks(r: Randoms, s: State, record: Record)
    requires Decode(r, s, record).1.Returned?
    ensures Links(s, Decode(r, s, record).1.events, Decode(r, s, record).0)
  {
    match record
    case BlankLine =>
    case UnparseableLine(line) => EmitLinks(r, s, None, Unparseable(line));
    case UnreadableRecord(_) =>
    case Single(kind, own, session) => EmitLinks(r, InSession(s, session), own, Plain(kind));
    case ReasoningRecord(own, session, content) => EmitLinks(r, InSession(s, session), own, Reasoning(content.text));
    case UserMessage(own, session, content) => EmitLinks(r, InSession(s, session), own, User(content.text));
    case AssistantMessage(_, session, _, _, _) => AssistantLinks(r, InSession(s, session), record);
    case ToolCallRecord(own, session, ids, names) =>
      var t := InSession(s, session);
      var (s', event) := EmitCall(r, t, own, ids, names);
      EmitLinks(r, Remember(t, CallIdOf(r, t, ids), FirstOf(names, UNKNOWN_TOOL)), own, event.body);
    case ToolResultRecord(own, session, ids, names) =>
      var t := InSession(s, session);
      var callId := CallIdOf(r, t, ids);
      EmitLinks(r, t, own, ToolResult(callId, ResultName(t, callId, names)));
  }

  /** A transcript's events carry consecutive numbers from the decoder's next one, each with the event just before as parent. */
  lemma {:induction false} TranscriptLinks(r: Randoms, s: State, records: seq<Record>)
    requires DecodeAll(r, s, records).1.Returned?
    ensures Links(s, DecodeAll(r, s, records).1.events, DecodeAll(r, s, records).0)
  {
    if records != [] {
      var front, last := DecodeAll(r, s, records[..|records| - 1]), records[|records| - 1];
      TranscriptLinks(r, s, records[..|records| - 1]);
      DecodeLinks(r, front.0, last);
      LinksConcat(s, front.1.events, front.0, Decode(r, front.0, last).1.events, Decode(r, front.0, last).0);
    }
  }

  /** Two pieces decoded in turn give what their concatenation gives. */
  lemma {:induction false} PiecesInTurn(r: Randoms, s: State, a: seq<Record>, b: seq<Record>)
    ensures var first := DecodeAll(r, s, a);
            var second := DecodeAll(r, first.0, b);
            DecodeAll(r, s, a + b) ==
            if first.1.Thrown? then first
            else (second.0, if second.1.Thrown? then Thrown else Returned(first.1.events + second.1.events))
    decreases |b|
  {
    var first := DecodeAll(r, s, a);
    if b == [] {
      assert a + b == a;
      if first.1.Returned? {
        assert first.1.events + [] == first.1.events;
      }
    } else {
      var n := |b| - 1;
      assert (a + b)[..|a + b| - 1] == a + b[..n];
      PiecesInTurn(r, s, a, b[..n]);
      if first.1.Returned? && DecodeAll(r, first.0, b[..n]).1.Returned? {
        var middle := DecodeAll(r, first.0, b[..n]);
        var last := Decode(r, middle.0, b[n]);
        if last.1.Returned? {
          Associate(first.1.events, middle.1.events, last.1.events);
        }
      }
    }
  }

  lemma LineFirst(line: string, rest: string)
    requires '\n' !in line
    ensures TextLines(line + "\n" + rest) == [DropReturn(line)] + TextLines(rest)
  {
    var text := line + "\n" + rest;
    assert text[|line|] == '\n';
    assert forall k :: 0 <= k < |line| ==> text[k] == line[k] != '\n';
    assert NewlineIndex(text) == |line|;
    assert text[..|line|] == line && text[|line| + 1..] == rest;
  }

  /** What a line without a newline becomes when a break follows it. */
  lemma LineThenBreak(line: string, e: string, rest: string)
    requires '\n' !in line && (e == "\r\n" || (e == "\n" && (line == "" || line[|line| - 1] != '\r')))
    ensures TextLines(line + e + rest) == [line] + TextLines(rest)
  {
    if e == "\n" {
      LineFirst(line, rest);
    } else {
      var longer := line + "\r";
      assert longer[..|line|] == line;
      LineFirst(longer, rest);
      assert line + e + rest == longer + "\n" + rest;
    }
  }

  lemma CutAtNewline(a: string, i: nat)
    requires i < |a| && a[i] == '\n'
    ensures a == a[..i] + "\n" + a[i + 1..]
  {
  }

  lemma Shifted(line: string, rest: string, e: string, b: string)
    ensures (line + "\n" + rest) + e + b == line + "\n" + (rest + e + b)
  {
  }

  /** A text put together with a line break has the lines of its pieces; a bare newline must not follow a carriage return. */
  lemma {:induction false} LinesOfPieces(a: string, e: string, b: string)
    requires e == "\r\n" || (e == "\n" && (a == "" || a[|a| - 1] != '\r'))
    ensures TextLines(a + e + b) == TextLines(a) + TextLines(b)
    decreases |a|
  {
    var i := NewlineIndex(a);
    if i == |a| {
      assert '\n' !in a;
      LineThenBreak(a, e, b);
    } else {
      var line, rest := a[..i], a[i + 1..];
      assert '\n' !in line;
      CutAtNewline(a, i);
      LinesOfPieces(rest, e, b);
      Shifted(line, rest, e, b);
      LineFirst(line, rest);
      LineFirst(line, rest + e + b);
      Associate([DropReturn(line)], TextLines(rest), TextLines(b));
    }
  }

  lemma {:induction false} LastReturn(a: string)
    ensures |TextLines(a + "\r")| == |TextLines(a)| > 0
    ensures var n := |TextLines(a)| - 1; TextLines(a + "\r")[n] == TextLines(a)[n] + "\r"
    decreases |a|
  {
    var i := NewlineIndex(a);
    if i == |a| {
      assert '\n' !in a + "\r";
      assert NewlineIndex(a + "\r") == |a + "\r"|;
    } else {
      var line, rest := a[..i], a[i + 1..];
      assert '\n' !in line;
      CutAtNewline(a, i);
      LastReturn(rest);
      LineFirst(line, rest);
      LineFirst(line, rest + "\r");
      assert a + "\r" == line + "\n" + (rest + "\r");
    }
  }

  /** Across a bare newline the lines are those of the pieces, if and only if no carriage return stands in front of it. */
  lemma LinesOfPiecesIff(a: string, b: string)
    ensures TextLines(a + "\n" + b) == TextLines(a) + TextLines(b) <==> a == "" || a[|a| - 1] != '\r'
  {
    if a == "" || a[|a| - 1] != '\r' {
      LinesOfPieces(a, "\n", b);
    } else {
      var front := a[..|a| - 1];
      assert a == front + "\r" && a + "\n" + b == front + "\r\n" + b;
      LinesOfPieces(front, "\r\n", b);
      LastReturn(front);
      var n := |TextLines(a)| - 1;
      assert (TextLines(front) + TextLines(b))[n] != (TextLines(a) + TextLines(b))[n];
    }
  }

  /** A text decoded piece by piece gives what the whole text gives. */
  lemma TextPiecesInTurn(r: Randoms, s: State, parse: string -> Record, a: string, e: string, b: string)
    requires e == "\r\n" || (e == "\n" && (a == "" || a[|a| - 1] != '\r'))
    ensures var first := DecodeText(r, s, parse, a);
            var second := DecodeText(r, first.0, parse, b);
            DecodeText(r, s, parse, a + e + b) ==
            if first.1.Thrown? then first
            else (second.0, if second.1.Thrown? then Thrown else Returned(first.1.events + second.1.events))
  {
    LinesOfPieces(a, e, b);
    ParsedConcat(parse, TextLines(a), TextLines(b));
    PiecesInTurn(r, s, Parsed(parse, TextLines(a)), Parsed(parse, TextLines(b)));
  }

  lemma ParsedConcat(parse: string -> Record, a: seq<string>, b: seq<string>)
    ensures Parsed(parse, a + b) == Parsed(parse, a) + Parsed(parse, b)
  {
  }

  // --- going on after an exception ---

  /** Records fed one by one to a caller that swallows what is thrown. */
  function Feed(r: Randoms, s: State, records: seq<Record>): (State, seq<Event>) {
    if records == [] then (s, [])
    else
      var (t, events) := Feed(r, s, records[..|records| - 1]);
      var (u, outcome) := Decode(r, t, records[|records| - 1]);
      (u, if outcome.Thrown? then events else events + outcome.events)
  }

  /** A record that throws only after it took a header: its events are lost but their numbers are spent. */
  ghost predicate ThrowsLate(record: Record) {
    || ((record.UserMessage? || record.ReasoningRecord?) && record.content.Unreadable?)
    || (record.AssistantMessage? && record.content.Unreadable? && record.reasoning != "")
    || (record.AssistantMessage? && record.content.Text? && UnreadableEntry in EntriesOf(record)
        && (record.reasoning != "" || record.content.text != "" || EntriesOf(record)[0] != UnreadableEntry))
  }

  lemma {:induction false} CallsThrowIff(r: Randoms, s: State, calls: seq<ToolEntry>)
    ensures EmitCalls(r, s, calls).1.Thrown? <==> UnreadableEntry in calls
    ensures EmitCalls(r, s, calls).0.sequence >= s.sequence
    ensures calls != [] && calls[0] != UnreadableEntry ==> EmitCalls(r, s, calls).0.sequence > s.sequence
    ensures calls != [] && calls[0] == UnreadableEntry ==> EmitCalls(r, s, calls).0 == s
  {
    if calls != [] {
      var front := calls[..|calls| - 1];
      CallsThrowIff(r, s, front);
      assert calls == front + [calls[|calls| - 1]];
      if front != [] { assert front[0] == calls[0]; }
    }
  }

  /** A throwing record spends numbers exactly when it throws late. */
  lemma ThrowSpendsIff(r: Randoms, s: State, record: Record)
    requires Decode(r, s, record).1.Thrown?
    ensures var s' := Decode(r, s, record).0;
            if ThrowsLate(record) then s'.sequence > s.sequence
            else s'.sequence == s.sequence && s'.lastEventId == s.lastEventId
  {
    if record.AssistantMessage? && record.content.Text? {
      var t := InSession(s, record.session);
      var (s1, thoughts) := AttachedReasoning(r, t, record.reasoning);
      var (s2, message) := OwnMessage(r, s1, record);
      CallsThrowIff(r, s2, EntriesOf(record));
    }
  }

  lemma LateThrows(r: Randoms, s: State, record: Record)
    requires ThrowsLate(record)
    ensures Decode(r, s, record).1.Thrown?
  {
    if record.AssistantMessage? && record.content.Text? {
      var t := InSession(s, record.session);
      var (s1, thoughts) := AttachedReasoning(r, t, record.reasoning);
      var (s2, message) := OwnMessage(r, s1, record);
      CallsThrowIff(r, s2, EntriesOf(record));
    }
  }

  lemma {:induction false} FeedSpends(r: Randoms, s: State, records: seq<Record>)
    ensures var (t, events) := Feed(r, s, records);
            t.sequence >= s.sequence + |events|
            && ((exists i :: 0 <= i < |records| && ThrowsLate(records[i])) ==> t.sequence > s.sequence + |events|)
  {
    if records != [] {
      var n := |records| - 1;
      FeedSpends(r, s, records[..n]);
      var (t, events) := Feed(r, s, records[..n]);
      var last := records[n];
      if Decode(r, t, last).1.Thrown? {
        ThrowSpendsIff(r, t, last);
      } else {
        DecodeLinks(r, t, last);
        if ThrowsLate(last) { LateThrows(r, t, last); }
      }
      forall i | 0 <= i < |records| && ThrowsLate(records[i]) ensures i == n || ThrowsLate(records[..n][i]) {}
    }
  }

  /** The events that come out form one unbroken chain, with the next number right behind it, if and only if no record threw late. */
  lemma UnbrokenIff(r: Randoms, s: State, records: seq<Record>)
    ensures var (t, events) := Feed(r, s, records);
            Links(s, events, t) <==> forall i :: 0 <= i < |records| ==> !ThrowsLate(records[i])
  {
    var (t, events) := Feed(r, s, records);
    FeedSpends(r, s, records);
    if forall i :: 0 <= i < |records| ==> !ThrowsLate(records[i]) {
      FeedLinks(r, s, records);
    }
  }

  /** A message with an unreadable inline call, then another message: the first number is spent for nothing. */
  lemma BrokenChainExample(r: Randoms, s: State)
    ensures var lost := AssistantMessage(None, None, "", Text("hi"), Some([UnreadableEntry]));
            var (t, events) := Feed(r, s, [lost, UserMessage(None, None, Text("go"))]);
            && |events| == 1 && events[0].causalSequence == s.sequence + 1
            && t.sequence == s.sequence + 2 && !Links(s, events, t)
  {
    var lost, kept := AssistantMessage(None, None, "", Text("hi"), Some([UnreadableEntry])), UserMessage(None, None, Text("go"));
    assert [lost, kept][..1] == [lost] && [lost][..0] == [];
    UnbrokenIff(r, s, [lost, kept]);
    assert ThrowsLate([lost, kept][0]);
    assert Feed(r, s, []) == (s, []);
    var t := Emit(r, s, None, Assistant("hi")).0;
    assert EmitCalls(r, t, []) == (t, Returned([]));
    assert [UnreadableEntry][..0] == [];
    assert EmitCalls(r, t, [UnreadableEntry]) == (t, Thrown);
    assert OwnMessage(r, s, lost).0 == t;
    assert Decode(r, s, lost) == (t, Thrown);
    assert Feed(r, s, [lost]) == (t, []);
  }

  lemma {:induction false} FeedLinks(r: Randoms, s: State, records: seq<Record>)
    requires forall i :: 0 <= i < |records| ==> !ThrowsLate(records[i])
    ensures var (t, events) := Feed(r, s, records); Links(s, events, t)
  {
    if records != [] {
      var n := |records| - 1;
      FeedLinks(r, s, records[..n]);
      var (t, events) := Feed(r, s, records[..n]);
      var (u, outcome) := Decode(r, t, records[n]);
      if outcome.Thrown? {
        ThrowSpendsIff(r, t, records[n]);
      } else {
        DecodeLinks(r, t, records[n]);
        LinksConcat(s, events, t, outcome.events, u);
      }
    }
  }
}
