/** Exactly-once delivery when the file grows byte by byte, also across the middle of a character. */
module TailBytes {
  import opened Utf8
  import opened TranscriptLines
  import opened Tailers
  import opened TailRuns

  datatype ByteEvent = AppendBytes(chunk: seq<Byte>) | ReadFile(limit: int)

  datatype ByteWorld = ByteWorld(file: seq<Byte>, position: Cursor, delivered: seq<Record>)

  /** What a tailer measures and reads: the Claude Code bridge hands over text, which is encoded again. */
  function Seen(flavour: Flavour, file: seq<Byte>): seq<Byte> {
    if flavour == Claude then Encode(Decode(file)) else file
  }

  function NextBytes(flavour: Flavour, w: ByteWorld, event: ByteEvent): ByteWorld {
    match event
    case AppendBytes(chunk) => w.(file := w.file + chunk)
    case ReadFile(limit) =>
      var batch := Step(flavour, w.position, Seen(flavour, w.file), limit);
      w.(position := batch.0, delivered := w.delivered + batch.1)
  }

  function RunBytes(flavour: Flavour, w: ByteWorld, events: seq<ByteEvent>): ByteWorld
    decreases |events|
  {
    if events == [] then w else RunBytes(flavour, NextBytes(flavour, w, events[0]), events[1..])
  }

  /** The text-level world a byte-level world stands for, within a text that the file grows towards. */
  function AsText(full: string, w: ByteWorld): World {
    World(Whole(full, |w.file|), w.position, w.delivered)
  }

  // --- reading a file with a torn end ---

  lemma {:induction false} LooseEnd(text: string, end: string)
    requires NEWLINE !in end
    ensures CompleteLines(text + end) == CompleteLines(text)
  {
    LinesAndRest(text);
    SplitNewlineFree(text);
    var lines, last := CompleteLines(text), LastPart(text);
    assert text + end == Unlines(lines) + (last + end);
    CompleteConcat(lines, last + end);
    LastFree(text);
    NoLine(last + end);
    assert lines + [] == lines;
  }

  lemma LastFree(text: string)
    ensures NEWLINE !in LastPart(text)
  {
    SplitNewlineFree(text);
    assert NewlineFree(Split(text)[|Split(text)| - 1]);
  }

  lemma NoLine(text: string)
    requires NEWLINE !in text
    ensures CompleteLines(text) == []
  {
    assert NewlineIndex(text) == |text|;
  }

  /** Decoding whole characters and a torn one gives the same complete lines as the whole characters alone. */
  lemma TornLines(text: string, torn: seq<Byte>)
    requires Torn(torn)
    ensures Decode(Encode(text) + torn) == text + Decode(torn)
    ensures CompleteLines(Decode(Encode(text) + torn)) == CompleteLines(text)
  {
    DecodeEncoded(text, torn);
    TornDecodes(torn);
    LooseEnd(text, Decode(torn));
  }

  /** A read from behind some text takes the complete lines of the rest, whatever stands at the end of the file. */
  lemma StepAtTorn(flavour: Flavour, front: string, rest: string, end: seq<Byte>, c: Cursor, limit: int)
    requires c.offset == ByteLength(front) && CompleteLines(Decode(Encode(rest) + end)) == CompleteLines(rest)
    ensures Step(flavour, c, Encode(front + rest) + end, limit) == Consume(flavour, c, CompleteLines(rest), limit)
  {
    EncodeConcat(front, rest);
    BehindFront(Encode(front), Encode(rest), end);
    EncodeAtLeast(rest);
    if |Encode(rest) + end| == 0 {
      assert rest == "" && CompleteLines("") == [];
    }
  }

  lemma BehindFront(front: seq<Byte>, rest: seq<Byte>, end: seq<Byte>)
    ensures (front + rest + end)[|front|..] == rest + end && |front + rest + end| == |front| + |rest + end|
  {
  }

  /** What a tailer reads from a torn file, as from the whole characters. */
  lemma StepSame(flavour: Flavour, full: string, file: seq<Byte>, c: Cursor, n: nat, limit: int)
    requires file <= Encode(full) && n <= |CompleteLines(Whole(full, |file|))|
    requires c.offset == ByteLength(Unlines(CompleteLines(Whole(full, |file|))[..n]))
    ensures Step(flavour, c, Seen(flavour, file), limit) == Step(flavour, c, Encode(Whole(full, |file|)), limit)
  {
    var text := Whole(full, |file|);
    var torn := WholeAndTorn(full, file);
    var end := if flavour == Claude then Encode(Decode(torn)) else torn;
    SeenIs(flavour, text, torn);
    var rest := AfterLines(text, n);
    EndIsLoose(flavour, rest, torn);
    StepAtTorn(flavour, Unlines(CompleteLines(text)[..n]), rest, end, c, limit);
    StepAt(flavour, text, c, n, limit);
  }

  lemma SeenIs(flavour: Flavour, text: string, torn: seq<Byte>)
    requires Torn(torn)
    ensures Seen(flavour, Encode(text) + torn) == Encode(text) + if flavour == Claude then Encode(Decode(torn)) else torn
  {
    TornLines(text, torn);
    EncodeConcat(text, Decode(torn));
  }

  lemma EndIsLoose(flavour: Flavour, rest: string, torn: seq<Byte>)
    requires Torn(torn)
    ensures var end := if flavour == Claude then Encode(Decode(torn)) else torn;
            CompleteLines(Decode(Encode(rest) + end)) == CompleteLines(rest)
  {
    TornLines(rest, torn);
    TornDecodes(torn);
    if flavour == Claude {
      EncodeConcat(rest, Decode(torn));
      DecodeEncode(rest + Decode(torn));
      LooseEnd(rest, Decode(torn));
    }
  }

  // --- every byte run is a text run ---

  /** The bytes that arrive over a run. */
  function Arriving(events: seq<ByteEvent>): seq<Byte> {
    if events == [] then []
    else (if events[0].AppendBytes? then events[0].chunk else []) + Arriving(events[1..])
  }

  /** The characters that a chunk completes, as an append of text. */
  function TextEvent(full: string, size: nat, event: ByteEvent): Event {
    match event
    case AppendBytes(chunk) =>
      WholeGrows(full, size, size + |chunk|);
      Append(Whole(full, size + |chunk|)[|Whole(full, size)|..])
    case ReadFile(limit) => Read(limit)
  }

  function TextEvents(full: string, size: nat, events: seq<ByteEvent>): seq<Event>
    decreases |events|
  {
    if events == [] then []
    else
      var size' := size + if events[0].AppendBytes? then |events[0].chunk| else 0;
      [TextEvent(full, size, events[0])] + TextEvents(full, size', events[1..])
  }

  lemma StepAsText(flavour: Flavour, full: string, w: ByteWorld, event: ByteEvent, n: nat)
    requires NextBytes(flavour, w, event).file <= Encode(full) && w.file <= Encode(full)
    requires Placed(flavour, AsText(full, w), n)
    ensures AsText(full, NextBytes(flavour, w, event)) == Next(flavour, AsText(full, w), TextEvent(full, |w.file|, event))
  {
    match event
    case AppendBytes(chunk) => WholeGrows(full, |w.file|, |w.file| + |chunk|);
    case ReadFile(limit) =>
      StartOffset(flavour, CompleteLines(Whole(full, |w.file|))[..n]);
      StepSame(flavour, full, w.file, w.position, n, limit);
  }

  lemma OneStep(flavour: Flavour, full: string, w: ByteWorld, event: ByteEvent, n: nat) returns (m: nat)
    requires NextBytes(flavour, w, event).file <= Encode(full) && w.file <= Encode(full)
    requires Placed(flavour, AsText(full, w), n)
    ensures AsText(full, NextBytes(flavour, w, event)) == Next(flavour, AsText(full, w), TextEvent(full, |w.file|, event))
    ensures Placed(flavour, AsText(full, NextBytes(flavour, w, event)), m)
  {
    StepAsText(flavour, full, w, event, n);
    m := StaysPlaced(flavour, AsText(full, w), n, TextEvent(full, |w.file|, event));
  }

  /**
   * Every run in which the file grows byte by byte towards the encoding of some text does to
   * the reader what a run over whole characters does.
   */
  lemma {:induction false} BytesAsText(flavour: Flavour, full: string, w: ByteWorld, events: seq<ByteEvent>, n: nat)
    requires w.file + Arriving(events) <= Encode(full) && Placed(flavour, AsText(full, w), n)
    ensures RunBytes(flavour, w, events).file == w.file + Arriving(events)
    ensures AsText(full, RunBytes(flavour, w, events)) ==
            RunFrom(flavour, AsText(full, w), TextEvents(full, |w.file|, events))
    decreases |events|
  {
    if events == [] {
      assert w.file + [] == w.file;
    } else {
      var w', rest := NextBytes(flavour, w, events[0]), events[1..];
      OneArrives(flavour, w, events);
      var m := OneStep(flavour, full, w, events[0], n);
      BytesAsText(flavour, full, w', rest, m);
      assert RunBytes(flavour, w, events) == RunBytes(flavour, w', rest);
      assert RunFrom(flavour, AsText(full, w), TextEvents(full, |w.file|, events)) ==
             RunFrom(flavour, AsText(full, w'), TextEvents(full, |w'.file|, rest)) by {
        RunsOn(flavour, AsText(full, w), TextEvent(full, |w.file|, events[0]), TextEvents(full, |w'.file|, rest));
        TextEventsFirst(full, w.file, events);
      }
    }
  }

  lemma TextEventsFirst(full: string, file: seq<Byte>, events: seq<ByteEvent>)
    requires events != []
    ensures var size' := |file + if events[0].AppendBytes? then events[0].chunk else []|;
            TextEvents(full, |file|, events) == [TextEvent(full, |file|, events[0])] + TextEvents(full, size', events[1..])
  {
  }

  lemma OneArrives(flavour: Flavour, w: ByteWorld, events: seq<ByteEvent>)
    requires events != []
    ensures var file := NextBytes(flavour, w, events[0]).file;
            && file + Arriving(events[1..]) == w.file + Arriving(events)
            && w.file <= w.file + Arriving(events) && file <= w.file + Arriving(events)
  {
    var chunk := if events[0].AppendBytes? then events[0].chunk else [];
    ArrivesFirst(w.file, chunk, Arriving(events[1..]));
  }

  lemma ArrivesFirst(file: seq<Byte>, chunk: seq<Byte>, rest: seq<Byte>)
    ensures file + (chunk + rest) == (file + chunk) + rest
    ensures file <= file + (chunk + rest) && file + chunk <= file + (chunk + rest)
    ensures file + [] == file
  {
  }

  lemma RunsOn(flavour: Flavour, w: World, event: Event, rest: seq<Event>)
    ensures RunFrom(flavour, w, [event] + rest) == RunFrom(flavour, Next(flavour, w, event), rest)
  {
    assert ([event] + rest)[1..] == rest;
  }

  const EMPTY_FILE := ByteWorld([], Cursor(0, 0, 0), [])

  function FromStart(flavour: Flavour, events: seq<ByteEvent>): ByteWorld {
    RunBytes(flavour, EMPTY_FILE.(position := Start(flavour)), events)
  }

  /** Every line of the file that is complete so far, of a file that may end inside a character. */
  function FileLines(file: seq<Byte>): seq<string> {
    CompleteLines(Decode(file))
  }

  /** The file as it decodes, torn end included. */
  function Decoded(w: ByteWorld): World {
    World(Decode(w.file), w.position, w.delivered)
  }

  /**
   * Exactly once, for every way the bytes of a text may arrive: the offset is the size of the
   * first n complete lines of the file, and what was delivered is their non-blank lines, in order.
   */
  lemma ExactlyOnceBytes(flavour: Flavour, events: seq<ByteEvent>, full: string) returns (n: nat)
    requires Arriving(events) <= Encode(full)
    ensures var w := FromStart(flavour, events);
            && w.file == Arriving(events)
            && n <= |FileLines(w.file)|
            && var behind := FileLines(w.file)[..n];
               && w.position.offset == ByteLength(Unlines(behind))
               && |w.delivered| == |Kept(behind)|
               && forall k :: 0 <= k < |w.delivered| ==>
                    && w.delivered[k].payload == PayloadOf(flavour, Kept(behind)[k])
                    && (flavour != Omp ==> w.delivered[k].sequence == k + 1)
    ensures flavour == Omp ==>
              var w := Decoded(FromStart(Omp, events));
              forall i :: 0 <= i < n && !Blank(CompleteLines(w.text)[i]) ==> NumberedByLine(w, i)
  {
    StartAsText(flavour, events, full);
    n := ExactlyOnce(flavour, TextEvents(full, 0, events));
    var w := FromStart(flavour, events);
    var torn := WholeAndTorn(full, w.file);
    TornLines(Whole(full, |w.file|), torn);
    if flavour == Omp {
      var text := AsText(full, w);
      forall i | 0 <= i < n && !Blank(FileLines(w.file)[i]) ensures NumberedByLine(Decoded(w), i) {
        assert NumberedByLine(text, i);
      }
    }
  }

  /** A run from the empty file, as a run over text. */
  lemma StartAsText(flavour: Flavour, events: seq<ByteEvent>, full: string)
    requires Arriving(events) <= Encode(full)
    ensures FromStart(flavour, events).file == Arriving(events)
    ensures AsText(full, FromStart(flavour, events)) == Run(flavour, TextEvents(full, 0, events))
  {
    var start := EMPTY_FILE.(position := Start(flavour));
    WholeNothing(full);
    assert AsText(full, start) == World("", Start(flavour), []);
    assert CompleteLines("") == [];
    assert [] + Arriving(events) == Arriving(events);
    BytesAsText(flavour, full, start, events, 0);
  }

  lemma WholeNothing(full: string)
    ensures Whole(full, 0) == ""
  {
  }

  // --- a new reader, made while the file may end inside a character ---

  /** The cursor a tailer hands out, and a new reader of the same file that starts from it. */
  function Resumed(flavour: Flavour, w: ByteWorld): ByteWorld {
    ByteWorld(w.file, HandedOut(flavour, Decoded(w)), [])
  }

  /** Reads keep their batch sizes. */
  lemma {:induction false} SameLimits(full: string, size: nat, events: seq<ByteEvent>, i: nat)
    requires i < |TextEvents(full, size, events)| && TextEvents(full, size, events)[i].Read?
    ensures i < |events| && events[i] == ReadFile(TextEvents(full, size, events)[i].limit)
    decreases |events|
  {
    var size' := size + if events[0].AppendBytes? then |events[0].chunk| else 0;
    if i > 0 {
      assert TextEvents(full, size, events)[i] == TextEvents(full, size', events[1..])[i - 1];
      SameLimits(full, size', events[1..], i - 1);
    }
  }

  /** A reader built from the cursor continues the same records and numbers, wherever in the bytes the file stopped. */
  lemma ResumeBytes(flavour: Flavour, events: seq<ByteEvent>, later: seq<ByteEvent>, full: string) returns (more: seq<Record>)
    requires Arriving(events) + Arriving(later) <= Encode(full)
    requires forall i :: 0 <= i < |later| && later[i].ReadFile? ==> later[i].limit >= 1
    ensures var w := FromStart(flavour, events);
            && RunBytes(flavour, w, later).delivered == w.delivered + more
            && RunBytes(flavour, Resumed(flavour, w), later).delivered == more
  {
    var w := FromStart(flavour, events);
    var early, late := TextEvents(full, 0, events), TextEvents(full, |w.file|, later);
    PrefixOfWhole(Arriving(events), Arriving(later), Encode(full));
    StartAsText(flavour, events, full);
    forall i | 0 <= i < |late| && late[i].Read? ensures late[i].limit >= 1 {
      SameLimits(full, |w.file|, later, i);
    }
    more := ResumeContinues(flavour, early, late);
    var m, n := ResumesNear(flavour, early);
    BytesAsText(flavour, full, w, later, n);
    assert AsText(full, Resumed(flavour, w)) == World(AsText(full, w).text, HandedOut(flavour, AsText(full, w)), []);
    BytesAsText(flavour, full, Resumed(flavour, w), later, m);
  }

  lemma PrefixOfWhole(a: seq<Byte>, b: seq<Byte>, whole: seq<Byte>)
    requires a + b <= whole
    ensures a <= whole
  {
    assert a == (a + b)[..|a|] == whole[..|a + b|][..|a|];
  }
}
